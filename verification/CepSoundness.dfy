/** What an emitted match of the complex-event engine is guaranteed to be, in every run (pkg/cep/engine.go). */
module CepSoundness {
  import opened Seqs
  import opened CepPatterns

  // ------------------------------------------------------------------
  // Blocks: the matched events, labelled with the step each one was consumed at
  // ------------------------------------------------------------------

  function Rep(s: nat, c: nat): (r: seq<nat>)
    ensures |r| == c && forall j :: 0 <= j < c ==> r[j] == s
  {
    seq(c, _ => s)
  }

  /** The steps of the matched events, in order: counts[0] zeros, then counts[1] ones, and so on. */
  function Labels(counts: map<nat, nat>, n: nat): seq<nat> {
    if n == 0 then [] else Labels(counts, n - 1) + Rep(n - 1, Count(counts, n - 1))
  }

  ghost predicate NonDecreasing(labels: seq<nat>, below: nat) {
    && (forall j :: 0 <= j < |labels| ==> labels[j] < below)
    && (forall i, j :: 0 <= i < j < |labels| ==> labels[i] <= labels[j])
  }

  lemma {:induction false} LabelsAreBlocks(counts: map<nat, nat>, n: nat)
    ensures NonDecreasing(Labels(counts, n), n)
  {
    if n > 0 {
      LabelsAreBlocks(counts, n - 1);
    }
  }

  lemma {:induction false} LabelsUnchanged(counts: map<nat, nat>, s: nat, c: nat, n: nat)
    requires n <= s
    ensures Labels(counts[s := c], n) == Labels(counts, n)
  {
    if n > 0 {
      LabelsUnchanged(counts, s, c, n - 1);
    }
  }

  /** Consuming one more event at the furthest step appends one label. */
  lemma {:induction false} LabelsBump(counts: map<nat, nat>, s: nat, n: nat)
    requires s < n
    requires forall k: nat :: s < k < n ==> Count(counts, k) == 0
    ensures Labels(counts[s := Count(counts, s) + 1], n) == Labels(counts, n) + [s]
  {
    var counts' := counts[s := Count(counts, s) + 1];
    if n == s + 1 {
      LabelsUnchanged(counts, s, Count(counts, s) + 1, s);
      assert Rep(s, Count(counts, s) + 1) == Rep(s, Count(counts, s)) + [s];
    } else {
      LabelsBump(counts, s, n - 1);
      assert Count(counts, n - 1) == 0 == Count(counts', n - 1);
    }
  }

  // ------------------------------------------------------------------
  // What a partial match always satisfies
  // ------------------------------------------------------------------

  /** No count up to and including `c` ends the step. */
  ghost predicate NoneAccepted(ep: EventPattern, c: int) {
    forall d :: 1 <= d <= c ==> !Satisfied(ep, d)
  }

  /** The least positive count that the step's quantifier accepts. */
  ghost predicate LeastAccepted(ep: EventPattern, c: nat) {
    c >= 1 && Satisfied(ep, c) && NoneAccepted(ep, c - 1)
  }

  /** The number of events a step that was passed may have consumed. */
  ghost predicate Settled(ep: EventPattern, c: nat) {
    if ep.negated then c == 0
    else if ep.optional then LeastAccepted(ep, c) || NoneAccepted(ep, c)
    else LeastAccepted(ep, c)
  }

  ghost predicate CountFits(ep: EventPattern, c: nat, s: nat, step: nat) {
    if s < step then Settled(ep, c)
    else if s == step then NoneAccepted(ep, c) && (ep.negated ==> c == 0)
    else c == 0
  }

  ghost predicate CountsFit(p: Pattern, counts: map<nat, nat>, step: nat) {
    forall s: nat :: s < |p.events| ==> CountFits(p.events[s], Count(counts, s), s, step)
  }

  /** The j-th matched event belongs to its step: it satisfies the step's pattern and came in time. */
  ghost predicate EventFits(p: Pattern, matched: seq<Event>, s: nat, j: nat)
    requires j < |matched|
  {
    && s < |p.events|
    && !p.events[s].negated
    && EngineMatches(matched[j], p.events[s])
    && (p.timeWindow > 0 ==> matched[j].time - matched[0].time <= p.timeWindow)
    && (j > 0 ==> var gap := matched[j].time - matched[j - 1].time;
                  !TooLate(p.events[s], gap) && !TooEarly(p.events[s], gap))
  }

  ghost predicate EventsFit(p: Pattern, matched: seq<Event>, labels: seq<nat>) {
    && |labels| == |matched|
    && forall j: nat :: j < |matched| ==> EventFits(p, matched, labels[j], j)
  }

  ghost predicate Fits(p: Pattern, pm: Partial) {
    && |p.events| > 0 && pm.step <= |p.events|
    && pm.matched != []
    && pm.startTime == pm.matched[0].time && pm.lastTime == pm.matched[|pm.matched| - 1].time
    && CountsFit(p, pm.counts, pm.step)
    && EventsFit(p, pm.matched, Labels(pm.counts, |p.events|))
    && (pm.step < |p.events| && p.events[pm.step].negated ==> !SomeMatch(pm.buffer, p.events[pm.step]))
    && (pm.step < |p.events| && !p.events[pm.step].negated ==> pm.buffer == [])
  }

  /** An active match has a step to go, except that a one-step pattern completes one event late. */
  ghost predicate Live(p: Pattern, pm: Partial) {
    Fits(p, pm) && (pm.step < |p.events| || |p.events| == 1)
  }

  /** What every emitted match satisfies. */
  ghost predicate SoundMatch(p: Pattern, pm: Partial) {
    && Fits(p, pm)
    && pm.step == |p.events|
    && NonDecreasing(Labels(pm.counts, |p.events|), |p.events|)
    && (|p.events| >= 2 && !p.events[|p.events| - 1].optional ==> p.conditions(pm.matched))
  }

  ghost predicate GoodLife(p: Pattern, l: Life) {
    match l
    case Active(pm) => Live(p, pm)
    case Emitted(pm) => SoundMatch(p, pm)
    case Gone => true
  }

  lemma {:induction false} EmptyLabels(counts: map<nat, nat>, n: nat)
    requires n >= 1 && Count(counts, 0) == 1 && forall s: nat :: 0 < s < n ==> Count(counts, s) == 0
    ensures Labels(counts, n) == [0]
  {
    if n == 1 {
      assert Labels(counts, 0) == [];
      assert Rep(0, 1) == [0];
    } else {
      EmptyLabels(counts, n - 1);
    }
  }

  lemma {:induction false} CreatedFits(p: Pattern, e: Event)
    requires CanStart(p, e)
    ensures Live(p, Create(p, e))
  {
    var pm := Create(p, e);
    forall s: nat | s < |p.events| ensures CountFits(p.events[s], Count(pm.counts, s), s, pm.step) {
      if s == 0 {
        assert NoneAccepted(p.events[0], 0);
      } else {
        assert NoneAccepted(p.events[s], 0);
      }
    }
    EmptyLabels(pm.counts, |p.events|);
    assert EventFits(p, pm.matched, 0, 0);
  }

  // ------------------------------------------------------------------
  // One event keeps it
  // ------------------------------------------------------------------

  /** Leaving a step whose count is settled, without consuming anything. */
  lemma {:induction false} CountsAdvance(p: Pattern, counts: map<nat, nat>, step: nat)
    requires CountsFit(p, counts, step) && step < |p.events| && Settled(p.events[step], Count(counts, step))
    ensures CountsFit(p, counts, step + 1)
  {
    forall s: nat | s < |p.events| ensures CountFits(p.events[s], Count(counts, s), s, step + 1) {
      assert CountFits(p.events[s], Count(counts, s), s, step);
      if s == step + 1 {
        assert NoneAccepted(p.events[s], 0);
      }
    }
  }

  lemma {:induction false} CountsConsume(p: Pattern, counts: map<nat, nat>, step: nat)
    requires CountsFit(p, counts, step) && step < |p.events| && !p.events[step].negated
    ensures var c := Count(counts, step) + 1;
            var counts' := counts[step := c];
            && Labels(counts', |p.events|) == Labels(counts, |p.events|) + [step]
            && CountsFit(p, counts', if Satisfied(p.events[step], c) then step + 1 else step)
  {
    var ep, c := p.events[step], Count(counts, step) + 1;
    var counts' := counts[step := c];
    var step' := if Satisfied(ep, c) then step + 1 else step;
    assert CountFits(ep, c - 1, step, step);
    forall s: nat | step < s < |p.events| ensures Count(counts, s) == 0 {
      assert CountFits(p.events[s], Count(counts, s), s, step);
    }
    LabelsBump(counts, step, |p.events|);
    forall s: nat | s < |p.events| ensures CountFits(p.events[s], Count(counts', s), s, step') {
      assert CountFits(p.events[s], Count(counts, s), s, step);
      if s == step + 1 {
        assert NoneAccepted(p.events[s], 0);
      }
    }
  }

  lemma {:induction false} EventsConsume(p: Pattern, matched: seq<Event>, labels: seq<nat>, e: Event, s: nat)
    requires matched != [] && EventsFit(p, matched, labels)
    requires EventFits(p, matched + [e], s, |matched|)
    ensures EventsFit(p, matched + [e], labels + [s])
  {
    forall j: nat | j < |matched| + 1 ensures EventFits(p, matched + [e], (labels + [s])[j], j) {
      if j < |matched| {
        assert EventFits(p, matched, labels[j], j);
      }
    }
  }

  lemma {:induction false} ConsumeFits(p: Pattern, pm: Partial, e: Event)
    requires Fits(p, pm) && pm.step < |p.events| && !p.events[pm.step].negated && EngineMatches(e, p.events[pm.step])
    requires !OutsideWindow(p, pm, e)
    requires !TooLate(p.events[pm.step], e.time - pm.lastTime) && !TooEarly(p.events[pm.step], e.time - pm.lastTime)
    ensures var next := Consumed(pm, e);
            Fits(p, if Satisfied(p.events[pm.step], next.counts[pm.step]) then next.(step := pm.step + 1) else next)
  {
    CountsConsume(p, pm.counts, pm.step);
    EventsConsume(p, pm.matched, Labels(pm.counts, |p.events|), e, pm.step);
  }

  lemma {:induction false} ConsumeKeeps(p: Pattern, pm: Partial, e: Event)
    requires Fits(p, pm) && pm.step < |p.events| && !p.events[pm.step].negated && EngineMatches(e, p.events[pm.step])
    requires !OutsideWindow(p, pm, e)
    requires !TooLate(p.events[pm.step], e.time - pm.lastTime) && !TooEarly(p.events[pm.step], e.time - pm.lastTime)
    ensures GoodLife(p, TryAdvance(p, pm, e))
  {
    ConsumeFits(p, pm, e);
    LabelsAreBlocks(Consumed(pm, e).counts, |p.events|);
  }

  lemma {:induction false} TryAdvanceKeeps(p: Pattern, pm: Partial, e: Event)
    requires Fits(p, pm) && !OutsideWindow(p, pm, e)
    requires Live(p, pm) || p.events[|p.events| - 1].optional
    ensures GoodLife(p, TryAdvance(p, pm, e))
    decreases |p.events| - pm.step
  {
    LabelsAreBlocks(pm.counts, |p.events|);
    if pm.step < |p.events| {
      var ep := p.events[pm.step];
      assert CountFits(ep, Count(pm.counts, pm.step), pm.step, pm.step);
      if ep.negated {
        CountsAdvance(p, pm.counts, pm.step);
      } else if !EngineMatches(e, ep) {
        if ep.optional {
          CountsAdvance(p, pm.counts, pm.step);
          TryAdvanceKeeps(p, pm.(step := pm.step + 1), e);
        }
      } else if !TooLate(ep, e.time - pm.lastTime) && !TooEarly(ep, e.time - pm.lastTime) {
        ConsumeKeeps(p, pm, e);
      }
    }
  }

  // ------------------------------------------------------------------
  // Whole runs
  // ------------------------------------------------------------------

  /** Matched events are taken, in order, from the events that arrived since the match began. */
  ghost predicate DrawnFrom(l: Life, arrived: seq<Event>) {
    !l.Gone? ==> l.pm.matched != [] && Subsequence(l.pm.matched, arrived)
  }

  lemma {:induction false} TryAdvanceDraws(p: Pattern, pm: Partial, e: Event, arrived: seq<Event>)
    requires DrawnFrom(Active(pm), arrived)
    ensures DrawnFrom(TryAdvance(p, pm, e), arrived + [e])
    decreases |p.events| - pm.step
  {
    SubsequenceSnoc(pm.matched, arrived, e);
    if pm.step < |p.events| && !p.events[pm.step].negated && !EngineMatches(e, p.events[pm.step])
       && p.events[pm.step].optional {
      TryAdvanceDraws(p, pm.(step := pm.step + 1), e, arrived);
    }
  }

  /** The events that arrived from step `i` on. */
  function ArrivedSince(run: seq<Step>, i: nat): seq<Event> {
    if i >= |run| then [] else
      ArrivedSince(run[..|run| - 1], i) + if run[|run| - 1].Arrive? then [run[|run| - 1].event] else []
  }

  lemma {:induction false} NextLifeKeeps(p: Pattern, timeout: int, l: Life, step: Step)
    requires GoodLife(p, l)
    ensures GoodLife(p, NextLife(p, timeout, l, step))
  {
    if l.Active? && step.Arrive? && !OutsideWindow(p, l.pm, step.event) {
      TryAdvanceKeeps(p, l.pm, step.event);
    }
  }

  lemma {:induction false} NextLifeDraws(p: Pattern, timeout: int, l: Life, step: Step, arrived: seq<Event>)
    requires DrawnFrom(l, arrived)
    ensures DrawnFrom(NextLife(p, timeout, l, step), arrived + if step.Arrive? then [step.event] else [])
  {
    if l.Active? && step.Arrive? {
      TryAdvanceDraws(p, l.pm, step.event, arrived);
    } else {
      assert arrived + [] == arrived;
    }
  }

  lemma {:induction false} TrackIsGood(p: Pattern, timeout: int, run: seq<Step>, i: nat)
    requires i < |run|
    ensures GoodLife(p, Track(p, timeout, run, i))
    decreases |run|
  {
    var before, last := run[..|run| - 1], run[|run| - 1];
    var l := Track(p, timeout, run, i);
    if i < |run| - 1 {
      TrackIsGood(p, timeout, before, i);
      NextLifeKeeps(p, timeout, Track(p, timeout, before, i), last);
      assert l == NextLife(p, timeout, Track(p, timeout, before, i), last);
    } else if Begun(p, last).Active? {
      CreatedFits(p, last.event);
    }
  }

  lemma {:induction false} TrackIsDrawn(p: Pattern, timeout: int, run: seq<Step>, i: nat)
    requires i < |run|
    ensures DrawnFrom(Track(p, timeout, run, i), ArrivedSince(run, i))
    decreases |run|
  {
    var before, last := run[..|run| - 1], run[|run| - 1];
    if i < |run| - 1 {
      TrackIsDrawn(p, timeout, before, i);
      NextLifeDraws(p, timeout, Track(p, timeout, before, i), last, ArrivedSince(before, i));
    } else if Begun(p, last).Active? {
      SubsequenceRefl([last.event]);
    }
  }

  // ------------------------------------------------------------------
  // Negated steps are watched
  // ------------------------------------------------------------------

  /** One event, the negated step `s`, and the match before and after: an event that finds the match at the step, or
      brings it there or past it, does not match the step; passing it takes an event after its deadline. */
  ghost predicate Screened(p: Pattern, pm: Partial, e: Event, next: Partial, s: nat)
    requires s < |p.events|
  {
    && (pm.step == s || pm.step < s < next.step || (pm.step < s == next.step && next.buffer != []) ==>
          !EngineMatches(e, p.events[s]))
    && (pm.step <= s < next.step ==>
          p.events[s].temporal.Some? && e.time - pm.lastTime > p.events[s].temporal.value.duration)
  }

  lemma {:induction false} TryAdvanceScreens(p: Pattern, pm: Partial, e: Event, s: nat)
    requires s < |p.events| && p.events[s].negated
    requires pm.step < |p.events| && !p.events[pm.step].negated ==> pm.buffer == []
    ensures var l := TryAdvance(p, pm, e); !l.Gone? ==> Screened(p, pm, e, l.pm, s)
    decreases |p.events| - pm.step
  {
    if pm.step < |p.events| {
      var ep := p.events[pm.step];
      if ep.negated {
        var buffer := pm.buffer + [e];
        assert buffer[|pm.buffer|] == e;
      } else if !EngineMatches(e, ep) && ep.optional {
        TryAdvanceScreens(p, pm.(step := pm.step + 1), e, s);
      }
    }
  }

  /** The match that step `i` started is screened against negated step `s` by the event that arrives at step `n`. */
  ghost predicate ScreenedAt(p: Pattern, timeout: int, run: seq<Step>, i: nat, s: nat, n: nat)
    requires i < n < |run| && s < |p.events|
  {
    var l, l' := Track(p, timeout, run[..n], i), Track(p, timeout, run[..n + 1], i);
    l.Active? && !l'.Gone? && (run[n].Arrive? ==> Screened(p, l.pm, run[n].event, l'.pm, s))
  }

  ghost predicate Watched(p: Pattern, timeout: int, run: seq<Step>, i: nat) {
    forall s: nat, n: nat :: s < |p.events| && p.events[s].negated && i < n < |run| ==>
      ScreenedAt(p, timeout, run, i, s, n)
  }

  /** The event at step `n` took the match that step `i` started past step `s`. */
  ghost predicate PassedAt(p: Pattern, timeout: int, run: seq<Step>, i: nat, s: nat, n: nat)
    requires i < n < |run|
  {
    var l, l' := Track(p, timeout, run[..n], i), Track(p, timeout, run[..n + 1], i);
    run[n].Arrive? && l.Active? && !l'.Gone? && l.pm.step <= s < l'.pm.step
  }

  ghost predicate Passed(p: Pattern, timeout: int, run: seq<Step>, i: nat, s: nat) {
    exists n: nat :: i < n < |run| && PassedAt(p, timeout, run, i, s, n)
  }

  lemma {:induction false} TrackSnoc(p: Pattern, timeout: int, run: seq<Step>, i: nat, n: nat)
    requires i < n < |run|
    ensures Track(p, timeout, run[..n + 1], i) == NextLife(p, timeout, Track(p, timeout, run[..n], i), run[n])
  {
    assert run[..n + 1][..n] == run[..n];
  }

  lemma {:induction false} NeverGone(p: Pattern, timeout: int, run: seq<Step>, i: nat, n: nat)
    requires i < n < |run| && !Track(p, timeout, run, i).Gone?
    ensures Track(p, timeout, run[..n], i).Active? && !Track(p, timeout, run[..n + 1], i).Gone?
    decreases |run|
  {
    var before := run[..|run| - 1];
    if n == |run| - 1 {
      assert run[..n + 1] == run;
    } else {
      NeverGone(p, timeout, before, i, n);
      assert before[..n] == run[..n] && before[..n + 1] == run[..n + 1];
    }
  }

  /** In every run, no event that arrived while a match that came to something was waiting on a negated step, or that
      brought it there or past it, matched that step, and the step was passed only after its deadline. */
  lemma {:induction false} NegationWasWatched(p: Pattern, timeout: int, run: seq<Step>, i: nat)
    requires i < |run| && !Track(p, timeout, run, i).Gone?
    ensures Watched(p, timeout, run, i)
  {
    forall s: nat, n: nat | s < |p.events| && p.events[s].negated && i < n < |run|
      ensures ScreenedAt(p, timeout, run, i, s, n)
    {
      NeverGone(p, timeout, run, i, n);
      TrackSnoc(p, timeout, run, i, n);
      TrackIsGood(p, timeout, run[..n], i);
      if run[n].Arrive? {
        TryAdvanceScreens(p, Track(p, timeout, run[..n], i).pm, run[n].event, s);
      }
    }
  }

  /** A negated step is never where a match starts, so a match that is beyond it was taken past it by some event. */
  lemma {:induction false} NegationWasPassed(p: Pattern, timeout: int, run: seq<Step>, i: nat, s: nat)
    returns (n: nat)
    requires i < |run| && s < |p.events| && p.events[s].negated
    requires var l := Track(p, timeout, run, i); !l.Gone? && l.pm.step > s
    ensures i < n < |run| && PassedAt(p, timeout, run, i, s, n)
    decreases |run|
  {
    n := |run| - 1;
    if i < n {
      var before := run[..n];
      assert run[..n + 1] == run;
      if Track(p, timeout, before, i).pm.step > s {
        n := NegationWasPassed(p, timeout, before, i, s);
        assert before[..n] == run[..n] && before[..n + 1] == run[..n + 1];
      }
    }
  }

  // ------------------------------------------------------------------
  // Emitted matches
  // ------------------------------------------------------------------

  /** The last step of the run emitted `m`, from the start at step `i`, and `m` is sound. */
  ghost predicate SoundEmission(p: Pattern, timeout: int, run: seq<Step>, i: nat, m: Match) {
    && i < |run|
    && Track(p, timeout, run, i).Emitted?
    && Watched(p, timeout, run, i)
    && (forall s: nat :: s < |p.events| && p.events[s].negated ==> Passed(p, timeout, run, i, s))
    && var pm := Track(p, timeout, run, i).pm;
      && SoundMatch(p, pm)
      && m == Match(pm.matched, pm.matched[0].time, pm.matched[|pm.matched| - 1].time)
      && Subsequence(m.events, ArrivedSince(run, i))
  }

  ghost predicate EmittedSoundly(p: Pattern, timeout: int, run: seq<Step>, m: Match) {
    exists prefix: seq<Step>, i: nat :: prefix <= run && SoundEmission(p, timeout, prefix, i, m)
  }

  lemma {:induction false} LastEmissionIsSound(p: Pattern, timeout: int, run: seq<Step>, k: nat, m: Match)
    returns (i: nat)
    requires k <= |run| && m in EmittingTracks(p, timeout, run, k)
    ensures SoundEmission(p, timeout, run, i, m)
  {
    i := EmissionHasTrack(p, timeout, run, k, m);
    TrackIsGood(p, timeout, run, i);
    TrackIsDrawn(p, timeout, run, i);
    NegationWasWatched(p, timeout, run, i);
    forall s: nat | s < |p.events| && p.events[s].negated ensures Passed(p, timeout, run, i, s) {
      var n := NegationWasPassed(p, timeout, run, i, s);
    }
  }

  lemma {:induction false} EmittedSplits(p: Pattern, timeout: int, run: seq<Step>, m: Match)
    requires m in EmittedBy(p, timeout, run)
    ensures run != []
    ensures m in EmittedBy(p, timeout, run[..|run| - 1]) || m in EmittedLast(p, timeout, run)
  {
  }

  /** The part of the run up to the step at which a match was emitted. */
  lemma {:induction false} RunUpToEmission(p: Pattern, timeout: int, run: seq<Step>, m: Match)
    returns (prefix: seq<Step>)
    requires m in EmittedBy(p, timeout, run)
    ensures prefix <= run && m in EmittedLast(p, timeout, prefix)
    decreases |run|
  {
    EmittedSplits(p, timeout, run, m);
    if m in EmittedLast(p, timeout, run) {
      prefix := run;
    } else {
      prefix := RunUpToEmission(p, timeout, run[..|run| - 1], m);
    }
  }

  lemma {:induction false} EmissionIsSound(p: Pattern, timeout: int, run: seq<Step>, m: Match)
    requires m in EmittedBy(p, timeout, run)
    ensures EmittedSoundly(p, timeout, run, m)
  {
    var prefix := RunUpToEmission(p, timeout, run, m);
    StateIsTracks(p, timeout, prefix);
    var i := LastEmissionIsSound(p, timeout, prefix, |prefix|, m);
  }

  /** Every match ever emitted is sound: it came from one start, its events arrived in that order from that start on,
      they fall into blocks of the step each satisfies, every required step has exactly the least count its quantifier
      accepts, and the window, the gaps and (for a pattern that does not end in an optional step) the conditions
      hold; every negated step was passed, after its deadline, and no event seen while it was waited on matched it. */
  lemma {:induction false} EmittedMatchesAreSound(p: Pattern, timeout: int, run: seq<Step>)
    ensures forall m :: m in EmittedBy(p, timeout, run) ==> EmittedSoundly(p, timeout, run, m)
  {
    forall m | m in EmittedBy(p, timeout, run) ensures EmittedSoundly(p, timeout, run, m) {
      EmissionIsSound(p, timeout, run, m);
    }
  }

  predicate NumberAbove(v: Value, bound: real) {
    (v.Int? && v.i as real > bound) || (v.Float? && v.x > bound)
  }

  predicate NumberBelow(v: Value, bound: real) {
    (v.Int? && v.i as real < bound) || (v.Float? && v.x < bound)
  }

  /** Event `e` has what a step asks of it under `key`: a number above or below the operand of an operator text, and
      the very value otherwise. */
  predicate HasExpected(e: Event, key: string, expected: Value, operand: string -> real) {
    && key in e.fields
    && match expected
       case Text(s) =>
         if |s| > 0 && s[0] == '>' then |s| > 1 && NumberAbove(e.fields[key], operand(s[1..]))
         else if |s| > 0 && s[0] == '<' then |s| > 1 && NumberBelow(e.fields[key], operand(s[1..]))
         else e.fields[key] == Text(s)
       case _ => e.fields[key] == expected
  }

  /** The event has the step's type, and all that the step asks for. */
  predicate HasAllExpected(e: Event, ep: EventPattern) {
    && "type" in e.fields && e.fields["type"] == Text(ep.kind)
    && forall key :: key in ep.predicates ==> HasExpected(e, key, ep.predicates[key], ep.operand)
  }

  lemma {:induction false} ExpectedIsTested(e: Event, ep: EventPattern)
    ensures EngineMatches(e, ep) <==> HasAllExpected(e, ep)
  {
    forall key | key in ep.predicates
      ensures FieldMatches(e, ep, key, ep.predicates[key]) == HasExpected(e, key, ep.predicates[key], ep.operand) {
      match ep.predicates[key] {
        case Text(s) =>
        case _ =>
      }
    }
  }

  /** Within and Before ask for at most the duration, After for at least it. */
  predicate KeepsDistance(temporal: Option<TemporalConstraint>, gap: int) {
    match temporal
    case None => true
    case Some(limit) => if limit.kind.After? then gap >= limit.duration else gap <= limit.duration
  }

  lemma {:induction false} FittingEvent(p: Pattern, matched: seq<Event>, s: nat, j: nat)
    requires j < |matched| && EventFits(p, matched, s, j)
    ensures HasAllExpected(matched[j], p.events[s])
    ensures p.timeWindow > 0 ==> matched[j].time - matched[0].time <= p.timeWindow
    ensures j > 0 ==> KeepsDistance(p.events[s].temporal, matched[j].time - matched[j - 1].time)
  {
    ExpectedIsTested(matched[j], p.events[s]);
  }

  /** Every event has what its step expects, in the window and at the right distance. */
  ghost predicate MeetSteps(p: Pattern, events: seq<Event>, steps: seq<nat>) {
    && |steps| == |events| && (forall j :: 0 <= j < |steps| ==> steps[j] < |p.events|)
    && (forall j :: 0 <= j < |steps| ==> HasAllExpected(events[j], p.events[steps[j]]))
    && (p.timeWindow > 0 ==> forall j :: 0 <= j < |steps| ==> events[j].time - events[0].time <= p.timeWindow)
    && (forall j :: 0 < j < |steps| ==>
          KeepsDistance(p.events[steps[j]].temporal, events[j].time - events[j - 1].time))
  }

  lemma {:induction false} FittingEvents(p: Pattern, matched: seq<Event>, steps: seq<nat>)
    requires EventsFit(p, matched, steps)
    ensures MeetSteps(p, matched, steps)
  {
    forall j: nat | j < |steps|
      ensures steps[j] < |p.events| && HasAllExpected(matched[j], p.events[steps[j]])
      ensures p.timeWindow > 0 ==> matched[j].time - matched[0].time <= p.timeWindow
      ensures j > 0 ==> KeepsDistance(p.events[steps[j]].temporal, matched[j].time - matched[j - 1].time)
    {
      assert EventFits(p, matched, steps[j], j);
      FittingEvent(p, matched, steps[j], j);
    }
  }

  /** In every run, the events of an emitted match belong to steps in order; each has its step's type and all that its
      step expects, lies in the window, and keeps its step's distance from the event before it. */
  lemma {:induction false} EmittedEventsMeetTheirSteps(p: Pattern, timeout: int, run: seq<Step>, m: Match)
    returns (steps: seq<nat>)
    requires m in EmittedBy(p, timeout, run)
    ensures MeetSteps(p, m.events, steps)
    ensures forall i, j :: 0 <= i < j < |steps| ==> steps[i] <= steps[j]
  {
    EmissionIsSound(p, timeout, run, m);
    var prefix: seq<Step>, i: nat :| prefix <= run && SoundEmission(p, timeout, prefix, i, m);
    var pm := Track(p, timeout, prefix, i).pm;
    steps := Labels(pm.counts, |p.events|);
    FittingEvents(p, m.events, steps);
  }

  /** The least count a quantifier accepts: a step never consumes more than it must. */
  lemma {:induction false} LeastCounts(ep: EventPattern, c: nat)
    ensures LeastAccepted(ep, c) <==>
            match ep.quantifier
            case ExactlyOne => c == 1
            case OneOrMore => c == 1
            case ZeroOrMore => c == 1
            case AtMost => c == 1 && ep.maxOccurrences >= 1
            case _ => c == if ep.minOccurrences > 1 then ep.minOccurrences else 1
  {
    if c >= 2 && Satisfied(ep, c) && NoneAccepted(ep, c - 1) {
      assert !Satisfied(ep, c - 1) && !Satisfied(ep, 1);
    }
  }

  // ------------------------------------------------------------------
  // Negated steps without a deadline
  // ------------------------------------------------------------------

  ghost predicate StuckBefore(l: Life, s: nat) {
    !l.Emitted? && (l.Active? ==> l.pm.step <= s)
  }

  lemma {:induction false} TryAdvanceSticks(p: Pattern, pm: Partial, e: Event, s: nat)
    requires s < |p.events| && p.events[s].negated && p.events[s].temporal.None? && pm.step <= s
    ensures StuckBefore(TryAdvance(p, pm, e), s)
    decreases |p.events| - pm.step
  {
    var ep := p.events[pm.step];
    if pm.step < s && !ep.negated && !EngineMatches(e, ep) && ep.optional {
      TryAdvanceSticks(p, pm.(step := pm.step + 1), e, s);
    }
  }

  lemma {:induction false} TrackSticks(p: Pattern, timeout: int, run: seq<Step>, i: nat, s: nat)
    requires i < |run| && s < |p.events| && p.events[s].negated && p.events[s].temporal.None?
    ensures StuckBefore(Track(p, timeout, run, i), s)
    decreases |run|
  {
    var last := run[|run| - 1];
    if i < |run| - 1 {
      TrackSticks(p, timeout, run[..|run| - 1], i, s);
      var l := Track(p, timeout, run[..|run| - 1], i);
      if l.Active? && last.Arrive? {
        TryAdvanceSticks(p, l.pm, last.event, s);
      }
    }
  }

  /** A pattern with a negated step that has no temporal constraint never emits anything, whatever arrives. */
  lemma {:induction false} NegationWithoutDeadlineNeverEmits(p: Pattern, timeout: int, run: seq<Step>, s: nat)
    requires s < |p.events| && p.events[s].negated && p.events[s].temporal.None?
    ensures EmittedBy(p, timeout, run) == []
  {
    if run != [] {
      NegationWithoutDeadlineNeverEmits(p, timeout, run[..|run| - 1], s);
      StateIsTracks(p, timeout, run);
      if EmittedLast(p, timeout, run) != [] {
        var m := EmittedLast(p, timeout, run)[0];
        var i := EmissionHasTrack(p, timeout, run, |run|, m);
        TrackSticks(p, timeout, run, i, s);
      }
    }
  }

  // ------------------------------------------------------------------
  // "A, then no B, then C"
  // ------------------------------------------------------------------

  function Plainly(kind: string, negated: bool, temporal: Option<TemporalConstraint>): EventPattern {
    EventPattern(kind, map[], _ => 0.0, false, negated, ExactlyOne, 0, 0, temporal)
  }

  /** The builder's three-step pattern; the builder itself never sets a deadline on the negated step. */
  function SequenceWithNegation(a: string, notB: string, c: string, window: int, deadline: Option<TemporalConstraint>)
    : Pattern
  {
    Pattern([Plainly(a, false, None), Plainly(notB, true, deadline), Plainly(c, false, None)], window, _ => true)
  }

  /** The deadline can pass before the window closes. */
  predicate CanPass(window: int, deadline: Option<TemporalConstraint>) {
    deadline.Some? && (window <= 0 || deadline.value.duration < window)
  }

  lemma {:induction false} TrackCannotPass(
    a: string, notB: string, c: string, window: int, deadline: Option<TemporalConstraint>,
    timeout: int, run: seq<Step>, i: nat)
    requires i < |run| && deadline.Some? && !CanPass(window, deadline)
    ensures var l := Track(SequenceWithNegation(a, notB, c, window, deadline), timeout, run, i);
            !l.Emitted? && (l.Active? ==> l.pm.step == 1 && l.pm.lastTime == l.pm.startTime)
    decreases |run|
  {
    if i < |run| - 1 {
      TrackCannotPass(a, notB, c, window, deadline, timeout, run[..|run| - 1], i);
    }
  }

  lemma {:induction false} EmittingRun(
    a: string, notB: string, c: string, window: int, deadline: Option<TemporalConstraint>) returns (run: seq<Step>)
    requires CanPass(window, deadline)
    ensures EmittedBy(SequenceWithNegation(a, notB, c, window, deadline), 0, run) != []
  {
    var p := SequenceWithNegation(a, notB, c, window, deadline);
    var late := if deadline.value.duration < 0 then 0 else deadline.value.duration + 1;
    var eA, other, eC := Event(0, map["type" := Text(a)]), Event(late, map[]), Event(late, map["type" := Text(c)]);
    var run1, run2 := [Arrive(eA, 0)], [Arrive(eA, 0), Arrive(other, 0)];
    run := [Arrive(eA, 0), Arrive(other, 0), Arrive(eC, 0)];
    assert run[..2] == run2 && run2[..1] == run1 && run1[..0] == [];
    assert EngineMatches(eA, p.events[0]) && EngineMatches(eC, p.events[2]);
    assert !SomeMatch([other], p.events[1]);
    assert Track(p, 0, run1, 0) == Active(Create(p, eA));
    var passed := Create(p, eA).(step := 2);
    assert [] + [other] == [other];
    assert Track(p, 0, run2, 0) == Active(passed);
    assert Track(p, 0, run, 0).Emitted?;
    assert EmittingTracks(p, 0, run, 1) != [];
    StateIsTracks(p, 0, run);
  }

  /** The documented pattern matches on some run exactly when its negated step carries a deadline that can pass inside
      the window; as the builders make it, it never does. */
  lemma {:induction false} SequenceWithNegationCanEmit(
    a: string, notB: string, c: string, window: int, deadline: Option<TemporalConstraint>)
    ensures (exists timeout, run :: EmittedBy(SequenceWithNegation(a, notB, c, window, deadline), timeout, run) != [])
       <==> CanPass(window, deadline)
  {
    var p := SequenceWithNegation(a, notB, c, window, deadline);
    if CanPass(window, deadline) {
      var run := EmittingRun(a, notB, c, window, deadline);
    } else {
      forall timeout, run ensures EmittedBy(p, timeout, run) == [] {
        NeverPasses(a, notB, c, window, deadline, timeout, run);
      }
    }
  }

  lemma {:induction false} NeverPasses(
    a: string, notB: string, c: string, window: int, deadline: Option<TemporalConstraint>, timeout: int, run: seq<Step>)
    requires !CanPass(window, deadline)
    ensures EmittedBy(SequenceWithNegation(a, notB, c, window, deadline), timeout, run) == []
  {
    var p := SequenceWithNegation(a, notB, c, window, deadline);
    if deadline.None? {
      NegationWithoutDeadlineNeverEmits(p, timeout, run, 1);
    } else if run != [] {
      NeverPasses(a, notB, c, window, deadline, timeout, run[..|run| - 1]);
      StateIsTracks(p, timeout, run);
      if EmittedLast(p, timeout, run) != [] {
        var i := EmissionHasTrack(p, timeout, run, |run|, EmittedLast(p, timeout, run)[0]);
        TrackCannotPass(a, notB, c, window, deadline, timeout, run, i);
      }
    }
  }

  // ------------------------------------------------------------------
  // "A, then any number of B, then C"
  // ------------------------------------------------------------------

  lemma {:induction false} LabelOf(counts: map<nat, nat>, n: nat, s: nat) returns (j: nat)
    requires s < n && Count(counts, s) >= 1
    ensures j < |Labels(counts, n)| && Labels(counts, n)[j] == s
  {
    if s == n - 1 {
      j := |Labels(counts, n - 1)|;
    } else {
      j := LabelOf(counts, n - 1, s);
    }
  }

  /** Whatever its quantifier, a required step consumes some event in every emitted match. */
  lemma {:induction false} RequiredStepHasEvent(p: Pattern, timeout: int, run: seq<Step>, m: Match, s: nat)
    returns (j: nat)
    requires m in EmittedBy(p, timeout, run)
    requires s < |p.events| && !p.events[s].optional && !p.events[s].negated
    ensures j < |m.events| && EngineMatches(m.events[j], p.events[s])
  {
    EmittedMatchesAreSound(p, timeout, run);
    assert EmittedSoundly(p, timeout, run, m);
    var prefix: seq<Step>, i: nat :| prefix <= run && SoundEmission(p, timeout, prefix, i, m);
    var pm := Track(p, timeout, prefix, i).pm;
    assert CountFits(p.events[s], Count(pm.counts, s), s, pm.step);
    j := LabelOf(pm.counts, |p.events|, s);
    assert EventFits(p, pm.matched, s, j);
  }

  function Starred(kind: string, optional: bool): EventPattern {
    EventPattern(kind, map[], _ => 0.0, optional, false, ZeroOrMore, 0, 0, None)
  }

  function SequenceWithStar(a: string, b: string, c: string, optional: bool, window: int): Pattern {
    Pattern([Plainly(a, false, None), Starred(b, optional), Plainly(c, false, None)], window, _ => true)
  }

  ghost predicate Without(m: Match, kind: string) {
    forall e :: e in m.events ==> Kind(e) != Some(kind)
  }

  function Typed(kind: string): Event {
    Event(0, map["type" := Text(kind)])
  }

  /** C comes right after A: the optional step is skipped, and the match completes. */
  lemma {:induction false} StarIsSkipped(p: Pattern, a: string, b: string, c: string, window: int)
    requires b != c && p == SequenceWithStar(a, b, c, true, window)
    ensures TryAdvance(p, Create(p, Typed(a)), Typed(c)).Emitted?
    ensures TryAdvance(p, Create(p, Typed(a)), Typed(c)).pm.matched == [Typed(a), Typed(c)]
  {
    var skipped := Create(p, Typed(a)).(step := 2);
    assert !EngineMatches(Typed(c), p.events[1]) && EngineMatches(Typed(c), p.events[2]);
    assert TryAdvance(p, Create(p, Typed(a)), Typed(c)) == TryAdvance(p, skipped, Typed(c));
    assert [Typed(a)] + [Typed(c)] == [Typed(a), Typed(c)];
  }

  lemma {:induction false} EmptyStarRun(a: string, b: string, c: string, window: int)
    returns (run: seq<Step>, m: Match)
    requires a != b && b != c
    ensures m in EmittedBy(SequenceWithStar(a, b, c, true, window), 0, run) && Without(m, b)
  {
    var p := SequenceWithStar(a, b, c, true, window);
    var first, second := Arrive(Typed(a), 0), Arrive(Typed(c), 0);
    run := [first, second];
    assert run[..1] == [first] && [first][..0] == [];
    assert EngineMatches(Typed(a), p.events[0]);
    assert Track(p, 0, [first], 0) == Active(Create(p, Typed(a)));
    StarIsSkipped(p, a, b, c, window);
    var l := Track(p, 0, run, 0);
    assert l == TryAdvance(p, Create(p, Typed(a)), Typed(c));
    m := Match(l.pm.matched, l.pm.startTime, l.pm.lastTime);
    assert m in EmittingTracks(p, 0, run, 1);
    StateIsTracks(p, 0, run);
    assert m in EmittedLast(p, 0, run);
  }

  /** A `ZeroOrMore` step can consume nothing if and only if it is also declared optional. */
  lemma {:induction false} StarCanBeEmptyIff(a: string, b: string, c: string, optional: bool, window: int)
    requires a != b && b != c
    ensures (exists timeout, run, m ::
               m in EmittedBy(SequenceWithStar(a, b, c, optional, window), timeout, run) && Without(m, b))
       <==> optional
  {
    if optional {
      var run, m := EmptyStarRun(a, b, c, window);
    } else {
      var p := SequenceWithStar(a, b, c, false, window);
      forall timeout, run, m | m in EmittedBy(p, timeout, run) ensures !Without(m, b) {
        var j := RequiredStepHasEvent(p, timeout, run, m, 1);
        assert m.events[j] in m.events;
      }
    }
  }

  // ------------------------------------------------------------------
  // Patterns of one step
  // ------------------------------------------------------------------

  /** One step that a single event completes, as in the frequency pattern. */
  predicate OneStep(p: Pattern) {
    |p.events| == 1 && Satisfied(p.events[0], 1)
  }

  /** Step `i` started a match, and only ticks came since, none of which timed it out. */
  ghost predicate Waits(p: Pattern, timeout: int, run: seq<Step>, i: nat) {
    && i < |run| && run[i].Arrive? && CanStart(p, run[i].event)
    && forall k :: i < k < |run| ==> run[k].Tick? && !TimedOut(p, timeout, Create(p, run[i].event), run[k].now)
  }

  /** ... and now the next event arrives, inside the window, whatever it is. */
  ghost predicate Follows(p: Pattern, timeout: int, run: seq<Step>, i: nat) {
    && i + 1 < |run| && Waits(p, timeout, run[..|run| - 1], i)
    && run[|run| - 1].Arrive?
    && !TimedOut(p, timeout, Create(p, run[i].event), run[|run| - 1].now)
    && !OutsideWindow(p, Create(p, run[i].event), run[|run| - 1].event)
  }

  lemma {:induction false} OneStepTrack(p: Pattern, timeout: int, run: seq<Step>, i: nat)
    requires OneStep(p) && i < |run|
    ensures Waits(p, timeout, run, i) ==> Track(p, timeout, run, i) == Active(Create(p, run[i].event))
    ensures Follows(p, timeout, run, i) ==> Track(p, timeout, run, i) == Emitted(Create(p, run[i].event))
    ensures !Waits(p, timeout, run, i) && !Follows(p, timeout, run, i) ==> Track(p, timeout, run, i) == Gone
    decreases |run|
  {
    var before, last := run[..|run| - 1], run[|run| - 1];
    if i < |run| - 1 {
      OneStepTrack(p, timeout, before, i);
      assert before[i] == run[i];
      assert Track(p, timeout, run, i) == NextLife(p, timeout, Track(p, timeout, before, i), last);
      WaitsSnoc(p, timeout, run, i);
    }
  }

  lemma {:induction false} WaitsSnoc(p: Pattern, timeout: int, run: seq<Step>, i: nat)
    requires i + 1 < |run|
    ensures Waits(p, timeout, run, i)
       <==> Waits(p, timeout, run[..|run| - 1], i) && run[|run| - 1].Tick?
            && !TimedOut(p, timeout, Create(p, run[i].event), run[|run| - 1].now)
  {
    var before := run[..|run| - 1];
    assert forall k :: 0 <= k < |before| ==> before[k] == run[k];
  }

  lemma {:induction false} TrackEmits(p: Pattern, timeout: int, run: seq<Step>, k: nat, i: nat)
    requires i < k <= |run| && Track(p, timeout, run, i).Emitted?
    ensures MatchOf(Track(p, timeout, run, i))[0] in EmittingTracks(p, timeout, run, k)
  {
    if i < k - 1 {
      TrackEmits(p, timeout, run, k - 1, i);
    }
  }

  /** What a one-step pattern emits, exactly: a matching event, on its own, when the next event of any kind arrives in
      time. The conditions play no part. */
  lemma {:induction false} OneStepEmissions(p: Pattern, timeout: int, run: seq<Step>, m: Match)
    requires OneStep(p)
    ensures m in EmittedLast(p, timeout, run)
       <==> exists i: nat :: Follows(p, timeout, run, i)
                             && m == Match([run[i].event], run[i].event.time, run[i].event.time)
  {
    StateIsTracks(p, timeout, run);
    if m in EmittingTracks(p, timeout, run, |run|) {
      var i := EmissionHasTrack(p, timeout, run, |run|, m);
      OneStepTrack(p, timeout, run, i);
    }
    if i: nat :| Follows(p, timeout, run, i) && m == Match([run[i].event], run[i].event.time, run[i].event.time) {
      OneStepTrack(p, timeout, run, i);
      TrackEmits(p, timeout, run, |run|, i);
    }
  }

  lemma {:induction false} EmissionsOfOne(p: Pattern, timeout: int, run: seq<Step>)
    requires |run| == 1
    ensures EmittingTracks(p, timeout, run, 1) == []
    ensures EmittedBy(p, timeout, run) == EmittedLast(p, timeout, run)
  {
    assert MatchOf(Begun(p, run[0])) == [];
  }

  lemma {:induction false} EmissionsOfTwo(p: Pattern, timeout: int, run: seq<Step>)
    requires |run| == 2
    ensures EmittingTracks(p, timeout, run, 2) == MatchOf(Track(p, timeout, run, 0))
    ensures EmittedBy(p, timeout, run) == EmittedBy(p, timeout, run[..1]) + EmittedLast(p, timeout, run)
  {
    assert EmittingTracks(p, timeout, run, 1) == MatchOf(Track(p, timeout, run, 0));
    assert MatchOf(Begun(p, run[1])) == [];
  }

  lemma {:induction false} NothingAfterOne(p: Pattern, timeout: int, step: Step)
    ensures EmittedBy(p, timeout, [step]) == []
  {
    assert [step][..0] == [];
    StateIsTracks(p, timeout, [step]);
    EmissionsOfOne(p, timeout, [step]);
  }

  lemma {:induction false} EmissionsOfTwoSteps(p: Pattern, timeout: int, one: Step, two: Step)
    ensures EmittedBy(p, timeout, [one, two]) == MatchOf(NextLife(p, timeout, Begun(p, one), two))
  {
    var run := [one, two];
    assert run[..1] == [one] && [one][..0] == [];
    NothingAfterOne(p, timeout, one);
    StateIsTracks(p, timeout, run);
    EmissionsOfTwo(p, timeout, run);
    assert Track(p, timeout, run, 0) == NextLife(p, timeout, Begun(p, one), two);
  }

  /** A matching event alone emits nothing; with the next event, whatever it is, it is emitted if that lies inside the
      window and lost otherwise. */
  lemma {:induction false} OneStepRun(p: Pattern, a: Event, x: Event, now: int)
    requires OneStep(p) && CanStart(p, a)
    ensures EmittedBy(p, 0, [Arrive(a, now)]) == []
    ensures EmittedBy(p, 0, [Arrive(a, now), Arrive(x, now)])
         == if p.timeWindow > 0 && x.time - a.time > p.timeWindow then [] else [Match([a], a.time, a.time)]
  {
    NothingAfterOne(p, 0, Arrive(a, now));
    EmissionsOfTwoSteps(p, 0, Arrive(a, now), Arrive(x, now));
  }

  // ------------------------------------------------------------------
  // Timeouts
  // ------------------------------------------------------------------

  /** In every run a partial match is dropped, by the cleanup or by the next event, exactly when more than the timeout
      (or a shorter window) has passed since its last event; the cleanup leaves every other one as it is. */
  lemma {:induction false} TimesOutExactly(p: Pattern, timeout: int, run: seq<Step>, i: nat, step: Step)
    requires i < |run| && Track(p, timeout, run, i).Active?
    ensures var pm := Track(p, timeout, run, i).pm;
            var limit := if 0 < p.timeWindow < timeout then p.timeWindow else timeout;
            && pm.matched != []
            && if timeout != 0 && step.now - pm.matched[|pm.matched| - 1].time > limit then
                 Track(p, timeout, run + [step], i) == Gone
               else step.Tick? ==> Track(p, timeout, run + [step], i) == Active(pm)
  {
    assert (run + [step])[..|run|] == run;
    TrackIsGood(p, timeout, run, i);
  }

  // ------------------------------------------------------------------
  // Patterns of two steps
  // ------------------------------------------------------------------

  /** The second event, once the first has started a match. */
  lemma {:induction false} SecondStep(p: Pattern, a: Event, b: Event)
    requires |p.events| == 2 && p.events[0].quantifier.ExactlyOne?
    requires p.events[1].quantifier.ExactlyOne? && !p.events[1].negated && !p.events[1].optional
    ensures MatchOf(TryAdvance(p, Create(p, a), b))
         == if EngineMatches(b, p.events[1]) && KeepsDistance(p.events[1].temporal, b.time - a.time)
               && p.conditions([a, b])
            then [Match([a, b], a.time, b.time)] else []
  {
    assert [a] + [b] == [a, b];
  }

  lemma {:induction false} SecondArrival(p: Pattern, timeout: int, a: Event, b: Event, later: int)
    requires |p.events| == 2 && p.events[0].quantifier.ExactlyOne?
    requires p.events[1].quantifier.ExactlyOne? && !p.events[1].negated && !p.events[1].optional
    ensures MatchOf(AfterStep(p, timeout, Create(p, a), Arrive(b, later)))
         == if && (timeout == 0 || later - a.time <= if 0 < p.timeWindow < timeout then p.timeWindow else timeout)
               && (p.timeWindow <= 0 || b.time - a.time <= p.timeWindow)
               && EngineMatches(b, p.events[1]) && KeepsDistance(p.events[1].temporal, b.time - a.time)
               && p.conditions([a, b])
            then [Match([a, b], a.time, b.time)] else []
  {
    SecondStep(p, a, b);
  }

  /** What a pattern of two plain steps emits on two events, exactly: both have the type and the values expected of
      them, the second comes before the match times out, inside the window and at the distance its step asks for, and
      the conditions hold. */
  lemma {:induction false} TwoStepRun(p: Pattern, timeout: int, a: Event, b: Event, now: int, later: int)
    requires |p.events| == 2 && forall ep :: ep in p.events ==> ep.quantifier.ExactlyOne? && !ep.negated
    requires !p.events[1].optional
    ensures var first, second, gap := p.events[0], p.events[1], b.time - a.time;
            EmittedBy(p, timeout, [Arrive(a, now), Arrive(b, later)])
            == if && HasAllExpected(a, first) && HasAllExpected(b, second)
                  && (timeout == 0
                      || later - a.time <= if 0 < p.timeWindow < timeout then p.timeWindow else timeout)
                  && (p.timeWindow <= 0 || gap <= p.timeWindow) && KeepsDistance(second.temporal, gap)
                  && p.conditions([a, b])
               then [Match([a, b], a.time, b.time)] else []
  {
    EmissionsOfTwoSteps(p, timeout, Arrive(a, now), Arrive(b, later));
    ExpectedIsTested(a, p.events[0]);
    ExpectedIsTested(b, p.events[1]);
    assert p.events[0] in p.events && p.events[1] in p.events;
    if CanStart(p, a) {
      SecondArrival(p, timeout, a, b, later);
    }
  }

  /** With a comparison as its first step and any event of the right type as its second, a pattern matches two events
      exactly when the number in the first lies on the right side of the operand. */
  lemma {:induction false} ComparisonDecides(p: Pattern, a: Event, b: Event, now: int, key: string, s: string)
    requires |p.events| == 2 && forall ep :: ep in p.events ==> ep.quantifier.ExactlyOne? && !ep.negated
    requires p.events[0].predicates == map[key := Text(s)] && |s| > 1 && (s[0] == '>' || s[0] == '<')
    requires p.events[1].predicates == map[] && p.events[1].temporal.None? && !p.events[1].optional
    requires p.timeWindow <= 0 && p.conditions([a, b])
    requires "type" in a.fields && a.fields["type"] == Text(p.events[0].kind) && key in a.fields
    requires "type" in b.fields && b.fields["type"] == Text(p.events[1].kind)
    ensures var v, bound := a.fields[key], p.events[0].operand(s[1..]);
            EmittedBy(p, 0, [Arrive(a, now), Arrive(b, now)])
            == if if s[0] == '>' then NumberAbove(v, bound) else NumberBelow(v, bound)
               then [Match([a, b], a.time, b.time)] else []
  {
    TwoStepRun(p, 0, a, b, now, now);
    assert key in p.events[0].predicates;
  }
}
