/** The rescanning matcher, and the theorem that the incremental engine emits exactly what it finds
    (pkg/cep/pattern.go, pkg/cep/engine.go). */
module CepMatcher {
  import opened Seqs
  import opened CepPatterns

  // ------------------------------------------------------------------
  // The rescanning matcher
  // ------------------------------------------------------------------

  /** The matcher's own test: an event without a string type passes the type check, and expected values are compared
      literally. */
  predicate MatcherMatches(e: Event, ep: EventPattern) {
    && (Kind(e).Some? ==> Kind(e).value == ep.kind)
    && forall key :: key in ep.predicates ==> key in e.fields && e.fields[key] == ep.predicates[key]
  }

  /** The scan from buffer position `i` with `idx` steps done: an optional step that is not met stays expected while
      the event is passed over. */
  function Scan(p: Pattern, buffer: seq<Event>, i: nat, idx: nat, matched: seq<Event>): Option<seq<Event>>
    decreases |buffer| - i
  {
    if idx >= |p.events| then Some(matched)
    else if i >= |buffer| then None
    else if MatcherMatches(buffer[i], p.events[idx]) then Scan(p, buffer, i + 1, idx + 1, matched + [buffer[i]])
    else if p.events[idx].optional then Scan(p, buffer, i + 1, idx, matched)
    else None
  }

  lemma {:induction false} ScanNotEmpty(p: Pattern, buffer: seq<Event>, i: nat, idx: nat, matched: seq<Event>)
    requires idx < |p.events| || matched != []
    ensures Scan(p, buffer, i, idx, matched).Some? ==> Scan(p, buffer, i, idx, matched).value != []
    decreases |buffer| - i
  {
    if idx < |p.events| && i < |buffer| {
      if MatcherMatches(buffer[i], p.events[idx]) {
        ScanNotEmpty(p, buffer, i + 1, idx + 1, matched + [buffer[i]]);
      } else if p.events[idx].optional {
        ScanNotEmpty(p, buffer, i + 1, idx, matched);
      }
    }
  }

  function Found(p: Pattern, matched: Option<seq<Event>>): seq<Match> {
    if matched.Some? && matched.value != [] && p.conditions(matched.value) then
      [Match(matched.value, matched.value[0].time, matched.value[|matched.value| - 1].time)]
    else []
  }

  /** The matches that start before position `k`, in start order. */
  function MatchesUpTo(p: Pattern, buffer: seq<Event>, k: nat): seq<Match>
  {
    if k == 0 then [] else MatchesUpTo(p, buffer, k - 1) + Found(p, Scan(p, buffer, k - 1, 0, []))
  }

  function FindMatches(p: Pattern, buffer: seq<Event>): seq<Match> {
    MatchesUpTo(p, buffer, |buffer|)
  }

  function IsRecent(cutoff: int): Event -> bool {
    (e: Event) => e.time > cutoff
  }

  function Recent(buffer: seq<Event>, cutoff: int): seq<Event> {
    Filter(buffer, IsRecent(cutoff))
  }

  /** The buffer after an event was added at clock time `now`: old events are dropped, then the oldest beyond the
      limit. */
  function Buffered(p: Pattern, maxBufferSize: nat, buffer: seq<Event>, e: Event, now: int): seq<Event> {
    var recent := Recent(buffer + [e], now - p.timeWindow);
    if |recent| > maxBufferSize then recent[|recent| - maxBufferSize..] else recent
  }

  class PatternMatcher {
    const pattern: Pattern
    const maxBufferSize: nat
    var eventBuffer: seq<Event>

    /** The source indexes the first matched event, so it needs a pattern with a step. */
    constructor (pattern: Pattern, maxBufferSize: nat)
      requires |pattern.events| > 0
      ensures this.pattern == pattern && this.maxBufferSize == maxBufferSize && eventBuffer == []
    {
      this.pattern := pattern;
      this.maxBufferSize := maxBufferSize;
      eventBuffer := [];
    }

    /** `now` is the clock reading taken by the pruning. */
    method AddEvent(event: Event, now: int) returns (matches: seq<Match>)
      requires |pattern.events| > 0
      modifies this
      ensures eventBuffer == Buffered(pattern, maxBufferSize, old(eventBuffer), event, now)
      ensures matches == FindMatches(pattern, eventBuffer)
    {
      eventBuffer := eventBuffer + [event];
      PruneOldEvents(now);
      if |eventBuffer| > maxBufferSize {
        eventBuffer := eventBuffer[|eventBuffer| - maxBufferSize..];
      }
      matches := FindAll();
    }

    method PruneOldEvents(now: int)
      modifies this
      ensures eventBuffer == Recent(old(eventBuffer), now - pattern.timeWindow)
    {
      var cutoffTime := now - pattern.timeWindow;
      var newBuffer := [];
      for i := 0 to |eventBuffer|
        invariant eventBuffer == old(eventBuffer)
        invariant newBuffer == Recent(eventBuffer[..i], cutoffTime)
      {
        FilterNext(eventBuffer, i, IsRecent(cutoffTime));
        if eventBuffer[i].time > cutoffTime {
          newBuffer := newBuffer + [eventBuffer[i]];
        }
      }
      assert eventBuffer[..|eventBuffer|] == eventBuffer;
      eventBuffer := newBuffer;
    }

    method FindAll() returns (matches: seq<Match>)
      requires |pattern.events| > 0
      ensures matches == FindMatches(pattern, eventBuffer)
    {
      matches := [];
      for i := 0 to |eventBuffer|
        invariant matches == MatchesUpTo(pattern, eventBuffer, i)
      {
        var found := TryMatch(i);
        if found.Some? {
          matches := matches + [found.value];
        }
      }
    }

    method TryMatch(startIdx: nat) returns (r: Option<Match>)
      requires |pattern.events| > 0 && startIdx <= |eventBuffer|
      ensures (if r.Some? then [r.value] else []) == Found(pattern, Scan(pattern, eventBuffer, startIdx, 0, []))
    {
      var matchedEvents: seq<Event> := [];
      var patternIdx, i := 0, startIdx;
      ScanNotEmpty(pattern, eventBuffer, startIdx, 0, []);
      while i < |eventBuffer| && patternIdx < |pattern.events|
        invariant startIdx <= i <= |eventBuffer| && patternIdx <= |pattern.events|
        invariant Scan(pattern, eventBuffer, i, patternIdx, matchedEvents)
               == Scan(pattern, eventBuffer, startIdx, 0, [])
        decreases |eventBuffer| - i
      {
        var event, expected := eventBuffer[i], pattern.events[patternIdx];
        if MatcherMatches(event, expected) {
          matchedEvents := matchedEvents + [event];
          patternIdx := patternIdx + 1;
        } else if !expected.optional {
          return None;
        }
        i := i + 1;
      }
      if patternIdx < |pattern.events| || !pattern.conditions(matchedEvents) {
        return None;
      }
      r := Some(Match(matchedEvents, matchedEvents[0].time, matchedEvents[|matchedEvents| - 1].time));
    }
  }

  // ------------------------------------------------------------------
  // What the matcher finds in any buffer
  // ------------------------------------------------------------------

  /** No type, or the expected one, and literally the expected values: an operator text is a value like any other. */
  predicate Accepts(ep: EventPattern, e: Event) {
    && ("type" in e.fields && e.fields["type"].Text? ==> e.fields["type"] == Text(ep.kind))
    && forall key :: key in ep.predicates ==> key in e.fields && e.fields[key] == ep.predicates[key]
  }

  /** Only an optional step lets events pass, and only those it does not accept. */
  ghost predicate PassedOver(ep: EventPattern, buffer: seq<Event>, i: nat, j: nat)
    requires j <= |buffer|
  {
    forall k :: i <= k < j ==> ep.optional && !Accepts(ep, buffer[k])
  }

  /** From buffer position `i` on, the steps from `idx` on are met at the positions `at`, each by the first event that
      its step accepts. */
  ghost predicate Meets(p: Pattern, buffer: seq<Event>, i: nat, idx: nat, at: seq<nat>): (b: bool)
    ensures b ==> |at| == |p.events| - idx && forall j :: 0 <= j < |at| ==> at[j] < |buffer|
    decreases |at|
  {
    if at == [] then idx == |p.events| else
      && idx < |p.events| && i <= at[0] < |buffer|
      && Accepts(p.events[idx], buffer[at[0]]) && PassedOver(p.events[idx], buffer, i, at[0])
      && Meets(p, buffer, at[0] + 1, idx + 1, at[1..])
  }

  /** The events at the given positions. */
  function Picked(buffer: seq<Event>, at: seq<nat>): (es: seq<Event>)
    requires forall j :: 0 <= j < |at| ==> at[j] < |buffer|
    ensures |es| == |at| && forall j :: 0 <= j < |at| ==> es[j] == buffer[at[j]]
  {
    seq(|at|, j requires 0 <= j < |at| => buffer[at[j]])
  }

  lemma {:induction false} PickedFirst(buffer: seq<Event>, at: seq<nat>)
    requires at != [] && forall j :: 0 <= j < |at| ==> at[j] < |buffer|
    ensures Picked(buffer, at) == [buffer[at[0]]] + Picked(buffer, at[1..])
  {
  }

  lemma {:induction false} AcceptsIsTest(ep: EventPattern, e: Event)
    ensures Accepts(ep, e) <==> MatcherMatches(e, ep)
  {
  }

  lemma {:induction false} ScanFinds(
      p: Pattern, buffer: seq<Event>, i: nat, idx: nat, matched: seq<Event>, at: seq<nat>)
    requires Meets(p, buffer, i, idx, at)
    ensures Scan(p, buffer, i, idx, matched) == Some(matched + Picked(buffer, at))
    decreases |buffer| - i
  {
    if at == [] {
      assert matched + [] == matched;
    } else {
      AcceptsIsTest(p.events[idx], buffer[i]);
      if at[0] == i {
        ScanFinds(p, buffer, i + 1, idx + 1, matched + [buffer[i]], at[1..]);
        PickedFirst(buffer, at);
        Associates(matched, [buffer[i]], Picked(buffer, at[1..]));
      } else {
        assert PassedOver(p.events[idx], buffer, i + 1, at[0]);
        ScanFinds(p, buffer, i + 1, idx, matched, at);
      }
    }
  }

  lemma {:induction false} ScanMeets(p: Pattern, buffer: seq<Event>, i: nat, idx: nat, matched: seq<Event>)
    returns (at: seq<nat>)
    requires idx <= |p.events| && Scan(p, buffer, i, idx, matched).Some?
    ensures Meets(p, buffer, i, idx, at)
    decreases |buffer| - i
  {
    if idx == |p.events| {
      at := [];
    } else {
      AcceptsIsTest(p.events[idx], buffer[i]);
      if MatcherMatches(buffer[i], p.events[idx]) {
        var rest := ScanMeets(p, buffer, i + 1, idx + 1, matched + [buffer[i]]);
        at := [i] + rest;
        assert at[1..] == rest;
      } else {
        at := ScanMeets(p, buffer, i + 1, idx, matched);
        assert PassedOver(p.events[idx], buffer, i, at[0]);
      }
    }
  }

  lemma {:induction false} MatchesAt(p: Pattern, buffer: seq<Event>, k: nat, m: Match) returns (start: nat)
    requires m in MatchesUpTo(p, buffer, k)
    ensures start < k && m in Found(p, Scan(p, buffer, start, 0, []))
  {
    if m in Found(p, Scan(p, buffer, k - 1, 0, [])) {
      start := k - 1;
    } else {
      start := MatchesAt(p, buffer, k - 1, m);
    }
  }

  lemma {:induction false} FoundIsListed(p: Pattern, buffer: seq<Event>, k: nat, start: nat, m: Match)
    requires start < k && m in Found(p, Scan(p, buffer, start, 0, []))
    ensures m in MatchesUpTo(p, buffer, k)
  {
    if start < k - 1 {
      FoundIsListed(p, buffer, k - 1, start, m);
    }
  }

  lemma {:induction false} FoundIsPicked(p: Pattern, buffer: seq<Event>, start: nat, at: seq<nat>)
    requires Meets(p, buffer, start, 0, at)
    ensures Found(p, Scan(p, buffer, start, 0, [])) == Found(p, Some(Picked(buffer, at)))
  {
    ScanFinds(p, buffer, start, 0, [], at);
    assert [] + Picked(buffer, at) == Picked(buffer, at);
  }

  /** From `start` every step is met in turn by the first event it accepts, with nothing in between unless the step is
      optional, the conditions hold, and `m` is made of those events. */
  ghost predicate Matched(p: Pattern, buffer: seq<Event>, start: nat, at: seq<nat>, m: Match) {
    && start < |buffer| && Meets(p, buffer, start, 0, at)
    && m.events == Picked(buffer, at) && p.conditions(m.events)
    && m.events != [] && m.firstTime == m.events[0].time && m.lastTime == m.events[|m.events| - 1].time
  }

  /** The matches found in a buffer, exactly, for any pattern. Quantifiers, negation, gaps and the window play no part,
      and an optional step is waited for, never left out. */
  lemma {:induction false} FindMatchesIff(p: Pattern, buffer: seq<Event>, m: Match)
    requires |p.events| > 0
    ensures m in FindMatches(p, buffer) <==> exists start, at :: Matched(p, buffer, start, at, m)
  {
    if m in FindMatches(p, buffer) {
      var start := MatchesAt(p, buffer, |buffer|, m);
      var at := ScanMeets(p, buffer, start, 0, []);
      FoundIsPicked(p, buffer, start, at);
      assert Matched(p, buffer, start, at, m);
    }
    if start, at :| Matched(p, buffer, start, at, m) {
      FoundIsPicked(p, buffer, start, at);
      FoundIsListed(p, buffer, |buffer|, start, m);
    }
  }

  // ------------------------------------------------------------------
  // What the buffer holds over a run
  // ------------------------------------------------------------------

  /** The buffer after events were added, each with the clock reading of its call. */
  function BufferAfter(p: Pattern, maxBufferSize: nat, adds: seq<(Event, int)>): seq<Event> {
    if adds == [] then [] else
      var last := adds[|adds| - 1];
      Buffered(p, maxBufferSize, BufferAfter(p, maxBufferSize, adds[..|adds| - 1]), last.0, last.1)
  }

  function Added(adds: seq<(Event, int)>): seq<Event> {
    seq(|adds|, i requires 0 <= i < |adds| => adds[i].0)
  }

  lemma {:induction false} AddedSnoc(adds: seq<(Event, int)>)
    requires adds != []
    ensures Added(adds) == Added(adds[..|adds| - 1]) + [adds[|adds| - 1].0]
  {
  }

  /** Pruning again, later, with one more event. */
  lemma {:induction false} PrunedAgain(all: seq<Event>, e: Event, cutoff: int, later: int)
    requires cutoff <= later
    ensures Recent(Recent(all, cutoff) + [e], later) == Recent(all + [e], later)
  {
    FilterSnoc(Recent(all, cutoff), e, IsRecent(later));
    FilterSnoc(all, e, IsRecent(later));
    FilterTwice(all, IsRecent(cutoff), IsRecent(later));
  }

  lemma {:induction false} BufferedAgain(
      p: Pattern, maxBufferSize: nat, all: seq<Event>, cutoff: int, e: Event, now: int)
    requires |all| < maxBufferSize && cutoff <= now - p.timeWindow
    ensures Buffered(p, maxBufferSize, Recent(all, cutoff), e, now) == Recent(all + [e], now - p.timeWindow)
  {
    PrunedAgain(all, e, cutoff, now - p.timeWindow);
  }

  ghost predicate ClockAdvances(adds: seq<(Event, int)>) {
    forall i, j :: 0 <= i < j < |adds| ==> adds[i].1 <= adds[j].1
  }

  lemma {:induction false} ClockAdvancedBefore(adds: seq<(Event, int)>)
    requires |adds| > 1 && ClockAdvances(adds)
    ensures ClockAdvances(adds[..|adds| - 1])
    ensures adds[..|adds| - 1][|adds| - 2].1 <= adds[|adds| - 1].1
  {
  }

  lemma {:induction false} NextBuffer(
      p: Pattern, maxBufferSize: nat, before: seq<(Event, int)>, cutoff: int, last: (Event, int))
    requires |before| < maxBufferSize && cutoff <= last.1 - p.timeWindow
    requires BufferAfter(p, maxBufferSize, before) == Recent(Added(before), cutoff)
    ensures BufferAfter(p, maxBufferSize, before + [last]) == Recent(Added(before + [last]), last.1 - p.timeWindow)
  {
    assert (before + [last])[..|before|] == before;
    AddedSnoc(before + [last]);
    BufferedAgain(p, maxBufferSize, Added(before), cutoff, last.0, last.1);
  }

  lemma {:induction false} FirstBuffer(p: Pattern, maxBufferSize: nat, only: (Event, int))
    requires maxBufferSize > 0
    ensures BufferAfter(p, maxBufferSize, [only]) == Recent(Added([only]), only.1 - p.timeWindow)
  {
    NextBuffer(p, maxBufferSize, [], only.1 - p.timeWindow, only);
    assert [] + [only] == [only];
  }

  lemma {:induction false} BufferIsRecent(p: Pattern, maxBufferSize: nat, adds: seq<(Event, int)>)
    requires |adds| <= maxBufferSize && adds != [] && ClockAdvances(adds)
    ensures BufferAfter(p, maxBufferSize, adds) == Recent(Added(adds), adds[|adds| - 1].1 - p.timeWindow)
  {
    var before, last := adds[..|adds| - 1], adds[|adds| - 1];
    LastJoins(adds);
    if |adds| == 1 {
      assert adds == [last];
      FirstBuffer(p, maxBufferSize, last);
    } else {
      ClockAdvancedBefore(adds);
      BufferIsRecent(p, maxBufferSize, before);
      NextBuffer(p, maxBufferSize, before, before[|before| - 1].1 - p.timeWindow, last);
    }
  }

  /** While the clock does not go back and the limit is not reached, the buffer holds exactly the events newer than the
      window before the last reading, in order. */
  lemma {:induction false} BufferHoldsRecent(
      p: Pattern, maxBufferSize: nat, adds: seq<(Event, int)>, now: int, newer: Event -> bool)
    requires |adds| <= maxBufferSize && adds != [] && adds[|adds| - 1].1 == now && ClockAdvances(adds)
    requires forall e: Event :: newer(e) <==> e.time > now - p.timeWindow
    ensures BufferAfter(p, maxBufferSize, adds) == Filter(Added(adds), newer)
  {
    BufferIsRecent(p, maxBufferSize, adds);
    RecentIsFilter(Added(adds), now - p.timeWindow, newer);
  }

  lemma {:induction false} RecentIsFilter(buffer: seq<Event>, cutoff: int, newer: Event -> bool)
    requires forall e: Event :: newer(e) == (e.time > cutoff)
    ensures Recent(buffer, cutoff) == Filter(buffer, newer)
  {
    if buffer != [] {
      RecentIsFilter(buffer[..|buffer| - 1], cutoff, newer);
    }
  }

  lemma {:induction false} BufferedKeepsOrder(
      p: Pattern, maxBufferSize: nat, buffer: seq<Event>, all: seq<Event>, e: Event, now: int)
    requires Subsequence(buffer, all)
    ensures Subsequence(Buffered(p, maxBufferSize, buffer, e, now), all + [e])
  {
    var recent := Recent(buffer + [e], now - p.timeWindow);
    SubsequenceSnoc(buffer, all, e);
    FilterIsSubsequence(buffer + [e], IsRecent(now - p.timeWindow));
    SubsequenceTrans(recent, buffer + [e], all + [e]);
    if |recent| > maxBufferSize {
      DropIsSubsequence(recent, |recent| - maxBufferSize);
      SubsequenceTrans(recent[|recent| - maxBufferSize..], recent, all + [e]);
    }
  }

  /** In any run the buffer keeps to its limit, holds added events in the order they were added, and ends with the
      newest if that is recent. */
  lemma {:induction false} BufferKeepsLimit(p: Pattern, maxBufferSize: nat, adds: seq<(Event, int)>)
    ensures |BufferAfter(p, maxBufferSize, adds)| <= maxBufferSize
    ensures Subsequence(BufferAfter(p, maxBufferSize, adds), Added(adds))
    ensures adds != [] && maxBufferSize > 0 && adds[|adds| - 1].0.time > adds[|adds| - 1].1 - p.timeWindow ==>
              var buffer := BufferAfter(p, maxBufferSize, adds);
              buffer != [] && buffer[|buffer| - 1] == adds[|adds| - 1].0
  {
    if adds != [] {
      var before, e, now := adds[..|adds| - 1], adds[|adds| - 1].0, adds[|adds| - 1].1;
      var buffer := BufferAfter(p, maxBufferSize, before);
      BufferKeepsLimit(p, maxBufferSize, before);
      AddedSnoc(adds);
      BufferedKeepsOrder(p, maxBufferSize, buffer, Added(before), e, now);
      FilterSnoc(buffer, e, IsRecent(now - p.timeWindow));
    }
  }

  // ------------------------------------------------------------------
  // Plain patterns
  // ------------------------------------------------------------------

  predicate PlainStep(ep: EventPattern) {
    && ep.quantifier == ExactlyOne && !ep.optional && !ep.negated && ep.temporal.None?
    && forall key :: key in ep.predicates ==> !IsOperator(ep.predicates[key])
  }

  /** Two or more required, exactly-one steps, without operator texts and gaps; window and conditions are arbitrary. */
  predicate Plain(p: Pattern) {
    && |p.events| >= 2
    && forall s :: 0 <= s < |p.events| ==> PlainStep(p.events[s])
  }

  predicate AllTyped(buffer: seq<Event>) {
    forall i :: 0 <= i < |buffer| ==> Kind(buffer[i]).Some?
  }

  /** The two tests agree on typed events and patterns without operator texts. */
  lemma {:induction false} MatchersAgree(e: Event, ep: EventPattern)
    requires Kind(e).Some? && PlainStep(ep)
    ensures EngineMatches(e, ep) <==> MatcherMatches(e, ep)
  {
    if MatcherMatches(e, ep) {
      forall key | key in ep.predicates ensures FieldMatches(e, ep, key, ep.predicates[key]) {
      }
    }
    if EngineMatches(e, ep) {
      forall key | key in ep.predicates ensures key in e.fields && e.fields[key] == ep.predicates[key] {
        assert FieldMatches(e, ep, key, ep.predicates[key]);
      }
    }
  }

  /** The events of `w` satisfy the first |w| steps, one each. */
  predicate MatchesPrefix(p: Pattern, w: seq<Event>) {
    |w| <= |p.events| && forall j :: 0 <= j < |w| ==> EngineMatches(w[j], p.events[j])
  }

  lemma {:induction false} MatchesPrefixSnoc(p: Pattern, w: seq<Event>, e: Event)
    requires |w| < |p.events|
    ensures MatchesPrefix(p, w + [e]) <==> MatchesPrefix(p, w) && EngineMatches(e, p.events[|w|])
  {
    var w' := w + [e];
    if MatchesPrefix(p, w') {
      forall j | 0 <= j < |w| ensures EngineMatches(w[j], p.events[j]) {
        assert w'[j] == w[j];
      }
      assert w'[|w|] == e;
    }
  }

  /** All events lie within the pattern's window, if it has one, of the first. */
  predicate InWindow(p: Pattern, w: seq<Event>) {
    p.timeWindow > 0 ==> forall j :: 0 <= j < |w| ==> w[j].time - w[0].time <= p.timeWindow
  }

  lemma {:induction false} InWindowSnoc(p: Pattern, w: seq<Event>, e: Event)
    requires w != []
    ensures InWindow(p, w + [e]) <==> InWindow(p, w) && (p.timeWindow > 0 ==> e.time - w[0].time <= p.timeWindow)
  {
    var w' := w + [e];
    assert w'[0] == w[0] && w'[|w|] == e;
    if InWindow(p, w') && p.timeWindow > 0 {
      forall j | 0 <= j < |w| ensures w[j].time - w[0].time <= p.timeWindow {
        assert w'[j] == w[j];
      }
    }
  }

  function Ones(n: nat): map<nat, nat> {
    if n == 0 then map[] else Ones(n - 1)[n - 1 := 1]
  }

  lemma {:induction false} OnesKeys(n: nat)
    ensures forall s :: s in Ones(n) ==> s < n
  {
    if n > 0 {
      OnesKeys(n - 1);
    }
  }

  /** The partial match of a plain pattern that has consumed exactly `w`. */
  function PlainPartial(w: seq<Event>): Partial
    requires w != []
  {
    Partial(w, |w|, w[0].time, w[|w| - 1].time, Ones(|w|), [])
  }

  function WindowLife(p: Pattern, w: seq<Event>): Life {
    if w == [] || !MatchesPrefix(p, w) || !InWindow(p, w) then Gone
    else if |w| < |p.events| then Active(PlainPartial(w))
    else if p.conditions(w) then Emitted(PlainPartial(w))
    else Gone
  }

  lemma {:induction false} PlainAdvance(p: Pattern, w: seq<Event>, e: Event)
    requires Plain(p) && w != [] && MatchesPrefix(p, w) && |w| < |p.events| && InWindow(p, w + [e])
    ensures TryAdvance(p, PlainPartial(w), e) == WindowLife(p, w + [e])
  {
    var pm, ep, w' := PlainPartial(w), p.events[|w|], w + [e];
    assert PlainStep(ep);
    MatchesPrefixSnoc(p, w, e);
    assert w'[0] == w[0];
    OnesKeys(|w|);
  }

  lemma {:induction false} PlainNext(p: Pattern, w: seq<Event>, step: Step)
    requires Plain(p) && w != []
    ensures step.Arrive? && |w| < |p.events| ==>
              NextLife(p, 0, WindowLife(p, w), step) == WindowLife(p, w + [step.event])
    ensures step.Tick? && |w| < |p.events| ==> NextLife(p, 0, WindowLife(p, w), step) == WindowLife(p, w)
  {
    if |w| < |p.events| && step.Arrive? {
      MatchesPrefixSnoc(p, w, step.event);
      InWindowSnoc(p, w, step.event);
      if MatchesPrefix(p, w) && InWindow(p, w + [step.event]) {
        PlainAdvance(p, w, step.event);
      }
    }
  }

  // ------------------------------------------------------------------
  // The engine's state is the set of starts whose suffix matches a proper prefix of the pattern
  // ------------------------------------------------------------------

  /** The life of the start at buffer position `i`; a suffix longer than the pattern is over. */
  function StartLife(p: Pattern, buffer: seq<Event>, i: nat): Life
    requires i < |buffer|
  {
    WindowLife(p, buffer[i..])
  }

  function OpenStarts(p: Pattern, buffer: seq<Event>, k: nat): seq<Partial>
    requires k <= |buffer|
  {
    if k == 0 then [] else OpenStarts(p, buffer, k - 1) + ActiveOf(StartLife(p, buffer, k - 1))
  }

  function ClosingStarts(p: Pattern, buffer: seq<Event>, k: nat): seq<Match>
    requires k <= |buffer|
  {
    if k == 0 then [] else ClosingStarts(p, buffer, k - 1) + MatchOf(StartLife(p, buffer, k - 1))
  }

  lemma {:induction false} ArriveMovesStart(p: Pattern, buffer: seq<Event>, step: Step, i: nat)
    requires Plain(p) && i < |buffer| && step.Arrive?
    ensures ActiveOf(NextLife(p, 0, IfActive(StartLife(p, buffer, i)), step))
         == ActiveOf(StartLife(p, buffer + [step.event], i))
    ensures MatchOf(NextLife(p, 0, IfActive(StartLife(p, buffer, i)), step))
         == MatchOf(StartLife(p, buffer + [step.event], i))
  {
    var w := buffer[i..];
    assert (buffer + [step.event])[i..] == w + [step.event];
    if |w| < |p.events| {
      PlainNext(p, w, step);
    }
  }

  /** Only active matches are kept in the engine's list. */
  function IfActive(l: Life): Life {
    if l.Active? then l else Gone
  }

  /** One more partial match on the list takes its own step. */
  lemma {:induction false} OneMoreKept(
    p: Pattern, pms: seq<Partial>, l: Life, step: Step, kept: seq<Partial>, l': Life)
    requires Kept(p, 0, pms, step) == kept && ActiveOf(NextLife(p, 0, l, step)) == ActiveOf(l')
    ensures Kept(p, 0, pms + ActiveOf(l), step) == kept + ActiveOf(l')
  {
    KeptSnoc(p, 0, pms, l, step);
  }

  lemma {:induction false} OneMoreCompleted(
    p: Pattern, pms: seq<Partial>, l: Life, step: Step, done: seq<Match>, l': Life)
    requires Completed(p, 0, pms, step) == done && MatchOf(NextLife(p, 0, l, step)) == MatchOf(l')
    ensures Completed(p, 0, pms + ActiveOf(l), step) == done + MatchOf(l')
  {
    KeptSnoc(p, 0, pms, l, step);
  }

  lemma {:induction false} OpenStartsLast(p: Pattern, buffer: seq<Event>, k: nat)
    requires 0 < k <= |buffer|
    ensures OpenStarts(p, buffer, k)
         == OpenStarts(p, buffer, k - 1) + ActiveOf(IfActive(StartLife(p, buffer, k - 1)))
  {
  }

  lemma {:induction false} ArriveKeepsStarts(p: Pattern, buffer: seq<Event>, step: Step, k: nat)
    requires Plain(p) && k <= |buffer| && step.Arrive?
    ensures Kept(p, 0, OpenStarts(p, buffer, k), step) == OpenStarts(p, buffer + [step.event], k)
  {
    if k > 0 {
      var i, longer := k - 1, buffer + [step.event];
      ArriveKeepsStarts(p, buffer, step, i);
      ArriveMovesStart(p, buffer, step, i);
      OpenStartsLast(p, buffer, k);
      OneMoreKept(p, OpenStarts(p, buffer, i), IfActive(StartLife(p, buffer, i)), step, OpenStarts(p, longer, i),
                  StartLife(p, longer, i));
    }
  }

  lemma {:induction false} ArriveCompletesStarts(p: Pattern, buffer: seq<Event>, step: Step, k: nat)
    requires Plain(p) && k <= |buffer| && step.Arrive?
    ensures Completed(p, 0, OpenStarts(p, buffer, k), step) == ClosingStarts(p, buffer + [step.event], k)
  {
    if k > 0 {
      var i, longer := k - 1, buffer + [step.event];
      ArriveCompletesStarts(p, buffer, step, i);
      ArriveMovesStart(p, buffer, step, i);
      OpenStartsLast(p, buffer, k);
      OneMoreCompleted(p, OpenStarts(p, buffer, i), IfActive(StartLife(p, buffer, i)), step,
                       ClosingStarts(p, longer, i), StartLife(p, longer, i));
    }
  }

  lemma {:induction false} TickKeepsOne(p: Pattern, pm: Partial, step: Step)
    requires step.Tick?
    ensures ActiveOf(AfterStep(p, 0, pm, step)) == [pm] && MatchOf(AfterStep(p, 0, pm, step)) == []
  {
  }

  lemma {:induction false} TickKeepsAll(p: Pattern, pms: seq<Partial>, step: Step)
    requires step.Tick?
    ensures Kept(p, 0, pms, step) == pms
  {
    if pms != [] {
      TickKeepsAll(p, pms[..|pms| - 1], step);
      TickKeepsOne(p, pms[|pms| - 1], step);
      LastJoins(pms);
    }
  }

  lemma {:induction false} TickCompletesNone(p: Pattern, pms: seq<Partial>, step: Step)
    requires step.Tick?
    ensures Completed(p, 0, pms, step) == []
  {
    if pms != [] {
      TickCompletesNone(p, pms[..|pms| - 1], step);
      TickKeepsOne(p, pms[|pms| - 1], step);
    }
  }

  lemma {:induction false} NewStart(p: Pattern, buffer: seq<Event>, step: Step)
    requires Plain(p) && step.Arrive?
    ensures ActiveOf(Begun(p, step)) == ActiveOf(StartLife(p, buffer + [step.event], |buffer|))
    ensures MatchOf(StartLife(p, buffer + [step.event], |buffer|)) == []
  {
    var e := step.event;
    assert (buffer + [e])[|buffer|..] == [e];
    assert PlainStep(p.events[0]);
    MatchesPrefixSnoc(p, [], e);
    assert [] + [e] == [e] && InWindow(p, [e]);
    assert Ones(1) == map[][0 := 1];
  }

  lemma {:induction false} ArriveMovesState(p: Pattern, buffer: seq<Event>, step: Step)
    requires Plain(p) && step.Arrive?
    ensures NextState(p, 0, OpenStarts(p, buffer, |buffer|), step)
         == OpenStarts(p, buffer + [step.event], |buffer| + 1)
  {
    ArriveKeepsStarts(p, buffer, step, |buffer|);
    NewStart(p, buffer, step);
  }

  lemma {:induction false} TickKeepsState(p: Pattern, pms: seq<Partial>, step: Step)
    requires step.Tick?
    ensures NextState(p, 0, pms, step) == pms
  {
    TickKeepsAll(p, pms, step);
    assert pms + [] == pms;
  }

  /** At every point of every run, the engine's partial matches are, in start order, the starts whose suffix of the
      events seen so far matches a proper prefix of the pattern. */
  lemma {:induction false} StateIsOpenStarts(p: Pattern, run: seq<Step>)
    requires Plain(p)
    ensures State(p, 0, run) == OpenStarts(p, Arrivals(run), |Arrivals(run)|)
  {
    if run != [] {
      var before, last := run[..|run| - 1], run[|run| - 1];
      var buffer := Arrivals(before);
      StateIsOpenStarts(p, before);
      if last.Arrive? {
        ArriveMovesState(p, buffer, last);
        assert Arrivals(run) == buffer + [last.event];
      } else {
        TickKeepsState(p, OpenStarts(p, buffer, |buffer|), last);
        assert Arrivals(run) == buffer;
      }
    }
  }

  // ------------------------------------------------------------------
  // The refinement
  // ------------------------------------------------------------------

  /** A plain scan succeeds exactly when the next |events| events match, one step each. */
  lemma {:induction false} PlainScan(p: Pattern, buffer: seq<Event>, start: nat, i: nat)
    requires Plain(p) && AllTyped(buffer) && start <= i <= |buffer| && MatchesPrefix(p, buffer[start..i])
    ensures Scan(p, buffer, i, i - start, buffer[start..i])
         == if start + |p.events| <= |buffer| && MatchesPrefix(p, buffer[start..start + |p.events|])
            then Some(buffer[start..start + |p.events|]) else None
    decreases |buffer| - i
  {
    var idx := i - start;
    if idx < |p.events| && i < |buffer| {
      assert PlainStep(p.events[idx]);
      MatchersAgree(buffer[i], p.events[idx]);
      assert buffer[start..i + 1] == buffer[start..i] + [buffer[i]];
      MatchesPrefixSnoc(p, buffer[start..i], buffer[i]);
      if EngineMatches(buffer[i], p.events[idx]) {
        PlainScan(p, buffer, start, i + 1);
      } else if start + |p.events| <= |buffer| {
        SliceAt(buffer, start, start + |p.events|, i);
      }
    }
  }

  lemma {:induction false} SliceAt<T>(s: seq<T>, lo: nat, hi: nat, i: nat)
    requires lo <= i < hi <= |s|
    ensures s[lo..hi][i - lo] == s[i]
  {
  }

  /** The matcher does not look at the window; these of its matches lie inside it. */
  function InTime(p: Pattern): Match -> bool {
    (m: Match) => InWindow(p, m.events)
  }

  /** What the matcher finds at position `i` of a plain pattern, inside the window. */
  function FoundAt(p: Pattern, buffer: seq<Event>, i: nat): seq<Match> {
    if i + |p.events| <= |buffer| then MatchOf(WindowLife(p, buffer[i..i + |p.events|])) else []
  }

  lemma {:induction false} FoundIsWindow(p: Pattern, buffer: seq<Event>, i: nat)
    requires Plain(p) && AllTyped(buffer) && i <= |buffer|
    ensures Filter(Found(p, Scan(p, buffer, i, 0, [])), InTime(p)) == FoundAt(p, buffer, i)
  {
    assert buffer[i..i] == [];
    PlainScan(p, buffer, i, i);
    var ms := Found(p, Scan(p, buffer, i, 0, []));
    if ms != [] {
      assert ms[..0] == [];
    }
  }

  /** The matches inside the window that start before position `k`. */
  function InTimeUpTo(p: Pattern, buffer: seq<Event>, k: nat): seq<Match> {
    Filter(MatchesUpTo(p, buffer, k), InTime(p))
  }

  lemma {:induction false} InTimeUpToSnoc(p: Pattern, buffer: seq<Event>, k: nat)
    requires Plain(p) && AllTyped(buffer) && k <= |buffer|
    ensures InTimeUpTo(p, buffer, k + 1) == InTimeUpTo(p, buffer, k) + FoundAt(p, buffer, k)
  {
    FilterConcat(MatchesUpTo(p, buffer, k), Found(p, Scan(p, buffer, k, 0, [])), InTime(p));
    FoundIsWindow(p, buffer, k);
  }

  lemma {:induction false} TypedPrefix(buffer: seq<Event>, e: Event)
    requires AllTyped(buffer + [e])
    ensures AllTyped(buffer)
  {
    forall j | 0 <= j < |buffer| ensures Kind(buffer[j]).Some? {
      assert (buffer + [e])[j] == buffer[j];
    }
  }

  /** Only a start whose suffix is as long as the pattern completes. */
  lemma {:induction false} OthersDoNotComplete(p: Pattern, buffer: seq<Event>, i: nat)
    requires i < |buffer| && |buffer| - i != |p.events|
    ensures MatchOf(StartLife(p, buffer, i)) == []
  {
  }

  /** Position `i` matches in the longer buffer if it did before, or if its window ends now. */
  lemma {:induction false} FoundOneMore(p: Pattern, buffer: seq<Event>, e: Event, i: nat)
    requires Plain(p) && i < |buffer|
    ensures var longer := buffer + [e];
            FoundAt(p, longer, i) == FoundAt(p, buffer, i) + MatchOf(StartLife(p, longer, i))
    ensures FoundAt(p, buffer, i) == [] || ClosingStarts(p, buffer + [e], i) == []
  {
    var longer, n := buffer + [e], |p.events|;
    if i + n == |longer| {
      assert longer[i..i + n] == longer[i..];
      assert FoundAt(p, buffer, i) == [];
    } else {
      OthersDoNotComplete(p, longer, i);
      if i + n <= |buffer| {
        assert longer[i..i + n] == buffer[i..i + n];
        NoClosingBefore(p, longer, i);
      }
    }
  }

  /** Matches of the longer buffer that start before `k`: those of the shorter one, and the one that ends now. */
  lemma {:induction false} OneMoreEvent(p: Pattern, buffer: seq<Event>, e: Event, k: nat)
    requires Plain(p) && AllTyped(buffer + [e]) && k <= |buffer|
    ensures InTimeUpTo(p, buffer + [e], k) == InTimeUpTo(p, buffer, k) + ClosingStarts(p, buffer + [e], k)
  {
    if k > 0 {
      var i, longer := k - 1, buffer + [e];
      OneMoreEvent(p, buffer, e, i);
      TypedPrefix(buffer, e);
      InTimeUpToSnoc(p, buffer, i);
      InTimeUpToSnoc(p, longer, i);
      FoundOneMore(p, buffer, e, i);
      ClosingStartsLast(p, longer, k);
      Interleave(InTimeUpTo(p, longer, i), FoundAt(p, longer, i), InTimeUpTo(p, buffer, i),
                 ClosingStarts(p, longer, i), FoundAt(p, buffer, i), MatchOf(StartLife(p, longer, i)));
    }
  }

  lemma {:induction false} Interleave(
    ab: seq<Match>, xy: seq<Match>, a: seq<Match>, b: seq<Match>, x: seq<Match>, y: seq<Match>)
    requires ab == a + b && xy == x + y && (x == [] || b == [])
    ensures ab + xy == (a + x) + (b + y)
  {
  }

  lemma {:induction false} ClosingStartsLast(p: Pattern, buffer: seq<Event>, k: nat)
    requires 0 < k <= |buffer|
    ensures ClosingStarts(p, buffer, k) == ClosingStarts(p, buffer, k - 1) + MatchOf(StartLife(p, buffer, k - 1))
  {
  }

  /** Starts too far from the end are over. */
  lemma {:induction false} NoClosingBefore(p: Pattern, buffer: seq<Event>, k: nat)
    requires k <= |buffer| && k + |p.events| <= |buffer|
    ensures ClosingStarts(p, buffer, k) == []
  {
    if k > 0 {
      NoClosingBefore(p, buffer, k - 1);
    }
  }

  /** The matches in the buffer that lie inside the window. */
  function InTimeMatches(p: Pattern, buffer: seq<Event>): seq<Match> {
    Filter(FindMatches(p, buffer), InTime(p))
  }

  lemma {:induction false} FindOneMore(p: Pattern, buffer: seq<Event>, e: Event)
    requires Plain(p) && AllTyped(buffer + [e])
    ensures InTimeMatches(p, buffer + [e]) == InTimeMatches(p, buffer) + ClosingStarts(p, buffer + [e], |buffer|)
  {
    OneMoreEvent(p, buffer, e, |buffer|);
    InTimeUpToSnoc(p, buffer + [e], |buffer|);
  }

  /** A step emits the matches whose last event is the one that arrives. */
  lemma {:induction false} LastEmission(p: Pattern, run: seq<Step>, last: Step)
    requires Plain(p)
    ensures last.Arrive? ==>
              EmittedLast(p, 0, run + [last]) == ClosingStarts(p, Arrivals(run) + [last.event], |Arrivals(run)|)
    ensures last.Tick? ==> EmittedLast(p, 0, run + [last]) == []
  {
    assert (run + [last])[..|run|] == run;
    StateIsOpenStarts(p, run);
    if last.Arrive? {
      ArriveCompletesStarts(p, Arrivals(run), last, |Arrivals(run)|);
    } else {
      TickCompletesNone(p, State(p, 0, run), last);
    }
  }

  lemma {:induction false} RefinementLast(p: Pattern, run: seq<Step>)
    requires run != [] && Plain(p) && AllTyped(Arrivals(run))
    ensures var before := Arrivals(run[..|run| - 1]);
            && AllTyped(before)
            && InTimeMatches(p, Arrivals(run)) == InTimeMatches(p, before) + EmittedLast(p, 0, run)
  {
    var before, last := run[..|run| - 1], run[|run| - 1];
    assert before + [last] == run;
    LastEmission(p, before, last);
    if last.Arrive? {
      TypedPrefix(Arrivals(before), last.event);
      FindOneMore(p, Arrivals(before), last.event);
    } else {
      assert Arrivals(before) + [] == Arrivals(before);
    }
  }

  /** For plain patterns with any window, over any run of typed events and background cleanups and without timeouts, the
      incremental engine emits exactly, and in the same order, those matches inside the window that rescanning the whole
      event buffer finds. */
  lemma {:induction false} EngineRefinesMatcher(p: Pattern, run: seq<Step>)
    requires Plain(p) && AllTyped(Arrivals(run))
    ensures EmittedBy(p, 0, run) == InTimeMatches(p, Arrivals(run))
  {
    if run != [] {
      RefinementLast(p, run);
      EngineRefinesMatcher(p, run[..|run| - 1]);
    }
  }

  /** Without a window, that is everything it finds. */
  lemma {:induction false} NoWindowNoFilter(p: Pattern, buffer: seq<Event>)
    requires p.timeWindow <= 0
    ensures InTimeMatches(p, buffer) == FindMatches(p, buffer)
  {
    FilterAll(FindMatches(p, buffer), InTime(p));
  }

  lemma {:induction false} NothingDropped(p: Pattern, maxBufferSize: nat, buffer: seq<Event>, e: Event, now: int)
    requires |buffer| < maxBufferSize && forall x :: x in buffer + [e] ==> x.time > now - p.timeWindow
    ensures Buffered(p, maxBufferSize, buffer, e, now) == buffer + [e]
  {
    FilterAll(buffer + [e], IsRecent(now - p.timeWindow));
  }

  lemma {:induction false} ArrivalsSnoc(run: seq<Step>, e: Event, now: int)
    ensures Arrivals(run + [Arrive(e, now)]) == Arrivals(run) + [e]
  {
    assert (run + [Arrive(e, now)])[..|run|] == run;
  }

  /** While everything seen is recent enough to survive pruning and fits the buffer, `AddEvent` answers, up to the
      window, with all that the engine has emitted so far. */
  lemma {:induction false} AddEventFindsEmissions(p: Pattern, maxBufferSize: nat, run: seq<Step>, e: Event, now: int)
    requires Plain(p) && AllTyped(Arrivals(run) + [e]) && |Arrivals(run)| < maxBufferSize
    requires forall x :: x in Arrivals(run) + [e] ==> x.time > now - p.timeWindow
    ensures var buffer := Buffered(p, maxBufferSize, Arrivals(run), e, now);
            && buffer == Arrivals(run) + [e]
            && EmittedBy(p, 0, run + [Arrive(e, now)]) == Filter(FindMatches(p, buffer), InTime(p))
  {
    NothingDropped(p, maxBufferSize, Arrivals(run), e, now);
    ArrivalsSnoc(run, e, now);
    EngineRefinesMatcher(p, run + [Arrive(e, now)]);
  }
}
