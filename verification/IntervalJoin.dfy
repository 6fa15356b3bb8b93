/** The interval join: a right event pairs with the left events whose interval contains it
    (pkg/join/interval_join.go). */
module IntervalJoins {
  import opened Seqs
  import opened JoinStates
  import opened JoinOperators
  import opened KeyedJoins

  predicate InInterval(cfg: JoinConfig, l: Event, r: Event) {
    l.time + cfg.lowerBound <= r.time <= l.time + cfg.upperBound
  }

  /** The pairs the join is for. */
  predicate Joinable(cfg: JoinConfig, l: Event, r: Event) {
    l.key == r.key && InInterval(cfg, l, r) && cfg.condition(l, r)
  }

  function IntervalPairing(cfg: JoinConfig): Pairing {
    (l: Event, r: Event) => InInterval(cfg, l, r) && cfg.condition(l, r)
  }

  /** Until when an event is kept: left events by their interval, right events by the retention. */
  function Expiry(cfg: JoinConfig, side: Side, e: Event): int {
    if side.LeftSide? then e.time + cfg.upperBound + cfg.allowedLateness else e.time + cfg.stateRetention
  }

  /** Only an unmatched right event is padded on arrival; an unmatched left one never is. */
  predicate PadsOnArrival(cfg: JoinConfig, side: Side) {
    side.RightSide? && (cfg.joinType.RightOuterJoin? || cfg.joinType.FullOuterJoin?)
  }

  function StoredFor(cfg: JoinConfig, side: Side, e: Event, now: int): StoredEvent {
    StoredEvent(e, side, now, Expiry(cfg, side, e), 0)
  }

  ghost function IntervalStep(cfg: JoinConfig, s: Store, step: Step): (Store, seq<JoinResult>) {
    match step
    case Cleanup(now) => (ExpireAll(s, now), [])
    case Arrive(side, e, now) =>
      var s1 := AddTo(cfg.maxStateSize, s, StoredFor(cfg, side, e, now));
      var (s', rows) := ProbeKey(IntervalPairing(cfg), s1, side, e, e.key);
      (s', if rows == [] && PadsOnArrival(cfg, side) then [Padded(side, e)] else rows)
  }

  /** State and rows emitted after a run that starts with an empty operator. */
  ghost function Run(cfg: JoinConfig, steps: seq<Step>): (Store, seq<JoinResult>) {
    if steps == [] then (EMPTY_STORE, []) else
      var (s, out) := Run(cfg, steps[..|steps| - 1]);
      var (s', rows) := IntervalStep(cfg, s, steps[|steps| - 1]);
      (s', out + rows)
  }

  /** The clock never goes back, and every event arrives within the allowed lateness. */
  ghost predicate Timely(cfg: JoinConfig, steps: seq<Step>) {
    && (forall i, j :: 0 <= i < j < |steps| ==> steps[i].now <= steps[j].now)
    && (forall i :: 0 <= i < |steps| && steps[i].Arrive? ==>
          steps[i].now <= steps[i].event.time + cfg.allowedLateness)
  }

  lemma {:induction false} RunSnoc(cfg: JoinConfig, before: seq<Step>, last: Step)
    ensures Run(cfg, before + [last]).0 == IntervalStep(cfg, Run(cfg, before).0, last).0
  {
    assert (before + [last])[..|before|] == before;
  }

  lemma {:induction false} RunCount(cfg: JoinConfig, before: seq<Step>, last: Step, row: JoinResult)
    ensures multiset(Run(cfg, before + [last]).1)[row]
         == multiset(Run(cfg, before).1)[row] + multiset(IntervalStep(cfg, Run(cfg, before).0, last).1)[row]
  {
    assert (before + [last])[..|before|] == before;
  }

  // ------------------------------------------------------------------
  // What a run emits
  // ------------------------------------------------------------------

  function IntervalRules(cfg: JoinConfig): Rules {
    Rules((l: Event, r: Event) => Joinable(cfg, l, r),
          (side: Side, e: Event) => Expiry(cfg, side, e),
          (side: Side) => PadsOnArrival(cfg, side),
          cfg.maxStateSize)
  }

  lemma {:induction false} IntervalStepIs(cfg: JoinConfig, s: Store, steps: seq<Step>, step: Step)
    requires Fits(IntervalRules(cfg), s, steps)
    ensures IntervalStep(cfg, s, step) == StepOf(IntervalRules(cfg), s, step, OwnKey(step))
    ensures Visits(IntervalRules(cfg), s, step, OwnKey(step))
  {
    var rules := IntervalRules(cfg);
    OwnKeySuffices(rules, s, step);
    if step.Arrive? {
      var s1, other := AddTo(cfg.maxStateSize, s, StoredFor(cfg, step.side, step.event, step.now)), Opposite(step.side);
      assert SideFits(rules, s, steps, other);
      ShapedByKey(rules, s, steps, other);
      assert ByKey(s1, other) by {
        assert forall key :: s1.List(other, key) == s.List(other, key);
      }
      OwnKeyProbe(IntervalPairing(cfg), rules.pairs, s1, step.side, step.event);
    }
  }

  /** A run emits the rows that are due, and its state holds what is alive. */
  lemma {:induction false} RunEmitsDue(cfg: JoinConfig, steps: seq<Step>, row: JoinResult)
    requires NeverEvicts(cfg.maxStateSize, steps)
    ensures Fits(IntervalRules(cfg), Run(cfg, steps).0, steps)
    ensures multiset(Run(cfg, steps).1)[row] == DueRows(IntervalRules(cfg), steps, row)
    decreases |steps|
  {
    var rules := IntervalRules(cfg);
    if steps == [] {
      EmptyFits(rules);
    } else {
      var before, last := steps[..|steps| - 1], steps[|steps| - 1];
      var s := Run(cfg, before).0;
      LastJoins(steps);
      PrefixNeverEvicts(cfg.maxStateSize, before, last);
      RunEmitsDue(cfg, before, row);
      IntervalStepIs(cfg, s, before, last);
      StepKeepsFit(rules, s, before, last, OwnKey(last));
      StepEmitsDue(rules, s, before, last, OwnKey(last), row);
      RunSnoc(cfg, before, last);
      RunCount(cfg, before, last, row);
    }
  }

  lemma {:induction false} RunCounts(cfg: JoinConfig, steps: seq<Step>, l: Event, r: Event)
    requires NeverEvicts(cfg.maxStateSize, steps)
    ensures multiset(Run(cfg, steps).1)[Pair(l, r)]
         == if Joinable(cfg, l, r) then Met(IntervalRules(cfg).expiry, steps, l, r) else 0
    ensures multiset(Run(cfg, steps).1)[Padded(LeftSide, l)] == 0
    ensures multiset(Run(cfg, steps).1)[Padded(RightSide, r)]
         == if PadsOnArrival(cfg, RightSide)
            then Unmet(IntervalRules(cfg).expiry, IntervalRules(cfg).pairs, steps, RightSide, r) else 0
  {
    RunEmitsDue(cfg, steps, Pair(l, r));
    RunEmitsDue(cfg, steps, Padded(LeftSide, l));
    RunEmitsDue(cfg, steps, Padded(RightSide, r));
  }

  /** Every row of an interval join, over every run without evictions and with cleanups at any times: a pair is emitted
      once for each time its occurrences meet, a left event is never padded, and a right event is padded once for each
      arrival that meets nothing it joins. */
  lemma {:induction false} IntervalJoinRows(
      cfg: JoinConfig, steps: seq<Step>, expiry: Expiries, joins: Pairing, l: Event, r: Event)
    requires NeverEvicts(cfg.maxStateSize, steps)
    requires forall e :: expiry(LeftSide, e) == e.time + cfg.upperBound + cfg.allowedLateness
    requires forall e :: expiry(RightSide, e) == e.time + cfg.stateRetention
    requires forall a, b :: joins(a, b) <==>
               a.key == b.key && a.time + cfg.lowerBound <= b.time <= a.time + cfg.upperBound && cfg.condition(a, b)
    ensures var rows, t := multiset(Run(cfg, steps).1), cfg.joinType;
            && rows[JoinResult(Some(l), Some(r), if l.time < r.time then r.time else l.time, l.key)]
               == (if joins(l, r) then Met(expiry, steps, l, r) else 0)
            && rows[JoinResult(Some(l), None, l.time, l.key)] == 0
            && rows[JoinResult(None, Some(r), r.time, r.key)]
               == (if t.RightOuterJoin? || t.FullOuterJoin? then Unmet(expiry, joins, steps, RightSide, r) else 0)
  {
    var rules := IntervalRules(cfg);
    RunCounts(cfg, steps, l, r);
    SameMet(expiry, rules.expiry, steps, l, r);
    SameUnmet(expiry, rules.expiry, joins, rules.pairs, steps, RightSide, r);
  }

  // ------------------------------------------------------------------
  // Completeness
  // ------------------------------------------------------------------

  /** How often the pair (l, r) has to be emitted: once per pair of occurrences. */
  ghost function Due(cfg: JoinConfig, steps: seq<Step>, l: Event, r: Event): nat {
    if Joinable(cfg, l, r) then Pairs(Arrived(steps, LeftSide)[l], Arrived(steps, RightSide)[r]) else 0
  }

  /** Each matching pair of occurrences has been emitted exactly once. */
  ghost predicate Complete(cfg: JoinConfig, steps: seq<Step>) {
    forall l, r :: multiset(Run(cfg, steps).1)[Pair(l, r)] == Due(cfg, steps, l, r)
  }

  /** The right event is kept until its left partner has arrived, however late that is. */
  predicate KeptForPartner(cfg: JoinConfig, l: Event, r: Event) {
    r.time + cfg.stateRetention >= l.time + cfg.allowedLateness
  }

  /** What completeness needs: every right event is kept for all its partners. */
  ghost predicate RetainsLongEnough(cfg: JoinConfig) {
    forall l, r :: Joinable(cfg, l, r) ==> KeptForPartner(cfg, l, r)
  }

  lemma {:induction false} PrefixIsTimely(cfg: JoinConfig, before: seq<Step>, last: Step)
    requires Timely(cfg, before + [last])
    ensures Timely(cfg, before)
    ensures before != [] ==> before[|before| - 1].now <= last.now
    ensures last.Arrive? ==> last.now <= last.event.time + cfg.allowedLateness
  {
    var steps := before + [last];
    assert steps[|before|] == last && forall i :: 0 <= i < |before| ==> steps[i] == before[i];
  }

  /** In time order, what outlasts the next step has outlasted every cleanup before it. */
  lemma {:induction false} TimelyOutlasts(
      cfg: JoinConfig, expiry: Expiries, before: seq<Step>, last: Step, side: Side, x: Event)
    requires Timely(cfg, before + [last]) && last.now <= expiry(side, x)
    ensures Outlasts(expiry, before, side, x)
  {
    var steps := before + [last];
    forall i | 0 <= i < |before| && before[i].Cleanup? ensures before[i].now <= expiry(side, x) {
      assert steps[i] == before[i] && steps[|before|] == last;
    }
  }

  /** What an arriving event finds alive of a partner is all that ever arrived of it. */
  lemma {:induction false} TimelyFinds(cfg: JoinConfig, before: seq<Step>, last: Step, l: Event, r: Event)
    requires Joinable(cfg, l, r) && KeptForPartner(cfg, l, r) && Timely(cfg, before + [last])
    ensures last.Arrive? && last.side.LeftSide? && last.event == l ==>
              Alive(IntervalRules(cfg).expiry, before, RightSide, r) == Arrived(before, RightSide)[r]
    ensures last.Arrive? && last.side.RightSide? && last.event == r ==>
              Alive(IntervalRules(cfg).expiry, before, LeftSide, l) == Arrived(before, LeftSide)[l]
  {
    var expiry := IntervalRules(cfg).expiry;
    PrefixIsTimely(cfg, before, last);
    if last.Arrive? && last.side.LeftSide? && last.event == l {
      TimelyOutlasts(cfg, expiry, before, last, RightSide, r);
      AliveIsAll(expiry, before, RightSide, r);
    } else if last.Arrive? && last.side.RightSide? && last.event == r {
      TimelyOutlasts(cfg, expiry, before, last, LeftSide, l);
      AliveIsAll(expiry, before, LeftSide, l);
    }
  }

  lemma {:induction false} TimelyStep(cfg: JoinConfig, before: seq<Step>, last: Step, l: Event, r: Event)
    requires Joinable(cfg, l, r) && KeptForPartner(cfg, l, r) && Timely(cfg, before + [last])
    requires Met(IntervalRules(cfg).expiry, before, l, r)
          == Pairs(Arrived(before, LeftSide)[l], Arrived(before, RightSide)[r])
    ensures Met(IntervalRules(cfg).expiry, before + [last], l, r)
         == Pairs(Arrived(before + [last], LeftSide)[l], Arrived(before + [last], RightSide)[r])
  {
    TimelyFinds(cfg, before, last, l, r);
    MetGrows(IntervalRules(cfg).expiry, before, last, l, r);
  }

  /** On a timely run the occurrences of a pair all meet. */
  lemma {:induction false} TimelyPairsMeet(cfg: JoinConfig, steps: seq<Step>, l: Event, r: Event)
    requires Joinable(cfg, l, r) && KeptForPartner(cfg, l, r) && Timely(cfg, steps)
    ensures Met(IntervalRules(cfg).expiry, steps, l, r)
         == Pairs(Arrived(steps, LeftSide)[l], Arrived(steps, RightSide)[r])
    decreases |steps|
  {
    if steps == [] {
      NoPairs(0);
    } else {
      var before, last := steps[..|steps| - 1], steps[|steps| - 1];
      LastJoins(steps);
      PrefixIsTimely(cfg, before, last);
      TimelyPairsMeet(cfg, before, l, r);
      TimelyStep(cfg, before, last, l, r);
    }
  }

  /** Over every timely run, in every arrival order and with cleanups at any times, the emitted pairs are
      exactly those due. */
  lemma {:induction false} IntervalJoinIsComplete(cfg: JoinConfig, steps: seq<Step>)
    requires RetainsLongEnough(cfg) && Timely(cfg, steps) && NeverEvicts(cfg.maxStateSize, steps)
    ensures Complete(cfg, steps)
  {
    forall l, r ensures multiset(Run(cfg, steps).1)[Pair(l, r)] == Due(cfg, steps, l, r) {
      RunEmitsDue(cfg, steps, Pair(l, r));
      if Joinable(cfg, l, r) {
        TimelyPairsMeet(cfg, steps, l, r);
      }
    }
  }

  // ------------------------------------------------------------------
  // What rows there are
  // ------------------------------------------------------------------

  lemma {:induction false} RowsOfArrival(cfg: JoinConfig, s: Store, side: Side, e: Event, now: int, l: Event, r: Event)
    ensures var rows := ProbeRows(IntervalPairing(cfg), side, e, s.List(Opposite(side), e.key));
            var emitted := IntervalStep(cfg, s, Arrive(side, e, now)).1;
            && multiset(emitted)[Pair(l, r)] == multiset(rows)[Pair(l, r)]
            && (emitted == rows || (emitted == [Padded(side, e)] && PadsOnArrival(cfg, side)))
  {
    var s1 := AddTo(cfg.maxStateSize, s, StoredFor(cfg, side, e, now));
    assert s1.Of(Opposite(side)) == s.Of(Opposite(side));
  }

  lemma {:induction false} RunKeepsFiling(cfg: JoinConfig, steps: seq<Step>)
    ensures WellFiled(cfg.maxStateSize, Run(cfg, steps).0)
  {
    if steps != [] {
      var before, last := steps[..|steps| - 1], steps[|steps| - 1];
      var s := Run(cfg, before).0;
      RunKeepsFiling(cfg, before);
      match last {
        case Cleanup(now) => StepKeepsFiling(cfg.maxStateSize, s, Expire(now));
        case Arrive(side, e, now) =>
          var se := StoredFor(cfg, side, e, now);
          StepKeepsFiling(cfg.maxStateSize, s, Add(se));
          ProbeKeepsFiled(cfg.maxStateSize, IntervalPairing(cfg), AddTo(cfg.maxStateSize, s, se), side, e, e.key);
      }
    }
  }

  predicate IsPair(cfg: JoinConfig, row: JoinResult) {
    && row.left.Some? && row.right.Some?
    && row == Pair(row.left.value, row.right.value)
    && Joinable(cfg, row.left.value, row.right.value)
  }

  predicate IsRightPad(cfg: JoinConfig, row: JoinResult) {
    row.left.None? && row.right.Some? && row == Padded(RightSide, row.right.value) && PadsOnArrival(cfg, RightSide)
  }

  lemma {:induction false} RowsArePairs(cfg: JoinConfig, side: Side, e: Event, xs: seq<StoredEvent>, row: JoinResult)
    requires row in ProbeRows(IntervalPairing(cfg), side, e, xs)
    requires forall se :: se in xs ==> se.event.key == e.key
    ensures IsPair(cfg, row)
  {
    if row in ProbeRows(IntervalPairing(cfg), side, e, xs[..|xs| - 1]) {
      RowsArePairs(cfg, side, e, xs[..|xs| - 1], row);
    } else {
      assert xs[|xs| - 1] in xs;
    }
  }

  /** Whatever the join type and whatever is evicted or cleaned up, a row is a pair that belongs together or a padded
      right event: a left event is never padded. */
  lemma {:induction false} LeftIsNeverPadded(cfg: JoinConfig, steps: seq<Step>, row: JoinResult)
    requires row in Run(cfg, steps).1
    ensures IsPair(cfg, row) || IsRightPad(cfg, row)
    decreases |steps|
  {
    if steps != [] {
      var before, last := steps[..|steps| - 1], steps[|steps| - 1];
      if row in Run(cfg, before).1 {
        LeftIsNeverPadded(cfg, before, row);
      } else if last.Arrive? {
        var s, other := Run(cfg, before).0, Opposite(last.side);
        RunKeepsFiling(cfg, before);
        assert last.event.key in s.Of(other) ==>
            Filed(cfg.maxStateSize, other, last.event.key, s.Of(other)[last.event.key]);
        RowsOfArrival(cfg, s, last.side, last.event, last.now, last.event, last.event);
        if row != Padded(last.side, last.event) || !PadsOnArrival(cfg, last.side) {
          RowsArePairs(cfg, last.side, last.event, s.List(other, last.event.key), row);
        }
      }
    }
  }

  /** An inner or left outer interval join emits pairs and nothing else. */
  lemma {:induction false} OnlyPairs(cfg: JoinConfig, steps: seq<Step>, row: JoinResult)
    requires cfg.joinType.InnerJoin? || cfg.joinType.LeftOuterJoin?
    requires row in Run(cfg, steps).1
    ensures IsPair(cfg, row)
  {
    LeftIsNeverPadded(cfg, steps, row);
  }

  /** A left event that arrives alone leaves no row, whatever the join type. */
  lemma {:induction false} LoneLeftEventLeavesNoRow(cfg: JoinConfig, l: Event, now: int)
    ensures Run(cfg, [Arrive(LeftSide, l, now)]).1 == []
  {
    var step := Arrive(LeftSide, l, now);
    assert [step][..0] == [] && IntervalStep(cfg, EMPTY_STORE, step).1 == [];
  }

  /** So a left event is in the output, whatever the join type, exactly when a partner arrives as well. */
  lemma {:induction false} LeftAppearsIffPartnered(cfg: JoinConfig, steps: seq<Step>, l: Event)
    requires RetainsLongEnough(cfg) && Timely(cfg, steps) && NeverEvicts(cfg.maxStateSize, steps)
    ensures (exists row :: row in Run(cfg, steps).1 && row.left == Some(l))
       <==> Arrived(steps, LeftSide)[l] > 0 && exists r :: Arrived(steps, RightSide)[r] > 0 && Joinable(cfg, l, r)
  {
    var out := Run(cfg, steps).1;
    IntervalJoinIsComplete(cfg, steps);
    if row :| row in out && row.left == Some(l) {
      LeftIsNeverPadded(cfg, steps, row);
      var r := row.right.value;
      assert multiset(out)[Pair(l, r)] == Due(cfg, steps, l, r);
      SomePairs(Arrived(steps, LeftSide)[l], Arrived(steps, RightSide)[r]);
    }
    if r :| Arrived(steps, LeftSide)[l] > 0 && Arrived(steps, RightSide)[r] > 0 && Joinable(cfg, l, r) {
      SomePairs(Arrived(steps, LeftSide)[l], Arrived(steps, RightSide)[r]);
      assert multiset(out)[Pair(l, r)] == Due(cfg, steps, l, r);
      assert Pair(l, r) in out;
    }
  }

  // ------------------------------------------------------------------
  // A padded right event can still be matched
  // ------------------------------------------------------------------

  /** The right event, a cleanup, and then the left event. */
  function RightExpires(l: Event, r: Event, t0: int, t: int): seq<Step> {
    ([Arrive(RightSide, r, t0)] + [Cleanup(t)]) + [Arrive(LeftSide, l, t)]
  }

  lemma {:induction false} RightExpiresNeverEvicts(maxStateSize: int, l: Event, r: Event, t0: int, t: int)
    ensures NeverEvicts(maxStateSize, RightExpires(l, r, t0, t))
  {
    var a, b, c := Arrive(RightSide, r, t0), Cleanup(t), Arrive(LeftSide, l, t);
    forall side, key ensures KeyArrivals(([a] + [b]) + [c], side, key) <= 1 {
      KeyArrivalsSnoc([], a, side, key);
      KeyArrivalsSnoc([a], b, side, key);
      KeyArrivalsSnoc([a] + [b], c, side, key);
      assert [] + [a] == [a];
    }
  }

  lemma {:induction false} RightExpiresHistory(expiry: Expiries, l: Event, r: Event, t0: int, t: int)
    requires t > expiry(RightSide, r)
    ensures Met(expiry, RightExpires(l, r, t0, t), l, r) == 0
    ensures Arrived(RightExpires(l, r, t0, t), LeftSide)[l] == Arrived(RightExpires(l, r, t0, t), RightSide)[r] == 1
  {
    var a, b, c := Arrive(RightSide, r, t0), Cleanup(t), Arrive(LeftSide, l, t);
    FirstArrives(expiry, RightSide, l, r, t0);
    HistoryAfter(expiry, [a], b, RightSide, l, r);
    HistoryAfter(expiry, [a] + [b], c, RightSide, l, r);
  }

  /** When a right event is padded, a left partner can still come in time. */
  lemma {:induction false} RightFirstEmitsBoth(cfg: JoinConfig, l: Event, r: Event, t: int)
    requires PadsOnArrival(cfg, RightSide) && Joinable(cfg, l, r)
    ensures Padded(RightSide, r) in Run(cfg, PartnerLater(RightSide, l, r, t)).1
    ensures Pair(l, r) in Run(cfg, PartnerLater(RightSide, l, r, t)).1
  {
    var rules := IntervalRules(cfg);
    PartnerLaterNeverEvicts(cfg.maxStateSize, RightSide, l, r, t);
    PartnerLaterMeets(rules.expiry, rules.pairs, RightSide, l, r, t);
    RunCounts(cfg, PartnerLater(RightSide, l, r, t), l, r);
  }

  lemma {:induction false} PartnerLaterIsTimely(cfg: JoinConfig, l: Event, r: Event)
    ensures var t := (if l.time < r.time then l.time else r.time) + cfg.allowedLateness;
            Timely(cfg, PartnerLater(RightSide, l, r, t))
  {
  }

  lemma {:induction false} BothRowsTell(cfg: JoinConfig, steps: seq<Step>, l: Event, r: Event)
    requires Padded(RightSide, r) in Run(cfg, steps).1 && Pair(l, r) in Run(cfg, steps).1
    ensures PadsOnArrival(cfg, RightSide) && Joinable(cfg, l, r)
  {
    LeftIsNeverPadded(cfg, steps, Padded(RightSide, r));
    LeftIsNeverPadded(cfg, steps, Pair(l, r));
  }

  ghost predicate EmitsBoth(cfg: JoinConfig, steps: seq<Step>, l: Event, r: Event) {
    Timely(cfg, steps) && Padded(RightSide, r) in Run(cfg, steps).1 && Pair(l, r) in Run(cfg, steps).1
  }

  /** Padding does not mean that no match can come: on some timely run a right event is padded and paired with `l` as
      well, exactly when the join type pads at all and the two belong together. */
  lemma {:induction false} PaddedRightCanMatchIff(cfg: JoinConfig, l: Event, r: Event)
    ensures (exists steps :: EmitsBoth(cfg, steps, l, r))
       <==> (cfg.joinType.RightOuterJoin? || cfg.joinType.FullOuterJoin?) && Joinable(cfg, l, r)
  {
    if PadsOnArrival(cfg, RightSide) && Joinable(cfg, l, r) {
      var t := (if l.time < r.time then l.time else r.time) + cfg.allowedLateness;
      RightFirstEmitsBoth(cfg, l, r, t);
      PartnerLaterIsTimely(cfg, l, r);
      assert EmitsBoth(cfg, PartnerLater(RightSide, l, r, t), l, r);
    }
    forall steps | EmitsBoth(cfg, steps, l, r) ensures PadsOnArrival(cfg, RightSide) && Joinable(cfg, l, r) {
      BothRowsTell(cfg, steps, l, r);
    }
  }

  lemma {:induction false} SameCount(cfg: JoinConfig, steps: seq<Step>, steps': seq<Step>, row: JoinResult)
    requires cfg.joinType.InnerJoin? && Complete(cfg, steps) && Complete(cfg, steps') && row in Run(cfg, steps).1
    requires Arrived(steps, LeftSide) == Arrived(steps', LeftSide)
    requires Arrived(steps, RightSide) == Arrived(steps', RightSide)
    ensures multiset(Run(cfg, steps).1)[row] == multiset(Run(cfg, steps').1)[row]
  {
    OnlyPairs(cfg, steps, row);
    assert multiset(Run(cfg, steps).1)[Pair(row.left.value, row.right.value)]
        == Due(cfg, steps, row.left.value, row.right.value);
    assert multiset(Run(cfg, steps').1)[Pair(row.left.value, row.right.value)]
        == Due(cfg, steps', row.left.value, row.right.value);
  }

  /** The output does not depend on the order of arrival or on when cleanups happened. */
  lemma {:induction false} OutputIgnoresArrivalOrder(cfg: JoinConfig, steps: seq<Step>, steps': seq<Step>)
    requires cfg.joinType.InnerJoin? && RetainsLongEnough(cfg)
    requires Timely(cfg, steps) && NeverEvicts(cfg.maxStateSize, steps)
    requires Timely(cfg, steps') && NeverEvicts(cfg.maxStateSize, steps')
    requires Arrived(steps, LeftSide) == Arrived(steps', LeftSide)
    requires Arrived(steps, RightSide) == Arrived(steps', RightSide)
    ensures multiset(Run(cfg, steps).1) == multiset(Run(cfg, steps').1)
  {
    IntervalJoinIsComplete(cfg, steps);
    IntervalJoinIsComplete(cfg, steps');
    var out, out' := Run(cfg, steps).1, Run(cfg, steps').1;
    forall row ensures multiset(out)[row] == multiset(out')[row] {
      if row in out {
        SameCount(cfg, steps, steps', row);
      } else if row in out' {
        SameCount(cfg, steps', steps, row);
      }
    }
  }

  // ------------------------------------------------------------------
  // The retention bound is needed
  // ------------------------------------------------------------------

  /** A right event at the lower end of a late left event's interval, cleaned up before that event arrives. */
  function LateRun(cfg: JoinConfig, l: Event, r: Event): seq<Step> {
    var t := l.time + cfg.allowedLateness;
    RightExpires(l, r, if r.time + cfg.allowedLateness < t then r.time + cfg.allowedLateness else t, t)
  }

  lemma {:induction false} LateRunIsTimely(cfg: JoinConfig, l: Event, r: Event)
    ensures Timely(cfg, LateRun(cfg, l, r)) && NeverEvicts(cfg.maxStateSize, LateRun(cfg, l, r))
  {
    var t := l.time + cfg.allowedLateness;
    RightExpiresNeverEvicts(
      cfg.maxStateSize, l, r, if r.time + cfg.allowedLateness < t then r.time + cfg.allowedLateness else t, t);
  }

  lemma {:induction false} MissedPair(cfg: JoinConfig, steps: seq<Step>, l: Event, r: Event)
    requires NeverEvicts(cfg.maxStateSize, steps) && Joinable(cfg, l, r)
    requires Met(IntervalRules(cfg).expiry, steps, l, r) == 0
    requires Arrived(steps, LeftSide)[l] == Arrived(steps, RightSide)[r] == 1
    ensures !Complete(cfg, steps)
  {
    RunCounts(cfg, steps, l, r);
    SomePairs(1, 1);
  }

  lemma {:induction false} LateRunLosesThePair(cfg: JoinConfig, l: Event, r: Event)
    requires Joinable(cfg, l, r) && !KeptForPartner(cfg, l, r)
    ensures !Complete(cfg, LateRun(cfg, l, r))
  {
    var t := l.time + cfg.allowedLateness;
    var t0 := if r.time + cfg.allowedLateness < t then r.time + cfg.allowedLateness else t;
    LateRunIsTimely(cfg, l, r);
    RightExpiresHistory(IntervalRules(cfg).expiry, l, r, t0, t);
    MissedPair(cfg, LateRun(cfg, l, r), l, r);
  }

  /** For every configuration: completeness on every timely run without evictions is the same as keeping each right
      event for all its partners. */
  lemma {:induction false} CompleteIffRetained(cfg: JoinConfig)
    ensures (forall l, r :: Joinable(cfg, l, r) ==> r.time + cfg.stateRetention >= l.time + cfg.allowedLateness)
       <==> forall steps: seq<Step> ::
              Timely(cfg, steps) && NeverEvicts(cfg.maxStateSize, steps) ==> Complete(cfg, steps)
  {
    if RetainsLongEnough(cfg) {
      forall steps: seq<Step> | Timely(cfg, steps) && NeverEvicts(cfg.maxStateSize, steps)
        ensures Complete(cfg, steps)
      {
        IntervalJoinIsComplete(cfg, steps);
      }
    } else {
      var l, r :| Joinable(cfg, l, r) && !KeptForPartner(cfg, l, r);
      LateRunIsTimely(cfg, l, r);
      LateRunLosesThePair(cfg, l, r);
    }
  }

  /** Retaining right events for the allowed lateness minus the lower bound is always enough, and no more than needed
      if some pair sits at the lower bound. */
  lemma {:induction false} RetentionFromBounds(cfg: JoinConfig)
    ensures cfg.stateRetention >= cfg.allowedLateness - cfg.lowerBound ==> RetainsLongEnough(cfg)
    ensures (exists l, r :: Joinable(cfg, l, r) && r.time == l.time + cfg.lowerBound) ==>
              (RetainsLongEnough(cfg) <==> cfg.stateRetention >= cfg.allowedLateness - cfg.lowerBound)
  {
    if l, r :| Joinable(cfg, l, r) && r.time == l.time + cfg.lowerBound {
      assert RetainsLongEnough(cfg) ==> KeptForPartner(cfg, l, r);
    }
  }

  // ------------------------------------------------------------------
  // The operator
  // ------------------------------------------------------------------

  /** isWithinInterval and isLeftEventValid: after or at the one end, before or at the other. */
  predicate IsWithin(t: int, min: int, max: int) {
    (t > min || t == min) && (t < max || t == max)
  }

  /** Asking whether the right event lies in the left one's interval, or the left event in the mirrored
      interval of the right one, is the same question. */
  lemma {:induction false} BothChecksAgree(cfg: JoinConfig, l: Event, r: Event)
    ensures IsWithin(r.time, l.time + cfg.lowerBound, l.time + cfg.upperBound)
         == IsWithin(l.time, r.time - cfg.upperBound, r.time - cfg.lowerBound)
    ensures IntervalPairing(cfg)(l, r)
         == (IsWithin(r.time, l.time + cfg.lowerBound, l.time + cfg.upperBound) && cfg.condition(l, r))
  {
    assert IsWithin(r.time, l.time + cfg.lowerBound, l.time + cfg.upperBound) == InInterval(cfg, l, r);
  }

  class IntervalJoinOperator {
    const config: JoinConfig
    const lowerBound: int
    const upperBound: int
    const state: JoinState

    ghost predicate Valid()
      reads this, state
    {
      && lowerBound == config.lowerBound && upperBound == config.upperBound
      && state.maxStateSize == config.maxStateSize && state.Valid()
    }

    constructor (config: JoinConfig, lowerBound: int, upperBound: int)
      ensures Valid() && fresh(state) && state.View() == EMPTY_STORE
      ensures this.config == config.(lowerBound := lowerBound, upperBound := upperBound)
    {
      this.config := config.(lowerBound := lowerBound, upperBound := upperBound);
      this.lowerBound, this.upperBound := lowerBound, upperBound;
      this.state := new JoinState(config.maxStateSize);
    }

    /** Stores the event, then joins it with the right events inside its interval. */
    method ProcessLeft(event: Event, now: int) returns (results: seq<JoinResult>)
      requires Valid()
      modifies state
      ensures Valid()
      ensures (state.View(), results) == IntervalStep(config, old(state.View()), Arrive(LeftSide, event, now))
    {
      var minTime, maxTime := event.time + lowerBound, event.time + upperBound;
      var expiresAt := maxTime + config.allowedLateness;
      state.AddLeftEvent(event, expiresAt, now);
      results := Probe(LeftSide, event, minTime, maxTime);
    }

    /** Stores the event, then joins it with the left events whose interval contains it. */
    method ProcessRight(event: Event, now: int) returns (results: seq<JoinResult>)
      requires Valid()
      modifies state
      ensures Valid()
      ensures (state.View(), results) == IntervalStep(config, old(state.View()), Arrive(RightSide, event, now))
    {
      var minLeftTime, maxLeftTime := event.time - upperBound, event.time - lowerBound;
      var expiresAt := event.time + config.stateRetention;
      state.AddRightEvent(event, expiresAt, now);
      results := Probe(RightSide, event, minLeftTime, maxLeftTime);
      if |results| == 0 && (config.joinType.RightOuterJoin? || config.joinType.FullOuterJoin?) {
        results := [CreateJoinResult(None, Some(event))];
      }
    }

    /** Whether a stored event of the other side joins: a left event asks with its own interval, a right event with the
        mirrored one. */
    method Joins(side: Side, event: Event, other: Event, minTime: int, maxTime: int) returns (joins: bool)
      requires Valid() && Asks(side, event, minTime, maxTime)
      ensures joins == Hits(IntervalPairing(config), side, event, other)
    {
      if side.LeftSide? {
        BothChecksAgree(config, event, other);
        joins := IsWithin(other.time, minTime, maxTime) && config.condition(event, other);
      } else {
        BothChecksAgree(config, other, event);
        joins := IsWithin(other.time, minTime, maxTime) && config.condition(other, event);
      }
    }

    predicate Asks(side: Side, event: Event, minTime: int, maxTime: int) {
      if side.LeftSide? then minTime == event.time + lowerBound && maxTime == event.time + upperBound
      else minTime == event.time - upperBound && maxTime == event.time - lowerBound
    }

    /** The loop over the other side's events with the same key. */
    method Probe(side: Side, event: Event, minTime: int, maxTime: int) returns (results: seq<JoinResult>)
      requires Valid() && Asks(side, event, minTime, maxTime)
      modifies state
      ensures Valid()
      ensures (state.View(), results)
           == ProbeKey(IntervalPairing(config), old(state.View()), side, event, event.key)
    {
      ghost var s, m := state.View(), IntervalPairing(config);
      var key := event.key;
      var events;
      if side.LeftSide? {
        events := state.GetRightEvents(key);
      } else {
        events := state.GetLeftEvents(key);
      }
      results := [];
      if |events| == 0 {
        NothingStored(config.maxStateSize, s, Opposite(side), key);
        return;
      }
      ProbeStarts(m, s, side, event, key);
      for i := 0 to |events|
        invariant Valid()
        invariant state.View() == ProbedUpTo(m, s, side, event, key, i)
        invariant results == ProbeRows(m, side, event, events[..i])
      {
        ProbeAdvances(m, s, side, event, key, i);
        var other := events[i].event;
        var joins := Joins(side, event, other, minTime, maxTime);
        if joins {
          results := results + [Joined(side, event, other)];
          state.IncrementMatchCount(Opposite(side), key, i);
        }
      }
      ProbeEnds(m, s, side, event, key);
    }

    method Cleanup(now: int)
      requires Valid()
      modifies state
      ensures Valid()
      ensures (state.View(), []) == IntervalStep(config, old(state.View()), Step.Cleanup(now))
    {
      var left, right := state.RemoveExpiredEvents(now);
    }
  }
}
