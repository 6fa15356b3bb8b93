/** What a keyed join emits, in terms of arrivals and cleanups alone: the stream join (pkg/join/join.go) and the
    interval join (pkg/join/interval_join.go) store the arriving event and probe the other side's lists. */
module KeyedJoins {
  import opened Seqs
  import opened JoinStates
  import opened JoinOperators

  /** Until when an event is kept. */
  type Expiries = (Side, Event) -> int

  datatype Rules = Rules(pairs: Pairing, expiry: Expiries, pads: Side -> bool, maxStateSize: int)

  function StoredBy(rules: Rules, side: Side, e: Event, now: int): StoredEvent {
    StoredEvent(e, side, now, rules.expiry(side, e), 0)
  }

  /** One step of a join; an arrival probes the lists of the other side that `keys` names. */
  ghost function StepOf(rules: Rules, s: Store, step: Step, keys: seq<string>): (Store, seq<JoinResult>) {
    match step
    case Cleanup(now) => (ExpireAll(s, now), [])
    case Arrive(side, e, now) =>
      var s1 := AddTo(rules.maxStateSize, s, StoredBy(rules, side, e, now));
      var (s', rows) := ProbeKeys(rules.pairs, s1, side, e, keys);
      (s', if rows == [] && rules.pads(side) then [Padded(side, e)] else rows)
  }

  /** The list with an arriving event's own key. */
  function OwnKey(step: Step): seq<string> {
    if step.Arrive? then [step.event.key] else []
  }

  // ------------------------------------------------------------------
  // Histories
  // ------------------------------------------------------------------

  /** Every occurrence of every event that arrived on `side`. */
  function Arrived(steps: seq<Step>, side: Side): multiset<Event> {
    if steps == [] then multiset{} else
      var last := steps[|steps| - 1];
      Arrived(steps[..|steps| - 1], side)
      + if last.Arrive? && last.side == side then multiset{last.event} else multiset{}
  }

  function KeyArrivals(steps: seq<Step>, side: Side, key: string): nat {
    if steps == [] then 0 else
      var last := steps[|steps| - 1];
      KeyArrivals(steps[..|steps| - 1], side, key)
      + if last.Arrive? && last.side == side && last.event.key == key then 1 else 0
  }

  /** Eviction is off, or no key ever receives more events than the limit. */
  ghost predicate NeverEvicts(maxStateSize: int, steps: seq<Step>) {
    maxStateSize <= 0 || forall side, key :: KeyArrivals(steps, side, key) <= maxStateSize
  }

  /** The occurrences of `x` that arrived on `side` and that no cleanup has found expired since. */
  function Alive(expiry: Expiries, steps: seq<Step>, side: Side, x: Event): nat {
    if steps == [] then 0 else
      var n := Alive(expiry, steps[..|steps| - 1], side, x);
      match steps[|steps| - 1]
      case Arrive(s, e, _) => if s == side && e == x then n + 1 else n
      case Cleanup(now) => if now > expiry(side, x) then 0 else n
  }

  /** The occurrences of `l` and `r` that met: the later one arrived while the earlier one was alive. */
  function Met(expiry: Expiries, steps: seq<Step>, l: Event, r: Event): nat {
    if steps == [] then 0 else
      var before := steps[..|steps| - 1];
      Met(expiry, before, l, r) + NewlyMet(expiry, before, steps[|steps| - 1], l, r)
  }

  function NewlyMet(expiry: Expiries, before: seq<Step>, last: Step, l: Event, r: Event): nat {
    if last.Cleanup? then 0
    else if last.side.LeftSide? then (if last.event == l then Alive(expiry, before, RightSide, r) else 0)
    else (if last.event == r then Alive(expiry, before, LeftSide, l) else 0)
  }

  /** No event alive on the other side belongs with `e`. */
  ghost predicate Lone(expiry: Expiries, joins: Pairing, steps: seq<Step>, side: Side, e: Event) {
    forall x :: Alive(expiry, steps, Opposite(side), x) > 0 ==> !(if side.LeftSide? then joins(e, x) else joins(x, e))
  }

  /** The arrivals of `e` on `side` that found nothing to join. */
  ghost function Unmet(expiry: Expiries, joins: Pairing, steps: seq<Step>, side: Side, e: Event): nat {
    if steps == [] then 0 else
      var before, last := steps[..|steps| - 1], steps[|steps| - 1];
      Unmet(expiry, joins, before, side, e)
      + if last.Arrive? && last.side == side && last.event == e && Lone(expiry, joins, before, side, e) then 1 else 0
  }

  lemma {:induction false} ArrivedSnoc(steps: seq<Step>, step: Step, side: Side, x: Event)
    ensures Arrived(steps + [step], side)[x]
         == Arrived(steps, side)[x] + if step.Arrive? && step.side == side && step.event == x then 1 else 0
  {
    assert (steps + [step])[..|steps|] == steps;
  }

  lemma {:induction false} KeyArrivalsSnoc(steps: seq<Step>, step: Step, side: Side, key: string)
    ensures KeyArrivals(steps + [step], side, key)
         == KeyArrivals(steps, side, key)
            + if step.Arrive? && step.side == side && step.event.key == key then 1 else 0
  {
    assert (steps + [step])[..|steps|] == steps;
  }

  lemma {:induction false} AliveSnoc(expiry: Expiries, steps: seq<Step>, step: Step, side: Side, x: Event)
    ensures step.Arrive? ==>
              Alive(expiry, steps + [step], side, x)
              == Alive(expiry, steps, side, x) + (if step.side == side && step.event == x then 1 else 0)
    ensures step.Cleanup? ==>
              Alive(expiry, steps + [step], side, x)
              == (if step.now > expiry(side, x) then 0 else Alive(expiry, steps, side, x))
  {
    assert (steps + [step])[..|steps|] == steps;
  }

  lemma {:induction false} MetSnoc(expiry: Expiries, steps: seq<Step>, step: Step, l: Event, r: Event)
    ensures Met(expiry, steps + [step], l, r) == Met(expiry, steps, l, r) + NewlyMet(expiry, steps, step, l, r)
  {
    assert (steps + [step])[..|steps|] == steps;
  }

  lemma {:induction false} UnmetSnoc(
      expiry: Expiries, joins: Pairing, steps: seq<Step>, step: Step, side: Side, e: Event)
    ensures Unmet(expiry, joins, steps + [step], side, e)
         == Unmet(expiry, joins, steps, side, e)
            + if step == Arrive(side, e, step.now) && Lone(expiry, joins, steps, side, e) then 1 else 0
  {
    assert (steps + [step])[..|steps|] == steps;
  }

  lemma {:induction false} PrefixNeverEvicts(maxStateSize: int, before: seq<Step>, last: Step)
    requires NeverEvicts(maxStateSize, before + [last])
    ensures NeverEvicts(maxStateSize, before)
    ensures last.Arrive? && maxStateSize > 0 ==> KeyArrivals(before, last.side, last.event.key) < maxStateSize
  {
    forall side, key ensures KeyArrivals(before, side, key) <= KeyArrivals(before + [last], side, key) {
      KeyArrivalsSnoc(before, last, side, key);
    }
    if last.Arrive? && maxStateSize > 0 {
      KeyArrivalsSnoc(before, last, last.side, last.event.key);
      assert KeyArrivals(before + [last], last.side, last.event.key) <= maxStateSize;
    }
  }

  /** No cleanup ever finds `x` expired. */
  ghost predicate Outlasts(expiry: Expiries, steps: seq<Step>, side: Side, x: Event) {
    forall i :: 0 <= i < |steps| && steps[i].Cleanup? ==> steps[i].now <= expiry(side, x)
  }

  lemma {:induction false} AliveIsAll(expiry: Expiries, steps: seq<Step>, side: Side, x: Event)
    requires Outlasts(expiry, steps, side, x)
    ensures Alive(expiry, steps, side, x) == Arrived(steps, side)[x]
  {
    if steps != [] {
      AliveIsAll(expiry, steps[..|steps| - 1], side, x);
    }
  }

  /** Events that outlast all cleanups meet once per pair of occurrences. */
  lemma {:induction false} MetIsAll(expiry: Expiries, steps: seq<Step>, l: Event, r: Event)
    requires Outlasts(expiry, steps, LeftSide, l) && Outlasts(expiry, steps, RightSide, r)
    ensures Met(expiry, steps, l, r) == Pairs(Arrived(steps, LeftSide)[l], Arrived(steps, RightSide)[r])
  {
    if steps == [] {
      NoPairs(0);
    } else {
      var before, last := steps[..|steps| - 1], steps[|steps| - 1];
      LastJoins(steps);
      MetIsAll(expiry, before, l, r);
      AliveIsAll(expiry, before, LeftSide, l);
      AliveIsAll(expiry, before, RightSide, r);
      MetGrows(expiry, before, last, l, r);
    }
  }

  lemma {:induction false} MetGrows(expiry: Expiries, before: seq<Step>, last: Step, l: Event, r: Event)
    requires Met(expiry, before, l, r) == Pairs(Arrived(before, LeftSide)[l], Arrived(before, RightSide)[r])
    requires last.Arrive? && last.side.LeftSide? && last.event == l ==>
               Alive(expiry, before, RightSide, r) == Arrived(before, RightSide)[r]
    requires last.Arrive? && last.side.RightSide? && last.event == r ==>
               Alive(expiry, before, LeftSide, l) == Arrived(before, LeftSide)[l]
    ensures Met(expiry, before + [last], l, r)
         == Pairs(Arrived(before + [last], LeftSide)[l], Arrived(before + [last], RightSide)[r])
  {
    MetSnoc(expiry, before, last, l, r);
    ArrivedSnoc(before, last, LeftSide, l);
    ArrivedSnoc(before, last, RightSide, r);
    PairsAfter(Arrived(before, LeftSide)[l], Arrived(before, RightSide)[r],
               Arrived(before + [last], LeftSide)[l], Arrived(before + [last], RightSide)[r]);
  }

  /** One more occurrence of at most one of two events. */
  lemma {:induction false} PairsAfter(a: nat, b: nat, a': nat, b': nat)
    requires (a' == a + 1 && b' == b) || (a' == a && b' == b + 1) || (a' == a && b' == b)
    ensures Pairs(a', b') == Pairs(a, b) + (if a' > a then b else 0) + (if b' > b then a else 0)
  {
    OneMorePair(a, b);
  }

  lemma {:induction false} SameAlive(expiry: Expiries, expiry': Expiries, steps: seq<Step>, side: Side, x: Event)
    requires expiry(side, x) == expiry'(side, x)
    ensures Alive(expiry, steps, side, x) == Alive(expiry', steps, side, x)
  {
    if steps != [] {
      SameAlive(expiry, expiry', steps[..|steps| - 1], side, x);
    }
  }

  lemma {:induction false} SameMet(expiry: Expiries, expiry': Expiries, steps: seq<Step>, l: Event, r: Event)
    requires expiry(LeftSide, l) == expiry'(LeftSide, l) && expiry(RightSide, r) == expiry'(RightSide, r)
    ensures Met(expiry, steps, l, r) == Met(expiry', steps, l, r)
  {
    if steps != [] {
      SameMet(expiry, expiry', steps[..|steps| - 1], l, r);
      SameAlive(expiry, expiry', steps[..|steps| - 1], LeftSide, l);
      SameAlive(expiry, expiry', steps[..|steps| - 1], RightSide, r);
    }
  }

  lemma {:induction false} SameUnmet(
      expiry: Expiries, expiry': Expiries, joins: Pairing, joins': Pairing, steps: seq<Step>, side: Side, e: Event)
    requires forall x :: expiry(Opposite(side), x) == expiry'(Opposite(side), x)
    requires forall l, r :: joins(l, r) == joins'(l, r)
    ensures Unmet(expiry, joins, steps, side, e) == Unmet(expiry', joins', steps, side, e)
  {
    if steps != [] {
      var before := steps[..|steps| - 1];
      SameUnmet(expiry, expiry', joins, joins', before, side, e);
      forall x ensures Alive(expiry, before, Opposite(side), x) == Alive(expiry', before, Opposite(side), x) {
        SameAlive(expiry, expiry', before, Opposite(side), x);
      }
      assert Lone(expiry, joins, before, side, e) == Lone(expiry', joins', before, side, e);
    }
  }

  // ------------------------------------------------------------------
  // An event, and a partner after it
  // ------------------------------------------------------------------

  /** The end of a pair on one side. */
  function End(side: Side, l: Event, r: Event): Event {
    if side.LeftSide? then l else r
  }

  function PartnerLater(side: Side, l: Event, r: Event, t: int): seq<Step> {
    [Arrive(side, End(side, l, r), t)] + [Arrive(Opposite(side), End(Opposite(side), l, r), t)]
  }

  lemma {:induction false} PartnerLaterNeverEvicts(maxStateSize: int, side: Side, l: Event, r: Event, t: int)
    ensures NeverEvicts(maxStateSize, PartnerLater(side, l, r, t))
  {
    var a, b := Arrive(side, End(side, l, r), t), Arrive(Opposite(side), End(Opposite(side), l, r), t);
    forall side', key ensures KeyArrivals([a] + [b], side', key) <= 1 {
      KeyArrivalsSnoc([], a, side', key);
      KeyArrivalsSnoc([a], b, side', key);
      assert [] + [a] == [a];
    }
  }

  /** How one step changes the history of a pair, of which the end on `side` came first. */
  lemma {:induction false} HistoryAfter(
      expiry: Expiries, steps: seq<Step>, step: Step, side: Side, l: Event, r: Event)
    ensures Arrived(steps + [step], LeftSide)[l]
         == Arrived(steps, LeftSide)[l] + if step == Arrive(LeftSide, l, step.now) then 1 else 0
    ensures Arrived(steps + [step], RightSide)[r]
         == Arrived(steps, RightSide)[r] + if step == Arrive(RightSide, r, step.now) then 1 else 0
    ensures var e := End(side, l, r);
            && (step == Arrive(side, e, step.now) ==>
                  Alive(expiry, steps + [step], side, e) == Alive(expiry, steps, side, e) + 1)
            && (step.Cleanup? ==>
                  Alive(expiry, steps + [step], side, e)
                  == if step.now > expiry(side, e) then 0 else Alive(expiry, steps, side, e))
    ensures Met(expiry, steps + [step], l, r) == Met(expiry, steps, l, r) + NewlyMet(expiry, steps, step, l, r)
  {
    ArrivedSnoc(steps, step, LeftSide, l);
    ArrivedSnoc(steps, step, RightSide, r);
    AliveSnoc(expiry, steps, step, side, End(side, l, r));
    MetSnoc(expiry, steps, step, l, r);
  }

  lemma {:induction false} FirstArrives(expiry: Expiries, side: Side, l: Event, r: Event, t: int)
    ensures var steps, e := [Arrive(side, End(side, l, r), t)], End(side, l, r);
            && Met(expiry, steps, l, r) == 0 && Alive(expiry, steps, side, e) == 1
            && Arrived(steps, LeftSide)[l] == (if side.LeftSide? then 1 else 0)
            && Arrived(steps, RightSide)[r] == (if side.RightSide? then 1 else 0)
  {
    var a := Arrive(side, End(side, l, r), t);
    assert [] + [a] == [a];
    HistoryAfter(expiry, [], a, side, l, r);
  }

  /** The first arrival meets nothing, and then the two meet. */
  lemma {:induction false} PartnerLaterMeets(
      expiry: Expiries, joins: Pairing, side: Side, l: Event, r: Event, t: int)
    ensures Met(expiry, PartnerLater(side, l, r, t), l, r) == 1
    ensures Unmet(expiry, joins, PartnerLater(side, l, r, t), side, End(side, l, r)) == 1
  {
    var a, b := Arrive(side, End(side, l, r), t), Arrive(Opposite(side), End(Opposite(side), l, r), t);
    FirstArrives(expiry, side, l, r, t);
    HistoryAfter(expiry, [a], b, side, l, r);
    assert [] + [a] == [a] && Lone(expiry, joins, [], side, End(side, l, r));
    UnmetSnoc(expiry, joins, [], a, side, End(side, l, r));
    UnmetSnoc(expiry, joins, [a], b, side, End(side, l, r));
  }

  // ------------------------------------------------------------------
  // What the state holds is what is alive
  // ------------------------------------------------------------------

  /** How often `e` occurs in a list. */
  function Occurs(xs: seq<StoredEvent>, e: Event): nat {
    if xs == [] then 0 else
      Occurs(xs[..|xs| - 1], e) + if xs[|xs| - 1].event == e then 1 else 0
  }

  function Held(s: Store, side: Side, e: Event): nat {
    Occurs(s.List(side, e.key), e)
  }

  /** A list holds no more than has arrived, under the expiry its side prescribes. */
  ghost predicate Shaped(rules: Rules, side: Side, key: string, xs: seq<StoredEvent>, steps: seq<Step>) {
    && |xs| <= KeyArrivals(steps, side, key)
    && forall se :: se in xs ==> se.side == side && se.event.key == key && se.expiresAt == rules.expiry(side, se.event)
  }

  ghost predicate AllShaped(rules: Rules, s: Store, steps: seq<Step>, side: Side) {
    forall key :: Shaped(rules, side, key, s.List(side, key), steps)
  }

  ghost predicate HoldsAlive(rules: Rules, s: Store, steps: seq<Step>, side: Side) {
    forall x {:trigger Held(s, side, x)} :: Held(s, side, x) == Alive(rules.expiry, steps, side, x)
  }

  ghost predicate SideFits(rules: Rules, s: Store, steps: seq<Step>, side: Side) {
    AllShaped(rules, s, steps, side) && HoldsAlive(rules, s, steps, side)
  }

  /** The state after a run without evictions. */
  ghost predicate Fits(rules: Rules, s: Store, steps: seq<Step>) {
    SideFits(rules, s, steps, LeftSide) && SideFits(rules, s, steps, RightSide)
  }

  lemma {:induction false} EmptyFits(rules: Rules)
    ensures Fits(rules, EMPTY_STORE, [])
  {
  }

  lemma {:induction false} OccursSnoc(xs: seq<StoredEvent>, se: StoredEvent, e: Event)
    ensures Occurs(xs + [se], e) == Occurs(xs, e) + if se.event == e then 1 else 0
  {
    assert (xs + [se])[..|xs|] == xs;
  }

  lemma {:induction false} OccursNone(xs: seq<StoredEvent>, e: Event)
    requires forall se :: se in xs ==> se.event != e
    ensures Occurs(xs, e) == 0
  {
    if xs != [] {
      OccursNone(xs[..|xs| - 1], e);
    }
  }

  lemma {:induction false} OccursSome(xs: seq<StoredEvent>, e: Event) returns (i: nat)
    requires Occurs(xs, e) > 0
    ensures i < |xs| && xs[i].event == e
  {
    if xs[|xs| - 1].event == e {
      i := |xs| - 1;
    } else {
      i := OccursSome(xs[..|xs| - 1], e);
    }
  }

  /** All occurrences of one event expire together. */
  lemma {:induction false} OccursAfterCleanup(xs: seq<StoredEvent>, now: int, e: Event, expiresAt: int)
    requires forall se :: se in xs && se.event == e ==> se.expiresAt == expiresAt
    ensures Occurs(Filter(xs, Live(now)), e) == if now > expiresAt then 0 else Occurs(xs, e)
  {
    if xs != [] {
      var xs', x := xs[..|xs| - 1], xs[|xs| - 1];
      var rest := Filter(xs', Live(now));
      assert x in xs;
      OccursAfterCleanup(xs', now, e, expiresAt);
      if x.IsExpired(now) {
        assert Filter(xs, Live(now)) == rest;
      } else {
        assert Filter(xs, Live(now)) == rest + [x];
        OccursSnoc(rest, x, e);
      }
    }
  }

  lemma {:induction false} ListAfterCleanup(s: Store, now: int, side: Side, key: string)
    ensures ExpireAll(s, now).List(side, key) == Filter(s.List(side, key), Live(now))
  {
  }

  lemma {:induction false} CleanupKeepsSide(rules: Rules, s: Store, steps: seq<Step>, side: Side, now: int)
    requires SideFits(rules, s, steps, side)
    ensures SideFits(rules, ExpireAll(s, now), steps + [Cleanup(now)], side)
  {
    var s', steps' := ExpireAll(s, now), steps + [Cleanup(now)];
    forall key ensures Shaped(rules, side, key, s'.List(side, key), steps') {
      ListAfterCleanup(s, now, side, key);
      KeyArrivalsSnoc(steps, Cleanup(now), side, key);
      assert Shaped(rules, side, key, s.List(side, key), steps);
    }
    forall x ensures Held(s', side, x) == Alive(rules.expiry, steps', side, x) {
      ListAfterCleanup(s, now, side, x.key);
      assert Shaped(rules, side, x.key, s.List(side, x.key), steps);
      OccursAfterCleanup(s.List(side, x.key), now, x, rules.expiry(side, x));
      AliveSnoc(rules.expiry, steps, Cleanup(now), side, x);
      assert Held(s, side, x) == Alive(rules.expiry, steps, side, x);
    }
  }

  /** Storing an event without evicting. */
  lemma {:induction false} ListAfterArrival(
      rules: Rules, s: Store, own: Side, e: Event, now: int, side: Side, key: string)
    requires rules.maxStateSize <= 0 || |s.List(own, e.key)| < rules.maxStateSize
    ensures AddTo(rules.maxStateSize, s, StoredBy(rules, own, e, now)).List(side, key)
         == if side == own && key == e.key then s.List(side, key) + [StoredBy(rules, own, e, now)]
            else s.List(side, key)
  {
  }

  lemma {:induction false} ArrivalKeepsSide(
      rules: Rules, s: Store, steps: seq<Step>, side: Side, own: Side, e: Event, now: int)
    requires SideFits(rules, s, steps, side)
    requires rules.maxStateSize <= 0 || |s.List(own, e.key)| < rules.maxStateSize
    ensures SideFits(
              rules, AddTo(rules.maxStateSize, s, StoredBy(rules, own, e, now)), steps + [Arrive(own, e, now)], side)
  {
    var s', steps' := AddTo(rules.maxStateSize, s, StoredBy(rules, own, e, now)), steps + [Arrive(own, e, now)];
    forall key ensures Shaped(rules, side, key, s'.List(side, key), steps') {
      ListAfterArrival(rules, s, own, e, now, side, key);
      KeyArrivalsSnoc(steps, Arrive(own, e, now), side, key);
      assert Shaped(rules, side, key, s.List(side, key), steps);
    }
    forall x ensures Held(s', side, x) == Alive(rules.expiry, steps', side, x) {
      ListAfterArrival(rules, s, own, e, now, side, x.key);
      OccursSnoc(s.List(side, x.key), StoredBy(rules, own, e, now), x);
      AliveSnoc(rules.expiry, steps, Arrive(own, e, now), side, x);
      assert Held(s, side, x) == Alive(rules.expiry, steps, side, x);
    }
  }

  /** The same events, perhaps with other match counts. */
  ghost predicate SameEvents(xs: seq<StoredEvent>, ys: seq<StoredEvent>) {
    |xs| == |ys| && forall i :: 0 <= i < |xs| ==> ys[i] == xs[i].(matchCount := ys[i].matchCount)
  }

  ghost predicate SameLists(s: Store, s': Store) {
    forall side, key :: SameEvents(s.List(side, key), s'.List(side, key))
  }

  lemma {:induction false} SameOccurs(xs: seq<StoredEvent>, ys: seq<StoredEvent>, e: Event)
    requires SameEvents(xs, ys)
    ensures Occurs(xs, e) == Occurs(ys, e)
  {
    if xs != [] {
      SameOccurs(xs[..|xs| - 1], ys[..|ys| - 1], e);
    }
  }

  lemma {:induction false} SameListsFit(rules: Rules, s: Store, s': Store, steps: seq<Step>, side: Side)
    requires SideFits(rules, s, steps, side) && SameLists(s, s')
    ensures SideFits(rules, s', steps, side)
  {
    forall key ensures Shaped(rules, side, key, s'.List(side, key), steps) {
      var xs, ys := s.List(side, key), s'.List(side, key);
      assert SameEvents(xs, ys) && Shaped(rules, side, key, xs, steps);
      forall y | y in ys ensures y.side == side && y.event.key == key && y.expiresAt == rules.expiry(side, y.event) {
        var i :| 0 <= i < |ys| && ys[i] == y;
        assert xs[i] in xs;
      }
    }
    forall x ensures Held(s', side, x) == Alive(rules.expiry, steps, side, x) {
      assert SameEvents(s.List(side, x.key), s'.List(side, x.key));
      SameOccurs(s.List(side, x.key), s'.List(side, x.key), x);
      assert Held(s, side, x) == Alive(rules.expiry, steps, side, x);
    }
  }

  lemma {:induction false} ProbeKeyMovesNothing(m: Pairing, s: Store, side: Side, e: Event, key: string)
    ensures SameLists(s, ProbeKey(m, s, side, e, key).0)
  {
    var s' := ProbeKey(m, s, side, e, key).0;
    forall side', key' ensures SameEvents(s.List(side', key'), s'.List(side', key')) {
      var xs, ys := s.List(side', key'), s'.List(side', key');
      assert ys == xs || ys == Bumped(m, side, e, xs);
    }
  }

  lemma {:induction false} ProbeMovesNothing(m: Pairing, s: Store, side: Side, e: Event, keys: seq<string>)
    ensures SameLists(s, ProbeKeys(m, s, side, e, keys).0)
  {
    if keys != [] {
      var s1 := ProbeKeys(m, s, side, e, keys[..|keys| - 1]).0;
      var s2 := ProbeKey(m, s1, side, e, keys[|keys| - 1]).0;
      ProbeMovesNothing(m, s, side, e, keys[..|keys| - 1]);
      ProbeKeyMovesNothing(m, s1, side, e, keys[|keys| - 1]);
      forall side', key' ensures SameEvents(s.List(side', key'), s2.List(side', key')) {
        assert SameEvents(s.List(side', key'), s1.List(side', key'));
        assert SameEvents(s1.List(side', key'), s2.List(side', key'));
      }
    }
  }

  lemma {:induction false} StepKeepsSide(
      rules: Rules, s: Store, steps: seq<Step>, step: Step, keys: seq<string>, side: Side)
    requires SideFits(rules, s, steps, side)
    requires step.Arrive? ==> rules.maxStateSize <= 0 || |s.List(step.side, step.event.key)| < rules.maxStateSize
    ensures SideFits(rules, StepOf(rules, s, step, keys).0, steps + [step], side)
  {
    match step {
      case Cleanup(now) => CleanupKeepsSide(rules, s, steps, side, now);
      case Arrive(own, e, now) =>
        var s1 := AddTo(rules.maxStateSize, s, StoredBy(rules, own, e, now));
        ArrivalKeepsSide(rules, s, steps, side, own, e, now);
        ProbeMovesNothing(rules.pairs, s1, own, e, keys);
        SameListsFit(rules, s1, StepOf(rules, s, step, keys).0, steps + [step], side);
    }
  }

  /** Every step keeps the correspondence between state and history. */
  lemma {:induction false} StepKeepsFit(rules: Rules, s: Store, steps: seq<Step>, step: Step, keys: seq<string>)
    requires Fits(rules, s, steps) && NeverEvicts(rules.maxStateSize, steps + [step])
    ensures Fits(rules, StepOf(rules, s, step, keys).0, steps + [step])
  {
    PrefixNeverEvicts(rules.maxStateSize, steps, step);
    if step.Arrive? {
      assert SideFits(rules, s, steps, step.side);
      assert Shaped(rules, step.side, step.event.key, s.List(step.side, step.event.key), steps);
    }
    StepKeepsSide(rules, s, steps, step, keys, LeftSide);
    StepKeepsSide(rules, s, steps, step, keys, RightSide);
  }

  // ------------------------------------------------------------------
  // What one step emits
  // ------------------------------------------------------------------

  function Pair(l: Event, r: Event): JoinResult {
    CreateJoinResult(Some(l), Some(r))
  }

  /** The rows of one list, counted pair by pair. */
  lemma {:induction false} ProbeRowsCount(m: Pairing, side: Side, e: Event, xs: seq<StoredEvent>, l: Event, r: Event)
    ensures multiset(ProbeRows(m, side, e, xs))[Pair(l, r)]
         == if e == End(side, l, r) && m(l, r) then Occurs(xs, End(Opposite(side), l, r)) else 0
  {
    if xs != [] {
      var xs', x := xs[..|xs| - 1], xs[|xs| - 1].event;
      ProbeRowsCount(m, side, e, xs', l, r);
      CountMaybe(ProbeRows(m, side, e, xs'), Hits(m, side, e, x), Joined(side, e, x), Pair(l, r));
    }
  }

  lemma {:induction false} ProbeRowsAreJoined(
      m: Pairing, side: Side, e: Event, xs: seq<StoredEvent>, row: JoinResult) returns (x: Event)
    requires row in ProbeRows(m, side, e, xs)
    ensures row == Joined(side, e, x)
  {
    if row in ProbeRows(m, side, e, xs[..|xs| - 1]) {
      x := ProbeRowsAreJoined(m, side, e, xs[..|xs| - 1], row);
    } else {
      x := xs[|xs| - 1].event;
    }
  }

  /** Every list is filed under the key of its events. */
  ghost predicate ByKey(s: Store, side: Side) {
    forall key, se :: se in s.List(side, key) ==> se.event.key == key
  }

  lemma {:induction false} ShapedByKey(rules: Rules, s: Store, steps: seq<Step>, side: Side)
    requires AllShaped(rules, s, steps, side)
    ensures ByKey(s, side)
  {
    forall key, se | se in s.List(side, key) ensures se.event.key == key {
      assert Shaped(rules, side, key, s.List(side, key), steps);
    }
  }

  lemma {:induction false} SameListsByKey(s: Store, s': Store, side: Side)
    requires ByKey(s, side) && SameLists(s, s')
    ensures ByKey(s', side)
  {
    forall key, se | se in s'.List(side, key) ensures se.event.key == key {
      var xs, ys := s.List(side, key), s'.List(side, key);
      assert SameEvents(xs, ys);
      var i :| 0 <= i < |ys| && ys[i] == se;
      assert xs[i] in xs;
    }
  }

  /** One list contributes only the partner filed under its key. */
  lemma {:induction false} ProbeKeyCount(m: Pairing, s: Store, side: Side, e: Event, key: string, l: Event, r: Event)
    requires ByKey(s, Opposite(side))
    ensures var x := End(Opposite(side), l, r);
            multiset(ProbeKey(m, s, side, e, key).1)[Pair(l, r)]
            == if e == End(side, l, r) && m(l, r) && x.key == key then Held(s, Opposite(side), x) else 0
  {
    var xs, x := s.List(Opposite(side), key), End(Opposite(side), l, r);
    ProbeRowsCount(m, side, e, xs, l, r);
    if x.key != key {
      OccursNone(xs, x);
    }
  }

  lemma {:induction false} ProbeKeysCount(
      m: Pairing, s: Store, side: Side, e: Event, keys: seq<string>, l: Event, r: Event)
    requires ByKey(s, Opposite(side)) && forall i, j :: 0 <= i < j < |keys| ==> keys[i] != keys[j]
    ensures var x := End(Opposite(side), l, r);
            multiset(ProbeKeys(m, s, side, e, keys).1)[Pair(l, r)]
            == if e == End(side, l, r) && m(l, r) && x.key in keys then Held(s, Opposite(side), x) else 0
  {
    if keys != [] {
      var rest, last, x := keys[..|keys| - 1], keys[|keys| - 1], End(Opposite(side), l, r);
      var s1 := ProbeKeys(m, s, side, e, rest).0;
      ProbeKeysCount(m, s, side, e, rest, l, r);
      ProbeMovesNothing(m, s, side, e, rest);
      SameListsByKey(s, s1, Opposite(side));
      ProbeKeyCount(m, s1, side, e, last, l, r);
      assert SameEvents(s.List(Opposite(side), x.key), s1.List(Opposite(side), x.key));
      SameOccurs(s.List(Opposite(side), x.key), s1.List(Opposite(side), x.key), x);
      assert last !in rest && (x.key in keys <==> x.key in rest || x.key == last);
    }
  }

  lemma {:induction false} ProbeKeysAreJoined(
      m: Pairing, s: Store, side: Side, e: Event, keys: seq<string>, row: JoinResult) returns (x: Event)
    requires row in ProbeKeys(m, s, side, e, keys).1
    ensures row == Joined(side, e, x)
  {
    var s1, rows1 := ProbeKeys(m, s, side, e, keys[..|keys| - 1]).0, ProbeKeys(m, s, side, e, keys[..|keys| - 1]).1;
    if row in rows1 {
      x := ProbeKeysAreJoined(m, s, side, e, keys[..|keys| - 1], row);
    } else {
      x := ProbeRowsAreJoined(m, side, e, s1.List(Opposite(side), keys[|keys| - 1]), row);
    }
  }

  /** `keys` names, without repeats, at least the lists of what `e` joins. */
  ghost predicate Visits(rules: Rules, s: Store, step: Step, keys: seq<string>) {
    step.Arrive? ==>
      && (forall i, j :: 0 <= i < j < |keys| ==> keys[i] != keys[j])
      && forall x {:trigger Held(s, Opposite(step.side), x)} ::
           Held(s, Opposite(step.side), x) > 0 && Hits(rules.pairs, step.side, step.event, x) ==> x.key in keys
  }

  /** The rows of the probe, before padding. */
  ghost function Probed(rules: Rules, s: Store, side: Side, e: Event, now: int, keys: seq<string>): seq<JoinResult> {
    ProbeKeys(rules.pairs, AddTo(rules.maxStateSize, s, StoredBy(rules, side, e, now)), side, e, keys).1
  }

  /** An arrival joins every occurrence of every partner that is alive. */
  lemma {:induction false} ProbedCount(
      rules: Rules, s: Store, steps: seq<Step>, side: Side, e: Event, now: int, keys: seq<string>, l: Event, r: Event)
    requires Fits(rules, s, steps) && Visits(rules, s, Arrive(side, e, now), keys)
    ensures multiset(Probed(rules, s, side, e, now, keys))[Pair(l, r)]
         == if rules.pairs(l, r) then NewlyMet(rules.expiry, steps, Arrive(side, e, now), l, r) else 0
  {
    var s1, other := AddTo(rules.maxStateSize, s, StoredBy(rules, side, e, now)), Opposite(side);
    var x := End(other, l, r);
    assert s1.Of(other) == s.Of(other) && SideFits(rules, s, steps, other);
    ShapedByKey(rules, s, steps, other);
    assert ByKey(s1, other) by {
      assert forall key :: s1.List(other, key) == s.List(other, key);
    }
    ProbeKeysCount(rules.pairs, s1, side, e, keys, l, r);
    assert Held(s1, other, x) == Held(s, other, x) == Alive(rules.expiry, steps, other, x);
  }

  /** The probe finds nothing exactly if nothing alive belongs with `e`. */
  lemma {:induction false} ProbedNothing(
      rules: Rules, s: Store, steps: seq<Step>, side: Side, e: Event, now: int, keys: seq<string>)
    requires Fits(rules, s, steps) && Visits(rules, s, Arrive(side, e, now), keys)
    ensures Probed(rules, s, side, e, now, keys) == [] <==> Lone(rules.expiry, rules.pairs, steps, side, e)
  {
    var rows := Probed(rules, s, side, e, now, keys);
    if rows != [] {
      var s1 := AddTo(rules.maxStateSize, s, StoredBy(rules, side, e, now));
      var x := ProbeKeysAreJoined(rules.pairs, s1, side, e, keys, rows[0]);
      var l, r := if side.LeftSide? then e else x, if side.LeftSide? then x else e;
      ProbedCount(rules, s, steps, side, e, now, keys, l, r);
      assert multiset(rows)[Pair(l, r)] > 0;
    } else {
      forall x | Alive(rules.expiry, steps, Opposite(side), x) > 0 ensures !Hits(rules.pairs, side, e, x) {
        var l, r := if side.LeftSide? then e else x, if side.LeftSide? then x else e;
        ProbedCount(rules, s, steps, side, e, now, keys, l, r);
      }
    }
  }

  /** The pairs a step emits are those that meet in it. */
  lemma {:induction false} StepEmitsPairs(
      rules: Rules, s: Store, steps: seq<Step>, step: Step, keys: seq<string>, l: Event, r: Event)
    requires Fits(rules, s, steps) && Visits(rules, s, step, keys)
    ensures multiset(StepOf(rules, s, step, keys).1)[Pair(l, r)]
         == if rules.pairs(l, r) then NewlyMet(rules.expiry, steps, step, l, r) else 0
  {
    if step.Arrive? {
      var rows := Probed(rules, s, step.side, step.event, step.now, keys);
      ProbedCount(rules, s, steps, step.side, step.event, step.now, keys, l, r);
      assert [] + [Padded(step.side, step.event)] == [Padded(step.side, step.event)];
      CountSnoc([], Padded(step.side, step.event), Pair(l, r));
    }
  }

  lemma {:induction false} ProbedIsNotPadded(
      rules: Rules, s: Store, own: Side, event: Event, now: int, keys: seq<string>, side: Side, e: Event)
    ensures Padded(side, e) !in Probed(rules, s, own, event, now, keys)
  {
    if Padded(side, e) in Probed(rules, s, own, event, now, keys) {
      var s1 := AddTo(rules.maxStateSize, s, StoredBy(rules, own, event, now));
      var x := ProbeKeysAreJoined(rules.pairs, s1, own, event, keys, Padded(side, e));
      assert false;
    }
  }

  /** The padded rows of a step: an arrival with nothing to join, on a side that is padded. */
  lemma {:induction false} StepEmitsPads(
      rules: Rules, s: Store, steps: seq<Step>, step: Step, keys: seq<string>, side: Side, e: Event)
    requires Fits(rules, s, steps) && Visits(rules, s, step, keys)
    ensures multiset(StepOf(rules, s, step, keys).1)[Padded(side, e)]
         == if rules.pads(side) && step == Arrive(side, e, step.now) && Lone(rules.expiry, rules.pairs, steps, side, e)
            then 1 else 0
  {
    if step.Arrive? {
      ProbedNothing(rules, s, steps, step.side, step.event, step.now, keys);
      ProbedIsNotPadded(rules, s, step.side, step.event, step.now, keys, side, e);
      assert [] + [Padded(step.side, step.event)] == [Padded(step.side, step.event)];
      CountSnoc([], Padded(step.side, step.event), Padded(side, e));
    }
  }

  lemma {:induction false} StepRowsAreShaped(rules: Rules, s: Store, step: Step, keys: seq<string>, row: JoinResult)
    requires row in StepOf(rules, s, step, keys).1
    ensures IsWhole(row)
  {
    var rows := Probed(rules, s, step.side, step.event, step.now, keys);
    if row in rows {
      var s1 := AddTo(rules.maxStateSize, s, StoredBy(rules, step.side, step.event, step.now));
      var x := ProbeKeysAreJoined(rules.pairs, s1, step.side, step.event, keys, row);
    }
  }

  /** A pair with the later of its times, or one event with its own. */
  predicate IsWhole(row: JoinResult) {
    match (row.left, row.right)
    case (Some(l), Some(r)) => row == Pair(l, r)
    case (Some(l), None) => row == Padded(LeftSide, l)
    case (None, Some(r)) => row == Padded(RightSide, r)
    case (None, None) => false
  }

  /** How often a run owes a row: the pairs that met, or the arrivals that are padded. */
  ghost function DueRows(rules: Rules, steps: seq<Step>, row: JoinResult): nat {
    if !IsWhole(row) then 0 else
      match (row.left, row.right)
      case (Some(l), Some(r)) => if rules.pairs(l, r) then Met(rules.expiry, steps, l, r) else 0
      case (Some(l), None) => if rules.pads(LeftSide) then Unmet(rules.expiry, rules.pairs, steps, LeftSide, l) else 0
      case (None, Some(r)) => if rules.pads(RightSide) then Unmet(rules.expiry, rules.pairs, steps, RightSide, r) else 0
  }

  /** A step emits what becomes due with it. */
  lemma {:induction false} StepEmitsDue(
      rules: Rules, s: Store, steps: seq<Step>, step: Step, keys: seq<string>, row: JoinResult)
    requires Fits(rules, s, steps) && Visits(rules, s, step, keys)
    ensures DueRows(rules, steps + [step], row)
         == DueRows(rules, steps, row) + multiset(StepOf(rules, s, step, keys).1)[row]
  {
    if !IsWhole(row) {
      if row in StepOf(rules, s, step, keys).1 {
        StepRowsAreShaped(rules, s, step, keys, row);
      }
    } else {
      match (row.left, row.right) {
        case (Some(l), Some(r)) =>
          StepEmitsPairs(rules, s, steps, step, keys, l, r);
          MetSnoc(rules.expiry, steps, step, l, r);
        case (Some(l), None) =>
          StepEmitsPads(rules, s, steps, step, keys, LeftSide, l);
          UnmetSnoc(rules.expiry, rules.pairs, steps, step, LeftSide, l);
        case (None, Some(r)) =>
          StepEmitsPads(rules, s, steps, step, keys, RightSide, r);
          UnmetSnoc(rules.expiry, rules.pairs, steps, step, RightSide, r);
      }
    }
  }

  // ------------------------------------------------------------------
  // Probing the event's own key only
  // ------------------------------------------------------------------

  lemma {:induction false} SameHits(m: Pairing, m': Pairing, side: Side, e: Event, xs: seq<StoredEvent>)
    requires forall x :: x in xs ==> Hits(m, side, e, x.event) == Hits(m', side, e, x.event)
    ensures ProbeRows(m, side, e, xs) == ProbeRows(m', side, e, xs)
    ensures Bumped(m, side, e, xs) == Bumped(m', side, e, xs)
  {
    if xs != [] {
      SameHits(m, m', side, e, xs[..|xs| - 1]);
    }
  }

  /** `pairs` asks for equal keys on top of what `m` asks for. */
  ghost predicate AddsEqualKeys(m: Pairing, pairs: Pairing) {
    forall l, r :: pairs(l, r) == (l.key == r.key && m(l, r))
  }

  /** Under one key the test for equal keys makes no difference. */
  lemma {:induction false} OwnKeyProbe(m: Pairing, pairs: Pairing, s: Store, side: Side, e: Event)
    requires AddsEqualKeys(m, pairs) && ByKey(s, Opposite(side))
    ensures ProbeKeys(pairs, s, side, e, [e.key]) == ProbeKey(m, s, side, e, e.key)
  {
    assert [e.key][..0] == [];
    assert [] + ProbeKey(pairs, s, side, e, e.key).1 == ProbeKey(pairs, s, side, e, e.key).1;
    SameHits(m, pairs, side, e, s.List(Opposite(side), e.key));
  }

  lemma {:induction false} OwnKeySuffices(rules: Rules, s: Store, step: Step)
    requires forall l, r :: rules.pairs(l, r) ==> l.key == r.key
    ensures Visits(rules, s, step, OwnKey(step))
  {
  }

  // ------------------------------------------------------------------
  // The stream join: what a run emits
  // ------------------------------------------------------------------

  /** The hash join under equal keys; the nested loop asks for the condition alone. */
  function JoinRules(cfg: JoinConfig, equalKeys: bool): Rules {
    Rules((l: Event, r: Event) => (equalKeys ==> l.key == r.key) && MatchesCondition(cfg, l, r),
          (side: Side, e: Event) => e.time + cfg.stateRetention,
          (side: Side) => Preserves(cfg.joinType, side),
          cfg.maxStateSize)
  }

  /** All rows of a run together. */
  function Emitted(rows: seq<seq<JoinResult>>): multiset<JoinResult> {
    if rows == [] then multiset{} else multiset(rows[0]) + Emitted(rows[1..])
  }

  lemma {:induction false} HashStepIs(cfg: JoinConfig, s: Store, steps: seq<Step>, step: Step)
    requires Fits(JoinRules(cfg, true), s, steps)
    ensures HashStep(cfg, s, step) == StepOf(JoinRules(cfg, true), s, step, OwnKey(step))
    ensures Visits(JoinRules(cfg, true), s, step, OwnKey(step))
  {
    var rules := JoinRules(cfg, true);
    OwnKeySuffices(rules, s, step);
    if step.Arrive? {
      var s1, other := AddTo(cfg.maxStateSize, s, Stored(cfg, step.side, step.event, step.now)), Opposite(step.side);
      assert SideFits(rules, s, steps, other);
      ShapedByKey(rules, s, steps, other);
      assert ByKey(s1, other) by {
        assert forall key :: s1.List(other, key) == s.List(other, key);
      }
      OwnKeyProbe(Matching(cfg), rules.pairs, s1, step.side, step.event);
    }
  }

  lemma {:induction false} NestedStepIs(cfg: JoinConfig, s: Store, step: Step, keys: seq<string>)
    requires KeyOrder(cfg, s, step, keys)
    ensures NestedStep(cfg, s, step, keys) == StepOf(JoinRules(cfg, false), s, step, keys)
    ensures Visits(JoinRules(cfg, false), s, step, keys)
  {
    var rules := JoinRules(cfg, false);
    if step.Arrive? {
      var s1 := AddTo(cfg.maxStateSize, s, Stored(cfg, step.side, step.event, step.now));
      SamePairs(Matching(cfg), rules.pairs, s1, step.side, step.event, keys);
    }
  }

  lemma {:induction false} SamePairs(
      m: Pairing, m': Pairing, s: Store, side: Side, e: Event, keys: seq<string>)
    requires forall l, r :: m(l, r) == m'(l, r)
    ensures ProbeKeys(m, s, side, e, keys) == ProbeKeys(m', s, side, e, keys)
  {
    if keys != [] {
      SamePairs(m, m', s, side, e, keys[..|keys| - 1]);
      var s1 := ProbeKeys(m, s, side, e, keys[..|keys| - 1]).0;
      SameHits(m, m', side, e, s1.List(Opposite(side), keys[|keys| - 1]));
    }
  }

  lemma {:induction false} PrefixesNeverEvict(maxStateSize: int, before: seq<Step>, after: seq<Step>)
    requires NeverEvicts(maxStateSize, before + after)
    ensures NeverEvicts(maxStateSize, before)
  {
    if after == [] {
      assert before + after == before;
    } else {
      var after', last := after[..|after| - 1], after[|after| - 1];
      assert before + after == (before + after') + [last];
      PrefixNeverEvicts(maxStateSize, before + after', last);
      PrefixesNeverEvict(maxStateSize, before, after');
    }
  }

  lemma {:induction false} NextStep(before: seq<Step>, steps: seq<Step>)
    requires steps != []
    ensures (before + [steps[0]]) + steps[1..] == before + steps
  {
  }

  /** After `before`, a run of the hash join emits what becomes due. */
  lemma {:induction false} HashRunEmitsDue(
      cfg: JoinConfig, s: Store, before: seq<Step>, steps: seq<Step>, row: JoinResult)
    requires Fits(JoinRules(cfg, true), s, before) && NeverEvicts(cfg.maxStateSize, before + steps)
    ensures DueRows(JoinRules(cfg, true), before + steps, row)
         == DueRows(JoinRules(cfg, true), before, row) + Emitted(HashRun(cfg, s, steps).1)[row]
    decreases |steps|
  {
    if steps == [] {
      assert before + steps == before;
    } else {
      var rules, step := JoinRules(cfg, true), steps[0];
      NextStep(before, steps);
      PrefixesNeverEvict(cfg.maxStateSize, before + [step], steps[1..]);
      HashStepIs(cfg, s, before, step);
      StepKeepsFit(rules, s, before, step, OwnKey(step));
      StepEmitsDue(rules, s, before, step, OwnKey(step), row);
      HashRunEmitsDue(cfg, HashStep(cfg, s, step).0, before + [step], steps[1..], row);
      EmittedFirst(HashStep(cfg, s, step).1, HashRun(cfg, HashStep(cfg, s, step).0, steps[1..]).1, row);
    }
  }

  lemma {:induction false} EmittedFirst(rows: seq<JoinResult>, rest: seq<seq<JoinResult>>, row: JoinResult)
    ensures Emitted([rows] + rest)[row] == multiset(rows)[row] + Emitted(rest)[row]
  {
    assert ([rows] + rest)[1..] == rest;
  }

  /** The same for the nested loop, in any order of visiting the keys. */
  lemma {:induction false} NestedRunEmitsDue(
      cfg: JoinConfig, s: Store, before: seq<Step>, steps: seq<Step>, orders: seq<seq<string>>, row: JoinResult)
    requires Fits(JoinRules(cfg, false), s, before) && NeverEvicts(cfg.maxStateSize, before + steps)
    requires KeyOrders(cfg, s, steps, orders)
    ensures DueRows(JoinRules(cfg, false), before + steps, row)
         == DueRows(JoinRules(cfg, false), before, row) + Emitted(NestedRun(cfg, s, steps, orders).1)[row]
    decreases |steps|
  {
    if steps == [] {
      assert before + steps == before;
    } else {
      var rules, step, keys := JoinRules(cfg, false), steps[0], orders[0];
      NextStep(before, steps);
      PrefixesNeverEvict(cfg.maxStateSize, before + [step], steps[1..]);
      NestedStepIs(cfg, s, step, keys);
      StepKeepsFit(rules, s, before, step, keys);
      StepEmitsDue(rules, s, before, step, keys, row);
      var s1 := NestedStep(cfg, s, step, keys).0;
      NestedRunEmitsDue(cfg, s1, before + [step], steps[1..], orders[1..], row);
      EmittedFirst(NestedStep(cfg, s, step, keys).1, NestedRun(cfg, s1, steps[1..], orders[1..]).1, row);
    }
  }

  lemma {:induction false} DueRowsWritten(
      cfg: JoinConfig, equalKeys: bool, expiry: Expiries, joins: Pairing, steps: seq<Step>, l: Event, r: Event)
    requires forall side, e :: expiry(side, e) == e.time + cfg.stateRetention
    requires forall a, b :: joins(a, b) == JoinRules(cfg, equalKeys).pairs(a, b)
    ensures DueRows(JoinRules(cfg, equalKeys), steps, Pair(l, r))
         == if joins(l, r) then Met(expiry, steps, l, r) else 0
    ensures DueRows(JoinRules(cfg, equalKeys), steps, Padded(LeftSide, l))
         == if Preserves(cfg.joinType, LeftSide) then Unmet(expiry, joins, steps, LeftSide, l) else 0
    ensures DueRows(JoinRules(cfg, equalKeys), steps, Padded(RightSide, r))
         == if Preserves(cfg.joinType, RightSide) then Unmet(expiry, joins, steps, RightSide, r) else 0
  {
    var rules := JoinRules(cfg, equalKeys);
    SameMet(expiry, rules.expiry, steps, l, r);
    SameUnmet(expiry, rules.expiry, joins, rules.pairs, steps, LeftSide, l);
    SameUnmet(expiry, rules.expiry, joins, rules.pairs, steps, RightSide, r);
  }

  /** Every row of a hash join, over every run without evictions and with cleanups at any times: a pair is emitted once
      for each time its occurrences meet, and an event of a preserved side once for each arrival that meets nothing it
      joins. */
  lemma {:induction false} HashJoinRows(
      cfg: JoinConfig, steps: seq<Step>, expiry: Expiries, joins: Pairing, l: Event, r: Event)
    requires NeverEvicts(cfg.maxStateSize, steps)
    requires forall side, e :: expiry(side, e) == e.time + cfg.stateRetention
    requires forall a, b :: joins(a, b) <==>
               && a.key == b.key && cfg.condition(a, b)
               && (cfg.timeWindow <= 0 || -cfg.timeWindow <= b.time - a.time <= cfg.timeWindow)
    ensures var rows, t := Emitted(HashRun(cfg, EMPTY_STORE, steps).1), cfg.joinType;
            && rows[JoinResult(Some(l), Some(r), if l.time < r.time then r.time else l.time, l.key)]
               == (if joins(l, r) then Met(expiry, steps, l, r) else 0)
            && rows[JoinResult(Some(l), None, l.time, l.key)]
               == (if t.LeftOuterJoin? || t.FullOuterJoin? then Unmet(expiry, joins, steps, LeftSide, l) else 0)
            && rows[JoinResult(None, Some(r), r.time, r.key)]
               == (if t.RightOuterJoin? || t.FullOuterJoin? then Unmet(expiry, joins, steps, RightSide, r) else 0)
  {
    EmptyFits(JoinRules(cfg, true));
    assert [] + steps == steps;
    DueRowsWritten(cfg, true, expiry, joins, steps, l, r);
    HashRunEmitsDue(cfg, EMPTY_STORE, [], steps, Pair(l, r));
    HashRunEmitsDue(cfg, EMPTY_STORE, [], steps, Padded(LeftSide, l));
    HashRunEmitsDue(cfg, EMPTY_STORE, [], steps, Padded(RightSide, r));
  }

  /** The nested loop does the same without asking for equal keys. */
  lemma {:induction false} NestedLoopRows(
      cfg: JoinConfig, steps: seq<Step>, orders: seq<seq<string>>, expiry: Expiries, joins: Pairing,
      l: Event, r: Event)
    requires NeverEvicts(cfg.maxStateSize, steps) && KeyOrders(cfg, EMPTY_STORE, steps, orders)
    requires forall side, e :: expiry(side, e) == e.time + cfg.stateRetention
    requires forall a, b :: joins(a, b) <==>
               && cfg.condition(a, b)
               && (cfg.timeWindow <= 0 || -cfg.timeWindow <= b.time - a.time <= cfg.timeWindow)
    ensures var rows, t := Emitted(NestedRun(cfg, EMPTY_STORE, steps, orders).1), cfg.joinType;
            && rows[JoinResult(Some(l), Some(r), if l.time < r.time then r.time else l.time, l.key)]
               == (if joins(l, r) then Met(expiry, steps, l, r) else 0)
            && rows[JoinResult(Some(l), None, l.time, l.key)]
               == (if t.LeftOuterJoin? || t.FullOuterJoin? then Unmet(expiry, joins, steps, LeftSide, l) else 0)
            && rows[JoinResult(None, Some(r), r.time, r.key)]
               == (if t.RightOuterJoin? || t.FullOuterJoin? then Unmet(expiry, joins, steps, RightSide, r) else 0)
  {
    EmptyFits(JoinRules(cfg, false));
    assert [] + steps == steps;
    DueRowsWritten(cfg, false, expiry, joins, steps, l, r);
    NestedRunEmitsDue(cfg, EMPTY_STORE, [], steps, orders, Pair(l, r));
    NestedRunEmitsDue(cfg, EMPTY_STORE, [], steps, orders, Padded(LeftSide, l));
    NestedRunEmitsDue(cfg, EMPTY_STORE, [], steps, orders, Padded(RightSide, r));
  }

  lemma {:induction false} HashStepIsWhole(cfg: JoinConfig, s: Store, step: Step, row: JoinResult)
    requires row in HashStep(cfg, s, step).1
    ensures IsWhole(row)
  {
    if row != Padded(step.side, step.event) {
      var stored := AddTo(cfg.maxStateSize, s, Stored(cfg, step.side, step.event, step.now));
      var x := ProbeRowsAreJoined(
        Matching(cfg), step.side, step.event, stored.List(Opposite(step.side), step.event.key), row);
    }
  }

  lemma {:induction false} NestedStepIsWhole(
      cfg: JoinConfig, s: Store, step: Step, keys: seq<string>, row: JoinResult)
    requires row in NestedStep(cfg, s, step, keys).1
    ensures IsWhole(row)
  {
    if row != Padded(step.side, step.event) {
      var stored := AddTo(cfg.maxStateSize, s, Stored(cfg, step.side, step.event, step.now));
      var x := ProbeKeysAreJoined(Matching(cfg), stored, step.side, step.event, keys, row);
    }
  }

  lemma {:induction false} HashRowsAreWhole(cfg: JoinConfig, s: Store, steps: seq<Step>, row: JoinResult)
    requires row in Emitted(HashRun(cfg, s, steps).1)
    ensures IsWhole(row)
    decreases |steps|
  {
    var step := steps[0];
    var s1, rows := HashStep(cfg, s, step).0, HashStep(cfg, s, step).1;
    EmittedFirst(rows, HashRun(cfg, s1, steps[1..]).1, row);
    if row in Emitted(HashRun(cfg, s1, steps[1..]).1) {
      HashRowsAreWhole(cfg, s1, steps[1..], row);
    } else {
      HashStepIsWhole(cfg, s, step, row);
    }
  }

  lemma {:induction false} NestedRowsAreWhole(
      cfg: JoinConfig, s: Store, steps: seq<Step>, orders: seq<seq<string>>, row: JoinResult)
    requires |orders| == |steps| && row in Emitted(NestedRun(cfg, s, steps, orders).1)
    ensures IsWhole(row)
    decreases |steps|
  {
    var step, keys := steps[0], orders[0];
    var s1, rows := NestedStep(cfg, s, step, keys).0, NestedStep(cfg, s, step, keys).1;
    EmittedFirst(rows, NestedRun(cfg, s1, steps[1..], orders[1..]).1, row);
    if row in Emitted(NestedRun(cfg, s1, steps[1..], orders[1..]).1) {
      NestedRowsAreWhole(cfg, s1, steps[1..], orders[1..], row);
    } else {
      NestedStepIsWhole(cfg, s, step, keys, row);
    }
  }

  /** Whatever is evicted or expires, a row of a run is a pair with the later of its times and the left key, or one
      event with its own time and key. */
  lemma {:induction false} RowsAreWhole(
      cfg: JoinConfig, steps: seq<Step>, orders: seq<seq<string>>, row: JoinResult)
    requires |orders| == |steps|
    requires row in Emitted(HashRun(cfg, EMPTY_STORE, steps).1)
             || row in Emitted(NestedRun(cfg, EMPTY_STORE, steps, orders).1)
    ensures match (row.left, row.right)
            case (Some(l), Some(r)) =>
              row.eventTime == (if l.time < r.time then r.time else l.time) && row.joinKey == l.key
            case (Some(l), None) => row.eventTime == l.time && row.joinKey == l.key
            case (None, Some(r)) => row.eventTime == r.time && row.joinKey == r.key
            case (None, None) => false
  {
    if row in Emitted(HashRun(cfg, EMPTY_STORE, steps).1) {
      HashRowsAreWhole(cfg, EMPTY_STORE, steps, row);
    } else {
      NestedRowsAreWhole(cfg, EMPTY_STORE, steps, orders, row);
    }
  }

  /** If no cleanup comes after either event's retention, every pair of occurrences that belongs together is emitted
      exactly once, by the hash join under equal keys ... */
  lemma {:induction false} HashJoinIsComplete(cfg: JoinConfig, steps: seq<Step>, l: Event, r: Event)
    requires NeverEvicts(cfg.maxStateSize, steps)
    requires forall i :: 0 <= i < |steps| && steps[i].Cleanup? ==>
               steps[i].now <= l.time + cfg.stateRetention && steps[i].now <= r.time + cfg.stateRetention
    ensures Emitted(HashRun(cfg, EMPTY_STORE, steps).1)
              [JoinResult(Some(l), Some(r), if l.time < r.time then r.time else l.time, l.key)]
         == if l.key == r.key && cfg.condition(l, r)
               && (cfg.timeWindow <= 0 || -cfg.timeWindow <= r.time - l.time <= cfg.timeWindow)
            then Pairs(Arrived(steps, LeftSide)[l], Arrived(steps, RightSide)[r]) else 0
  {
    var rules := JoinRules(cfg, true);
    HashJoinRows(cfg, steps, rules.expiry, rules.pairs, l, r);
    MetIsAll(rules.expiry, steps, l, r);
  }

  /** ... and by the nested loop whatever the keys. */
  lemma {:induction false} NestedLoopIsComplete(
      cfg: JoinConfig, steps: seq<Step>, orders: seq<seq<string>>, l: Event, r: Event)
    requires NeverEvicts(cfg.maxStateSize, steps) && KeyOrders(cfg, EMPTY_STORE, steps, orders)
    requires forall i :: 0 <= i < |steps| && steps[i].Cleanup? ==>
               steps[i].now <= l.time + cfg.stateRetention && steps[i].now <= r.time + cfg.stateRetention
    ensures Emitted(NestedRun(cfg, EMPTY_STORE, steps, orders).1)
              [JoinResult(Some(l), Some(r), if l.time < r.time then r.time else l.time, l.key)]
         == if cfg.condition(l, r)
               && (cfg.timeWindow <= 0 || -cfg.timeWindow <= r.time - l.time <= cfg.timeWindow)
            then Pairs(Arrived(steps, LeftSide)[l], Arrived(steps, RightSide)[r]) else 0
  {
    var rules := JoinRules(cfg, false);
    NestedLoopRows(cfg, steps, orders, rules.expiry, rules.pairs, l, r);
    MetIsAll(rules.expiry, steps, l, r);
  }

  ghost predicate EmitsBoth(cfg: JoinConfig, steps: seq<Step>, l: Event, r: Event) {
    && NeverEvicts(cfg.maxStateSize, steps)
    && Padded(LeftSide, l) in Emitted(HashRun(cfg, EMPTY_STORE, steps).1)
    && Pair(l, r) in Emitted(HashRun(cfg, EMPTY_STORE, steps).1)
  }

  lemma {:induction false} PartnerLaterEmitsBoth(cfg: JoinConfig, l: Event, r: Event)
    requires Preserves(cfg.joinType, LeftSide) && JoinRules(cfg, true).pairs(l, r)
    ensures EmitsBoth(cfg, PartnerLater(LeftSide, l, r, 0), l, r)
  {
    var rules := JoinRules(cfg, true);
    PartnerLaterNeverEvicts(cfg.maxStateSize, LeftSide, l, r, 0);
    PartnerLaterMeets(rules.expiry, rules.pairs, LeftSide, l, r, 0);
    HashJoinRows(cfg, PartnerLater(LeftSide, l, r, 0), rules.expiry, rules.pairs, l, r);
  }

  lemma {:induction false} BothRowsTell(cfg: JoinConfig, steps: seq<Step>, l: Event, r: Event)
    requires EmitsBoth(cfg, steps, l, r)
    ensures Preserves(cfg.joinType, LeftSide) && JoinRules(cfg, true).pairs(l, r)
  {
    HashJoinRows(cfg, steps, JoinRules(cfg, true).expiry, JoinRules(cfg, true).pairs, l, r);
  }

  /** Padding on arrival does not mean that no match comes: on some run without evictions an event is both padded and
      paired with a later partner, exactly when the join type pads its side and the two belong together. */
  lemma {:induction false} PaddedCanMatchIff(cfg: JoinConfig, l: Event, r: Event)
    ensures (exists steps :: EmitsBoth(cfg, steps, l, r))
       <==> && (cfg.joinType.LeftOuterJoin? || cfg.joinType.FullOuterJoin?)
            && l.key == r.key && cfg.condition(l, r)
            && (cfg.timeWindow <= 0 || -cfg.timeWindow <= r.time - l.time <= cfg.timeWindow)
  {
    if Preserves(cfg.joinType, LeftSide) && JoinRules(cfg, true).pairs(l, r) {
      PartnerLaterEmitsBoth(cfg, l, r);
    }
    forall steps | EmitsBoth(cfg, steps, l, r)
      ensures Preserves(cfg.joinType, LeftSide) && JoinRules(cfg, true).pairs(l, r)
    {
      BothRowsTell(cfg, steps, l, r);
    }
  }
}
