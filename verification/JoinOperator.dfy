/** The keyed stream join: store the arriving event, then probe the other side (pkg/join/join.go). */
module JoinOperators {
  import opened Seqs
  import opened JoinStates

  datatype JoinType = InnerJoin | LeftOuterJoin | RightOuterJoin | FullOuterJoin

  datatype JoinStrategy = HashJoin | SortMergeJoin | NestedLoopJoin

  /** Says whether a left and a right event belong together. */
  type Pairing = (Event, Event) -> bool

  datatype JoinConfig = JoinConfig(
    joinType: JoinType, strategy: JoinStrategy, condition: Pairing, timeWindow: int,
    lowerBound: int, upperBound: int, allowedLateness: int, stateRetention: int, maxStateSize: int)

  /** A joined row; an outer join leaves one side empty. */
  datatype JoinResult = JoinResult(left: Option<Event>, right: Option<Event>, eventTime: int, joinKey: string)

  function CreateJoinResult(left: Option<Event>, right: Option<Event>): JoinResult
    requires left.Some? || right.Some?
  {
    match (left, right)
    case (Some(l), Some(r)) => JoinResult(left, right, if r.time > l.time then r.time else l.time, l.key)
    case (Some(l), None) => JoinResult(left, right, l.time, l.key)
    case (None, Some(r)) => JoinResult(left, right, r.time, r.key)
  }

  /** The condition, and the time window when one is configured. */
  predicate MatchesCondition(cfg: JoinConfig, l: Event, r: Event) {
    && cfg.condition(l, r)
    && (cfg.timeWindow > 0 ==> -cfg.timeWindow <= r.time - l.time <= cfg.timeWindow)
  }

  function Matching(cfg: JoinConfig): Pairing {
    (l: Event, r: Event) => MatchesCondition(cfg, l, r)
  }

  /** Whether event `e` arriving on `side` pairs with `other` from the opposite side. */
  predicate Hits(m: Pairing, side: Side, e: Event, other: Event) {
    if side.LeftSide? then m(e, other) else m(other, e)
  }

  function Joined(side: Side, e: Event, other: Event): JoinResult {
    if side.LeftSide? then CreateJoinResult(Some(e), Some(other)) else CreateJoinResult(Some(other), Some(e))
  }

  function Padded(side: Side, e: Event): JoinResult {
    if side.LeftSide? then CreateJoinResult(Some(e), None) else CreateJoinResult(None, Some(e))
  }

  predicate Preserves(t: JoinType, side: Side) {
    t.FullOuterJoin? || (if side.LeftSide? then t.LeftOuterJoin? else t.RightOuterJoin?)
  }

  // ------------------------------------------------------------------
  // Probing one list, and the whole state
  // ------------------------------------------------------------------

  /** The rows a probe of `xs` emits, in storage order. */
  function ProbeRows(m: Pairing, side: Side, e: Event, xs: seq<StoredEvent>): (rows: seq<JoinResult>)
    ensures |rows| <= |xs|
  {
    if xs == [] then [] else
      var last := xs[|xs| - 1].event;
      ProbeRows(m, side, e, xs[..|xs| - 1]) + if Hits(m, side, e, last) then [Joined(side, e, last)] else []
  }

  /** The partners named in rows, and the events of a list. */
  function Partners(side: Side, rows: seq<JoinResult>): seq<Option<Event>> {
    seq(|rows|, i requires 0 <= i < |rows| => if side.LeftSide? then rows[i].right else rows[i].left)
  }

  function Candidates(xs: seq<StoredEvent>): seq<Option<Event>> {
    seq(|xs|, i requires 0 <= i < |xs| => Some(xs[i].event))
  }

  lemma {:induction false} PartnersSnoc(side: Side, rows: seq<JoinResult>, e: Event, other: Event)
    ensures Partners(side, rows + [Joined(side, e, other)]) == Partners(side, rows) + [Some(other)]
  {
  }

  lemma {:induction false} CandidatesLast(xs: seq<StoredEvent>)
    requires xs != []
    ensures Candidates(xs) == Candidates(xs[..|xs| - 1]) + [Some(xs[|xs| - 1].event)]
  {
  }

  /** A probe names its partners in storage order, which is the order they arrived in. */
  lemma {:induction false} PartnersKeepOrder(m: Pairing, side: Side, e: Event, xs: seq<StoredEvent>)
    ensures Subsequence(Partners(side, ProbeRows(m, side, e, xs)), Candidates(xs))
  {
    if xs != [] {
      var before, last := xs[..|xs| - 1], xs[|xs| - 1].event;
      var rows := ProbeRows(m, side, e, before);
      PartnersKeepOrder(m, side, e, before);
      SubsequenceSnoc(Partners(side, rows), Candidates(before), Some(last));
      CandidatesLast(xs);
      if Hits(m, side, e, last) {
        PartnersSnoc(side, rows, e, last);
      } else {
        NothingAdded(rows, rows);
      }
    }
  }

  /** The probed list, with the match counts of the events that paired raised by one. */
  function Bumped(m: Pairing, side: Side, e: Event, xs: seq<StoredEvent>): (ys: seq<StoredEvent>)
    ensures |ys| == |xs|
  {
    seq(|xs|, i requires 0 <= i < |xs| =>
      if Hits(m, side, e, xs[i].event) then xs[i].(matchCount := xs[i].matchCount + 1) else xs[i])
  }

  /** Probing the events stored under `key` on the side opposite to `e`. */
  function ProbeKey(m: Pairing, s: Store, side: Side, e: Event, key: string): (Store, seq<JoinResult>) {
    var opp := Opposite(side);
    if key !in s.Of(opp) then (s, []) else
      var xs := s.Of(opp)[key];
      var rows := ProbeRows(m, side, e, xs);
      (s.With(opp, s.Of(opp)[key := Bumped(m, side, e, xs)])
        .(metrics := s.metrics.(matchesFound := s.metrics.matchesFound + |rows|)), rows)
  }

  /** Probing several keys one after the other. */
  function ProbeKeys(m: Pairing, s: Store, side: Side, e: Event, keys: seq<string>): (Store, seq<JoinResult>) {
    if keys == [] then (s, []) else
      var (s1, rows1) := ProbeKeys(m, s, side, e, keys[..|keys| - 1]);
      var (s2, rows2) := ProbeKey(m, s1, side, e, keys[|keys| - 1]);
      (s2, rows1 + rows2)
  }

  function WithPadding(t: JoinType, side: Side, e: Event, rows: seq<JoinResult>): seq<JoinResult> {
    if rows == [] && Preserves(t, side) then [Padded(side, e)] else rows
  }

  datatype Step = Arrive(side: Side, event: Event, now: int) | Cleanup(now: int)

  function Stored(cfg: JoinConfig, side: Side, e: Event, now: int): StoredEvent {
    StoredEvent(e, side, now, e.time + cfg.stateRetention, 0)
  }

  ghost function HashStep(cfg: JoinConfig, s: Store, step: Step): (Store, seq<JoinResult>) {
    match step
    case Cleanup(now) => (ExpireAll(s, now), [])
    case Arrive(side, e, now) =>
      var (s', rows) := ProbeKey(Matching(cfg), AddTo(cfg.maxStateSize, s, Stored(cfg, side, e, now)), side, e, e.key);
      (s', WithPadding(cfg.joinType, side, e, rows))
  }

  /** The nested loop visits every key of the other side, in the order `keys`. */
  ghost function NestedStep(cfg: JoinConfig, s: Store, step: Step, keys: seq<string>): (Store, seq<JoinResult>) {
    match step
    case Cleanup(now) => (ExpireAll(s, now), [])
    case Arrive(side, e, now) =>
      var (s', rows) := ProbeKeys(Matching(cfg), AddTo(cfg.maxStateSize, s, Stored(cfg, side, e, now)), side, e, keys);
      (s', WithPadding(cfg.joinType, side, e, rows))
  }

  /** `keys` is one of the orders in which the nested loop may visit the other side. */
  ghost predicate KeyOrder(cfg: JoinConfig, s: Store, step: Step, keys: seq<string>) {
    step.Arrive? ==> Enumerates(keys, s.Of(Opposite(step.side)).Keys)
  }

  // ------------------------------------------------------------------
  // Hash and nested loop agree exactly when the condition implies equal keys
  // ------------------------------------------------------------------

  ghost predicate ImpliesEqualKeys(m: Pairing) {
    forall l, r :: m(l, r) ==> l.key == r.key
  }

  lemma {:induction false} ProbeRowsMiss(m: Pairing, side: Side, e: Event, xs: seq<StoredEvent>)
    requires forall x :: x in xs ==> !Hits(m, side, e, x.event)
    ensures ProbeRows(m, side, e, xs) == [] && Bumped(m, side, e, xs) == xs
  {
    if xs != [] {
      ProbeRowsMiss(m, side, e, xs[..|xs| - 1]);
    }
  }

  /** A key other than the event's own contributes nothing. */
  lemma {:induction false} OtherKeyMisses(maxSize: int, m: Pairing, s: Store, side: Side, e: Event, key: string)
    requires ImpliesEqualKeys(m) && key != e.key
    requires AllFiled(maxSize, Opposite(side), s.Of(Opposite(side)))
    ensures ProbeKey(m, s, side, e, key) == (s, [])
  {
    var opp := Opposite(side);
    if key in s.Of(opp) {
      var xs := s.Of(opp)[key];
      assert Filed(maxSize, opp, key, xs);
      ProbeRowsMiss(m, side, e, xs);
      assert s.Of(opp)[key := xs] == s.Of(opp);
    }
  }

  lemma {:induction false} ProbeKeepsFiled(maxSize: int, m: Pairing, s: Store, side: Side, e: Event, key: string)
    requires AllFiled(maxSize, Opposite(side), s.Of(Opposite(side)))
    ensures AllFiled(maxSize, Opposite(side), ProbeKey(m, s, side, e, key).0.Of(Opposite(side)))
  {
    var opp := Opposite(side);
    if key in s.Of(opp) {
      var xs := s.Of(opp)[key];
      var ys := Bumped(m, side, e, xs);
      assert Filed(maxSize, opp, key, xs);
      forall y | y in ys ensures y.side == opp && y.event.key == key {
        var i :| 0 <= i < |ys| && ys[i] == y;
        assert xs[i] in xs;
      }
    }
  }

  lemma {:induction false} VisitingAllKeysIsVisitingOne(maxSize: int, m: Pairing, s: Store, side: Side, e: Event,
                                                        keys: seq<string>)
    requires ImpliesEqualKeys(m)
    requires AllFiled(maxSize, Opposite(side), s.Of(Opposite(side)))
    requires forall i, j :: 0 <= i < j < |keys| ==> keys[i] != keys[j]
    ensures ProbeKeys(m, s, side, e, keys) == if e.key in keys then ProbeKey(m, s, side, e, e.key) else (s, [])
  {
    if keys != [] {
      var rest, last := keys[..|keys| - 1], keys[|keys| - 1];
      VisitingAllKeysIsVisitingOne(maxSize, m, s, side, e, rest);
      ProbeKeepsFiled(maxSize, m, s, side, e, e.key);
      var (s1, rows1) := ProbeKeys(m, s, side, e, rest);
      if last != e.key {
        OtherKeyMisses(maxSize, m, s1, side, e, last);
        assert rows1 + [] == rows1;
      } else {
        assert e.key !in rest;
        assert [] + ProbeKey(m, s, side, e, e.key).1 == ProbeKey(m, s, side, e, e.key).1;
      }
    }
  }

  lemma {:induction false} StepsAgree(cfg: JoinConfig, s: Store, step: Step, keys: seq<string>)
    requires ImpliesEqualKeys(Matching(cfg)) && WellFiled(cfg.maxStateSize, s) && KeyOrder(cfg, s, step, keys)
    ensures NestedStep(cfg, s, step, keys) == HashStep(cfg, s, step)
    ensures WellFiled(cfg.maxStateSize, HashStep(cfg, s, step).0)
  {
    match step {
      case Cleanup(now) =>
        StepKeepsFiling(cfg.maxStateSize, s, Expire(now));
      case Arrive(side, e, now) =>
        var se := Stored(cfg, side, e, now);
        var s1 := AddTo(cfg.maxStateSize, s, se);
        StepKeepsFiling(cfg.maxStateSize, s, Add(se));
        assert s1.Of(Opposite(side)) == s.Of(Opposite(side));
        VisitingAllKeysIsVisitingOne(cfg.maxStateSize, Matching(cfg), s1, side, e, keys);
        ProbeKeepsFiled(cfg.maxStateSize, Matching(cfg), s1, side, e, e.key);
    }
  }

  /** A run's final state and the rows each step emitted. */
  ghost function HashRun(cfg: JoinConfig, s: Store, steps: seq<Step>): (Store, seq<seq<JoinResult>>)
    decreases |steps|
  {
    if steps == [] then (s, []) else
      var (s1, rows) := HashStep(cfg, s, steps[0]);
      var (s2, rest) := HashRun(cfg, s1, steps[1..]);
      (s2, [rows] + rest)
  }

  ghost predicate KeyOrders(cfg: JoinConfig, s: Store, steps: seq<Step>, orders: seq<seq<string>>)
    decreases |steps|
  {
    && |orders| == |steps|
    && (steps != [] ==>
          && KeyOrder(cfg, s, steps[0], orders[0])
          && KeyOrders(cfg, NestedStep(cfg, s, steps[0], orders[0]).0, steps[1..], orders[1..]))
  }

  ghost function NestedRun(cfg: JoinConfig, s: Store, steps: seq<Step>, orders: seq<seq<string>>)
    : (Store, seq<seq<JoinResult>>)
    requires |orders| == |steps|
    decreases |steps|
  {
    if steps == [] then (s, []) else
      var (s1, rows) := NestedStep(cfg, s, steps[0], orders[0]);
      var (s2, rest) := NestedRun(cfg, s1, steps[1..], orders[1..]);
      (s2, [rows] + rest)
  }

  lemma {:induction false} RunsAgree(cfg: JoinConfig, s: Store, steps: seq<Step>, orders: seq<seq<string>>)
    requires ImpliesEqualKeys(Matching(cfg)) && WellFiled(cfg.maxStateSize, s) && KeyOrders(cfg, s, steps, orders)
    ensures NestedRun(cfg, s, steps, orders) == HashRun(cfg, s, steps)
    decreases |steps|
  {
    if steps != [] {
      StepsAgree(cfg, s, steps[0], orders[0]);
      RunsAgree(cfg, HashStep(cfg, s, steps[0]).0, steps[1..], orders[1..]);
    }
  }

  /** A pair that matches under different keys is found by the nested loop and missed by the hash probe. */
  lemma {:induction false} StrategiesDiffer(cfg: JoinConfig, l: Event, r: Event)
    requires MatchesCondition(cfg, l, r) && l.key != r.key
    ensures var steps, orders := [Arrive(RightSide, r, 0), Arrive(LeftSide, l, 0)], [[], [r.key]];
            && KeyOrders(cfg, EMPTY_STORE, steps, orders)
            && NestedRun(cfg, EMPTY_STORE, steps, orders) != HashRun(cfg, EMPTY_STORE, steps)
  {
    var first, second := Arrive(RightSide, r, 0), Arrive(LeftSide, l, 0);
    var steps, keys := [first, second], [r.key];
    var orders: seq<seq<string>> := [[], keys];
    var m, se := Matching(cfg), Stored(cfg, RightSide, r, 0);
    var s1 := AddTo(cfg.maxStateSize, EMPTY_STORE, se);
    assert [] + [se] == [se] && Newest(cfg.maxStateSize, [se]) == [se];
    assert s1.right == map[r.key := [se]];
    assert steps[1..] == [second] && orders[1..] == [keys] && s1.right.Keys == {r.key};

    var s2 := AddTo(cfg.maxStateSize, s1, Stored(cfg, LeftSide, l, 0));
    assert ProbeRows(m, LeftSide, l, [se]) == [Joined(LeftSide, l, r)] by {
      assert [se][..0] == [];
    }
    assert ProbeKeys(m, s2, LeftSide, l, keys).1 == [Joined(LeftSide, l, r)] by {
      assert keys[..0] == [];
    }
    assert NestedStep(cfg, s1, second, keys).1 == [Joined(LeftSide, l, r)];
    assert HashStep(cfg, s1, second).1 != [Joined(LeftSide, l, r)];
    assert steps == [first] + [second] && orders == [[]] + [keys];
    HashRunHead(cfg, EMPTY_STORE, first, [second]);
    HashRunHead(cfg, s1, second, []);
    NestedRunHead(cfg, EMPTY_STORE, first, [second], [], [keys]);
    NestedRunHead(cfg, s1, second, [], keys, []);
    assert [second] + [] == [second] && [keys] + [] == [keys];
  }

  lemma {:induction false} HashRunHead(cfg: JoinConfig, s: Store, step: Step, rest: seq<Step>)
    ensures HashRun(cfg, s, [step] + rest).1
         == [HashStep(cfg, s, step).1] + HashRun(cfg, HashStep(cfg, s, step).0, rest).1
  {
    assert ([step] + rest)[1..] == rest;
  }

  lemma {:induction false} NestedRunHead(
      cfg: JoinConfig, s: Store, step: Step, rest: seq<Step>, keys: seq<string>, orders: seq<seq<string>>)
    requires |orders| == |rest|
    ensures NestedRun(cfg, s, [step] + rest, [keys] + orders).1
         == [NestedStep(cfg, s, step, keys).1] + NestedRun(cfg, NestedStep(cfg, s, step, keys).0, rest, orders).1
  {
    assert ([step] + rest)[1..] == rest && ([keys] + orders)[1..] == orders;
  }

  /** Hash and nested loop give the same rows and the same states on every run, cleanups, evictions and
      all four join types included, exactly when matching events have equal keys. */
  lemma {:induction false} StrategiesAgreeIff(cfg: JoinConfig)
    ensures ImpliesEqualKeys(Matching(cfg)) <==>
            forall steps, orders :: KeyOrders(cfg, EMPTY_STORE, steps, orders) ==>
              NestedRun(cfg, EMPTY_STORE, steps, orders) == HashRun(cfg, EMPTY_STORE, steps)
  {
    if ImpliesEqualKeys(Matching(cfg)) {
      forall steps, orders | KeyOrders(cfg, EMPTY_STORE, steps, orders)
        ensures NestedRun(cfg, EMPTY_STORE, steps, orders) == HashRun(cfg, EMPTY_STORE, steps)
      {
        RunsAgree(cfg, EMPTY_STORE, steps, orders);
      }
    } else {
      var l, r :| Matching(cfg)(l, r) && l.key != r.key;
      StrategiesDiffer(cfg, l, r);
    }
  }

  // ------------------------------------------------------------------
  // The operator
  // ------------------------------------------------------------------

  /** The state in the middle of a probe: the first `i` events under `key` have been visited. */
  function ProbedUpTo(m: Pairing, s: Store, side: Side, e: Event, key: string, i: nat): Store
    requires key in s.Of(Opposite(side)) && i <= |s.Of(Opposite(side))[key]|
  {
    var opp := Opposite(side);
    var xs := s.Of(opp)[key];
    s.With(opp, s.Of(opp)[key := Bumped(m, side, e, xs[..i]) + xs[i..]])
     .(metrics := s.metrics.(matchesFound := s.metrics.matchesFound + |ProbeRows(m, side, e, xs[..i])|))
  }

  lemma {:induction false} ProbeStarts(m: Pairing, s: Store, side: Side, e: Event, key: string)
    requires key in s.Of(Opposite(side))
    ensures ProbedUpTo(m, s, side, e, key, 0) == s
  {
    var opp := Opposite(side);
    var xs := s.Of(opp)[key];
    assert Bumped(m, side, e, xs[..0]) + xs[0..] == xs;
    assert s.Of(opp)[key := xs] == s.Of(opp);
  }

  lemma {:induction false} ProbeAdvances(m: Pairing, s: Store, side: Side, e: Event, key: string, i: nat)
    requires key in s.Of(Opposite(side)) && i < |s.Of(Opposite(side))[key]|
    ensures var xs := s.Of(Opposite(side))[key];
            var now, next := ProbedUpTo(m, s, side, e, key, i), ProbedUpTo(m, s, side, e, key, i + 1);
            var rows, more := ProbeRows(m, side, e, xs[..i]), ProbeRows(m, side, e, xs[..i + 1]);
            && i < |now.List(Opposite(side), key)| && now.List(Opposite(side), key)[i] == xs[i]
            && (Hits(m, side, e, xs[i].event) ==>
                 more == rows + [Joined(side, e, xs[i].event)] && next == CountMatch(now, Opposite(side), key, i))
            && (!Hits(m, side, e, xs[i].event) ==> more == rows && next == now)
  {
    var opp := Opposite(side);
    var xs := s.Of(opp)[key];
    assert xs[..i + 1][..i] == xs[..i];
    var ys := Bumped(m, side, e, xs[..i]) + xs[i..];
    var zs := Bumped(m, side, e, xs[..i + 1]) + xs[i + 1..];
    if Hits(m, side, e, xs[i].event) {
      assert zs == ys[i := ys[i].(matchCount := ys[i].matchCount + 1)];
      var m0 := s.Of(opp);
      assert m0[key := ys][key := zs] == m0[key := zs];
    } else {
      assert zs == ys;
    }
  }

  lemma {:induction false} ProbeEnds(m: Pairing, s: Store, side: Side, e: Event, key: string)
    requires key in s.Of(Opposite(side))
    ensures var xs := s.Of(Opposite(side))[key];
            ProbeKey(m, s, side, e, key) == (ProbedUpTo(m, s, side, e, key, |xs|), ProbeRows(m, side, e, xs))
    ensures var xs := s.Of(Opposite(side))[key]; xs[..|xs|] == xs
  {
    var xs := s.Of(Opposite(side))[key];
    assert xs[..|xs|] == xs;
    assert Bumped(m, side, e, xs) + xs[|xs|..] == Bumped(m, side, e, xs);
  }

  class JoinOperator {
    const config: JoinConfig
    const state: JoinState

    ghost predicate Valid()
      reads this, state
    {
      state.maxStateSize == config.maxStateSize && state.Valid()
    }

    constructor (config: JoinConfig)
      ensures this.config == config && Valid() && fresh(state) && state.View() == EMPTY_STORE
    {
      this.config := config;
      this.state := new JoinState(config.maxStateSize);
    }

    /** ProcessLeft and ProcessRight: store the event on its side, then probe the other one. */
    method Process(side: Side, event: Event, now: int) returns (results: seq<JoinResult>)
      requires Valid()
      modifies state
      ensures Valid()
      ensures config.strategy.NestedLoopJoin? ==>
        exists keys :: KeyOrder(config, old(state.View()), Arrive(side, event, now), keys)
                    && (state.View(), results) == NestedStep(config, old(state.View()), Arrive(side, event, now), keys)
      ensures !config.strategy.NestedLoopJoin? ==>
        (state.View(), results) == HashStep(config, old(state.View()), Arrive(side, event, now))
    {
      ghost var before := state.View();
      StoreEvent(side, event, now);
      match config.strategy {
        case NestedLoopJoin =>
          ghost var keys;
          results, keys := NestedLoopProbe(side, event);
          assert KeyOrder(config, before, Arrive(side, event, now), keys);
        case _ =>
          results := HashProbe(side, event);
      }
    }

    method StoreEvent(side: Side, event: Event, now: int)
      requires Valid()
      modifies state
      ensures Valid()
      ensures state.View() == AddTo(config.maxStateSize, old(state.View()), Stored(config, side, event, now))
    {
      var expiresAt := event.time + config.stateRetention;
      if side.LeftSide? {
        state.AddLeftEvent(event, expiresAt, now);
      } else {
        state.AddRightEvent(event, expiresAt, now);
      }
    }

    method HashProbe(side: Side, event: Event) returns (results: seq<JoinResult>)
      requires Valid()
      modifies state
      ensures Valid()
      ensures var (s', rows) := ProbeKey(Matching(config), old(state.View()), side, event, event.key);
              state.View() == s' && results == WithPadding(config.joinType, side, event, rows)
    {
      results := VisitKey(side, event, event.key);
      if |results| == 0 && Preserves(config.joinType, side) {
        results := [Padded(side, event)];
      }
    }

    method NestedLoopProbe(side: Side, event: Event) returns (results: seq<JoinResult>, ghost keys: seq<string>)
      requires Valid()
      modifies state
      ensures Valid()
      ensures Enumerates(keys, old(state.View()).Of(Opposite(side)).Keys)
      ensures var (s', rows) := ProbeKeys(Matching(config), old(state.View()), side, event, keys);
              state.View() == s' && results == WithPadding(config.joinType, side, event, rows)
    {
      ghost var s := state.View();
      var order := state.GetAllKeys(Opposite(side));
      keys := order;
      results := [];
      for i := 0 to |order|
        invariant Valid()
        invariant (state.View(), results) == ProbeKeys(Matching(config), s, side, event, order[..i])
      {
        var rows := VisitKey(side, event, order[i]);
        results := results + rows;
        assert order[..i + 1][..i] == order[..i];
      }
      assert order[..|order|] == order;
      if |results| == 0 && Preserves(config.joinType, side) {
        results := [Padded(side, event)];
      }
    }

    /** The loop over the events stored under one key. */
    method VisitKey(side: Side, event: Event, key: string) returns (results: seq<JoinResult>)
      requires Valid()
      modifies state
      ensures Valid()
      ensures (state.View(), results) == ProbeKey(Matching(config), old(state.View()), side, event, key)
    {
      ghost var s, m := state.View(), Matching(config);
      var events;
      if side.LeftSide? {
        events := state.GetRightEvents(key);
      } else {
        events := state.GetLeftEvents(key);
      }
      results := [];
      if |events| == 0 {
        NothingStored(config.maxStateSize, s, Opposite(side), key);
        return;
      }
      ProbeStarts(m, s, side, event, key);
      for i := 0 to |events|
        invariant Valid()
        invariant state.View() == ProbedUpTo(m, s, side, event, key, i)
        invariant results == ProbeRows(m, side, event, events[..i])
      {
        ProbeAdvances(m, s, side, event, key, i);
        var stored := events[i];
        var matches := if side.LeftSide? then MatchesCondition(config, event, stored.event)
                       else MatchesCondition(config, stored.event, event);
        if matches {
          results := results + [Joined(side, event, stored.event)];
          state.IncrementMatchCount(Opposite(side), key, i);
        }
      }
      ProbeEnds(m, s, side, event, key);
    }

    /** Removes what has expired; unmatched events of outer joins are only logged. */
    method Cleanup(now: int)
      requires Valid()
      modifies state
      ensures Valid()
      ensures (state.View(), []) == HashStep(config, old(state.View()), Step.Cleanup(now))
    {
      var left, right := state.RemoveExpiredEvents(now);
    }
  }
}
