/** The keyed two-sided state every stream join keeps (pkg/join/state.go, pkg/join/types.go). */
module JoinStates {
  import opened Seqs

  /** An event's payload is opaque; `payload` also stands for its identity. */
  type Payload(==, !new)

  datatype Event = Event(key: string, time: int, payload: Payload)

  datatype Side = LeftSide | RightSide

  function Opposite(side: Side): Side {
    if side.LeftSide? then RightSide else LeftSide
  }

  datatype StoredEvent = StoredEvent(event: Event, side: Side, storedAt: int, expiresAt: int, matchCount: nat)
  {
    predicate IsExpired(now: int) {
      now > expiresAt
    }
  }

  /** The survivors of a cleanup at `now`, and the events it removes. */
  function Live(now: int): StoredEvent -> bool {
    (se: StoredEvent) => !se.IsExpired(now)
  }

  function Dead(now: int): StoredEvent -> bool {
    (se: StoredEvent) => se.IsExpired(now)
  }

  datatype Metrics = Metrics(leftReceived: nat, rightReceived: nat, matchesFound: nat,
                             stateSize: int, expiredEvents: nat, cleanupRuns: nat)

  type Keyed = map<string, seq<StoredEvent>>

  /** The whole state as a value: what a `JoinState` object holds between two locked sections. */
  datatype Store = Store(left: Keyed, right: Keyed, metrics: Metrics)
  {
    function Of(side: Side): Keyed {
      if side.LeftSide? then left else right
    }

    function With(side: Side, m: Keyed): Store {
      if side.LeftSide? then this.(left := m) else this.(right := m)
    }

    function List(side: Side, key: string): seq<StoredEvent> {
      At(Of(side), key)
    }
  }

  const EMPTY_STORE := Store(map[], map[], Metrics(0, 0, 0, 0, 0, 0))

  /** A list after `enforceMaxStateSize`: the newest `maxSize` events, or all of them when the limit is off. */
  function Newest<T>(maxSize: int, xs: seq<T>): seq<T> {
    if maxSize > 0 && |xs| > maxSize then xs[|xs| - maxSize..] else xs
  }

  function Received(m: Metrics, side: Side): Metrics {
    if side.LeftSide? then m.(leftReceived := m.leftReceived + 1) else m.(rightReceived := m.rightReceived + 1)
  }

  /** Storing an event: one more arrival on its side, at the end of its key's list. */
  function AddTo(maxSize: int, s: Store, se: StoredEvent): Store {
    var all := s.List(se.side, se.event.key) + [se];
    var kept := Newest(maxSize, all);
    var m := Received(s.metrics, se.side);
    s.With(se.side, s.Of(se.side)[se.event.key := kept])
     .(metrics := m.(stateSize := m.stateSize + 1 - (|all| - |kept|)))
  }

  /** How many events one arrival evicts. */
  function EvictedBy(maxSize: int, s: Store, se: StoredEvent): nat {
    var all := s.List(se.side, se.event.key) + [se];
    |all| - |Newest(maxSize, all)|
  }

  /** One side after a cleanup at `now`: unexpired events only, and no key left with an empty list. */
  function Unexpired(m: Keyed, now: int): Keyed {
    map k | k in m && Filter(m[k], Live(now)) != [] :: Filter(m[k], Live(now))
  }

  ghost function ExpireAll(s: Store, now: int): Store {
    var left, right := Unexpired(s.left, now), Unexpired(s.right, now);
    var gone := (TotalLen(s.left) - TotalLen(left)) + (TotalLen(s.right) - TotalLen(right));
    UnexpiredShrinks(s.left, now);
    UnexpiredShrinks(s.right, now);
    Store(left, right, s.metrics.(stateSize := s.metrics.stateSize - gone,
                                  expiredEvents := s.metrics.expiredEvents + gone,
                                  cleanupRuns := s.metrics.cleanupRuns + 1))
  }

  lemma {:induction false} UnexpiredShrinks(m: Keyed, now: int)
    ensures TotalLen(Unexpired(m, now)) <= TotalLen(m)
    decreases |m|
  {
    if m != map[] {
      var k :| k in m;
      UnexpiredSplit(m, now, k);
      UnexpiredShrinks(m - {k}, now);
      TotalLenRemove(m, k);
    }
  }

  lemma {:induction false} UnexpiredWithout(m: Keyed, now: int, k: string)
    ensures Unexpired(m, now) - {k} == Unexpired(m - {k}, now)
  {
  }

  /** A cleanup treats each key on its own. */
  lemma {:induction false} UnexpiredSplit(m: Keyed, now: int, k: string)
    requires k in m
    ensures TotalLen(Unexpired(m, now)) == |Filter(m[k], Live(now))| + TotalLen(Unexpired(m - {k}, now))
  {
    var u := Unexpired(m, now);
    UnexpiredWithout(m, now, k);
    if k in u {
      TotalLenRemove(u, k);
    } else {
      assert u - {k} == u;
    }
  }

  /** Recording one match found by a probe. */
  function CountMatch(s: Store, side: Side, key: string, i: nat): Store
    requires i < |s.List(side, key)|
  {
    var xs := s.List(side, key);
    s.With(side, s.Of(side)[key := xs[i := xs[i].(matchCount := xs[i].matchCount + 1)]])
     .(metrics := s.metrics.(matchesFound := s.metrics.matchesFound + 1))
  }

  // ------------------------------------------------------------------
  // Accounting: what every operation on the state keeps
  // ------------------------------------------------------------------

  datatype Op =
    | Add(se: StoredEvent)
    | Expire(now: int)
    | Count(side: Side, key: string, index: nat)

  ghost predicate Enabled(s: Store, op: Op) {
    match op
    case Add(se) => se.matchCount == 0
    case Expire(_) => true
    case Count(side, key, i) => i < |s.List(side, key)|
  }

  ghost function Apply(maxSize: int, s: Store, op: Op): Store
    requires Enabled(s, op)
  {
    match op
    case Add(se) => AddTo(maxSize, s, se)
    case Expire(now) => ExpireAll(s, now)
    case Count(side, key, i) => CountMatch(s, side, key, i)
  }

  ghost predicate EnabledAll(maxSize: int, s: Store, ops: seq<Op>)
    decreases |ops|
  {
    ops == [] || (Enabled(s, ops[0]) && EnabledAll(maxSize, Apply(maxSize, s, ops[0]), ops[1..]))
  }

  ghost function ApplyAll(maxSize: int, s: Store, ops: seq<Op>): Store
    requires EnabledAll(maxSize, s, ops)
    decreases |ops|
  {
    if ops == [] then s else ApplyAll(maxSize, Apply(maxSize, s, ops[0]), ops[1..])
  }

  /** Evictions over a run: the one quantity the metrics do not record. */
  ghost function Evictions(maxSize: int, s: Store, ops: seq<Op>): nat
    requires EnabledAll(maxSize, s, ops)
    decreases |ops|
  {
    if ops == [] then 0 else
      (if ops[0].Add? then EvictedBy(maxSize, s, ops[0].se) else 0)
      + Evictions(maxSize, Apply(maxSize, s, ops[0]), ops[1..])
  }

  /** The arrivals of one key on one side, in arrival order. */
  function Arrivals(ops: seq<Op>, side: Side, key: string): seq<Event> {
    if ops == [] then [] else
      (if ops[0].Add? && ops[0].se.side == side && ops[0].se.event.key == key then [ops[0].se.event] else [])
      + Arrivals(ops[1..], side, key)
  }

  function Events(xs: seq<StoredEvent>): (es: seq<Event>)
    ensures |es| == |xs|
  {
    seq(|xs|, i requires 0 <= i < |xs| => xs[i].event)
  }

  ghost predicate Filed(maxSize: int, side: Side, key: string, xs: seq<StoredEvent>) {
    && xs != []
    && (maxSize > 0 ==> |xs| <= maxSize)
    && forall se :: se in xs ==> se.side == side && se.event.key == key
  }

  ghost predicate AllFiled(maxSize: int, side: Side, m: Keyed) {
    forall key {:trigger m[key]} :: key in m ==> Filed(maxSize, side, key, m[key])
  }

  /** Every list is non-empty, filed under its own key and side, and within the limit. */
  ghost predicate WellFiled(maxSize: int, s: Store) {
    AllFiled(maxSize, LeftSide, s.left) && AllFiled(maxSize, RightSide, s.right)
  }

  ghost predicate Accounted(s: Store, evicted: int) {
    && s.metrics.stateSize == TotalLen(s.left) + TotalLen(s.right)
    && s.metrics.leftReceived + s.metrics.rightReceived
       == TotalLen(s.left) + TotalLen(s.right) + s.metrics.expiredEvents + evicted
  }

  lemma {:induction false} ExpiryKeepsFiled(maxSize: int, m: Keyed, now: int, side: Side)
    requires AllFiled(maxSize, side, m)
    ensures AllFiled(maxSize, side, Unexpired(m, now))
  {
    forall key | key in Unexpired(m, now) ensures Filed(maxSize, side, key, Unexpired(m, now)[key]) {
      assert Filed(maxSize, side, key, m[key]);
    }
  }

  /** Replacing one well-filed list by another. */
  lemma {:induction false} ReplaceKeepsFiled(maxSize: int, m: Keyed, side: Side, key: string, xs: seq<StoredEvent>)
    requires AllFiled(maxSize, side, m) && Filed(maxSize, side, key, xs)
    ensures AllFiled(maxSize, side, m[key := xs])
  {
  }

  lemma {:induction false} NewestIsFiled(maxSize: int, se: StoredEvent, xs: seq<StoredEvent>)
    requires xs == [] || Filed(maxSize, se.side, se.event.key, xs)
    ensures Filed(maxSize, se.side, se.event.key, Newest(maxSize, xs + [se]))
  {
    assert forall y :: y in Newest(maxSize, xs + [se]) ==> y in xs || y == se;
  }

  lemma {:induction false} StepKeepsSideFiled(maxSize: int, s: Store, op: Op, side: Side)
    requires AllFiled(maxSize, side, s.Of(side)) && Enabled(s, op)
    ensures AllFiled(maxSize, side, Apply(maxSize, s, op).Of(side))
  {
    match op {
      case Add(se) =>
        if side == se.side {
          var xs := s.List(side, se.event.key);
          NewestIsFiled(maxSize, se, xs);
          ReplaceKeepsFiled(maxSize, s.Of(side), side, se.event.key, Newest(maxSize, xs + [se]));
        }
      case Expire(now) => ExpiryKeepsFiled(maxSize, s.Of(side), now, side);
      case Count(other, key, i) =>
        if side == other {
          var xs := s.List(side, key);
          var ys := xs[i := xs[i].(matchCount := xs[i].matchCount + 1)];
          assert Filed(maxSize, side, key, xs);
          assert forall j :: 0 <= j < |ys| ==> xs[j] in xs && ys[j].side == xs[j].side && ys[j].event == xs[j].event;
          ReplaceKeepsFiled(maxSize, s.Of(side), side, key, ys);
        }
    }
  }

  lemma {:induction false} StepKeepsFiling(maxSize: int, s: Store, op: Op)
    requires WellFiled(maxSize, s) && Enabled(s, op)
    ensures WellFiled(maxSize, Apply(maxSize, s, op))
  {
    StepKeepsSideFiled(maxSize, s, op, LeftSide);
    StepKeepsSideFiled(maxSize, s, op, RightSide);
  }

  lemma {:induction false} StepKeepsAccounts(maxSize: int, s: Store, op: Op, evicted: int)
    requires Enabled(s, op) && Accounted(s, evicted)
    ensures Accounted(Apply(maxSize, s, op), evicted + if op.Add? then EvictedBy(maxSize, s, op.se) else 0)
  {
    match op {
      case Add(se) =>
        var all := s.List(se.side, se.event.key) + [se];
        TotalLenUpdate(s.Of(se.side), se.event.key, Newest(maxSize, all));
      case Expire(now) =>
        UnexpiredShrinks(s.left, now);
        UnexpiredShrinks(s.right, now);
      case Count(side, key, i) =>
        var xs := s.List(side, key);
        TotalLenUpdate(s.Of(side), key, xs[i := xs[i].(matchCount := xs[i].matchCount + 1)]);
    }
  }

  /** The invariant of the mutable state: lists filed properly and the size counter exact. */
  ghost predicate Sound(maxSize: int, s: Store) {
    WellFiled(maxSize, s) && s.metrics.stateSize == TotalLen(s.left) + TotalLen(s.right)
  }

  /** A read that returns nothing means the key is absent. */
  lemma {:induction false} NothingStored(maxSize: int, s: Store, side: Side, key: string)
    requires Sound(maxSize, s) && s.List(side, key) == []
    ensures key !in s.Of(side)
  {
    assert AllFiled(maxSize, side, s.Of(side));
  }

  lemma {:induction false} StepKeepsSound(maxSize: int, s: Store, op: Op)
    requires Sound(maxSize, s) && Enabled(s, op)
    ensures Sound(maxSize, Apply(maxSize, s, op))
  {
    StepKeepsFiling(maxSize, s, op);
    var evicted := s.metrics.leftReceived + s.metrics.rightReceived
                   - TotalLen(s.left) - TotalLen(s.right) - s.metrics.expiredEvents;
    StepKeepsAccounts(maxSize, s, op, evicted);
  }

  /** In every reachable state the size counter is the number of stored events, every arrival is
      live, expired or evicted, no key has an empty list and no list exceeds the limit. */
  lemma {:induction false} AccountsBalance(maxSize: int, s: Store, ops: seq<Op>, evicted: nat)
    requires WellFiled(maxSize, s) && Accounted(s, evicted) && EnabledAll(maxSize, s, ops)
    ensures WellFiled(maxSize, ApplyAll(maxSize, s, ops))
    ensures Accounted(ApplyAll(maxSize, s, ops), evicted + Evictions(maxSize, s, ops))
    decreases |ops|
  {
    if ops != [] {
      var gone := if ops[0].Add? then EvictedBy(maxSize, s, ops[0].se) else 0;
      StepKeepsFiling(maxSize, s, ops[0]);
      StepKeepsAccounts(maxSize, s, ops[0], evicted);
      AccountsBalance(maxSize, Apply(maxSize, s, ops[0]), ops[1..], evicted + gone);
    }
  }

  lemma {:induction false} NewestEvents(maxSize: int, xs: seq<StoredEvent>)
    ensures Events(Newest(maxSize, xs)) == Newest(maxSize, Events(xs))
  {
  }

  lemma {:induction false} NewestIsSubsequence<T>(maxSize: int, xs: seq<T>)
    ensures Subsequence(Newest(maxSize, xs), xs)
  {
    if maxSize > 0 && |xs| > maxSize {
      DropIsSubsequence(xs, |xs| - maxSize);
    } else {
      SubsequenceRefl(xs);
    }
  }

  lemma {:induction false} EventsSnoc(xs: seq<StoredEvent>, se: StoredEvent)
    ensures Events(xs + [se]) == Events(xs) + [se.event]
  {
  }

  lemma {:induction false} AddKeepsOrder(maxSize: int, s: Store, se: StoredEvent, before: seq<Event>)
    requires Subsequence(Events(s.List(se.side, se.event.key)), before)
    ensures Subsequence(Events(AddTo(maxSize, s, se).List(se.side, se.event.key)), before + [se.event])
  {
    var xs := s.List(se.side, se.event.key);
    var es := Events(xs) + [se.event];
    EventsSnoc(xs, se);
    NewestEvents(maxSize, xs + [se]);
    SubsequenceSnoc(Events(xs), before, se.event);
    NewestIsSubsequence(maxSize, es);
    SubsequenceTrans(Newest(maxSize, es), es, before + [se.event]);
  }

  /** One operation keeps a key's list an arrival-ordered selection of its arrivals. */
  lemma {:induction false} StepKeepsOrder(maxSize: int, s: Store, op: Op, side: Side, key: string, before: seq<Event>)
    requires Enabled(s, op)
    requires Subsequence(Events(s.List(side, key)), before)
    ensures Subsequence(Events(Apply(maxSize, s, op).List(side, key)), before + Arrivals([op], side, key))
  {
    var xs := s.List(side, key);
    var ys := Apply(maxSize, s, op).List(side, key);
    if op.Add? && op.se.side == side && op.se.event.key == key {
      AddKeepsOrder(maxSize, s, op.se, before);
      assert Arrivals([op], side, key) == [op.se.event];
    } else {
      assert before + Arrivals([op], side, key) == before;
      if op.Expire? {
        assert ys == Filter(xs, Live(op.now));
        FilterIsSubsequence(xs, Live(op.now));
        SubsequenceOfEvents(ys, xs);
        SubsequenceTrans(Events(ys), Events(xs), before);
      } else {
        assert Events(ys) == Events(xs);
      }
    }
  }

  lemma {:induction false} SubsequenceOfEvents(a: seq<StoredEvent>, b: seq<StoredEvent>)
    requires Subsequence(a, b)
    ensures Subsequence(Events(a), Events(b))
    decreases |b|
  {
    if a != [] {
      var b' := b[..|b| - 1];
      assert Events(b)[..|b| - 1] == Events(b');
      if Subsequence(a, b') {
        SubsequenceOfEvents(a, b');
      } else {
        SubsequenceOfEvents(a[..|a| - 1], b');
        assert Events(a)[..|a| - 1] == Events(a[..|a| - 1]);
      }
    }
  }

  lemma {:induction false} ArrivalsCons(ops: seq<Op>, side: Side, key: string)
    requires ops != []
    ensures Arrivals(ops, side, key) == Arrivals([ops[0]], side, key) + Arrivals(ops[1..], side, key)
  {
    assert [ops[0]][1..] == [];
  }

  /** Over any run, the stored events of a key are some of its arrivals, in arrival order. */
  lemma {:induction false} ListsAreArrivalOrdered(maxSize: int, s: Store, ops: seq<Op>, side: Side, key: string,
                                                  before: seq<Event>)
    requires EnabledAll(maxSize, s, ops)
    requires Subsequence(Events(s.List(side, key)), before)
    ensures Subsequence(Events(ApplyAll(maxSize, s, ops).List(side, key)), before + Arrivals(ops, side, key))
    decreases |ops|
  {
    if ops == [] {
      assert before + [] == before;
    } else {
      StepKeepsOrder(maxSize, s, ops[0], side, key, before);
      ListsAreArrivalOrdered(maxSize, Apply(maxSize, s, ops[0]), ops[1..], side, key,
                             before + Arrivals([ops[0]], side, key));
      ArrivalsCons(ops, side, key);
      Associates(before, Arrivals([ops[0]], side, key), Arrivals(ops[1..], side, key));
    }
  }

  /** What one arrival evicts is older than everything that stays, the newcomer stays, and other lists do not change. */
  lemma {:induction false} EvictionDropsOldest(maxSize: int, s: Store, se: StoredEvent)
    ensures var all := s.List(se.side, se.event.key) + [se];
            var n := EvictedBy(maxSize, s, se);
            && AddTo(maxSize, s, se).List(se.side, se.event.key) == all[n..]
            && n < |all|
            && (n > 0 ==> |all| - n == maxSize)
            && forall side, key :: (side, key) != (se.side, se.event.key) ==>
                 AddTo(maxSize, s, se).List(side, key) == s.List(side, key)
  {
  }

  /** Cutting before an arrival makes no difference to the cut after it. */
  lemma {:induction false} NewestOfNewest<T>(maxSize: int, xs: seq<T>, x: T)
    ensures Newest(maxSize, Newest(maxSize, xs) + [x]) == Newest(maxSize, xs + [x])
  {
    if maxSize > 0 && |xs| > maxSize {
      assert (xs[|xs| - maxSize..] + [x])[1..] == (xs + [x])[|xs| + 1 - maxSize..];
    }
  }

  lemma {:induction false} AddKeepsNewest(maxSize: int, s: Store, se: StoredEvent, before: seq<Event>)
    requires Events(s.List(se.side, se.event.key)) == Newest(maxSize, before)
    ensures Events(AddTo(maxSize, s, se).List(se.side, se.event.key)) == Newest(maxSize, before + [se.event])
  {
    var xs := s.List(se.side, se.event.key);
    NewestEvents(maxSize, xs + [se]);
    EventsSnoc(xs, se);
    NewestOfNewest(maxSize, before, se.event);
  }

  lemma {:induction false} StepKeepsNewest(maxSize: int, s: Store, op: Op, side: Side, key: string, before: seq<Event>)
    requires Enabled(s, op) && !op.Expire? && Events(s.List(side, key)) == Newest(maxSize, before)
    ensures Events(Apply(maxSize, s, op).List(side, key)) == Newest(maxSize, before + Arrivals([op], side, key))
  {
    if op.Add? && op.se.side == side && op.se.event.key == key {
      AddKeepsNewest(maxSize, s, op.se, before);
      assert Arrivals([op], side, key) == [op.se.event];
    } else {
      assert before + Arrivals([op], side, key) == before;
      if op.Add? {
        EvictionDropsOldest(maxSize, s, op.se);
      }
      assert Events(Apply(maxSize, s, op).List(side, key)) == Events(s.List(side, key));
    }
  }

  lemma {:induction false} ListIsNewest(
    maxSize: int, s: Store, ops: seq<Op>, side: Side, key: string, before: seq<Event>)
    requires EnabledAll(maxSize, s, ops) && forall op :: op in ops ==> !op.Expire?
    requires Events(s.List(side, key)) == Newest(maxSize, before)
    ensures Events(ApplyAll(maxSize, s, ops).List(side, key)) == Newest(maxSize, before + Arrivals(ops, side, key))
    decreases |ops|
  {
    if ops == [] {
      assert before + [] == before;
    } else {
      assert ops[0] in ops && forall op :: op in ops[1..] ==> op in ops;
      StepKeepsNewest(maxSize, s, ops[0], side, key, before);
      ListIsNewest(maxSize, Apply(maxSize, s, ops[0]), ops[1..], side, key,
                   before + Arrivals([ops[0]], side, key));
      ArrivalsCons(ops, side, key);
      Associates(before, Arrivals([ops[0]], side, key), Arrivals(ops[1..], side, key));
    }
  }

  /** Over any run in which nothing expires, whatever the other keys do and however arrivals and evictions alternate, a
      key's list is the newest MaxStateSize of all its arrivals, in order; without a limit it is all of them. */
  lemma {:induction false} ListIsNewestArrivals(maxSize: int, ops: seq<Op>, side: Side, key: string)
    requires EnabledAll(maxSize, EMPTY_STORE, ops) && forall op :: op in ops ==> !op.Expire?
    ensures var all := Arrivals(ops, side, key);
            Events(ApplyAll(maxSize, EMPTY_STORE, ops).List(side, key))
            == if 0 < maxSize < |all| then all[|all| - maxSize..] else all
  {
    ListIsNewest(maxSize, EMPTY_STORE, ops, side, key, []);
    assert [] + Arrivals(ops, side, key) == Arrivals(ops, side, key);
  }

  // ------------------------------------------------------------------
  // What the counters count
  // ------------------------------------------------------------------

  /** How many operations of a run satisfy `p`. */
  function HowMany(ops: seq<Op>, p: Op -> bool): nat {
    if ops == [] then 0 else (if p(ops[0]) then 1 else 0) + HowMany(ops[1..], p)
  }

  /** Over any run, each counter has counted its own kind of operation. */
  lemma {:induction false} MetricsCountOperations(maxSize: int, s: Store, ops: seq<Op>)
    requires EnabledAll(maxSize, s, ops)
    ensures var m, m' := s.metrics, ApplyAll(maxSize, s, ops).metrics;
            && m'.leftReceived == m.leftReceived + HowMany(ops, (op: Op) => op.Add? && op.se.side.LeftSide?)
            && m'.rightReceived == m.rightReceived + HowMany(ops, (op: Op) => op.Add? && op.se.side.RightSide?)
            && m'.matchesFound == m.matchesFound + HowMany(ops, (op: Op) => op.Count?)
            && m'.cleanupRuns == m.cleanupRuns + HowMany(ops, (op: Op) => op.Expire?)
    decreases |ops|
  {
    if ops != [] {
      MetricsCountOperations(maxSize, Apply(maxSize, s, ops[0]), ops[1..]);
    }
  }

  lemma {:induction false} MatchCountStep(maxSize: int, s: Store, op: Op, side: Side, key: string, i: nat)
    requires maxSize <= 0 && Enabled(s, op) && !op.Expire? && i < |s.List(side, key)|
    ensures var xs, ys := s.List(side, key), Apply(maxSize, s, op).List(side, key);
            i < |ys| && ys[i] == if op == Count(side, key, i) then xs[i].(matchCount := xs[i].matchCount + 1) else xs[i]
  {
  }

  /** While nothing is removed, a stored event's match count has counted the matches recorded for it. */
  lemma {:induction false} MatchCountCounts(maxSize: int, s: Store, ops: seq<Op>, side: Side, key: string, i: nat)
    requires maxSize <= 0 && EnabledAll(maxSize, s, ops) && forall op :: op in ops ==> !op.Expire?
    requires i < |s.List(side, key)|
    ensures var xs, ys := s.List(side, key), ApplyAll(maxSize, s, ops).List(side, key);
            i < |ys| && ys[i] == xs[i].(matchCount := xs[i].matchCount
                                                      + HowMany(ops, (op: Op) => op == Count(side, key, i)))
    decreases |ops|
  {
    if ops != [] {
      assert ops[0] in ops && forall op :: op in ops[1..] ==> op in ops;
      MatchCountStep(maxSize, s, ops[0], side, key, i);
      MatchCountCounts(maxSize, Apply(maxSize, s, ops[0]), ops[1..], side, key, i);
    }
  }

  // ------------------------------------------------------------------
  // The mutable state, one method per locked section
  // ------------------------------------------------------------------

  function FiledUnder(key: string): StoredEvent -> bool {
    (se: StoredEvent) => se.event.key == key
  }

  /** Go's delete-or-replace of one entry. */
  function Put(m: Keyed, k: string, xs: seq<StoredEvent>): Keyed {
    if |xs| == 0 then m - {k} else m[k := xs]
  }

  lemma {:induction false} PutCounts(m: Keyed, k: string, xs: seq<StoredEvent>)
    requires k in m
    ensures TotalLen(Put(m, k, xs)) == TotalLen(m) - |m[k]| + |xs|
    ensures forall j :: At(Put(m, k, xs), j) == if j == k then xs else At(m, j)
  {
    if |xs| == 0 {
      TotalLenRemove(m, k);
    } else {
      TotalLenUpdate(m, k, xs);
    }
  }

  /** Maps without empty lists are determined by what a read returns. */
  lemma {:induction false} SameLists(m: Keyed, n: Keyed)
    requires forall k :: k in m ==> m[k] != []
    requires forall k :: k in n ==> n[k] != []
    requires forall k :: At(m, k) == At(n, k)
    ensures m == n
  {
    forall k ensures k in m <==> k in n {
      assert At(m, k) == At(n, k);
    }
    forall k | k in m ensures m[k] == n[k] {
      assert At(m, k) == At(n, k);
    }
  }

  /** Handing over what expired under one key leaves the other keys' share as it was. */
  lemma {:induction false} HandOver(before: seq<StoredEvent>, gone: seq<StoredEvent>, key: string, k: string)
    requires forall se :: se in gone ==> se.event.key == key
    ensures Filter(before + gone, FiledUnder(k)) == Filter(before, FiledUnder(k)) + if k == key then gone else []
  {
    FilterConcat(before, gone, FiledUnder(k));
    if k == key {
      FilterAll(gone, FiledUnder(k));
    } else {
      FilterNone(gone, FiledUnder(k));
    }
  }

  lemma {:induction false} LiveOrDead(xs: seq<StoredEvent>, now: int)
    ensures |Filter(xs, Live(now))| + |Filter(xs, Dead(now))| == |xs|
  {
    if xs != [] {
      LiveOrDead(xs[..|xs| - 1], now);
    }
  }

  /** A cleanup of `m` that has still to visit the keys in `todo`: what a read of `cur` returns ... */
  ghost predicate Swept(m: Keyed, cur: Keyed, todo: set<string>, now: int) {
    && (forall k :: k in cur ==> cur[k] != [])
    && (forall k :: k in todo ==> k in m && At(cur, k) == m[k])
    && (forall k :: k !in todo ==> At(cur, k) == Filter(At(m, k), Live(now)))
  }

  /** ... and what has been handed over for each key. */
  ghost predicate Handed(m: Keyed, expired: seq<StoredEvent>, todo: set<string>, now: int) {
    forall k {:trigger FiledUnder(k)} ::
      Filter(expired, FiledUnder(k)) == if k in todo then [] else Filter(At(m, k), Dead(now))
  }

  lemma {:induction false} SweepStart(maxSize: int, side: Side, m: Keyed, now: int)
    requires AllFiled(maxSize, side, m)
    ensures Swept(m, m, m.Keys, now) && Handed(m, [], m.Keys, now)
  {
  }

  lemma {:induction false} SweepEnd(m: Keyed, cur: Keyed, now: int)
    requires Swept(m, cur, {}, now)
    ensures cur == Unexpired(m, now)
  {
    forall k ensures At(cur, k) == At(Unexpired(m, now), k) {
      assert At(cur, k) == Filter(At(m, k), Live(now));
    }
    SameLists(cur, Unexpired(m, now));
  }

  lemma {:induction false} SweepKey(
      m: Keyed, cur: Keyed, todo: set<string>, now: int, key: string, kept: seq<StoredEvent>)
    requires Swept(m, cur, todo, now) && key in todo && m[key] != []
    requires kept == Filter(m[key], Live(now))
    ensures Swept(m, Put(cur, key, kept), todo - {key}, now)
  {
    assert At(cur, key) == m[key];
    PutCounts(cur, key, kept);
  }

  lemma {:induction false} SweepCounts(
      m: Keyed, cur: Keyed, todo: set<string>, now: int, key: string, kept: seq<StoredEvent>)
    requires Swept(m, cur, todo, now) && key in todo && m[key] != []
    requires kept == Filter(m[key], Live(now))
    ensures TotalLen(Put(cur, key, kept)) == TotalLen(cur) - |Filter(m[key], Dead(now))|
  {
    assert At(cur, key) == m[key];
    LiveOrDead(m[key], now);
    PutCounts(cur, key, kept);
  }

  lemma {:induction false} HandKey(
      m: Keyed, expired: seq<StoredEvent>, todo: set<string>, now: int, key: string, gone: seq<StoredEvent>)
    requires Handed(m, expired, todo, now) && key in todo && key in m
    requires forall se :: se in m[key] ==> se.event.key == key
    requires gone == Filter(m[key], Dead(now))
    ensures Handed(m, expired + gone, todo - {key}, now)
  {
    forall k
      ensures Filter(expired + gone, FiledUnder(k)) == if k in todo - {key} then [] else Filter(At(m, k), Dead(now)) {
      assert Filter(expired, FiledUnder(k)) == if k in todo then [] else Filter(At(m, k), Dead(now));
      HandOver(expired, gone, key, k);
      if k == key {
        assert [] + gone == gone;
      } else {
        assert Filter(expired, FiledUnder(k)) + [] == Filter(expired, FiledUnder(k));
      }
    }
  }

  class JoinState {
    var leftState: Keyed
    var rightState: Keyed
    var metrics: Metrics
    const maxStateSize: int

    ghost function View(): Store
      reads this
    {
      Store(leftState, rightState, metrics)
    }

    ghost predicate Valid()
      reads this
    {
      Sound(maxStateSize, View())
    }

    constructor (maxStateSize: int)
      ensures Valid() && View() == EMPTY_STORE && this.maxStateSize == maxStateSize
    {
      this.maxStateSize := maxStateSize;
      leftState, rightState := map[], map[];
      metrics := EMPTY_STORE.metrics;
    }

    method AddLeftEvent(event: Event, expiresAt: int, now: int)
      requires Valid()
      modifies this
      ensures Valid()
      ensures View() == AddTo(maxStateSize, old(View()), StoredEvent(event, LeftSide, now, expiresAt, 0))
    {
      var stored := StoredEvent(event, LeftSide, now, expiresAt, 0);
      ghost var s := View();
      StepKeepsSound(maxStateSize, s, Add(stored));
      var key := event.key;
      leftState := leftState[key := At(leftState, key) + [stored]];
      metrics := metrics.(leftReceived := metrics.leftReceived + 1, stateSize := metrics.stateSize + 1);
      EnforceMaxStateSize(key, LeftSide);
      assert leftState == s.left[key := Newest(maxStateSize, s.List(LeftSide, key) + [stored])];
      assert View() == AddTo(maxStateSize, s, stored);
    }

    method AddRightEvent(event: Event, expiresAt: int, now: int)
      requires Valid()
      modifies this
      ensures Valid()
      ensures View() == AddTo(maxStateSize, old(View()), StoredEvent(event, RightSide, now, expiresAt, 0))
    {
      var stored := StoredEvent(event, RightSide, now, expiresAt, 0);
      ghost var s := View();
      StepKeepsSound(maxStateSize, s, Add(stored));
      var key := event.key;
      rightState := rightState[key := At(rightState, key) + [stored]];
      metrics := metrics.(rightReceived := metrics.rightReceived + 1, stateSize := metrics.stateSize + 1);
      EnforceMaxStateSize(key, RightSide);
      assert rightState == s.right[key := Newest(maxStateSize, s.List(RightSide, key) + [stored])];
      assert View() == AddTo(maxStateSize, s, stored);
    }

    /** Cuts one key's list down to the newest events; called with the newcomer already appended. */
    method EnforceMaxStateSize(key: string, side: Side)
      requires key in View().Of(side)
      modifies this
      ensures var xs := old(View()).List(side, key);
              var kept := Newest(maxStateSize, xs);
              View() == old(View()).With(side, old(View()).Of(side)[key := kept])
                        .(metrics := old(metrics).(stateSize := old(metrics).stateSize - (|xs| - |kept|)))
    {
      if maxStateSize <= 0 {
        return;
      }
      var events := if side.LeftSide? then leftState[key] else rightState[key];
      if |events| > maxStateSize {
        var removed := |events| - maxStateSize;
        if side.LeftSide? {
          leftState := leftState[key := events[removed..]];
        } else {
          rightState := rightState[key := events[removed..]];
        }
        metrics := metrics.(stateSize := metrics.stateSize - removed);
      }
    }

    method GetLeftEvents(key: string) returns (events: seq<StoredEvent>)
      ensures events == View().List(LeftSide, key)
    {
      events := At(leftState, key);
    }

    method GetRightEvents(key: string) returns (events: seq<StoredEvent>)
      ensures events == View().List(RightSide, key)
    {
      events := At(rightState, key);
    }

    /** The keys of one side, each once, in an order the caller cannot rely on. */
    method GetAllKeys(side: Side) returns (keys: seq<string>)
      ensures Enumerates(keys, View().Of(side).Keys)
    {
      var todo := if side.LeftSide? then leftState.Keys else rightState.Keys;
      ghost var all := todo;
      keys := [];
      while todo != {}
        invariant todo <= all
        invariant Enumerates(keys, all - todo)
        decreases todo
      {
        var k :| k in todo;
        todo := todo - {k};
        keys := keys + [k];
      }
    }

    method IncrementMatchCount(side: Side, key: string, i: nat)
      requires Valid() && i < |View().List(side, key)|
      modifies this
      ensures Valid()
      ensures View() == CountMatch(old(View()), side, key, i)
    {
      ghost var s := View();
      StepKeepsSound(maxStateSize, s, Count(side, key, i));
      if side.LeftSide? {
        var xs := leftState[key];
        leftState := leftState[key := xs[i := xs[i].(matchCount := xs[i].matchCount + 1)]];
      } else {
        var xs := rightState[key];
        rightState := rightState[key := xs[i := xs[i].(matchCount := xs[i].matchCount + 1)]];
      }
      metrics := metrics.(matchesFound := metrics.matchesFound + 1);
      assert View() == CountMatch(s, side, key, i);
    }

    /** Removes what has expired by `now` and hands it over, key by key in storage order. */
    method RemoveExpiredEvents(now: int) returns (left: seq<StoredEvent>, right: seq<StoredEvent>)
      requires Valid()
      modifies this
      ensures Valid()
      ensures View() == ExpireAll(old(View()), now)
      ensures Handed(old(leftState), left, {}, now) && Handed(old(rightState), right, {}, now)
    {
      ghost var s := View();
      StepKeepsSound(maxStateSize, s, Expire(now));
      left := RemoveExpiredFromSide(now, LeftSide);
      assert rightState == s.right;
      right := RemoveExpiredFromSide(now, RightSide);
      assert leftState == Unexpired(s.left, now) && rightState == Unexpired(s.right, now);
      metrics := metrics.(expiredEvents := metrics.expiredEvents + (|left| + |right|),
                          cleanupRuns := metrics.cleanupRuns + 1);
      assert View() == ExpireAll(s, now);
    }

    method RemoveExpiredFromSide(now: int, side: Side) returns (expired: seq<StoredEvent>)
      requires AllFiled(maxStateSize, side, View().Of(side))
      modifies this
      ensures View() == old(View()).With(side, Unexpired(old(View()).Of(side), now))
                        .(metrics := old(metrics).(stateSize := old(metrics).stateSize - |expired|))
      ensures |expired| == TotalLen(old(View()).Of(side)) - TotalLen(View().Of(side))
      ensures Handed(old(View()).Of(side), expired, {}, now)
    {
      ghost var m := View().Of(side);
      var stateMap := if side.LeftSide? then leftState else rightState;
      var todo := stateMap.Keys;
      expired := [];
      SweepStart(maxStateSize, side, m, now);
      while todo != {}
        invariant View() == old(View())
        invariant todo <= m.Keys && |expired| == TotalLen(m) - TotalLen(stateMap)
        invariant Swept(m, stateMap, todo, now)
        invariant Handed(m, expired, todo, now)
        decreases todo
      {
        var key :| key in todo;
        assert At(stateMap, key) == m[key] && Filed(maxStateSize, side, key, m[key]);
        var kept, gone := SplitExpired(stateMap[key], now);
        SweepKey(m, stateMap, todo, now, key, kept);
        SweepCounts(m, stateMap, todo, now, key, kept);
        HandKey(m, expired, todo, now, key, gone);
        stateMap := Put(stateMap, key, kept);
        expired := expired + gone;
        todo := todo - {key};
      }
      SweepEnd(m, stateMap, now);
      if side.LeftSide? {
        leftState := stateMap;
      } else {
        rightState := stateMap;
      }
      metrics := metrics.(stateSize := metrics.stateSize - |expired|);
    }

    /** One key's list, split into what stays and what has expired. */
    static method SplitExpired(events: seq<StoredEvent>, now: int)
      returns (kept: seq<StoredEvent>, gone: seq<StoredEvent>)
      ensures kept == Filter(events, Live(now)) && gone == Filter(events, Dead(now))
    {
      kept, gone := [], [];
      for j := 0 to |events|
        invariant kept == Filter(events[..j], Live(now))
        invariant gone == Filter(events[..j], Dead(now))
      {
        var se := events[j];
        FilterNext(events, j, Live(now));
        FilterNext(events, j, Dead(now));
        if se.IsExpired(now) {
          gone := gone + [se];
        } else {
          kept := kept + [se];
        }
      }
      assert events[..|events|] == events;
    }

    method Clear()
      modifies this
      ensures Valid()
      ensures View() == Store(map[], map[], old(metrics).(stateSize := 0))
    {
      leftState, rightState := map[], map[];
      metrics := metrics.(stateSize := 0);
    }

    /** Counts the stored events by visiting every list: the counter already knew. */
    method Size() returns (total: nat)
      requires Valid()
      ensures total == metrics.stateSize
    {
      var l := CountSide(leftState);
      var r := CountSide(rightState);
      total := l + r;
    }

    static method CountSide(m: Keyed) returns (total: nat)
      ensures total == TotalLen(m)
    {
      var rest := m;
      total := 0;
      while rest != map[]
        invariant total + TotalLen(rest) == TotalLen(m)
        decreases |rest|
      {
        var k :| k in rest;
        TotalLenRemove(rest, k);
        total := total + |rest[k]|;
        rest := rest - {k};
      }
    }
  }
}
