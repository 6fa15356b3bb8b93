/** Versioned reference data: the temporal join's history lookup (pkg/join/temporal_join.go) and the
    temporal table of the SQL layer (pkg/sql/stream_table.go). */
module TemporalJoins {
  import opened Seqs
  import opened JoinStates
  import opened JoinOperators

  /** A reference event and the time range it is valid in; the newest version has no end. */
  datatype Version = Version(event: Event, validFrom: int, validTo: Option<int>)

  type History = seq<Version>

  type Table = map<string, History>

  predicate Covers(v: Version, t: int) {
    t >= v.validFrom && (v.validTo.None? || t < v.validTo.value)
  }

  /** A newer event closes the last version and opens its own. */
  function Extend(vs: History, e: Event): History {
    (if vs == [] then [] else vs[|vs| - 1 := vs[|vs| - 1].(validTo := Some(e.time))])
    + [Version(e, e.time, None)]
  }

  predicate IsKept(vs: History, cutoff: int, i: nat)
    requires i < |vs|
  {
    i == |vs| - 1 || vs[i].validTo.None? || vs[i].validTo.value > cutoff
  }

  /** The first `n` versions without those that ended by the cutoff; the latest always stays. */
  function KeptOf(vs: History, cutoff: int, n: nat): History
    requires n <= |vs|
  {
    if n == 0 then [] else
      KeptOf(vs, cutoff, n - 1) + if IsKept(vs, cutoff, n - 1) then [vs[n - 1]] else []
  }

  function Retained(vs: History, cutoff: int): History {
    KeptOf(vs, cutoff, |vs|)
  }

  // ------------------------------------------------------------------
  // The lookup
  // ------------------------------------------------------------------

  function BinarySearch(vs: History, t: int, lo: int, hi: int): (r: Option<nat>)
    requires 0 <= lo && hi < |vs|
    ensures r.Some? ==> lo <= r.value <= hi && Covers(vs[r.value], t)
    decreases hi - lo + 1
  {
    if lo > hi then None else
      var mid := (lo + hi) / 2;
      if Covers(vs[mid], t) then Some(mid)
      else if t < vs[mid].validFrom then BinarySearch(vs, t, lo, mid - 1)
      else BinarySearch(vs, t, mid + 1, hi)
  }

  function FirstCover(vs: History, t: int, from: nat): (r: Option<nat>)
    requires from <= |vs|
    ensures r.Some? ==> from <= r.value < |vs| && Covers(vs[r.value], t)
    ensures r.Some? ==> forall i :: from <= i < r.value ==> !Covers(vs[i], t)
    ensures r.None? ==> forall i :: from <= i < |vs| ==> !Covers(vs[i], t)
    decreases |vs| - from
  {
    if from == |vs| then None
    else if Covers(vs[from], t) then Some(from)
    else FirstCover(vs, t, from + 1)
  }

  /** The index the lookup settles on: binary search, then the linear fallback. */
  function Found(vs: History, t: int): (r: Option<nat>)
    ensures r.Some? <==> exists i :: 0 <= i < |vs| && Covers(vs[i], t)
    ensures r.Some? ==> r.value < |vs| && Covers(vs[r.value], t)
  {
    var b := BinarySearch(vs, t, 0, |vs| - 1);
    if b.Some? then b else FirstCover(vs, t, 0)
  }

  function Lookup(table: Table, key: string, t: int): Option<Event> {
    var vs := At(table, key);
    var i := Found(vs, t);
    if i.Some? then Some(vs[i.value].event) else None
  }

  // ------------------------------------------------------------------
  // Histories without cleanup, in any order of arrival
  // ------------------------------------------------------------------

  /** The history that an update log builds when nothing is ever cleaned up. */
  function Chain(log: seq<Event>): (vs: History)
    ensures |vs| == |log|
  {
    if log == [] then [] else Extend(Chain(log[..|log| - 1]), log[|log| - 1])
  }

  /** Each version ends where the next one starts. */
  lemma {:induction false} ChainLinks(log: seq<Event>, i: nat)
    requires i < |log|
    ensures Chain(log)[i] == Version(log[i], log[i].time, if i == |log| - 1 then None else Some(log[i + 1].time))
  {
    if i < |log| - 1 {
      ChainLinks(log[..|log| - 1], i);
    }
  }

  /** Whatever the order of arrival, a version is found exactly when some reference event is old enough. */
  lemma {:induction false} FoundIffOldEnough(log: seq<Event>, t: int)
    ensures Found(Chain(log), t).Some? <==> exists i :: 0 <= i < |log| && log[i].time <= t
  {
    var vs := Chain(log);
    if i :| 0 <= i < |log| && log[i].time <= t {
      var c := CrossingFrom(log, t, i);
      ChainLinks(log, c);
      assert Covers(vs[c], t);
    }
    if Found(vs, t).Some? {
      ChainLinks(log, Found(vs, t).value);
    }
  }

  /** From an event that is old enough on, some version covers `t`: the last such event's. */
  lemma {:induction false} CrossingFrom(log: seq<Event>, t: int, i: nat) returns (c: nat)
    requires i < |log| && log[i].time <= t
    ensures i <= c < |log| && log[c].time <= t && (c == |log| - 1 || t < log[c + 1].time)
    decreases |log| - i
  {
    if i == |log| - 1 || t < log[i + 1].time {
      c := i;
    } else {
      c := CrossingFrom(log, t, i + 1);
    }
  }

  // ------------------------------------------------------------------
  // In-order updates with cleanups
  // ------------------------------------------------------------------

  ghost predicate InOrder(log: seq<Event>) {
    forall i, j :: 0 <= i < j < |log| ==> log[i].time <= log[j].time
  }

  /** The last update at or before `t`. */
  function LastAtOrBefore(log: seq<Event>, t: int): Option<Event> {
    if log == [] then None
    else if log[|log| - 1].time <= t then Some(log[|log| - 1])
    else LastAtOrBefore(log[..|log| - 1], t)
  }

  /** In an ordered log, the last update at or before `t` is the one whose successor is later. */
  lemma {:induction false} LastIsTheCrossing(log: seq<Event>, t: int, c: nat)
    requires InOrder(log) && c < |log| && log[c].time <= t && (c == |log| - 1 || t < log[c + 1].time)
    ensures LastAtOrBefore(log, t) == Some(log[c])
  {
    if c < |log| - 1 {
      assert log[c + 1].time <= log[|log| - 1].time;
      LastIsTheCrossing(log[..|log| - 1], t, c);
    }
  }

  lemma {:induction false} NoneIsOldEnough(log: seq<Event>, t: int)
    requires forall i :: 0 <= i < |log| ==> log[i].time > t
    ensures LastAtOrBefore(log, t) == None
  {
    if log != [] {
      NoneIsOldEnough(log[..|log| - 1], t);
    }
  }

  /** In an ordered log, every covering version is the one of the last update at or before `t`. */
  lemma {:induction false} CoverIsLast(log: seq<Event>, t: int, c: nat)
    requires InOrder(log) && c < |log| && Covers(Chain(log)[c], t)
    ensures LastAtOrBefore(log, t) == Some(log[c])
  {
    ChainLinks(log, c);
    LastIsTheCrossing(log, t, c);
  }

  /** Versions in order, each ending where the next one starts. */
  ghost predicate Linked(vs: History) {
    && (forall i, j :: 0 <= i < j < |vs| ==> vs[i].validFrom <= vs[j].validFrom)
    && (forall i :: 0 <= i < |vs| - 1 ==> vs[i].validTo == Some(vs[i + 1].validFrom))
  }

  lemma {:induction false} RestIsLinked(log: seq<Event>, d: nat)
    requires InOrder(log) && d <= |log|
    ensures Linked(Chain(log)[d..])
  {
    forall i | 0 <= i < |log| - d
      ensures Chain(log)[d..][i].validFrom == log[d + i].time
      ensures i < |log| - d - 1 ==> Chain(log)[d..][i].validTo == Some(log[d + i + 1].time) {
      ChainLinks(log, d + i);
    }
  }

  lemma {:induction false} EndedBefore(vs: History, mid: nat)
    requires Linked(vs) && mid < |vs|
    ensures forall i :: 0 <= i < mid ==> vs[i].validTo.Some? && vs[i].validTo.value <= vs[mid].validFrom
  {
    forall i | 0 <= i < mid ensures vs[i].validTo.Some? && vs[i].validTo.value <= vs[mid].validFrom {
      assert vs[i].validTo == Some(vs[i + 1].validFrom);
    }
  }

  lemma {:induction false} SearchFindsCover(vs: History, t: int, lo: int, hi: int, c: int)
    requires Linked(vs) && 0 <= lo <= c <= hi < |vs| && Covers(vs[c], t)
    ensures BinarySearch(vs, t, lo, hi).Some?
    decreases hi - lo + 1
  {
    var mid := (lo + hi) / 2;
    EndedBefore(vs, mid);
    if !Covers(vs[mid], t) {
      if t < vs[mid].validFrom {
        SearchFindsCover(vs, t, lo, mid - 1, c);
      } else {
        SearchFindsCover(vs, t, mid + 1, hi, c);
      }
    }
  }

  /** The binary search alone suffices on the rest of an ordered history: the linear fallback finds nothing new. */
  lemma {:induction false} BinarySearchSuffices(log: seq<Event>, d: nat, t: int, c: int)
    requires InOrder(log) && d <= |log| && 0 <= c < |log| - d && Covers(Chain(log)[d..][c], t)
    ensures BinarySearch(Chain(log)[d..], t, 0, |log| - d - 1).Some?
  {
    RestIsLinked(log, d);
    SearchFindsCover(Chain(log)[d..], t, 0, |log| - d - 1, c);
  }

  /** What cleanups leave of an ordered history: all but its first `d` versions, which ended by the cutoff. */
  ghost predicate Trimmed(vs: History, log: seq<Event>, d: nat, cutoff: int) {
    && d <= |log| && (log != [] ==> d < |log|)
    && vs == Chain(log)[d..]
    && forall i :: 0 < i <= d && i < |log| ==> log[i].time <= cutoff
  }

  /** Of the first `n` versions a cleanup keeps the tail from some version on. */
  lemma {:induction false} DroppedUpTo(vs: History, log: seq<Event>, d: nat, now: int, n: nat) returns (d': nat)
    requires InOrder(log) && d < |log| && vs == Chain(log)[d..] && n <= |vs|
    ensures d <= d' <= d + n && (n == |vs| ==> d' < |log|)
    ensures KeptOf(vs, now, n) == Chain(log)[d'..d + n]
    ensures forall i :: d < i <= d' && i < |log| ==> log[i].time <= now
    ensures d' < d + n ==> IsKept(vs, now, n - 1)
  {
    if n == 0 {
      d' := d;
    } else {
      d' := DroppedUpTo(vs, log, d, now, n - 1);
      ChainLinks(log, d + n - 1);
      if IsKept(vs, now, n - 1) {
        assert Chain(log)[d'..d + n] == Chain(log)[d'..d + n - 1] + [Chain(log)[d + n - 1]];
      } else {
        if d' < d + n - 1 {
          ChainLinks(log, d + n - 2);
        }
        d' := d + n;
      }
    }
  }

  /** A cleanup of an ordered history removes a prefix and never the newest version. */
  lemma {:induction false} CleanupTrims(vs: History, log: seq<Event>, d: nat, cutoff: int, bound: int) returns (d': nat)
    requires InOrder(log) && log != [] && Trimmed(vs, log, d, bound) && cutoff <= bound
    ensures d <= d' && Trimmed(Retained(vs, cutoff), log, d', bound)
  {
    d' := DroppedUpTo(vs, log, d, cutoff, |vs|);
    assert Chain(log)[d'..d + |vs|] == Chain(log)[d'..];
    forall i | 0 < i <= d' && i < |log| ensures log[i].time <= bound {
    }
  }

  lemma {:induction false} UpdateTrims(vs: History, log: seq<Event>, d: nat, cutoff: int, e: Event)
    requires Trimmed(vs, log, d, cutoff)
    ensures Trimmed(Extend(vs, e), log + [e], d, cutoff)
  {
    assert (log + [e])[..|log|] == log;
  }

  datatype Change = Update(event: Event) | Clean(cutoff: int)

  function Cleaned(table: Table, cutoff: int): Table {
    map k | k in table :: Retained(table[k], cutoff)
  }

  function Changed(table: Table, c: Change): Table {
    match c
    case Update(e) => table[e.key := Extend(At(table, e.key), e)]
    case Clean(cutoff) => Cleaned(table, cutoff)
  }

  function TableAfter(changes: seq<Change>): Table {
    if changes == [] then map[] else Changed(TableAfter(changes[..|changes| - 1]), changes[|changes| - 1])
  }

  /** The updates of one key, in arrival order. */
  function LogOf(changes: seq<Change>, key: string): seq<Event> {
    if changes == [] then [] else
      var last := changes[|changes| - 1];
      LogOf(changes[..|changes| - 1], key) + if last.Update? && last.event.key == key then [last.event] else []
  }

  /** `bound` is at or after every cutoff used so far. */
  ghost predicate CutoffsUpTo(changes: seq<Change>, bound: int) {
    forall i :: 0 <= i < |changes| && changes[i].Clean? ==> changes[i].cutoff <= bound
  }

  /** What a read of one key returns after a change. */
  lemma {:induction false} ReadAfter(table: Table, c: Change, key: string)
    ensures c.Update? ==>
              At(Changed(table, c), key)
              == if c.event.key == key then Extend(At(table, key), c.event) else At(table, key)
    ensures c.Clean? ==> At(Changed(table, c), key) == Retained(At(table, key), c.cutoff)
    ensures key in Changed(table, c) <==> key in table || (c.Update? && c.event.key == key)
  {
  }

  /** After any run whose updates of `key` arrive in order, the history of `key` is its log's without a prefix
      that had ended by the latest cutoff; a key that was ever updated is still there. */
  lemma {:induction false} RunTrims(changes: seq<Change>, key: string, bound: int) returns (d: nat)
    requires InOrder(LogOf(changes, key)) && CutoffsUpTo(changes, bound)
    ensures Trimmed(At(TableAfter(changes), key), LogOf(changes, key), d, bound)
    ensures key in TableAfter(changes) <==> LogOf(changes, key) != []
  {
    if changes == [] {
      d := 0;
    } else {
      var before, last := changes[..|changes| - 1], changes[|changes| - 1];
      var log, vs := LogOf(before, key), At(TableAfter(before), key);
      assert log == LogOf(changes, key)[..|log|];
      assert forall i :: 0 <= i < |before| ==> before[i] == changes[i];
      d := RunTrims(before, key, bound);
      ReadAfter(TableAfter(before), last, key);
      if last.Clean? {
        assert LogOf(changes, key) == log;
        if log != [] {
          d := CleanupTrims(vs, log, d, last.cutoff, bound);
        }
      } else if last.event.key == key {
        UpdateTrims(vs, log, d, bound, last.event);
      } else {
        assert LogOf(changes, key) == log;
      }
    }
  }

  /** In what cleanups left, some version covers every time from the latest cutoff on at which one did. */
  lemma {:induction false} StillCovered(vs: History, log: seq<Event>, d: nat, t: int, i: nat) returns (c: nat)
    requires InOrder(log) && Trimmed(vs, log, d, t) && i < |log| && log[i].time <= t
    ensures c < |vs| && Covers(vs[c], t)
  {
    assert log[d].time <= t by {
      assert d == 0 ==> log[0].time <= log[i].time || i == 0;
    }
    var crossing := CrossingFrom(log, t, d);
    ChainLinks(log, crossing);
    c := crossing - d;
  }

  /** With in-order updates the lookup never returns a wrong version, and for times at or after every cutoff it
      returns the last update at or before the time asked for. */
  lemma {:induction false} LookupIsAsOf(changes: seq<Change>, key: string, bound: int, t: int)
    requires InOrder(LogOf(changes, key)) && CutoffsUpTo(changes, bound)
    ensures var r := Lookup(TableAfter(changes), key, t);
            && (r == None || r == LastAtOrBefore(LogOf(changes, key), t))
            && (t >= bound ==> r == LastAtOrBefore(LogOf(changes, key), t))
  {
    var log, vs := LogOf(changes, key), At(TableAfter(changes), key);
    var d := RunTrims(changes, key, bound);
    var found := Found(vs, t);
    if found.Some? {
      ChainLinks(log, d + found.value);
      CoverIsLast(log, t, d + found.value);
    } else if t >= bound {
      if i :| 0 <= i < |log| && log[i].time <= t {
        var c := StillCovered(vs, log, d, t, i);
      } else {
        NoneIsOldEnough(log, t);
      }
    }
  }

  // ------------------------------------------------------------------
  // Late updates
  // ------------------------------------------------------------------

  /** One late update is enough for the lookup to miss it: the version it follows was closed at its time. */
  lemma {:induction false} LateUpdateIsMissed(e: seq<Event>)
    requires |e| == 3 && e[0].time == 1 && e[1].time == 5 && e[2].time == 3
    ensures Found(Chain(e), 4) == Some(0)
  {
    ChainLinks(e, 0);
    ChainLinks(e, 1);
  }

  /** `r` is the newest update at or before `t`, or there is none. */
  ghost predicate IsNewest(log: seq<Event>, t: int, r: Option<Event>) {
    match r
    case None => forall e :: e in log ==> e.time > t
    case Some(x) => x in log && x.time <= t && forall e :: e in log && e.time <= t ==> e.time <= x.time
  }

  /** The lookup is right at every moment of the run, for every key time at or after the cutoffs used until then. */
  ghost predicate AlwaysAsOf(changes: seq<Change>, key: string) {
    forall n: nat, t: int :: n <= |changes| && CutoffsUpTo(changes[..n], t) ==>
      IsNewest(LogOf(changes[..n], key), t, Lookup(TableAfter(changes[..n]), key, t))
  }

  lemma {:induction false} LastIsNewest(log: seq<Event>, t: int)
    requires InOrder(log)
    ensures IsNewest(log, t, LastAtOrBefore(log, t))
  {
    if log != [] {
      var before, last := log[..|log| - 1], log[|log| - 1];
      LastIsNewest(before, t);
      assert forall e :: e in log <==> e in before || e == last;
    }
  }

  lemma {:induction false} LogOfPrefix(changes: seq<Change>, key: string, n: nat)
    requires n <= |changes|
    ensures LogOf(changes[..n], key) <= LogOf(changes, key)
    decreases |changes|
  {
    if n < |changes| {
      LogOfPrefix(changes[..|changes| - 1], key, n);
      assert changes[..|changes| - 1][..n] == changes[..n];
    } else {
      assert changes[..n] == changes;
    }
  }

  /** Where the order first breaks: change `n` brings an update older than the one before it. */
  lemma {:induction false} FirstLateUpdate(changes: seq<Change>, key: string) returns (n: nat)
    requires !InOrder(LogOf(changes, key))
    ensures n < |changes| && changes[n].Update? && changes[n].event.key == key
    ensures var log := LogOf(changes[..n], key);
            InOrder(log) && log != [] && changes[n].event.time < log[|log| - 1].time
    decreases |changes|
  {
    var before := changes[..|changes| - 1];
    if InOrder(LogOf(before, key)) {
      n := |changes| - 1;
    } else {
      n := FirstLateUpdate(before, key);
      assert before[..n] == changes[..n];
    }
  }

  lemma {:induction false} SomeBound(changes: seq<Change>, least: int) returns (t: int)
    ensures t >= least && CutoffsUpTo(changes, t)
  {
    if changes == [] {
      t := least;
    } else {
      var last := changes[|changes| - 1];
      t := SomeBound(changes[..|changes| - 1], if last.Clean? && last.cutoff > least then last.cutoff else least);
    }
  }

  /** Right after a late update the lookup answers it at every later time, although the version before it is newer. */
  lemma {:induction false} LateUpdateWins(vs: History, log: seq<Event>, d: nat, e: Event, t: int)
    requires InOrder(log) && log != [] && e.time < log[|log| - 1].time <= t
    requires d < |log| && vs == Chain(log + [e])[d..]
    ensures Found(vs, t) == Some(|log| - d)
  {
    var all := log + [e];
    ChainLinks(all, |log|);
    assert Covers(vs[|log| - d], t);
    forall i | 0 <= i < |log| - d ensures !Covers(vs[i], t) {
      ChainLinks(all, d + i);
      assert all[d + i + 1].time <= log[|log| - 1].time;
    }
  }

  lemma {:induction false} LateUpdateBreaksAsOf(changes: seq<Change>, key: string, n: nat)
    requires n < |changes| && changes[n].Update? && changes[n].event.key == key
    requires var log := LogOf(changes[..n], key);
             InOrder(log) && log != [] && changes[n].event.time < log[|log| - 1].time
    ensures !AlwaysAsOf(changes, key)
  {
    var before, now, e := changes[..n], changes[..n + 1], changes[n].event;
    var log := LogOf(before, key);
    assert now[..n] == before;
    var t := SomeBound(now, log[|log| - 1].time);
    assert CutoffsUpTo(before, t);
    var d := RunTrims(before, key, t);
    ReadAfter(TableAfter(before), changes[n], key);
    UpdateTrims(At(TableAfter(before), key), log, d, t, e);
    LateUpdateWins(At(TableAfter(now), key), log, d, e, t);
    ChainLinks(log + [e], |log|);
    assert Lookup(TableAfter(now), key, t) == Some(e);
    assert log[|log| - 1] in LogOf(now, key);
    assert !IsNewest(LogOf(changes[..n + 1], key), t, Lookup(TableAfter(changes[..n + 1]), key, t));
  }

  /** Over a run with any updates and cleanups, the lookup is right at every moment, for every time that the cleanups
      so far allow, if and only if the key's updates arrive in order. */
  lemma {:induction false} LookupIsAsOfIff(changes: seq<Change>, key: string)
    ensures AlwaysAsOf(changes, key) <==> InOrder(LogOf(changes, key))
  {
    if InOrder(LogOf(changes, key)) {
      forall n: nat, t: int | n <= |changes| && CutoffsUpTo(changes[..n], t)
        ensures IsNewest(LogOf(changes[..n], key), t, Lookup(TableAfter(changes[..n]), key, t))
      {
        LogOfPrefix(changes, key, n);
        LookupIsAsOf(changes[..n], key, t, t);
        LastIsNewest(LogOf(changes[..n], key), t);
      }
    } else {
      var n := FirstLateUpdate(changes, key);
      LateUpdateBreaksAsOf(changes, key, n);
    }
  }

  // ------------------------------------------------------------------
  // The temporal join operator
  // ------------------------------------------------------------------

  /** The rows for a main-stream event: its as-of match, or a padded row when no version is found. */
  function LeftRows(cfg: JoinConfig, table: Table, e: Event): seq<JoinResult> {
    match Lookup(table, e.key, e.time)
    case Some(ref) => if cfg.condition(e, ref) then [JoinResult(Some(e), Some(ref), e.time, e.key)] else []
    case None => if Preserves(cfg.joinType, LeftSide) then [JoinResult(Some(e), None, e.time, e.key)] else []
  }

  /** What reaches the operator: a change of the reference data, or a main-stream event. */
  datatype Input = Reference(change: Change) | Main(event: Event)

  function ChangesOf(inputs: seq<Input>): seq<Change> {
    if inputs == [] then [] else
      var last := inputs[|inputs| - 1];
      ChangesOf(inputs[..|inputs| - 1]) + if last.Reference? then [last.change] else []
  }

  /** The rows each input of a run emits. */
  function JoinRun(cfg: JoinConfig, inputs: seq<Input>): (rows: seq<seq<JoinResult>>)
    ensures |rows| == |inputs|
  {
    if inputs == [] then [] else
      var before, last := inputs[..|inputs| - 1], inputs[|inputs| - 1];
      JoinRun(cfg, before) + [if last.Main? then LeftRows(cfg, TableAfter(ChangesOf(before)), last.event) else []]
  }

  lemma {:induction false} RowsAt(cfg: JoinConfig, inputs: seq<Input>, i: nat)
    requires i < |inputs|
    ensures JoinRun(cfg, inputs)[i]
         == if inputs[i].Main? then LeftRows(cfg, TableAfter(ChangesOf(inputs[..i])), inputs[i].event) else []
  {
    var before := inputs[..|inputs| - 1];
    if i < |before| {
      RowsAt(cfg, before, i);
      assert before[..i] == inputs[..i] && JoinRun(cfg, inputs)[i] == JoinRun(cfg, before)[i];
    }
  }

  /** The updates of the event's key that the operator has seen before input `i`. */
  function UpdatesBefore(inputs: seq<Input>, i: nat): seq<Event>
    requires i < |inputs| && inputs[i].Main?
  {
    LogOf(ChangesOf(inputs[..i]), inputs[i].event.key)
  }

  lemma {:induction false} LookupAtCrossing(changes: seq<Change>, key: string, t: int, j: nat)
    requires InOrder(LogOf(changes, key)) && CutoffsUpTo(changes, t)
    requires var log := LogOf(changes, key);
             j < |log| && log[j].time <= t && (j == |log| - 1 || t < log[j + 1].time)
    ensures Lookup(TableAfter(changes), key, t) == Some(LogOf(changes, key)[j])
  {
    LookupIsAsOf(changes, key, t, t);
    LastIsTheCrossing(LogOf(changes, key), t, j);
  }

  lemma {:induction false} LookupBeforeAll(changes: seq<Change>, key: string, t: int)
    requires InOrder(LogOf(changes, key)) && CutoffsUpTo(changes, t)
    requires forall x :: x in LogOf(changes, key) ==> t < x.time
    ensures Lookup(TableAfter(changes), key, t) == None
  {
    LookupIsAsOf(changes, key, t, t);
    NoneIsOldEnough(LogOf(changes, key), t);
  }

  /** With in-order updates and any cleanups up to its time, a main-stream event is joined with the last update at or
      before its time if the condition holds; without such an update it is padded in a left or full outer join. */
  lemma {:induction false} JoinsLastUpdate(cfg: JoinConfig, inputs: seq<Input>, i: nat, j: nat)
    requires i < |inputs| && inputs[i].Main?
    requires InOrder(UpdatesBefore(inputs, i)) && CutoffsUpTo(ChangesOf(inputs[..i]), inputs[i].event.time)
    ensures var e, log, rows := inputs[i].event, UpdatesBefore(inputs, i), JoinRun(cfg, inputs)[i];
            j < |log| && log[j].time <= e.time && (j == |log| - 1 || e.time < log[j + 1].time) ==>
              rows == if cfg.condition(e, log[j]) then [JoinResult(Some(e), Some(log[j]), e.time, e.key)] else []
    ensures var e, log, rows, t := inputs[i].event, UpdatesBefore(inputs, i), JoinRun(cfg, inputs)[i], cfg.joinType;
            (forall x :: x in log ==> e.time < x.time) ==>
              rows == if t.LeftOuterJoin? || t.FullOuterJoin? then [JoinResult(Some(e), None, e.time, e.key)] else []
  {
    var e, log := inputs[i].event, UpdatesBefore(inputs, i);
    RowsAt(cfg, inputs, i);
    if j < |log| && log[j].time <= e.time && (j == |log| - 1 || e.time < log[j + 1].time) {
      LookupAtCrossing(ChangesOf(inputs[..i]), e.key, e.time, j);
    }
    if forall x :: x in log ==> e.time < x.time {
      LookupBeforeAll(ChangesOf(inputs[..i]), e.key, e.time);
    }
  }

  // ------------------------------------------------------------------
  // Updates in any order
  // ------------------------------------------------------------------

  /** The closed version of update `i`: it ends where the next one starts. */
  function Link(log: seq<Event>, i: nat): Version
    requires i + 1 < |log|
  {
    Version(log[i], log[i].time, Some(log[i + 1].time))
  }

  ghost predicate IsLink(log: seq<Event>, v: Version) {
    exists i: nat :: i + 1 < |log| && v == Link(log, i)
  }

  /** Closed versions of the log only, and all of those that end after `bound`. */
  ghost predicate HoldsLinks(closed: History, log: seq<Event>, bound: int) {
    && (forall v :: v in closed ==> IsLink(log, v))
    && (forall i: nat {:trigger Link(log, i)} :: i + 1 < |log| && log[i + 1].time > bound ==> Link(log, i) in closed)
  }

  /** What is left of a history in any order: the open newest version, and closed ones. */
  ghost predicate Survives(vs: History, log: seq<Event>, bound: int) {
    if log == [] then vs == [] else
      && vs != [] && vs[|vs| - 1] == Version(log[|log| - 1], log[|log| - 1].time, None)
      && HoldsLinks(vs[..|vs| - 1], log, bound)
  }

  lemma {:induction false} UpdateSurvives(vs: History, log: seq<Event>, bound: int, e: Event)
    requires Survives(vs, log, bound)
    ensures Survives(Extend(vs, e), log + [e], bound)
  {
    var vs', log' := Extend(vs, e), log + [e];
    if log != [] {
      var closed, last := vs[..|vs| - 1], Link(log', |log| - 1);
      assert vs'[..|vs'| - 1] == closed + [last];
      forall v | v in closed ensures IsLink(log', v) {
        var i: nat :| i + 1 < |log| && v == Link(log, i);
        assert v == Link(log', i);
      }
      forall i: nat {:trigger Link(log', i)} | i + 1 < |log'| && log'[i + 1].time > bound
        ensures Link(log', i) in closed + [last]
      {
        if i + 1 < |log| {
          assert Link(log', i) == Link(log, i);
        }
      }
    }
  }

  /** Before the newest version a cleanup keeps exactly what ends after the cutoff. */
  lemma {:induction false} KeptMembers(vs: History, cutoff: int, n: nat, v: Version)
    requires n < |vs|
    ensures v in KeptOf(vs, cutoff, n) <==> v in vs[..n] && (v.validTo.None? || v.validTo.value > cutoff)
  {
    if n > 0 {
      KeptMembers(vs, cutoff, n - 1, v);
      assert vs[..n] == vs[..n - 1] + [vs[n - 1]];
    }
  }

  lemma {:induction false} CleanupSurvives(vs: History, log: seq<Event>, cutoff: int, bound: int)
    requires Survives(vs, log, bound) && cutoff <= bound
    ensures Survives(Retained(vs, cutoff), log, bound)
  {
    if log != [] {
      var kept := KeptOf(vs, cutoff, |vs| - 1);
      assert Retained(vs, cutoff) == kept + [vs[|vs| - 1]];
      forall v ensures v in kept <==> v in vs[..|vs| - 1] && (v.validTo.None? || v.validTo.value > cutoff) {
        KeptMembers(vs, cutoff, |vs| - 1, v);
      }
      LinksOutlast(vs[..|vs| - 1], kept, log, cutoff, bound);
    }
  }

  lemma {:induction false} LinksOutlast(closed: History, kept: History, log: seq<Event>, cutoff: int, bound: int)
    requires HoldsLinks(closed, log, bound) && cutoff <= bound
    requires forall v :: v in kept <==> v in closed && (v.validTo.None? || v.validTo.value > cutoff)
    ensures HoldsLinks(kept, log, bound)
  {
  }

  /** After any run, in any order of updates, a history holds what had not ended by the latest cutoff. */
  lemma {:induction false} RunSurvives(changes: seq<Change>, key: string, bound: int)
    requires CutoffsUpTo(changes, bound)
    ensures Survives(At(TableAfter(changes), key), LogOf(changes, key), bound)
  {
    if changes != [] {
      var before, last := changes[..|changes| - 1], changes[|changes| - 1];
      var log, vs := LogOf(before, key), At(TableAfter(before), key);
      assert forall i :: 0 <= i < |before| ==> before[i] == changes[i];
      RunSurvives(before, key, bound);
      ReadAfter(TableAfter(before), last, key);
      if last.Clean? {
        assert LogOf(changes, key) == log;
        CleanupSurvives(vs, log, last.cutoff, bound);
      } else if last.event.key == key {
        UpdateSurvives(vs, log, bound, last.event);
      } else {
        assert LogOf(changes, key) == log;
      }
    }
  }

  /** `v` is the closed version of an update, and ends after the cutoff. */
  ghost predicate EndsAfter(log: seq<Event>, cutoff: int, v: Version) {
    exists i: nat ::
      i + 1 < |log| && v == Version(log[i], log[i].time, Some(log[i + 1].time)) && log[i + 1].time > cutoff
  }

  lemma {:induction false} UnendedLinks(closed: History, log: seq<Event>, cutoff: int, v: Version)
    requires HoldsLinks(closed, log, cutoff)
    ensures EndsAfter(log, cutoff, v) <==> v in closed && (v.validTo.None? || v.validTo.value > cutoff)
  {
    if v in closed {
      var i: nat :| i + 1 < |log| && v == Link(log, i);
    }
    if i: nat :| i + 1 < |log| && v == Version(log[i], log[i].time, Some(log[i + 1].time)) && log[i + 1].time > cutoff {
      assert v == Link(log, i);
    }
  }

  lemma {:induction false} CleanupKeepsUnended(vs: History, log: seq<Event>, cutoff: int, v: Version)
    requires Survives(vs, log, cutoff) && log != []
    ensures var us := Retained(vs, cutoff);
            && us != [] && us[|us| - 1] == Version(log[|log| - 1], log[|log| - 1].time, None)
            && (v in us[..|us| - 1] <==> EndsAfter(log, cutoff, v))
  {
    var kept := KeptOf(vs, cutoff, |vs| - 1);
    KeptMembers(vs, cutoff, |vs| - 1, v);
    UnendedLinks(vs[..|vs| - 1], log, cutoff, v);
    assert Retained(vs, cutoff) == kept + [vs[|vs| - 1]];
    assert (kept + [vs[|vs| - 1]])[..|kept|] == kept;
  }

  /** A cleanup leaves, besides the newest version, exactly those of the updates so far that end after its cutoff, if
      no earlier cleanup used a later one. */
  lemma {:induction false} CleanupLeavesUnended(changes: seq<Change>, key: string, cutoff: int, v: Version)
    requires CutoffsUpTo(changes, cutoff) && LogOf(changes, key) != []
    ensures var vs, log := At(TableAfter(changes + [Clean(cutoff)]), key), LogOf(changes, key);
            && vs != [] && vs[|vs| - 1] == Version(log[|log| - 1], log[|log| - 1].time, None)
            && (v in vs[..|vs| - 1] <==> EndsAfter(log, cutoff, v))
  {
    assert (changes + [Clean(cutoff)])[..|changes|] == changes;
    RunSurvives(changes, key, cutoff);
    ReadAfter(TableAfter(changes), Clean(cutoff), key);
    CleanupKeepsUnended(At(TableAfter(changes), key), LogOf(changes, key), cutoff, v);
  }

  /** `j` is where the log crosses `t`: old enough, and the next update is not. */
  predicate Crosses(log: seq<Event>, j: nat, t: int) {
    j < |log| && log[j].time <= t && (j == |log| - 1 || t < log[j + 1].time)
  }

  /** A surviving version that covers `t` is that of a crossing ... */
  lemma {:induction false} CoverIsCrossing(vs: History, log: seq<Event>, bound: int, t: int, k: nat) returns (j: nat)
    requires Survives(vs, log, bound) && k < |vs| && Covers(vs[k], t)
    ensures Crosses(log, j, t) && vs[k].event == log[j]
  {
    if k == |vs| - 1 {
      j := |log| - 1;
    } else {
      assert vs[k] in vs[..|vs| - 1];
      var i: nat :| i + 1 < |log| && vs[k] == Link(log, i);
      j := i;
    }
  }

  /** ... and every crossing at or after the bound has one. */
  lemma {:induction false} CrossingIsCovered(vs: History, log: seq<Event>, bound: int, t: int, j: nat) returns (k: nat)
    requires Survives(vs, log, bound) && bound <= t && Crosses(log, j, t)
    ensures k < |vs| && Covers(vs[k], t)
  {
    if j == |log| - 1 {
      k := |vs| - 1;
    } else {
      assert Link(log, j) in vs[..|vs| - 1];
      k :| k < |vs| - 1 && vs[k] == Link(log, j);
    }
  }

  /** Whatever the order of arrival and the cleanups up to `t`, the lookup finds a version exactly when some update is
      old enough, and what it finds is one whose successor is not. */
  lemma {:induction false} LookupFindsCrossing(changes: seq<Change>, key: string, t: int) returns (j: nat)
    requires CutoffsUpTo(changes, t)
    ensures var log, r := LogOf(changes, key), Lookup(TableAfter(changes), key, t);
            && (r.None? <==> forall x :: x in log ==> t < x.time)
            && (r.Some? ==> Crosses(log, j, t) && r == Some(log[j]))
  {
    var log, vs := LogOf(changes, key), At(TableAfter(changes), key);
    RunSurvives(changes, key, t);
    var found := Found(vs, t);
    j := 0;
    if found.Some? {
      j := CoverIsCrossing(vs, log, t, t, found.value);
      assert log[j] in log;
    } else {
      forall x | x in log ensures t < x.time {
        if x.time <= t {
          var i :| 0 <= i < |log| && log[i] == x;
          var c := CrossingFrom(log, t, i);
          var k := CrossingIsCovered(vs, log, t, t, c);
        }
      }
    }
  }

  /** With updates in any order and any cleanups up to its time, a main-stream event is joined with an update that is
      old enough and whose successor in arrival order is not, if there is any update that is old enough; otherwise it
      is padded in a left or full outer join. */
  lemma {:induction false} JoinsSomeUpdate(cfg: JoinConfig, inputs: seq<Input>, i: nat) returns (j: nat)
    requires i < |inputs| && inputs[i].Main? && CutoffsUpTo(ChangesOf(inputs[..i]), inputs[i].event.time)
    ensures var e, log, rows, t := inputs[i].event, UpdatesBefore(inputs, i), JoinRun(cfg, inputs)[i], cfg.joinType;
            if forall x :: x in log ==> e.time < x.time then
              rows == if t.LeftOuterJoin? || t.FullOuterJoin? then [JoinResult(Some(e), None, e.time, e.key)] else []
            else
              && j < |log| && log[j].time <= e.time && (j == |log| - 1 || e.time < log[j + 1].time)
              && rows == if cfg.condition(e, log[j]) then [JoinResult(Some(e), Some(log[j]), e.time, e.key)] else []
  {
    RowsAt(cfg, inputs, i);
    j := LookupFindsCrossing(ChangesOf(inputs[..i]), inputs[i].event.key, inputs[i].event.time);
  }

  ghost predicate NoEmptyHistory(table: Table) {
    forall k :: k in table ==> table[k] != []
  }

  lemma {:induction false} LatestStays(vs: History, cutoff: int)
    requires vs != []
    ensures Retained(vs, cutoff) != [] && Retained(vs, cutoff)[|Retained(vs, cutoff)| - 1] == vs[|vs| - 1]
  {
  }

  /** A cleanup that has still to visit `todo`; a key whose history came out empty would be deleted. */
  ghost predicate PartlyCleaned(table: Table, cur: Table, todo: set<string>, cutoff: int) {
    && todo <= table.Keys
    && (forall k {:trigger At(cur, k)} ::
          At(cur, k) == if k in todo then At(table, k) else Retained(At(table, k), cutoff))
    && (forall k {:trigger At(cur, k)} :: k in cur <==> At(cur, k) != [])
  }

  lemma {:induction false} CleanKey(table: Table, cur: Table, todo: set<string>, cutoff: int, key: string)
    requires NoEmptyHistory(table) && PartlyCleaned(table, cur, todo, cutoff) && key in todo
    ensures key in cur && cur[key] == table[key]
    ensures var kept := Retained(table[key], cutoff);
            PartlyCleaned(table, if |kept| == 0 then cur - {key} else cur[key := kept], todo - {key}, cutoff)
  {
    assert At(cur, key) == At(table, key) == table[key] != [];
    var kept := Retained(table[key], cutoff);
    var next := if |kept| == 0 then cur - {key} else cur[key := kept];
    assert At(next, key) == kept;
    forall k | k != key ensures At(next, k) == At(cur, k) && (k in next <==> k in cur) {
    }
  }

  lemma {:induction false} FullyCleaned(table: Table, cur: Table, cutoff: int)
    requires NoEmptyHistory(table) && PartlyCleaned(table, cur, {}, cutoff)
    ensures cur == Cleaned(table, cutoff) && NoEmptyHistory(cur)
  {
    forall k ensures k in cur <==> k in table {
      assert At(cur, k) == Retained(At(table, k), cutoff);
      if k in table {
        LatestStays(table[k], cutoff);
      }
    }
    forall k | k in table ensures cur[k] == Retained(table[k], cutoff) {
      assert At(cur, k) == Retained(At(table, k), cutoff);
    }
  }

  class TemporalJoinOperator {
    const config: JoinConfig
    var versionedTable: Table

    ghost predicate Valid()
      reads this
    {
      NoEmptyHistory(versionedTable)
    }

    constructor (config: JoinConfig)
      ensures Valid() && this.config == config && versionedTable == map[]
    {
      this.config := config;
      versionedTable := map[];
    }

    method UpdateReference(event: Event)
      requires Valid()
      modifies this
      ensures Valid()
      ensures versionedTable == Changed(old(versionedTable), Update(event))
    {
      var key, validFrom := event.key, event.time;
      var versions := if key in versionedTable then versionedTable[key] else [];
      if |versions| > 0 {
        var last := |versions| - 1;
        versions := versions[last := versions[last].(validTo := Some(validFrom))];
      }
      versions := versions + [Version(event, validFrom, None)];
      versionedTable := versionedTable[key := versions];
    }

    method ProcessLeft(event: Event) returns (results: seq<JoinResult>)
      ensures results == LeftRows(config, versionedTable, event)
    {
      results := [];
      var referenceEvent := LookupVersion(event.key, event.time);
      if referenceEvent.Some? {
        if config.condition(event, referenceEvent.value) {
          results := [JoinResult(Some(event), referenceEvent, event.time, event.key)];
        }
      } else if config.joinType.LeftOuterJoin? || config.joinType.FullOuterJoin? {
        results := [JoinResult(Some(event), None, event.time, event.key)];
      }
    }

    method LookupVersion(key: string, timestamp: int) returns (r: Option<Event>)
      ensures r == Lookup(versionedTable, key, timestamp)
    {
      if key !in versionedTable {
        return None;
      }
      var versions := versionedTable[key];
      var left, right := 0, |versions| - 1;
      while left <= right
        invariant 0 <= left && right < |versions|
        invariant BinarySearch(versions, timestamp, 0, |versions| - 1) == BinarySearch(versions, timestamp, left, right)
      {
        var mid := (left + right) / 2;
        if Covers(versions[mid], timestamp) {
          return Some(versions[mid].event);
        }
        if timestamp < versions[mid].validFrom {
          right := mid - 1;
        } else {
          left := mid + 1;
        }
      }
      for i := 0 to |versions|
        invariant FirstCover(versions, timestamp, 0) == FirstCover(versions, timestamp, i)
      {
        if Covers(versions[i], timestamp) {
          return Some(versions[i].event);
        }
      }
      r := None;
    }

    method Cleanup(now: int)
      requires Valid()
      modifies this
      ensures Valid()
      ensures versionedTable == Cleaned(old(versionedTable), now - config.stateRetention)
    {
      var cutoffTime := now - config.stateRetention;
      ghost var table := versionedTable;
      var todo := versionedTable.Keys;
      while todo != {}
        invariant PartlyCleaned(table, versionedTable, todo, cutoffTime)
        decreases todo
      {
        var key :| key in todo;
        CleanKey(table, versionedTable, todo, cutoffTime, key);
        var kept := KeepVersions(versionedTable[key], cutoffTime);
        if |kept| == 0 {
          versionedTable := versionedTable - {key};
        } else {
          versionedTable := versionedTable[key := kept];
        }
        todo := todo - {key};
      }
      FullyCleaned(table, versionedTable, cutoffTime);
    }

    static method KeepVersions(versions: History, cutoffTime: int) returns (kept: History)
      ensures kept == Retained(versions, cutoffTime)
    {
      kept := [];
      for i := 0 to |versions|
        invariant kept == KeptOf(versions, cutoffTime, i)
      {
        var version := versions[i];
        var isLatest := i == |versions| - 1;
        var isWithinRetention := version.validTo.None? || version.validTo.value > cutoffTime;
        if isLatest || isWithinRetention {
          kept := kept + [version];
        }
      }
    }
  }

  // ------------------------------------------------------------------
  // The SQL layer's temporal table
  // ------------------------------------------------------------------

  datatype TemporalRow = TemporalRow(value: Payload, validFrom: int, validTo: Option<int>)

  predicate RowCovers(row: TemporalRow, t: int) {
    row.validFrom <= t && (row.validTo.None? || row.validTo.value > t)
  }

  /** Insert closes the last row only if it is still open. */
  function WithRow(rows: seq<TemporalRow>, value: Payload, timestamp: int): seq<TemporalRow> {
    var last := |rows| - 1;
    (if rows != [] && rows[last].validTo.None? then rows[last := rows[last].(validTo := Some(timestamp))] else rows)
    + [TemporalRow(value, timestamp, None)]
  }

  /** The first row valid at `t`; None stands for the error. */
  function AsOf(rows: seq<TemporalRow>, t: int): (r: Option<Payload>)
    ensures r.Some? <==> exists i :: 0 <= i < |rows| && RowCovers(rows[i], t)
  {
    if rows == [] then None
    else if RowCovers(rows[0], t) then Some(rows[0].value)
    else
      assert forall i :: 0 < i < |rows| ==> rows[i] == rows[1..][i - 1];
      AsOf(rows[1..], t)
  }

  class TemporalTable {
    var versions: map<string, seq<TemporalRow>>

    constructor ()
      ensures versions == map[]
    {
      versions := map[];
    }

    method Insert(key: string, value: Payload, timestamp: int)
      modifies this
      ensures versions == old(versions)[key := WithRow(At(old(versions), key), value, timestamp)]
    {
      var rows := if key in versions then versions[key] else [];
      if |rows| > 0 {
        var last := |rows| - 1;
        if rows[last].validTo.None? {
          rows := rows[last := rows[last].(validTo := Some(timestamp))];
        }
      }
      versions := versions[key := rows + [TemporalRow(value, timestamp, None)]];
    }

    method QueryAsOf(key: string, timestamp: int) returns (r: Option<Payload>)
      ensures r == AsOf(At(versions, key), timestamp)
    {
      if key !in versions {
        return None;
      }
      var rows := versions[key];
      for i := 0 to |rows|
        invariant AsOf(rows, timestamp) == AsOf(rows[i..], timestamp)
      {
        var row := rows[i];
        assert rows[i..][0] == row && rows[i..][1..] == rows[i + 1..];
        if row.validFrom < timestamp || row.validFrom == timestamp {
          if row.validTo.None? || row.validTo.value > timestamp {
            return Some(row.value);
          }
        }
      }
      r := None;
    }
  }

  /** The rows a table holds for one key after the events of `log` were inserted. */
  function RowsAfter(log: seq<Event>): seq<TemporalRow> {
    if log == [] then [] else
      WithRow(RowsAfter(log[..|log| - 1]), log[|log| - 1].payload, log[|log| - 1].time)
  }

  function RowOf(v: Version): TemporalRow {
    TemporalRow(v.event.payload, v.validFrom, v.validTo)
  }

  /** Both tables keep the same ranges. */
  lemma {:induction false} RowsFollowChain(log: seq<Event>)
    ensures |RowsAfter(log)| == |log|
    ensures forall i :: 0 <= i < |log| ==> RowsAfter(log)[i] == RowOf(Chain(log)[i])
  {
    if log != [] {
      var before := log[..|log| - 1];
      RowsFollowChain(before);
      if before != [] {
        ChainLinks(before, |before| - 1);
      }
    }
  }

  lemma {:induction false} AsOfIsSomeCover(rows: seq<TemporalRow>, t: int) returns (i: nat)
    requires AsOf(rows, t).Some?
    ensures i < |rows| && RowCovers(rows[i], t) && AsOf(rows, t) == Some(rows[i].value)
    ensures forall j :: 0 <= j < i ==> !RowCovers(rows[j], t)
  {
    if RowCovers(rows[0], t) {
      i := 0;
    } else {
      var k := AsOfIsSomeCover(rows[1..], t);
      i := k + 1;
      assert forall j :: 0 < j < i ==> rows[j] == rows[1..][j - 1];
    }
  }

  /** At most one version is valid at `t`. */
  ghost predicate OneCovers(log: seq<Event>, t: int) {
    forall i, j :: 0 <= i < j < |log| ==> !Covers(Chain(log)[i], t) || !Covers(Chain(log)[j], t)
  }

  /** The first row valid at `t` is the first version that covers `t`. */
  lemma {:induction false} FirstCoverAnswers(log: seq<Event>, t: int) returns (j: nat)
    requires Found(Chain(log), t).Some?
    ensures j <= Found(Chain(log), t).value && Covers(Chain(log)[j], t)
    ensures AsOf(RowsAfter(log), t) == Some(log[j].payload)
    ensures forall i :: 0 <= i < j ==> !Covers(Chain(log)[i], t)
  {
    RowsFollowChain(log);
    assert RowCovers(RowsAfter(log)[Found(Chain(log), t).value], t);
    j := AsOfIsSomeCover(RowsAfter(log), t);
    ChainLinks(log, j);
    forall i | 0 <= i < j ensures !Covers(Chain(log)[i], t) {
      assert !RowCovers(RowsAfter(log)[i], t);
    }
  }

  /** What the join's lookup answers, as a payload. */
  function FoundPayload(log: seq<Event>, t: int): Option<Payload> {
    var i := Found(Chain(log), t);
    if i.Some? then Some(log[i.value].payload) else None
  }

  /** Where no version is valid both tables say so. */
  lemma {:induction false} NoneCovers(log: seq<Event>, t: int)
    requires Found(Chain(log), t).None?
    ensures AsOf(RowsAfter(log), t) == None
  {
    RowsFollowChain(log);
    if i :| 0 <= i < |log| && RowCovers(RowsAfter(log)[i], t) {
      assert Covers(Chain(log)[i], t);
    }
  }

  /** In any order of arrival, the two tables answer alike wherever at most one version is valid. */
  lemma {:induction false} TablesAgreeWhenOneCovers(log: seq<Event>, t: int)
    requires OneCovers(log, t)
    ensures AsOf(RowsAfter(log), t) == FoundPayload(log, t)
  {
    if Found(Chain(log), t).Some? {
      var j := FirstCoverAnswers(log, t);
    } else {
      NoneCovers(log, t);
    }
  }

  /** On an in-order log that is everywhere: the two tables answer every query alike. */
  lemma {:induction false} TablesAgreeInOrder(log: seq<Event>, t: int)
    requires InOrder(log)
    ensures OneCovers(log, t) && AsOf(RowsAfter(log), t) == FoundPayload(log, t)
  {
    forall i, j | 0 <= i < j < |log| ensures !Covers(Chain(log)[i], t) || !Covers(Chain(log)[j], t) {
      ChainLinks(log, i);
      ChainLinks(log, j);
      assert log[i + 1].time <= log[j].time;
    }
    TablesAgreeWhenOneCovers(log, t);
  }

  /** When every update carries its own value, the answers at `t` are equal exactly if no version before the one the
      lookup settles on is valid at `t`. */
  lemma {:induction false} TablesAgreeIff(log: seq<Event>, t: int)
    requires forall i, j :: 0 <= i < j < |log| ==> log[i].payload != log[j].payload
    ensures AsOf(RowsAfter(log), t) == FoundPayload(log, t)
       <==> forall i :: 0 <= i < |log| && Covers(Chain(log)[i], t) ==> Found(Chain(log), t).value <= i
  {
    if Found(Chain(log), t).Some? {
      var j := FirstCoverAnswers(log, t);
    } else {
      NoneCovers(log, t);
    }
  }

  /** Out of order they need not: the binary search can meet a later cover than the linear scan. */
  lemma {:induction false} TablesDifferOutOfOrder(e: seq<Event>)
    requires |e| == 5 && e[0].time == 1 && e[1].time == 5 && e[2].time == 2 && e[3].time == 6 && e[4].time == 7
    ensures Found(Chain(e), 3) == Some(2) && AsOf(RowsAfter(e), 3) == Some(e[0].payload)
  {
    RowsFollowChain(e);
    ChainLinks(e, 0);
    ChainLinks(e, 2);
    assert Covers(Chain(e)[2], 3) && Covers(Chain(e)[0], 3);
    assert RowCovers(RowsAfter(e)[0], 3);
  }
}
