/** Store-then-probe under concurrency: only the calls into the join state are atomic
    (pkg/join/join.go, ProcessLeft and ProcessRight under a shared read lock). */
module ConcurrentJoins {
  import opened Seqs
  import opened JoinStates
  import opened JoinOperators

  /** One call of ProcessLeft or ProcessRight; a call is named by its index. */
  datatype Task = Task(side: Side, event: Event)

  datatype Phase = Arriving | Held | Probing | Done

  /** Progress of one call: when it stored its event, when it copied the other side's list, the copy,
      how far the probe loop has come, and the partners found so far. */
  datatype Worker = Worker(phase: Phase, storedAt: nat, snappedAt: nat, snapshot: seq<nat>, next: nat, found: seq<nat>)

  /** The shared state, and a clock that ticks with every atomic step. */
  datatype Sys = Sys(workers: seq<Worker>, left: map<string, seq<nat>>, right: map<string, seq<nat>>,
                     clock: nat, matchesFound: nat, counts: seq<nat>)
  {
    function List(side: Side, key: string): seq<nat> {
      At(if side.LeftSide? then left else right, key)
    }
  }

  function Init(tasks: seq<Task>): Sys {
    Sys(seq(|tasks|, _ => Worker(Arriving, 0, 0, [], 0, [])), map[], map[], 0, 0, seq(|tasks|, _ => 0))
  }

  /** Whether call `i` pairs its event with the event of call `j`. */
  function PairsWith(m: Pairing, tasks: seq<Task>, i: nat): nat -> bool
    requires i < |tasks|
  {
    (j: nat) => j < |tasks| && Hits(m, tasks[i].side, tasks[i].event, tasks[j].event)
  }

  // ------------------------------------------------------------------
  // Atomic steps of call `i`
  // ------------------------------------------------------------------

  ghost predicate CanStore(tasks: seq<Task>, s: Sys, i: nat) {
    i < |tasks| == |s.workers| && s.workers[i].phase.Arriving?
  }

  function StoreEvent(tasks: seq<Task>, s: Sys, i: nat): Sys
    requires i < |tasks| == |s.workers|
  {
    var t := tasks[i];
    var ids := s.List(t.side, t.event.key) + [i];
    s.(workers := s.workers[i := s.workers[i].(phase := Held, storedAt := s.clock)],
       left := if t.side.LeftSide? then s.left[t.event.key := ids] else s.left,
       right := if t.side.RightSide? then s.right[t.event.key := ids] else s.right,
       clock := s.clock + 1)
  }

  ghost predicate CanCopy(tasks: seq<Task>, s: Sys, i: nat) {
    i < |tasks| == |s.workers| && s.workers[i].phase.Held?
  }

  function CopyOther(tasks: seq<Task>, s: Sys, i: nat): Sys
    requires i < |tasks| == |s.workers|
  {
    var t := tasks[i];
    s.(workers := s.workers[i := s.workers[i].(phase := Probing, snappedAt := s.clock,
                                               snapshot := s.List(Opposite(t.side), t.event.key))],
       clock := s.clock + 1)
  }

  /** One round of the probe loop: a match is appended to the results and counted in the shared state. */
  ghost predicate CanVisit(tasks: seq<Task>, s: Sys, i: nat) {
    && i < |tasks| == |s.workers| == |s.counts|
    && s.workers[i].phase.Probing? && s.workers[i].next < |s.workers[i].snapshot|
    && s.workers[i].snapshot[s.workers[i].next] < |tasks|
  }

  function VisitNext(m: Pairing, tasks: seq<Task>, s: Sys, i: nat): Sys
    requires i < |tasks| == |s.workers| == |s.counts| && s.workers[i].next < |s.workers[i].snapshot|
    requires s.workers[i].snapshot[s.workers[i].next] < |tasks|
  {
    var w := s.workers[i];
    var j := w.snapshot[w.next];
    if PairsWith(m, tasks, i)(j) then
      s.(workers := s.workers[i := w.(next := w.next + 1, found := w.found + [j])],
         clock := s.clock + 1, matchesFound := s.matchesFound + 1, counts := s.counts[j := s.counts[j] + 1])
    else
      s.(workers := s.workers[i := w.(next := w.next + 1)], clock := s.clock + 1)
  }

  ghost predicate CanReturn(tasks: seq<Task>, s: Sys, i: nat) {
    && i < |tasks| == |s.workers|
    && s.workers[i].phase.Probing? && s.workers[i].next == |s.workers[i].snapshot|
  }

  function ReturnRows(s: Sys, i: nat): Sys
    requires i < |s.workers|
  {
    s.(workers := s.workers[i := s.workers[i].(phase := Done)], clock := s.clock + 1)
  }

  ghost predicate Next(m: Pairing, tasks: seq<Task>, s: Sys, s': Sys, i: nat) {
    || (CanStore(tasks, s, i) && s' == StoreEvent(tasks, s, i))
    || (CanCopy(tasks, s, i) && s' == CopyOther(tasks, s, i))
    || (CanVisit(tasks, s, i) && s' == VisitNext(m, tasks, s, i))
    || (CanReturn(tasks, s, i) && s' == ReturnRows(s, i))
  }

  ghost predicate SomeCallSteps(m: Pairing, tasks: seq<Task>, s: Sys, s': Sys) {
    exists i: nat :: Next(m, tasks, s, s', i)
  }

  /** A cleanup or an eviction: lists lose events, in one section. An eviction follows its store immediately in the
      code; here it may also come later, so every real interleaving is among these. */
  ghost predicate Removes(s: Sys, s': Sys) {
    && s' == s.(left := s'.left, right := s'.right, clock := s.clock + 1)
    && forall side, key {:trigger s'.List(side, key)} :: Subsequence(s'.List(side, key), s.List(side, key))
  }

  /** Any interleaving of the calls' atomic steps, and of cleanups and evictions if events may be lost. */
  ghost predicate IsRunWith(m: Pairing, tasks: seq<Task>, run: seq<Sys>, lossy: bool) {
    && run != [] && run[0] == Init(tasks)
    && forall k :: 0 < k < |run| ==>
         SomeCallSteps(m, tasks, run[k - 1], run[k]) || (lossy && Removes(run[k - 1], run[k]))
  }

  /** Nothing expires and nothing is evicted. */
  ghost predicate IsRun(m: Pairing, tasks: seq<Task>, run: seq<Sys>) {
    IsRunWith(m, tasks, run, false)
  }

  // ------------------------------------------------------------------
  // The invariant
  // ------------------------------------------------------------------

  predicate HasStored(s: Sys, j: nat) {
    j < |s.workers| && !s.workers[j].phase.Arriving?
  }

  ghost predicate NoDuplicates(ids: seq<nat>) {
    forall a, b :: 0 <= a < b < |ids| ==> ids[a] != ids[b]
  }

  /** Call `j` has stored an event under the side and key. */
  predicate Stored(tasks: seq<Task>, s: Sys, side: Side, key: string, j: nat) {
    j < |tasks| && HasStored(s, j) && tasks[j].side == side && tasks[j].event.key == key
  }

  /** A list names only calls that have stored an event under its side and key, once each, and, unless events may be
      lost, all of them. */
  ghost predicate ListExact(tasks: seq<Task>, s: Sys, side: Side, key: string, lossy: bool) {
    && NoDuplicates(s.List(side, key))
    && (forall j: nat :: j in s.List(side, key) ==> Stored(tasks, s, side, key, j))
    && (!lossy ==> forall j: nat :: Stored(tasks, s, side, key, j) ==> j in s.List(side, key))
  }

  /** Whether call `i`'s copy of the other side may contain `j`; unless events may be lost, it does. */
  predicate Visible(tasks: seq<Task>, s: Sys, i: nat, j: nat)
    requires i < |tasks| && i < |s.workers|
  {
    && j < |tasks| && HasStored(s, j) && tasks[j].side == Opposite(tasks[i].side)
    && tasks[j].event.key == tasks[i].event.key && s.workers[j].storedAt < s.workers[i].snappedAt
  }

  ghost predicate WorkerOK(m: Pairing, tasks: seq<Task>, s: Sys, i: nat, lossy: bool)
    requires i < |tasks| == |s.workers|
  {
    var w := s.workers[i];
    && (!w.phase.Arriving? ==> w.storedAt < s.clock)
    && (if w.phase.Arriving? || w.phase.Held? then w.found == [] && w.next == 0 else
          && w.storedAt < w.snappedAt < s.clock
          && NoDuplicates(w.snapshot) && (forall j: nat :: j in w.snapshot ==> Visible(tasks, s, i, j))
          && (!lossy ==> forall j: nat :: Visible(tasks, s, i, j) ==> j in w.snapshot)
          && w.next <= |w.snapshot| && w.found == Filter(w.snapshot[..w.next], PairsWith(m, tasks, i))
          && (w.phase.Done? ==> w.next == |w.snapshot|))
  }

  /** The number of pairs handed out by all calls, and how many of them name `j`. */
  function PairsFound(ws: seq<Worker>): nat {
    if ws == [] then 0 else PairsFound(ws[..|ws| - 1]) + |ws[|ws| - 1].found|
  }

  function TimesFound(ws: seq<Worker>, j: nat): nat {
    if ws == [] then 0 else TimesFound(ws[..|ws| - 1], j) + multiset(ws[|ws| - 1].found)[j]
  }

  ghost predicate Counted(s: Sys) {
    && s.matchesFound == PairsFound(s.workers)
    && forall j: nat :: j < |s.counts| ==> s.counts[j] == TimesFound(s.workers, j)
  }

  ghost predicate Inv(m: Pairing, tasks: seq<Task>, s: Sys, lossy: bool) {
    && |s.workers| == |tasks| == |s.counts|
    && (forall side, key :: ListExact(tasks, s, side, key, lossy))
    && (forall i: nat :: i < |tasks| ==> WorkerOK(m, tasks, s, i, lossy))
    && Counted(s)
  }

  lemma {:induction false} FoundUpdate(ws: seq<Worker>, i: nat, w: Worker, j: nat)
    requires i < |ws|
    ensures PairsFound(ws[i := w]) == PairsFound(ws) - |ws[i].found| + |w.found|
    ensures TimesFound(ws[i := w], j) == TimesFound(ws, j) - multiset(ws[i].found)[j] + multiset(w.found)[j]
  {
    var n := |ws| - 1;
    if i == n {
      assert ws[i := w][..n] == ws[..n];
    } else {
      FoundUpdate(ws[..n], i, w, j);
      assert ws[i := w][..n] == ws[..n][i := w];
    }
  }

  lemma {:induction false} SameFound(s: Sys, i: nat, w: Worker, s': Sys)
    requires i < |s.workers| && Counted(s) && w.found == s.workers[i].found
    requires s'.workers == s.workers[i := w] && s'.matchesFound == s.matchesFound && s'.counts == s.counts
    ensures Counted(s')
  {
    FoundUpdate(s.workers, i, w, 0);
    forall j: nat ensures TimesFound(s.workers[i := w], j) == TimesFound(s.workers, j) {
      FoundUpdate(s.workers, i, w, j);
    }
  }

  lemma {:induction false} InitCounts(ws: seq<Worker>, j: nat)
    requires forall i :: 0 <= i < |ws| ==> ws[i].found == []
    ensures PairsFound(ws) == 0 && TimesFound(ws, j) == 0
  {
    if ws != [] {
      InitCounts(ws[..|ws| - 1], j);
    }
  }

  lemma {:induction false} InitInv(m: Pairing, tasks: seq<Task>, lossy: bool)
    ensures Inv(m, tasks, Init(tasks), lossy)
  {
    var s := Init(tasks);
    InitCounts(s.workers, 0);
    forall j: nat ensures TimesFound(s.workers, j) == 0 {
      InitCounts(s.workers, j);
    }
  }

  lemma {:induction false} StoreKeepsLists(
    m: Pairing, tasks: seq<Task>, s: Sys, i: nat, side: Side, key: string, lossy: bool)
    requires Inv(m, tasks, s, lossy) && CanStore(tasks, s, i)
    ensures ListExact(tasks, StoreEvent(tasks, s, i), side, key, lossy)
  {
    var s' := StoreEvent(tasks, s, i);
    assert ListExact(tasks, s, side, key, lossy);
    assert i !in s.List(side, key);
    forall j: nat ensures HasStored(s', j) == (HasStored(s, j) || j == i) {
    }
  }

  /** A newly stored event is invisible to copies taken before. */
  lemma {:induction false} StoreKeepsInv(m: Pairing, tasks: seq<Task>, s: Sys, i: nat, lossy: bool)
    requires Inv(m, tasks, s, lossy) && CanStore(tasks, s, i)
    ensures Inv(m, tasks, StoreEvent(tasks, s, i), lossy)
  {
    var s' := StoreEvent(tasks, s, i);
    forall side, key ensures ListExact(tasks, s', side, key, lossy) {
      StoreKeepsLists(m, tasks, s, i, side, key, lossy);
    }
    forall k: nat | k < |tasks| ensures WorkerOK(m, tasks, s', k, lossy) {
      assert WorkerOK(m, tasks, s, k, lossy);
      if s.workers[k].phase.Probing? || s.workers[k].phase.Done? {
        forall j: nat ensures Visible(tasks, s', k, j) == Visible(tasks, s, k, j) {
        }
      }
    }
    SameFound(s, i, s'.workers[i], s');
  }

  lemma {:induction false} CopyKeepsInv(m: Pairing, tasks: seq<Task>, s: Sys, i: nat, lossy: bool)
    requires Inv(m, tasks, s, lossy) && CanCopy(tasks, s, i)
    ensures Inv(m, tasks, CopyOther(tasks, s, i), lossy)
  {
    var s' := CopyOther(tasks, s, i);
    forall j: nat ensures HasStored(s', j) == HasStored(s, j) {
    }
    forall side, key ensures ListExact(tasks, s', side, key, lossy) {
      assert ListExact(tasks, s, side, key, lossy);
    }
    forall k: nat | k < |tasks| ensures WorkerOK(m, tasks, s', k, lossy) {
      assert WorkerOK(m, tasks, s, k, lossy);
      if k == i {
        assert ListExact(tasks, s, Opposite(tasks[i].side), tasks[i].event.key, lossy);
        forall j: nat
          ensures Visible(tasks, s', i, j)
             <==> Stored(tasks, s, Opposite(tasks[i].side), tasks[i].event.key, j) {
          if j < |tasks| && HasStored(s, j) {
            assert WorkerOK(m, tasks, s, j, lossy);
          }
        }
        assert s'.workers[i].snapshot[..0] == [];
      } else if s.workers[k].phase.Probing? || s.workers[k].phase.Done? {
        forall j: nat ensures Visible(tasks, s', k, j) == Visible(tasks, s, k, j) {
        }
      }
    }
    SameFound(s, i, s'.workers[i], s');
  }

  /** A step that touches neither lists, store times nor copies. */
  lemma {:induction false} ProbeStepKeepsLists(
    m: Pairing, tasks: seq<Task>, s: Sys, i: nat, w: Worker, s': Sys, lossy: bool)
    requires Inv(m, tasks, s, lossy) && i < |tasks|
    requires w.storedAt == s.workers[i].storedAt && w.snappedAt == s.workers[i].snappedAt
    requires !w.phase.Arriving? && !s.workers[i].phase.Arriving?
    requires s'.workers == s.workers[i := w] && s'.left == s.left && s'.right == s.right && s'.clock >= s.clock
    ensures forall side, key :: ListExact(tasks, s', side, key, lossy)
    ensures forall k: nat, j: nat :: 0 <= k < |tasks| ==> Visible(tasks, s', k, j) == Visible(tasks, s, k, j)
    ensures forall k: nat :: k < |tasks| && k != i ==> WorkerOK(m, tasks, s', k, lossy)
  {
    forall j: nat ensures HasStored(s', j) == HasStored(s, j) {
    }
    forall side, key ensures ListExact(tasks, s', side, key, lossy) {
      assert ListExact(tasks, s, side, key, lossy);
    }
    forall k: nat | k < |tasks| && k != i ensures WorkerOK(m, tasks, s', k, lossy) {
      assert WorkerOK(m, tasks, s, k, lossy);
    }
  }

  lemma {:induction false} VisitFinds(m: Pairing, tasks: seq<Task>, s: Sys, i: nat)
    requires CanVisit(tasks, s, i)
    requires var w := s.workers[i]; w.found == Filter(w.snapshot[..w.next], PairsWith(m, tasks, i))
    ensures var w' := VisitNext(m, tasks, s, i).workers[i];
            && w' == s.workers[i].(next := s.workers[i].next + 1, found := w'.found)
            && w'.found == Filter(w'.snapshot[..w'.next], PairsWith(m, tasks, i))
  {
    FilterNext(s.workers[i].snapshot, s.workers[i].next, PairsWith(m, tasks, i));
  }

  lemma {:induction false} VisitKeepsWorker(m: Pairing, tasks: seq<Task>, s: Sys, s': Sys, i: nat, lossy: bool)
    requires CanVisit(tasks, s, i) && s' == VisitNext(m, tasks, s, i) && WorkerOK(m, tasks, s, i, lossy)
    requires forall j: nat :: Visible(tasks, s', i, j) == Visible(tasks, s, i, j)
    ensures WorkerOK(m, tasks, s', i, lossy)
  {
    VisitFinds(m, tasks, s, i);
  }

  lemma {:induction false} VisitKeepsInv(m: Pairing, tasks: seq<Task>, s: Sys, i: nat, lossy: bool)
    requires Inv(m, tasks, s, lossy) && CanVisit(tasks, s, i)
    ensures Inv(m, tasks, VisitNext(m, tasks, s, i), lossy)
  {
    var s' := VisitNext(m, tasks, s, i);
    ProbeStepKeepsLists(m, tasks, s, i, s'.workers[i], s', lossy);
    VisitKeepsWorker(m, tasks, s, s', i, lossy);
    VisitKeepsCounted(m, tasks, s, i);
  }

  /** Each count moves with what was found. */
  lemma {:induction false} VisitCounts(m: Pairing, tasks: seq<Task>, s: Sys, i: nat, j: nat)
    requires CanVisit(tasks, s, i) && j < |s.counts| && s.counts[j] == TimesFound(s.workers, j)
    ensures VisitNext(m, tasks, s, i).counts[j] == TimesFound(VisitNext(m, tasks, s, i).workers, j)
  {
    var w, w' := s.workers[i], VisitNext(m, tasks, s, i).workers[i];
    FoundUpdate(s.workers, i, w', j);
    CountSnoc(w.found, w.snapshot[w.next], j);
  }

  lemma {:induction false} VisitKeepsCounted(m: Pairing, tasks: seq<Task>, s: Sys, i: nat)
    requires CanVisit(tasks, s, i) && Counted(s)
    ensures Counted(VisitNext(m, tasks, s, i))
  {
    var s' := VisitNext(m, tasks, s, i);
    FoundUpdate(s.workers, i, s'.workers[i], 0);
    forall j: nat | j < |s'.counts| ensures s'.counts[j] == TimesFound(s'.workers, j) {
      VisitCounts(m, tasks, s, i, j);
    }
  }

  lemma {:induction false} ReturnKeepsInv(m: Pairing, tasks: seq<Task>, s: Sys, i: nat, lossy: bool)
    requires Inv(m, tasks, s, lossy) && CanReturn(tasks, s, i)
    ensures Inv(m, tasks, ReturnRows(s, i), lossy)
  {
    var s' := ReturnRows(s, i);
    ProbeStepKeepsLists(m, tasks, s, i, s'.workers[i], s', lossy);
    assert WorkerOK(m, tasks, s, i, lossy);
    SameFound(s, i, s'.workers[i], s');
  }

  lemma {:induction false} SublistHasNoDuplicates(a: seq<nat>, b: seq<nat>)
    requires Subsequence(a, b) && NoDuplicates(b)
    ensures NoDuplicates(a) && forall x :: x in a ==> x in b
    decreases |b|
  {
    if a != [] {
      var a', b' := a[..|a| - 1], b[..|b| - 1];
      assert forall x :: x in b' ==> x in b;
      if Subsequence(a, b') {
        SublistHasNoDuplicates(a, b');
      } else {
        SublistHasNoDuplicates(a', b');
        assert b[|b| - 1] !in b';
        assert forall x :: x in a ==> x in a' || x == b[|b| - 1];
      }
    }
  }

  lemma {:induction false} RemovalKeepsLists(tasks: seq<Task>, s: Sys, s': Sys, side: Side, key: string)
    requires ListExact(tasks, s, side, key, true) && Removes(s, s')
    ensures ListExact(tasks, s', side, key, true)
  {
    SublistHasNoDuplicates(s'.List(side, key), s.List(side, key));
  }

  /** What is removed was or will not be seen by later copies; copies already taken keep it. */
  lemma {:induction false} RemovalKeepsInv(m: Pairing, tasks: seq<Task>, s: Sys, s': Sys)
    requires Inv(m, tasks, s, true) && Removes(s, s')
    ensures Inv(m, tasks, s', true)
  {
    forall side, key ensures ListExact(tasks, s', side, key, true) {
      RemovalKeepsLists(tasks, s, s', side, key);
    }
    forall i: nat | i < |tasks| ensures WorkerOK(m, tasks, s', i, true) {
      assert WorkerOK(m, tasks, s, i, true);
      forall j: nat ensures Visible(tasks, s', i, j) == Visible(tasks, s, i, j) {
      }
    }
  }

  lemma {:induction false} StepKeepsInv(m: Pairing, tasks: seq<Task>, s: Sys, s': Sys, lossy: bool)
    requires Inv(m, tasks, s, lossy) && SomeCallSteps(m, tasks, s, s')
    ensures Inv(m, tasks, s', lossy)
  {
    var i: nat :| Next(m, tasks, s, s', i);
    if CanStore(tasks, s, i) {
      StoreKeepsInv(m, tasks, s, i, lossy);
    } else if CanCopy(tasks, s, i) {
      CopyKeepsInv(m, tasks, s, i, lossy);
    } else if CanVisit(tasks, s, i) {
      VisitKeepsInv(m, tasks, s, i, lossy);
    } else {
      ReturnKeepsInv(m, tasks, s, i, lossy);
    }
  }

  lemma {:induction false} RunKeepsInv(m: Pairing, tasks: seq<Task>, run: seq<Sys>, k: nat, lossy: bool)
    requires IsRunWith(m, tasks, run, lossy) && k < |run|
    ensures Inv(m, tasks, run[k], lossy)
  {
    if k == 0 {
      InitInv(m, tasks, lossy);
    } else {
      RunKeepsInv(m, tasks, run, k - 1, lossy);
      if SomeCallSteps(m, tasks, run[k - 1], run[k]) {
        StepKeepsInv(m, tasks, run[k - 1], run[k], lossy);
      } else {
        RemovalKeepsInv(m, tasks, run[k - 1], run[k]);
      }
    }
  }

  // ------------------------------------------------------------------
  // What the interleavings emit
  // ------------------------------------------------------------------

  /** How often call `i` emits the pair with `j`. */
  function Emitted(s: Sys, i: nat, j: nat): nat
    requires i < |s.workers|
  {
    multiset(s.workers[i].found)[j]
  }

  ghost predicate AllDone(s: Sys) {
    forall i :: 0 <= i < |s.workers| ==> s.workers[i].phase.Done?
  }

  /** Between storing its event and copying the other side's list, each call saw the other's event. */
  predicate Overlap(s: Sys, i: nat, j: nat)
    requires i < |s.workers| && j < |s.workers|
  {
    s.workers[i].storedAt < s.workers[j].snappedAt && s.workers[j].storedAt < s.workers[i].snappedAt
  }

  lemma {:induction false} CountWithoutDuplicates(ids: seq<nat>, j: nat)
    requires NoDuplicates(ids)
    ensures multiset(ids)[j] == if j in ids then 1 else 0
  {
    if ids != [] {
      CountWithoutDuplicates(ids[..|ids| - 1], j);
      assert ids == ids[..|ids| - 1] + [ids[|ids| - 1]];
    }
  }

  /** So far a call has emitted matching partners stored before its copy, each at most once. */
  lemma {:induction false} CallEmitsAtMostOnce(
    m: Pairing, tasks: seq<Task>, s: Sys, i: nat, j: nat, lossy: bool)
    requires Inv(m, tasks, s, lossy) && i < |tasks| && j < |tasks|
    ensures Emitted(s, i, j) <= if Visible(tasks, s, i, j) && PairsWith(m, tasks, i)(j) then 1 else 0
  {
    var w := s.workers[i];
    assert WorkerOK(m, tasks, s, i, lossy);
    if w.phase.Probing? || w.phase.Done? {
      FilterCount(w.snapshot[..w.next], PairsWith(m, tasks, i), j);
      CountWithoutDuplicates(w.snapshot[..w.next], j);
      assert j in w.snapshot[..w.next] ==> j in w.snapshot;
    }
  }

  /** A finished call has emitted all of them, if nothing was lost. */
  lemma {:induction false} FinishedCallEmits(m: Pairing, tasks: seq<Task>, s: Sys, i: nat, j: nat)
    requires Inv(m, tasks, s, false) && i < |tasks| && j < |tasks| && s.workers[i].phase.Done?
    ensures Emitted(s, i, j) == if Visible(tasks, s, i, j) && PairsWith(m, tasks, i)(j) then 1 else 0
  {
    var w := s.workers[i];
    assert WorkerOK(m, tasks, s, i, false);
    assert w.snapshot[..w.next] == w.snapshot;
    FilterCount(w.snapshot, PairsWith(m, tasks, i), j);
    CountWithoutDuplicates(w.snapshot, j);
  }

  lemma {:induction false} EmissionsOfPair(m: Pairing, tasks: seq<Task>, s: Sys, i: nat, j: nat)
    requires Inv(m, tasks, s, false) && AllDone(s)
    requires i < |tasks| && j < |tasks| && tasks[i].side.LeftSide? && tasks[j].side.RightSide?
    ensures var l, r := tasks[i].event, tasks[j].event;
            Emitted(s, i, j) + Emitted(s, j, i)
            == if !(m(l, r) && l.key == r.key) then 0 else if Overlap(s, i, j) then 2 else 1
  {
    FinishedCallEmits(m, tasks, s, i, j);
    FinishedCallEmits(m, tasks, s, j, i);
    assert WorkerOK(m, tasks, s, i, false) && WorkerOK(m, tasks, s, j, false);
  }

  /** In every interleaving, once all calls are done, a left and a right event with equal keys that satisfy the
      condition have been emitted at least once and at most twice, and twice exactly when the two calls overlap;
      other pairs never are. */
  lemma {:induction false} EmittedOnceOrTwice(m: Pairing, tasks: seq<Task>, run: seq<Sys>, k: nat, i: nat, j: nat)
    requires IsRun(m, tasks, run) && k < |run| && AllDone(run[k])
    requires i < |tasks| && j < |tasks| && tasks[i].side.LeftSide? && tasks[j].side.RightSide?
    ensures |run[k].workers| == |tasks|
    ensures var l, r := tasks[i].event, tasks[j].event;
            Emitted(run[k], i, j) + Emitted(run[k], j, i)
            == if !(m(l, r) && l.key == r.key) then 0 else if Overlap(run[k], i, j) then 2 else 1
  {
    RunKeepsInv(m, tasks, run, k, false);
    EmissionsOfPair(m, tasks, run[k], i, j);
  }

  /** With cleanups and evictions anywhere in between, and at every moment, the upper half still holds: a matching pair
      has been emitted at most twice, twice only if the two calls overlap, and other pairs never. */
  lemma {:induction false} EmittedAtMostTwice(m: Pairing, tasks: seq<Task>, run: seq<Sys>, k: nat, i: nat, j: nat)
    requires IsRunWith(m, tasks, run, true) && k < |run|
    requires i < |tasks| && j < |tasks| && tasks[i].side.LeftSide? && tasks[j].side.RightSide?
    ensures |run[k].workers| == |tasks|
    ensures var l, r := tasks[i].event, tasks[j].event;
            Emitted(run[k], i, j) + Emitted(run[k], j, i)
            <= if !(m(l, r) && l.key == r.key) then 0 else if Overlap(run[k], i, j) then 2 else 1
  {
    RunKeepsInv(m, tasks, run, k, true);
    CallEmitsAtMostOnce(m, tasks, run[k], i, j, true);
    CallEmitsAtMostOnce(m, tasks, run[k], j, i, true);
  }

  /** At every moment of every interleaving, cleanups and evictions included, the match counter is the number of pairs
      found so far, and every stored event's match count is the number of times it was found. */
  lemma {:induction false} CountersAreExact(m: Pairing, tasks: seq<Task>, run: seq<Sys>, k: nat, lossy: bool)
    requires IsRunWith(m, tasks, run, lossy) && k < |run|
    ensures Counted(run[k])
  {
    RunKeepsInv(m, tasks, run, k, lossy);
  }

  /** No interleaving gets stuck: while a call is unfinished, it has a step to take. */
  lemma {:induction false} UnfinishedCallCanStep(
    m: Pairing, tasks: seq<Task>, run: seq<Sys>, k: nat, i: nat, lossy: bool)
    requires IsRunWith(m, tasks, run, lossy) && k < |run| && i < |tasks|
    ensures |run[k].workers| == |tasks|
    ensures !run[k].workers[i].phase.Done? ==> exists s' :: Next(m, tasks, run[k], s', i)
  {
    var s := run[k];
    RunKeepsInv(m, tasks, run, k, lossy);
    assert WorkerOK(m, tasks, s, i, lossy);
    var w := s.workers[i];
    match w.phase {
      case Arriving => assert Next(m, tasks, s, StoreEvent(tasks, s, i), i);
      case Held => assert Next(m, tasks, s, CopyOther(tasks, s, i), i);
      case Probing =>
        if w.next < |w.snapshot| {
          assert w.snapshot[w.next] in w.snapshot;
          assert CanVisit(tasks, s, i);
          assert Next(m, tasks, s, VisitNext(m, tasks, s, i), i);
        } else {
          assert Next(m, tasks, s, ReturnRows(s, i), i);
        }
      case Done =>
    }
  }

  lemma {:induction false} RunGrows(m: Pairing, tasks: seq<Task>, run: seq<Sys>, s': Sys, i: nat)
    requires IsRun(m, tasks, run) && Next(m, tasks, run[|run| - 1], s', i)
    ensures IsRun(m, tasks, run + [s'])
  {
    var longer := run + [s'];
    forall k | 0 < k < |longer| ensures SomeCallSteps(m, tasks, longer[k - 1], longer[k]) {
      assert k < |run| ==> SomeCallSteps(m, tasks, run[k - 1], run[k]);
    }
  }

  /** Two calls for the same key store, one after the other, and then copy: each sees the other's event. */
  lemma {:induction false} BothStoreThenCopy(m: Pairing, l: Event, r: Event) returns (run: seq<Sys>, s: Sys)
    requires l.key == r.key
    ensures IsRun(m, [Task(LeftSide, l), Task(RightSide, r)], run) && s == run[|run| - 1]
    ensures s.workers == [Worker(Probing, 0, 2, [1], 0, []), Worker(Probing, 1, 3, [0], 0, [])] && |s.counts| == 2
  {
    var tasks := [Task(LeftSide, l), Task(RightSide, r)];
    var s0 := Init(tasks);
    var s1 := StoreEvent(tasks, s0, 0);
    var s2 := StoreEvent(tasks, s1, 1);
    var s3 := CopyOther(tasks, s2, 0);
    s := CopyOther(tasks, s3, 1);
    run := [s0];
    assert IsRun(m, tasks, run);
    RunGrows(m, tasks, run, s1, 0);
    RunGrows(m, tasks, run + [s1], s2, 1);
    RunGrows(m, tasks, run + [s1] + [s2], s3, 0);
    RunGrows(m, tasks, run + [s1] + [s2] + [s3], s, 1);
    run := run + [s1] + [s2] + [s3] + [s];
    assert [] + [1] == [1] && [] + [0] == [0];
  }

  /** Then both visit what they saw ... */
  lemma {:induction false} BothVisit(m: Pairing, tasks: seq<Task>, before: seq<Sys>, s: Sys)
    returns (run: seq<Sys>, s': Sys)
    requires IsRun(m, tasks, before) && s == before[|before| - 1] && |tasks| == 2
    requires s.workers == [Worker(Probing, 0, 2, [1], 0, []), Worker(Probing, 1, 3, [0], 0, [])] && |s.counts| == 2
    ensures IsRun(m, tasks, run) && s' == run[|run| - 1] && |s'.workers| == 2 && Overlap(s', 0, 1)
    ensures forall i | 0 <= i < 2 :: s'.workers[i].phase.Probing? && s'.workers[i].next == |s'.workers[i].snapshot|
  {
    var s1 := VisitNext(m, tasks, s, 0);
    s' := VisitNext(m, tasks, s1, 1);
    RunGrows(m, tasks, before, s1, 0);
    RunGrows(m, tasks, before + [s1], s', 1);
    run := before + [s1] + [s'];
  }

  /** ... and return. */
  lemma {:induction false} BothReturn(m: Pairing, tasks: seq<Task>, before: seq<Sys>, s: Sys)
    returns (run: seq<Sys>)
    requires IsRun(m, tasks, before) && s == before[|before| - 1] && |tasks| == 2 == |s.workers| && Overlap(s, 0, 1)
    requires forall i | 0 <= i < 2 :: s.workers[i].phase.Probing? && s.workers[i].next == |s.workers[i].snapshot|
    ensures IsRun(m, tasks, run) && AllDone(run[|run| - 1]) && |run[|run| - 1].workers| == 2
    ensures Overlap(run[|run| - 1], 0, 1)
  {
    var s1 := ReturnRows(s, 0);
    var s2 := ReturnRows(s1, 1);
    RunGrows(m, tasks, before, s1, 0);
    RunGrows(m, tasks, before + [s1], s2, 1);
    run := before + [s1] + [s2];
  }

  /** Overlapping calls do occur: both store first, then both probe, and the pair comes out twice. */
  lemma {:induction false} PairCanBeEmittedTwice(m: Pairing, l: Event, r: Event)
    requires m(l, r) && l.key == r.key
    ensures exists run: seq<Sys> :: IsRun(m, [Task(LeftSide, l), Task(RightSide, r)], run)
                       && AllDone(run[|run| - 1]) && |run[|run| - 1].workers| == 2
                       && Emitted(run[|run| - 1], 0, 1) + Emitted(run[|run| - 1], 1, 0) == 2
  {
    var tasks := [Task(LeftSide, l), Task(RightSide, r)];
    var before, s := BothStoreThenCopy(m, l, r);
    var visited, s' := BothVisit(m, tasks, before, s);
    var run := BothReturn(m, tasks, visited, s');
    EmittedOnceOrTwice(m, tasks, run, |run| - 1, 0, 1);
  }
}
