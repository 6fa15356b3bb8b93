/** The inference batcher: submissions, timers, flushes and batch workers in any interleaving (pkg/ml/inference.go). */
module Batchers {
  import opened Seqs

  datatype Config = Config(batchSize: nat, maxConcurrency: nat)

  /** The constructor's defaults for values that are zero or negative. */
  function WithDefaults(batchSize: int, maxConcurrency: int): (cfg: Config)
    ensures Usable(cfg)
    ensures batchSize >= 1 ==> cfg.batchSize == batchSize
    ensures batchSize < 1 ==> cfg.batchSize == 1
    ensures maxConcurrency >= 1 ==> cfg.maxConcurrency == maxConcurrency
    ensures maxConcurrency < 1 ==> cfg.maxConcurrency == 10
  {
    Config(if batchSize <= 0 then 1 else batchSize, if maxConcurrency <= 0 then 10 else maxConcurrency)
  }

  predicate Usable(cfg: Config) {
    cfg.batchSize >= 1 && cfg.maxConcurrency >= 1
  }

  /** What the model returned for a batch: an error, or some number of responses, perhaps too few. */
  datatype Outcome = BatchFailed | Responses(count: nat)

  /** What an item's submitter receives: the response with the item's index, or an error. */
  datatype Msg = Response(index: nat) | BatchError | NoResponse(index: nat)

  datatype Phase = Waiting | Running | Done

  datatype Worker = Worker(items: seq<nat>, phase: Phase, outcome: Option<Outcome>, sent: nat)

  function Reply(outcome: Outcome, i: nat): Msg {
    match outcome
    case BatchFailed => BatchError
    case Responses(n) => if i < n then Response(i) else NoResponse(i)
  }

  // ------------------------------------------------------------------
  // The sections under the batch lock
  // ------------------------------------------------------------------

  /** Items are numbered in submission order. `armed` holds the timers whose callback has not run yet, whether or not
      they are the recorded one. */
  datatype Front = Front(batch: seq<nat>, timer: Option<nat>, armed: set<nat>, next: nat, timers: nat)

  const EMPTY := Front([], None, {}, 0, 0)

  function Flushed(f: Front): Front {
    if f.batch == [] then f else f.(batch := [], timer := None)
  }

  function Batches(f: Front): seq<seq<nat>> {
    if f.batch == [] then [] else [f.batch]
  }

  function Added(f: Front): Front {
    f.(batch := f.batch + [f.next], next := f.next + 1)
  }

  /** `stopped`: stopping the timer came before its callback began to wait for the lock. */
  function TimerCleared(f: Front, stopped: bool): Front {
    if f.timer.None? then f
    else f.(timer := None, armed := if stopped then f.armed - {f.timer.value} else f.armed)
  }

  function Submitted(cfg: Config, f: Front, stopped: bool): Front {
    var f' := Added(f);
    if |f'.batch| >= cfg.batchSize then Flushed(TimerCleared(f', stopped))
    else if f'.timer.None? then f'.(timer := Some(f.timers), armed := f.armed + {f.timers}, timers := f.timers + 1)
    else f'
  }

  function SubmitFlushes(cfg: Config, f: Front): seq<seq<nat>> {
    if |f.batch| + 1 >= cfg.batchSize then [f.batch + [f.next]] else []
  }

  class InferenceOperator {
    const config: Config
    var batch: seq<nat>
    var batchTimer: Option<nat>
    var armed: set<nat>
    var submitted: nat
    var timers: nat
    /** The batches handed to workers so far. */
    var started: seq<seq<nat>>

    function View(): Front
      reads this
    {
      Front(batch, batchTimer, armed, submitted, timers)
    }

    constructor (batchSize: int, maxConcurrency: int)
      ensures config == WithDefaults(batchSize, maxConcurrency) && View() == EMPTY && started == []
    {
      config := WithDefaults(batchSize, maxConcurrency);
      batch, batchTimer, armed, submitted, timers, started := [], None, {}, 0, 0, [];
    }

    /** The locked section of Process. */
    method Submit(stopped: bool)
      modifies this
      ensures View() == Submitted(config, old(View()), stopped)
      ensures started == old(started) + SubmitFlushes(config, old(View()))
    {
      batch := batch + [submitted];
      submitted := submitted + 1;
      if |batch| >= config.batchSize {
        if batchTimer.Some? {
          if stopped {
            armed := armed - {batchTimer.value};
          }
          batchTimer := None;
        }
        FlushBatchLocked();
      } else if batchTimer.None? {
        batchTimer := Some(timers);
        armed := armed + {timers};
        timers := timers + 1;
      }
    }

    method FlushBatchLocked()
      modifies this`batch, this`batchTimer, this`started
      ensures View() == Flushed(old(View())) && started == old(started) + Batches(old(View()))
    {
      if |batch| == 0 {
        return;
      }
      var batchToProcess := batch;
      batch := [];
      batchTimer := None;
      started := started + [batchToProcess];
    }

    method TimerCallback(timer: nat)
      requires timer in armed
      modifies this
      ensures View() == Flushed(old(View()).(armed := old(armed) - {timer}))
      ensures started == old(started) + Batches(old(View()))
    {
      armed := armed - {timer};
      FlushBatchLocked();
    }

    /** The replies of one batch, item by item. */
    method ProcessBatch(items: seq<nat>, outcome: Outcome) returns (replies: seq<(nat, Msg)>)
      ensures |replies| == |items|
      ensures forall i :: 0 <= i < |items| ==> replies[i] == (items[i], Reply(outcome, i))
    {
      replies := [];
      if outcome.BatchFailed? {
        for i := 0 to |items|
          invariant |replies| == i && forall j :: 0 <= j < i ==> replies[j] == (items[j], BatchError)
        {
          replies := replies + [(items[i], BatchError)];
        }
        return;
      }
      for i := 0 to |items|
        invariant |replies| == i && forall j :: 0 <= j < i ==> replies[j] == (items[j], Reply(outcome, j))
      {
        if i < outcome.count {
          replies := replies + [(items[i], Response(i))];
        } else {
          replies := replies + [(items[i], NoResponse(i))];
        }
      }
    }
  }

  // ------------------------------------------------------------------
  // The whole operator
  // ------------------------------------------------------------------

  /** The front, the workers in the order their batches were flushed, and what each item's channels have received. */
  datatype Sys = Sys(front: Front, workers: seq<Worker>, inbox: map<nat, seq<Msg>>)

  const START := Sys(EMPTY, [], map[])

  /** A submission; a timer's callback; a flush by the ticker or on closing; one move of worker `k`, where `outcome` is
      what the model returns if the move is the model call. */
  datatype Step = Submit(stopped: bool) | TimerRuns(timer: nat) | Flush | Move(k: nat, outcome: Outcome)

  function Spawn(batches: seq<seq<nat>>): seq<Worker> {
    if batches == [] then [] else Spawn(batches[..|batches| - 1]) + [Worker(batches[|batches| - 1], Waiting, None, 0)]
  }

  function CountRunning(workers: seq<Worker>): nat {
    if workers == [] then 0 else
      CountRunning(workers[..|workers| - 1]) + if workers[|workers| - 1].phase == Running then 1 else 0
  }

  predicate Enabled(cfg: Config, s: Sys, step: Step) {
    match step
    case TimerRuns(t) => t in s.front.armed
    case Move(k, _) =>
      && k < |s.workers| && s.workers[k].phase != Done
      && (s.workers[k].phase == Waiting ==> CountRunning(s.workers) < cfg.maxConcurrency)
    case _ => true
  }

  /** Take a semaphore slot; call the model; reply to the items one by one; release the slot. */
  function Moved(w: Worker, outcome: Outcome): Worker {
    if w.phase == Waiting then w.(phase := Running)
    else if w.outcome.None? then w.(outcome := Some(outcome))
    else if w.sent < |w.items| then w.(sent := w.sent + 1)
    else w.(phase := Done)
  }

  function Delivered(inbox: map<nat, seq<Msg>>, w: Worker): map<nat, seq<Msg>> {
    if w.phase == Running && w.outcome.Some? && w.sent < |w.items| then
      var item := w.items[w.sent];
      inbox[item := At(inbox, item) + [Reply(w.outcome.value, w.sent)]]
    else inbox
  }

  function Next(cfg: Config, s: Sys, step: Step): Sys
    requires Enabled(cfg, s, step)
  {
    match step
    case Submit(stopped) =>
      s.(front := Submitted(cfg, s.front, stopped), workers := s.workers + Spawn(SubmitFlushes(cfg, s.front)))
    case TimerRuns(t) =>
      s.(front := Flushed(s.front.(armed := s.front.armed - {t})), workers := s.workers + Spawn(Batches(s.front)))
    case Flush => s.(front := Flushed(s.front), workers := s.workers + Spawn(Batches(s.front)))
    case Move(k, outcome) =>
      s.(workers := s.workers[k := Moved(s.workers[k], outcome)], inbox := Delivered(s.inbox, s.workers[k]))
  }

  function Reached(cfg: Config, run: seq<Step>): Option<Sys> {
    if run == [] then Some(START) else
      var before, last := Reached(cfg, run[..|run| - 1]), run[|run| - 1];
      if before.Some? && Enabled(cfg, before.value, last) then Some(Next(cfg, before.value, last)) else None
  }

  // ------------------------------------------------------------------
  // Items keep their submission order
  // ------------------------------------------------------------------

  /** The items of all flushed batches, in flush order. */
  function Flat(workers: seq<Worker>): seq<nat> {
    if workers == [] then [] else Flat(workers[..|workers| - 1]) + workers[|workers| - 1].items
  }

  function Iota(n: nat): (r: seq<nat>)
    ensures |r| == n && forall i :: 0 <= i < n ==> r[i] == i
  {
    seq(n, i => i)
  }

  lemma {:induction false} FlatSnoc(workers: seq<Worker>, w: Worker)
    ensures Flat(workers + [w]) == Flat(workers) + w.items
    ensures CountRunning(workers + [w]) == CountRunning(workers) + if w.phase == Running then 1 else 0
  {
    assert (workers + [w])[..|workers|] == workers;
  }

  lemma {:induction false} FlatUpdate(workers: seq<Worker>, k: nat, w: Worker)
    requires k < |workers| && w.items == workers[k].items
    ensures Flat(workers[k := w]) == Flat(workers)
    ensures CountRunning(workers[k := w]) == CountRunning(workers)
              + (if w.phase == Running then 1 else 0) - (if workers[k].phase == Running then 1 else 0)
    ensures workers[k].phase == Running ==> CountRunning(workers) >= 1
  {
    var last := |workers| - 1;
    if k < last {
      FlatUpdate(workers[..last], k, w);
      assert workers[k := w][..last] == workers[..last][k := w];
    } else {
      assert workers[k := w][..last] == workers[..last];
    }
  }

  /** Where batch `k` starts in the submission order. */
  function Offset(workers: seq<Worker>, k: nat): nat
    requires k <= |workers|
  {
    |Flat(workers[..k])|
  }

  lemma {:induction false} OffsetStep(workers: seq<Worker>, k: nat)
    requires k < |workers|
    ensures Offset(workers, k + 1) == Offset(workers, k) + |workers[k].items|
  {
    assert workers[..k + 1] == workers[..k] + [workers[k]];
    FlatSnoc(workers[..k], workers[k]);
  }

  lemma {:induction false} OffsetMonotone(workers: seq<Worker>, k: nat, l: nat)
    requires k <= l <= |workers|
    ensures Offset(workers, k) <= Offset(workers, l)
    decreases l - k
  {
    if k < l {
      OffsetStep(workers, l - 1);
      OffsetMonotone(workers, k, l - 1);
    }
  }

  /** Item `i` of batch `k` is the element of the flattened order at that place. */
  lemma {:induction false} FlatAt(workers: seq<Worker>, k: nat, i: nat)
    requires k < |workers| && i < |workers[k].items|
    ensures Offset(workers, k) + i < |Flat(workers)|
    ensures Flat(workers)[Offset(workers, k) + i] == workers[k].items[i]
  {
    var last := |workers| - 1;
    if k == last {
    } else {
      FlatAt(workers[..last], k, i);
      assert workers[..last][..k] == workers[..k];
    }
  }

  lemma {:induction false} ItemsDistinct(workers: seq<Worker>, n: nat, k: nat, i: nat, l: nat, j: nat)
    requires Flat(workers) <= Iota(n)
    requires k < |workers| && i < |workers[k].items| && l < |workers| && j < |workers[l].items|
    ensures workers[k].items[i] == workers[l].items[j] ==> k == l && i == j
    ensures workers[k].items[i] < |Flat(workers)|
  {
    FlatAt(workers, k, i);
    FlatAt(workers, l, j);
    OffsetStep(workers, k);
    OffsetStep(workers, l);
    if k < l {
      OffsetMonotone(workers, k + 1, l);
    } else if l < k {
      OffsetMonotone(workers, l + 1, k);
    }
  }

  // ------------------------------------------------------------------
  // What every reachable state satisfies
  // ------------------------------------------------------------------

  /** Flushed batches followed by the pending batch are the submissions, in order. */
  ghost predicate InOrder(s: Sys) {
    Flat(s.workers) + s.front.batch == Iota(s.front.next)
  }

  ghost predicate SizesBounded(cfg: Config, workers: seq<Worker>) {
    forall k :: 0 <= k < |workers| ==> 1 <= |workers[k].items| <= cfg.batchSize
  }

  ghost predicate BatchesBounded(cfg: Config, s: Sys) {
    |s.front.batch| < cfg.batchSize && SizesBounded(cfg, s.workers)
  }

  /** A batch is pending exactly when a timer that will still fire is recorded for it. */
  ghost predicate TimerGuards(f: Front) {
    && (f.batch != [] <==> f.timer.Some?)
    && (f.timer.Some? ==> f.timer.value in f.armed)
    && (forall t :: t in f.armed ==> t < f.timers)
  }

  ghost predicate WorkerSane(w: Worker) {
    && w.sent <= |w.items|
    && (w.phase == Waiting ==> w.outcome.None?)
    && (w.outcome.None? ==> w.sent == 0 && w.phase != Done)
    && (w.phase == Done ==> w.sent == |w.items|)
  }

  /** What item `i` of a batch has received. */
  function Received(w: Worker, i: nat): seq<Msg> {
    if i < w.sent && w.outcome.Some? then [Reply(w.outcome.value, i)] else []
  }

  ghost predicate Inboxes(s: Sys) {
    && (forall k {:trigger s.workers[k]} :: 0 <= k < |s.workers| ==> WorkerSane(s.workers[k]))
    && (forall k: nat, i: nat {:trigger s.workers[k].items[i]} :: k < |s.workers| && i < |s.workers[k].items| ==>
         At(s.inbox, s.workers[k].items[i]) == Received(s.workers[k], i))
    && (forall item: nat {:trigger At(s.inbox, item)} :: item >= |Flat(s.workers)| ==> At(s.inbox, item) == [])
  }

  ghost predicate Invariant(cfg: Config, s: Sys) {
    && InOrder(s)
    && BatchesBounded(cfg, s)
    && TimerGuards(s.front)
    && CountRunning(s.workers) <= cfg.maxConcurrency
    && Inboxes(s)
  }

  /** A new batch's items have received nothing: they come after all flushed ones. */
  lemma {:induction false} NewItemsUnanswered(s: Sys, items: seq<nat>, n: nat, i: nat)
    requires Inboxes(s) && Flat(s.workers) + items == Iota(n) && i < |items|
    ensures At(s.inbox, items[i]) == []
  {
    var flat := Flat(s.workers);
    assert items[i] == (flat + items)[|flat| + i];
    assert items[i] == |flat| + i;
  }

  lemma {:induction false} SpawnKeepsInboxes(s: Sys, s': Sys, items: seq<nat>, n: nat)
    requires Inboxes(s) && Flat(s.workers) + items == Iota(n)
    requires s'.workers == s.workers + [Worker(items, Waiting, None, 0)] && s'.inbox == s.inbox
    ensures Inboxes(s')
  {
    var w := Worker(items, Waiting, None, 0);
    FlatSnoc(s.workers, w);
    forall k | 0 <= k < |s'.workers| ensures WorkerSane(s'.workers[k]) {
      assert s'.workers[k] == if k < |s.workers| then s.workers[k] else w;
    }
    forall k: nat, i: nat | k < |s'.workers| && i < |s'.workers[k].items|
      ensures At(s'.inbox, s'.workers[k].items[i]) == Received(s'.workers[k], i)
    {
      if k < |s.workers| {
        assert s'.workers[k] == s.workers[k];
      } else {
        NewItemsUnanswered(s, items, n, i);
      }
    }
  }

  /** Handing a batch over keeps everything but the front's own conditions. */
  lemma {:induction false} SpawnKeeps(cfg: Config, s: Sys, s': Sys, items: seq<nat>)
    requires Inboxes(s) && CountRunning(s.workers) <= cfg.maxConcurrency && SizesBounded(cfg, s.workers)
    requires Flat(s.workers) + items == Iota(s'.front.next) && 1 <= |items| <= cfg.batchSize
    requires s'.workers == s.workers + [Worker(items, Waiting, None, 0)] && s'.inbox == s.inbox
    ensures Inboxes(s') && CountRunning(s'.workers) <= cfg.maxConcurrency && SizesBounded(cfg, s'.workers)
    ensures Flat(s'.workers) == Iota(s'.front.next)
  {
    FlatSnoc(s.workers, Worker(items, Waiting, None, 0));
    SpawnKeepsInboxes(s, s', items, s'.front.next);
    forall k | 0 <= k < |s'.workers| ensures 1 <= |s'.workers[k].items| <= cfg.batchSize {
      if k < |s.workers| {
        assert s'.workers[k] == s.workers[k];
      }
    }
  }

  lemma {:induction false} SpawnOne(items: seq<nat>)
    ensures Spawn([items]) == [Worker(items, Waiting, None, 0)] && Spawn([]) == []
  {
    assert [items][..0] == [];
  }

  lemma {:induction false} SubmitKeepsFront(cfg: Config, f: Front, stopped: bool)
    requires Usable(cfg) && TimerGuards(f) && |f.batch| < cfg.batchSize
    ensures TimerGuards(Submitted(cfg, f, stopped)) && |Submitted(cfg, f, stopped).batch| < cfg.batchSize
    ensures Submitted(cfg, f, stopped).next == f.next + 1
    ensures Submitted(cfg, f, stopped).batch == if |f.batch| + 1 >= cfg.batchSize then [] else f.batch + [f.next]
  {
  }

  /** One more submission extends the order by one item. */
  lemma {:induction false} OrderGrows(flat: seq<nat>, batch: seq<nat>, n: nat)
    requires flat + batch == Iota(n)
    ensures flat + (batch + [n]) == Iota(n + 1)
  {
    Associates(flat, batch, [n]);
    assert Iota(n) + [n] == Iota(n + 1);
  }

  /** The pending batch, all of it, goes to a worker; `f` is the front afterwards. */
  lemma {:induction false} HandOver(cfg: Config, s: Sys, f: Front, items: seq<nat>)
    requires Invariant(cfg, s) && Flat(s.workers) + items == Iota(f.next) && 1 <= |items| <= cfg.batchSize
    requires TimerGuards(f) && f.batch == [] && cfg.batchSize >= 1
    ensures Invariant(cfg, s.(front := f, workers := s.workers + Spawn([items])))
  {
    var s' := s.(front := f, workers := s.workers + Spawn([items]));
    SpawnOne(items);
    SpawnKeeps(cfg, s, s', items);
    assert Flat(s'.workers) + [] == Flat(s'.workers);
  }

  /** The front changes and nothing is handed over. */
  lemma {:induction false} KeepAll(cfg: Config, s: Sys, f: Front)
    requires Invariant(cfg, s) && Flat(s.workers) + f.batch == Iota(f.next)
    requires TimerGuards(f) && |f.batch| < cfg.batchSize
    ensures Invariant(cfg, s.(front := f, workers := s.workers + Spawn([])))
  {
    assert s.workers + Spawn([]) == s.workers;
  }

  lemma {:induction false} SubmitKeeps(cfg: Config, s: Sys, stopped: bool)
    requires Usable(cfg) && Invariant(cfg, s)
    ensures Invariant(cfg, Next(cfg, s, Submit(stopped)))
  {
    var f, items := Submitted(cfg, s.front, stopped), s.front.batch + [s.front.next];
    SubmitKeepsFront(cfg, s.front, stopped);
    OrderGrows(Flat(s.workers), s.front.batch, s.front.next);
    if |items| >= cfg.batchSize {
      HandOver(cfg, s, f, items);
    } else {
      KeepAll(cfg, s, f);
    }
  }

  lemma {:induction false} FlushKeeps(cfg: Config, s: Sys, armed: set<nat>)
    requires Invariant(cfg, s) && armed <= s.front.armed
    ensures Invariant(
              cfg, s.(front := Flushed(s.front.(armed := armed)), workers := s.workers + Spawn(Batches(s.front))))
  {
    if s.front.batch == [] {
      KeepAll(cfg, s, Flushed(s.front.(armed := armed)));
    } else {
      HandOver(cfg, s, Flushed(s.front.(armed := armed)), s.front.batch);
    }
  }

  /** A move delivers to the channel of the next item of worker `k`, and to no other. */
  lemma {:induction false} MoveDelivers(
      workers: seq<Worker>, inbox: map<nat, seq<Msg>>, n: nat, k: nat, outcome: Outcome,
                                        l: nat, j: nat)
    requires Flat(workers) <= Iota(n) && k < |workers| && WorkerSane(workers[k]) && workers[k].phase != Done
    requires l < |workers| && j < |workers[l].items|
    requires At(inbox, workers[l].items[j]) == Received(workers[l], j)
    ensures At(Delivered(inbox, workers[k]), workers[l].items[j])
         == Received(if l == k then Moved(workers[k], outcome) else workers[l], j)
  {
    var w := workers[k];
    if w.sent < |w.items| {
      ItemsDistinct(workers, n, k, w.sent, l, j);
    }
  }

  lemma {:induction false} MoveKeepsInboxes(s: Sys, s': Sys, n: nat, k: nat, outcome: Outcome)
    requires Flat(s.workers) <= Iota(n) && Inboxes(s) && k < |s.workers| && s.workers[k].phase != Done
    requires s'.workers == s.workers[k := Moved(s.workers[k], outcome)]
    requires s'.inbox == Delivered(s.inbox, s.workers[k])
    ensures Inboxes(s')
  {
    var w := s.workers[k];
    FlatUpdate(s.workers, k, Moved(w, outcome));
    forall l: nat, j: nat | l < |s'.workers| && j < |s'.workers[l].items|
      ensures At(s'.inbox, s'.workers[l].items[j]) == Received(s'.workers[l], j)
    {
      assert At(s.inbox, s.workers[l].items[j]) == Received(s.workers[l], j);
      MoveDelivers(s.workers, s.inbox, n, k, outcome, l, j);
    }
    forall item: nat | item >= |Flat(s'.workers)| ensures At(s'.inbox, item) == [] {
      if w.sent < |w.items| {
        ItemsDistinct(s.workers, n, k, w.sent, k, w.sent);
      }
      assert At(s.inbox, item) == [];
    }
  }

  lemma {:induction false} MoveKeeps(cfg: Config, s: Sys, k: nat, outcome: Outcome)
    requires Invariant(cfg, s) && Enabled(cfg, s, Move(k, outcome))
    ensures Invariant(cfg, Next(cfg, s, Move(k, outcome)))
  {
    var s' := Next(cfg, s, Move(k, outcome));
    FlatUpdate(s.workers, k, Moved(s.workers[k], outcome));
    assert Flat(s.workers) == Iota(s.front.next)[..|Flat(s.workers)|] by {
      assert Flat(s.workers) == (Flat(s.workers) + s.front.batch)[..|Flat(s.workers)|];
    }
    MoveKeepsInboxes(s, s', s.front.next, k, outcome);
  }

  lemma {:induction false} RunKeeps(cfg: Config, run: seq<Step>)
    requires Usable(cfg) && Reached(cfg, run).Some?
    ensures Invariant(cfg, Reached(cfg, run).value)
  {
    if run == [] {
      assert Flat([]) + [] == Iota(0);
    } else {
      var last := run[|run| - 1];
      RunKeeps(cfg, run[..|run| - 1]);
      var s := Reached(cfg, run[..|run| - 1]).value;
      match last {
        case Submit(stopped) => SubmitKeeps(cfg, s, stopped);
        case TimerRuns(t) => FlushKeeps(cfg, s, s.front.armed - {t});
        case Flush => FlushKeeps(cfg, s, s.front.armed);
        case Move(k, outcome) => MoveKeeps(cfg, s, k, outcome);
      }
    }
  }

  // ------------------------------------------------------------------
  // The properties
  // ------------------------------------------------------------------

  /** Nothing is lost, duplicated or reordered on the way into batches; batches, concurrency and timers are as
      configured. */
  lemma {:induction false} BatchesAreSubmissions(cfg: Config, run: seq<Step>)
    requires Usable(cfg) && Reached(cfg, run).Some?
    ensures var s := Reached(cfg, run).value;
            && Flat(s.workers) + s.front.batch == Iota(s.front.next)
            && BatchesBounded(cfg, s)
            && CountRunning(s.workers) <= cfg.maxConcurrency
            && (s.front.batch != [] <==> s.front.timer.Some?)
            && (s.front.timer.Some? ==> s.front.timer.value in s.front.armed)
  {
    RunKeeps(cfg, run);
  }

  lemma {:induction false} Locate(workers: seq<Worker>, n: nat) returns (k: nat, i: nat)
    requires n < |Flat(workers)|
    ensures k < |workers| && i < |workers[k].items| && workers[k].items[i] == Flat(workers)[n]
  {
    var last := |workers| - 1;
    if n < |Flat(workers[..last])| {
      k, i := Locate(workers[..last], n);
    } else {
      k, i := last, n - |Flat(workers[..last])|;
    }
  }

  /** No item ever receives two messages, so no send into its one-place channels can block; and once every batch is
      done and none is pending, every item has received exactly one. */
  lemma {:induction false} EveryItemAnsweredOnce(cfg: Config, run: seq<Step>, item: nat)
    requires Usable(cfg) && Reached(cfg, run).Some?
    ensures var s := Reached(cfg, run).value;
            && |At(s.inbox, item)| <= 1
            && (item < s.front.next && s.front.batch == [] && (forall w :: w in s.workers ==> w.phase == Done) ==>
                 |At(s.inbox, item)| == 1)
  {
    RunKeeps(cfg, run);
    var s := Reached(cfg, run).value;
    assert At(s.inbox, item) == At(s.inbox, item);
    if item < |Flat(s.workers)| {
      var k, i := Locate(s.workers, item);
      assert Flat(s.workers)[item] == Iota(s.front.next)[item] by {
        assert Flat(s.workers)[item] == (Flat(s.workers) + s.front.batch)[item];
      }
      assert At(s.inbox, s.workers[k].items[i]) == Received(s.workers[k], i);
      assert s.workers[k] in s.workers && WorkerSane(s.workers[k]);
    } else if s.front.batch == [] {
      assert Flat(s.workers) + [] == Flat(s.workers);
    }
  }

  /** A finished batch has answered item `i` with response `i`, or with an error when the model failed or returned too
      few responses. */
  lemma {:induction false} DoneBatchAnswers(cfg: Config, run: seq<Step>, k: nat, i: nat)
    requires Usable(cfg) && Reached(cfg, run).Some?
    requires var s := Reached(cfg, run).value;
             k < |s.workers| && i < |s.workers[k].items| && s.workers[k].phase == Done
    ensures var s := Reached(cfg, run).value;
            && s.workers[k].outcome.Some?
            && At(s.inbox, s.workers[k].items[i])
               == match s.workers[k].outcome.value
                  case BatchFailed => [BatchError]
                  case Responses(count) => if i < count then [Response(i)] else [NoResponse(i)]
  {
    RunKeeps(cfg, run);
    var s := Reached(cfg, run).value;
    assert WorkerSane(s.workers[k]);
    assert At(s.inbox, s.workers[k].items[i]) == Received(s.workers[k], i);
  }

  lemma {:induction false} SomeoneRuns(workers: seq<Worker>) returns (k: nat)
    requires CountRunning(workers) > 0
    ensures k < |workers| && workers[k].phase == Running
  {
    if workers[|workers| - 1].phase == Running {
      k := |workers| - 1;
    } else {
      k := SomeoneRuns(workers[..|workers| - 1]);
    }
  }

  /** No deadlock: while some batch is not done, some worker can move; while a batch is pending, its timer can fire, and
      firing flushes it. */
  lemma {:induction false} NothingWedges(cfg: Config, run: seq<Step>, k: nat, outcome: Outcome) returns (l: nat)
    requires Usable(cfg) && Reached(cfg, run).Some?
    requires k < |Reached(cfg, run).value.workers| && Reached(cfg, run).value.workers[k].phase != Done
    ensures Enabled(cfg, Reached(cfg, run).value, Move(l, outcome))
  {
    var s := Reached(cfg, run).value;
    l := k;
    if CountRunning(s.workers) >= cfg.maxConcurrency {
      l := SomeoneRuns(s.workers);
    }
  }

  lemma {:induction false} PendingBatchWillFlush(cfg: Config, run: seq<Step>)
    requires Usable(cfg) && Reached(cfg, run).Some? && Reached(cfg, run).value.front.batch != []
    ensures var s := Reached(cfg, run).value;
            && s.front.timer.Some?
            && Enabled(cfg, s, TimerRuns(s.front.timer.value))
            && Next(cfg, s, TimerRuns(s.front.timer.value)).front.batch == []
            && Flat(Next(cfg, s, TimerRuns(s.front.timer.value)).workers) == Iota(s.front.next)
  {
    RunKeeps(cfg, run);
    var s := Reached(cfg, run).value;
    SpawnOne(s.front.batch);
    FlatSnoc(s.workers, Worker(s.front.batch, Waiting, None, 0));
  }

  // ------------------------------------------------------------------
  // Without timers and flushes, batches are full
  // ------------------------------------------------------------------

  function Submissions(run: seq<Step>): nat {
    if run == [] then 0 else Submissions(run[..|run| - 1]) + if run[|run| - 1].Submit? then 1 else 0
  }

  ghost predicate AllFull(cfg: Config, workers: seq<Worker>) {
    forall k :: 0 <= k < |workers| ==> |workers[k].items| == cfg.batchSize
  }

  /** Counting by batches: `full` of them, and `open` items pending. */
  ghost predicate Batched(cfg: Config, n: nat, full: nat, open: nat) {
    open < cfg.batchSize && n == Pairs(full, cfg.batchSize) + open
  }

  lemma {:induction false} OneMoreBatched(cfg: Config, n: nat, full: nat, open: nat)
    requires Batched(cfg, n, full, open)
    ensures if open + 1 == cfg.batchSize then Batched(cfg, n + 1, full + 1, 0)
            else Batched(cfg, n + 1, full, open + 1)
  {
    OneMorePair(full, cfg.batchSize);
  }

  lemma {:induction false} SubmitFills(cfg: Config, s: Sys, stopped: bool)
    requires Usable(cfg) && AllFull(cfg, s.workers) && |s.front.batch| < cfg.batchSize
    ensures var s', full := Next(cfg, s, Submit(stopped)), |s.front.batch| + 1 == cfg.batchSize;
            && AllFull(cfg, s'.workers)
            && |s'.workers| == (if full then |s.workers| + 1 else |s.workers|)
            && |s'.front.batch| == (if full then 0 else |s.front.batch| + 1)
  {
    SpawnOne(s.front.batch + [s.front.next]);
  }

  /** As long as no timer fires and nobody flushes, every batch handed over is exactly full: the number of batches is
      that of the submissions divided by the batch size, and the remainder is pending. */
  lemma {:induction false} BatchesAreFull(cfg: Config, run: seq<Step>)
    requires Usable(cfg) && Reached(cfg, run).Some?
    requires forall i :: 0 <= i < |run| ==> run[i].Submit? || run[i].Move?
    ensures var s := Reached(cfg, run).value;
            && AllFull(cfg, s.workers)
            && Batched(cfg, Submissions(run), |s.workers|, |s.front.batch|)
  {
    if run == [] {
      NoPairs(cfg.batchSize);
    } else {
      var before, last := run[..|run| - 1], run[|run| - 1];
      assert forall i :: 0 <= i < |before| ==> before[i] == run[i];
      BatchesAreFull(cfg, before);
      var s := Reached(cfg, before).value;
      if last.Submit? {
        SubmitFills(cfg, s, last.stopped);
        OneMoreBatched(cfg, Submissions(before), |s.workers|, |s.front.batch|);
      } else {
        assert last == run[|run| - 1] && last.Move?;
      }
    }
  }

  // ------------------------------------------------------------------
  // Which timers are left
  // ------------------------------------------------------------------

  /** Nobody flushes from outside, and every timer that a full batch stops is stopped in time. */
  ghost predicate StopsInTime(run: seq<Step>) {
    forall i :: 0 <= i < |run| ==> run[i] != Flush && (run[i].Submit? ==> run[i].stopped)
  }

  /** Then the only timer that can still fire is the recorded one, so that none fires for a batch it was not started
      for. */
  lemma {:induction false} OnlyRecordedTimerIsArmed(cfg: Config, run: seq<Step>)
    requires Usable(cfg) && Reached(cfg, run).Some? && StopsInTime(run)
    ensures var f := Reached(cfg, run).value.front;
            f.armed == if f.timer.Some? then {f.timer.value} else {}
  {
    if run != [] {
      var before := run[..|run| - 1];
      assert run[|run| - 1] != Flush && forall i :: 0 <= i < |before| ==> before[i] == run[i];
      OnlyRecordedTimerIsArmed(cfg, before);
      RunKeeps(cfg, before);
    }
  }

  lemma {:induction false} ReachedSnoc(cfg: Config, run: seq<Step>, step: Step)
    requires Reached(cfg, run).Some? && Enabled(cfg, Reached(cfg, run).value, step)
    ensures Reached(cfg, run + [step]) == Some(Next(cfg, Reached(cfg, run).value, step))
  {
    assert (run + [step])[..|run|] == run;
  }

  /** A flush forgets the recorded timer without stopping it: the timer then fires early, for the next batch. */
  lemma {:induction false} FlushLeavesTimerArmed(cfg: Config) returns (run: seq<Step>)
    requires cfg.batchSize >= 2 && cfg.maxConcurrency >= 1
    ensures Reached(cfg, run).Some?
    ensures var s := Reached(cfg, run).value;
            && s.front.batch == [1] && s.front.timer == Some(1)
            && Enabled(cfg, s, TimerRuns(0)) && Next(cfg, s, TimerRuns(0)).front.batch == []
  {
    ReachedSnoc(cfg, [], Submit(true));
    ReachedSnoc(cfg, [] + [Submit(true)], Flush);
    ReachedSnoc(cfg, [] + [Submit(true)] + [Flush], Submit(true));
    run := [] + [Submit(true)] + [Flush] + [Submit(true)];
    assert [] + [0] == [0] && [] + [1] == [1];
  }
}
