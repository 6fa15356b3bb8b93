/** The circuit breaker: begin and finish steps of any number of requests, in any interleaving
    (pkg/errors/circuit_breaker.go). */
module CircuitBreakers {
  import opened Seqs

  datatype CircuitState = Closed | Open | HalfOpen

  datatype Config = Config(failureThreshold: nat, successThreshold: nat, timeout: int, maxConcurrentRequests: nat)

  datatype Breaker = Breaker(
    state: CircuitState, failureCount: nat, successCount: nat, lastFailureTime: int, halfOpenRequests: nat,
    totalRequests: nat, totalFailures: nat, totalSuccesses: nat)

  datatype Verdict = Admitted | CircuitOpen(openedAt: int) | TooManyRequests

  const FRESH := Breaker(Closed, 0, 0, 0, 0, 0, 0, 0)

  // ------------------------------------------------------------------
  // One critical section at a time
  // ------------------------------------------------------------------

  function Answer(cfg: Config, b: Breaker, now: int): Verdict {
    match b.state
    case Closed => Admitted
    case Open => if now - b.lastFailureTime > cfg.timeout then Admitted else CircuitOpen(b.lastFailureTime)
    case HalfOpen => if b.halfOpenRequests >= cfg.maxConcurrentRequests then TooManyRequests else Admitted
  }

  function Begun(cfg: Config, b: Breaker, now: int): Breaker {
    var counted := b.(totalRequests := b.totalRequests + 1);
    if !Answer(cfg, b, now).Admitted? then counted
    else match b.state
      case Closed => counted
      case Open => counted.(state := HalfOpen, halfOpenRequests := 1)
      case HalfOpen => counted.(halfOpenRequests := b.halfOpenRequests + 1)
  }

  function Succeeded(cfg: Config, b: Breaker): Breaker {
    var counted := b.(totalSuccesses := b.totalSuccesses + 1);
    match b.state
    case Closed => counted.(failureCount := 0)
    case Open => counted
    case HalfOpen =>
      if b.successCount + 1 >= cfg.successThreshold then
        counted.(state := Closed, failureCount := 0, successCount := 0, halfOpenRequests := 0)
      else
        counted.(successCount := b.successCount + 1,
                 halfOpenRequests := if b.halfOpenRequests > 0 then b.halfOpenRequests - 1 else 0)
  }

  function Failed(cfg: Config, b: Breaker, now: int): Breaker {
    var counted := b.(totalFailures := b.totalFailures + 1, lastFailureTime := now);
    match b.state
    case Closed =>
      var counted' := counted.(failureCount := b.failureCount + 1);
      if counted'.failureCount >= cfg.failureThreshold then counted'.(state := Open, successCount := 0) else counted'
    case Open => counted
    case HalfOpen => counted.(state := Open, successCount := 0, halfOpenRequests := 0)
  }

  function Finished(cfg: Config, b: Breaker, ok: bool, now: int): Breaker {
    if ok then Succeeded(cfg, b) else Failed(cfg, b, now)
  }

  function WasReset(b: Breaker): Breaker {
    b.(state := Closed, failureCount := 0, successCount := 0, halfOpenRequests := 0)
  }

  class CircuitBreaker {
    const config: Config
    var state: CircuitState
    var failureCount: nat
    var successCount: nat
    var lastFailureTime: int
    var halfOpenRequests: nat
    var totalRequests: nat
    var totalFailures: nat
    var totalSuccesses: nat

    constructor (config: Config)
      ensures this.config == config && View() == FRESH
    {
      this.config := config;
      state, failureCount, successCount, lastFailureTime := Closed, 0, 0, 0;
      halfOpenRequests, totalRequests, totalFailures, totalSuccesses := 0, 0, 0, 0;
    }

    function View(): Breaker
      reads this
    {
      Breaker(state, failureCount, successCount, lastFailureTime, halfOpenRequests,
              totalRequests, totalFailures, totalSuccesses)
    }

    /** `ok` is the outcome of the operation, which is called only if the request is admitted. */
    method Execute(ok: bool, start: int, end: int) returns (verdict: Verdict)
      modifies this
      ensures verdict == Answer(config, old(View()), start)
      ensures View() == var b := Begun(config, old(View()), start);
                        if verdict.Admitted? then Finished(config, b, ok, end) else b
    {
      verdict := BeforeRequest(start);
      if !verdict.Admitted? {
        return;
      }
      AfterRequest(ok, end);
    }

    method BeforeRequest(now: int) returns (verdict: Verdict)
      modifies this
      ensures verdict == Answer(config, old(View()), now) && View() == Begun(config, old(View()), now)
    {
      totalRequests := totalRequests + 1;
      match state {
        case Closed =>
          return Admitted;
        case Open =>
          if now - lastFailureTime > config.timeout {
            state := HalfOpen;
            halfOpenRequests := 1;
            return Admitted;
          }
          return CircuitOpen(lastFailureTime);
        case HalfOpen =>
          if halfOpenRequests >= config.maxConcurrentRequests {
            return TooManyRequests;
          }
          halfOpenRequests := halfOpenRequests + 1;
          return Admitted;
      }
    }

    method AfterRequest(ok: bool, now: int)
      modifies this
      ensures View() == Finished(config, old(View()), ok, now)
    {
      if ok {
        OnSuccess();
      } else {
        OnFailure(now);
      }
    }

    method OnSuccess()
      modifies this
      ensures View() == Succeeded(config, old(View()))
    {
      totalSuccesses := totalSuccesses + 1;
      match state {
        case Closed =>
          failureCount := 0;
        case HalfOpen =>
          successCount := successCount + 1;
          if successCount >= config.successThreshold {
            state := Closed;
            failureCount, successCount, halfOpenRequests := 0, 0, 0;
          } else if halfOpenRequests > 0 {
            halfOpenRequests := halfOpenRequests - 1;
          }
        case Open =>
      }
    }

    method OnFailure(now: int)
      modifies this
      ensures View() == Failed(config, old(View()), now)
    {
      totalFailures := totalFailures + 1;
      lastFailureTime := now;
      match state {
        case Closed =>
          failureCount := failureCount + 1;
          if failureCount >= config.failureThreshold {
            state := Open;
            successCount := 0;
          }
        case HalfOpen =>
          state := Open;
          successCount := 0;
          halfOpenRequests := 0;
        case Open =>
      }
    }

    method Reset()
      modifies this
      ensures View() == WasReset(old(View()))
    {
      state := Closed;
      failureCount, successCount, halfOpenRequests := 0, 0, 0;
    }

    /** Available means that a request made now would be admitted. */
    method IsAvailable(now: int) returns (available: bool)
      ensures available == Answer(config, View(), now).Admitted?
    {
      match state {
        case Closed => return true;
        case HalfOpen => return halfOpenRequests < config.maxConcurrentRequests;
        case Open => return now - lastFailureTime > config.timeout;
      }
    }
  }

  // ------------------------------------------------------------------
  // Runs
  // ------------------------------------------------------------------

  datatype Step = Begin(now: int) | Finish(id: nat, ok: bool, now: int) | Reset

  /** The breaker and what an observer knows: the requests in flight, each with the half-open era that admitted it
      (None if it was admitted while closed); the completions since the breaker last changed state or was reset; the
      successes that requests of earlier times delivered into the current era; the time of the last failure. */
  datatype Sys = Sys(
    b: Breaker, pending: map<nat, Option<nat>>, era: nat, next: nat, rejected: nat, outcomes: seq<bool>, stale: nat,
    failedAt: Option<int>)

  const START := Sys(FRESH, map[], 0, 0, 0, [], 0, None)

  predicate Enabled(s: Sys, step: Step) {
    step.Finish? ==> step.id in s.pending
  }

  function Next(cfg: Config, s: Sys, step: Step): Sys
    requires Enabled(s, step)
  {
    match step
    case Begin(now) =>
      var b := Begun(cfg, s.b, now);
      if !Answer(cfg, s.b, now).Admitted? then s.(b := b, rejected := s.rejected + 1, next := s.next + 1)
      else
        var opens := s.b.state == Open;
        var era := if opens then s.era + 1 else s.era;
        s.(b := b, era := era, next := s.next + 1,
           pending := s.pending[s.next := if b.state == HalfOpen then Some(era) else None],
           outcomes := if opens then [] else s.outcomes, stale := if opens then 0 else s.stale)
    case Finish(id, ok, now) =>
      var b := Finished(cfg, s.b, ok, now);
      s.(b := b, pending := s.pending - {id},
         outcomes := if b.state != s.b.state then [] else s.outcomes + [ok],
         stale := if ok && s.pending[id] != Some(s.era) then s.stale + 1 else s.stale,
         failedAt := if ok then s.failedAt else Some(now))
    case Reset => s.(b := WasReset(s.b), outcomes := [])
  }

  /** The state after a run, if every step was possible. */
  function Reached(cfg: Config, run: seq<Step>): Option<Sys> {
    if run == [] then Some(START) else
      var before, last := Reached(cfg, run[..|run| - 1]), run[|run| - 1];
      if before.Some? && Enabled(before.value, last) then Some(Next(cfg, before.value, last)) else None
  }

  predicate IsRun(cfg: Config, run: seq<Step>) {
    Reached(cfg, run).Some?
  }

  function After(cfg: Config, run: seq<Step>): Sys
    requires IsRun(cfg, run)
  {
    Reached(cfg, run).value
  }

  lemma {:induction false} RunSnoc(cfg: Config, run: seq<Step>, step: Step)
    requires IsRun(cfg, run) && Enabled(After(cfg, run), step)
    ensures IsRun(cfg, run + [step]) && After(cfg, run + [step]) == Next(cfg, After(cfg, run), step)
  {
    assert (run + [step])[..|run|] == run;
  }

  /** The requests in flight that the current half-open era admitted. */
  function Own(s: Sys): set<nat> {
    set id | id in s.pending && s.pending[id] == Some(s.era)
  }

  function TrailingFailures(outcomes: seq<bool>): nat {
    if outcomes == [] || outcomes[|outcomes| - 1] then 0 else TrailingFailures(outcomes[..|outcomes| - 1]) + 1
  }

  function AtLeastOne(n: nat): nat {
    if n == 0 then 1 else n
  }

  // ------------------------------------------------------------------
  // What every reachable state satisfies
  // ------------------------------------------------------------------

  ghost predicate Bookkeeping(s: Sys) {
    && s.b.totalRequests == s.b.totalSuccesses + s.b.totalFailures + s.rejected + |s.pending|
    && (forall id :: id in s.pending ==> id < s.next)
    && (forall id :: id in s.pending && s.pending[id].Some? ==> s.pending[id].value <= s.era)
    && s.b.lastFailureTime == (if s.failedAt.Some? then s.failedAt.value else 0)
    && (s.b.state != Closed ==> s.failedAt.Some?)
  }

  /** The counters count what they should, and are zero outside their state; only the failure count keeps its value
      while the breaker is open or half-open. */
  ghost predicate Counters(cfg: Config, s: Sys) {
    match s.b.state
    case Closed =>
      && s.b.successCount == 0 && s.b.halfOpenRequests == 0
      && s.b.failureCount == TrailingFailures(s.outcomes) < AtLeastOne(cfg.failureThreshold)
    case Open =>
      && s.b.successCount == 0 && s.b.halfOpenRequests == 0
      && s.b.failureCount == AtLeastOne(cfg.failureThreshold)
    case HalfOpen =>
      && s.b.failureCount == AtLeastOne(cfg.failureThreshold)
      && s.b.successCount == |s.outcomes| < AtLeastOne(cfg.successThreshold)
      && (forall i :: 0 <= i < |s.outcomes| ==> s.outcomes[i])
  }

  /** In half-open, the counter never exceeds the era's own requests in flight, and misses at most the stale
      successes; until something completes, the request that began the era holds a slot. */
  ghost predicate Probes(cfg: Config, s: Sys) {
    s.b.state == HalfOpen ==>
      && (s.outcomes == [] ==> s.b.halfOpenRequests >= 1)
      && s.b.halfOpenRequests <= |Own(s)| <= s.b.halfOpenRequests + s.stale
      && s.b.halfOpenRequests <= AtLeastOne(cfg.maxConcurrentRequests)
      && s.stale <= |s.outcomes|
  }

  ghost predicate Invariant(cfg: Config, s: Sys) {
    Bookkeeping(s) && Counters(cfg, s) && Probes(cfg, s)
  }

  lemma {:induction false} OwnAdmit(s: Sys, s': Sys, id: nat)
    requires id !in s.pending && s'.era == s.era && s'.pending == s.pending[id := Some(s.era)]
    ensures |Own(s')| == |Own(s)| + 1
  {
    assert Own(s') == Own(s) + {id};
  }

  lemma {:induction false} OwnFirst(s: Sys, s': Sys, id: nat)
    requires Bookkeeping(s) && id !in s.pending && s'.era == s.era + 1 && s'.pending == s.pending[id := Some(s.era + 1)]
    ensures |Own(s')| == 1
  {
    forall x ensures x in Own(s') <==> x == id {
    }
    assert Own(s') == {id};
  }

  lemma {:induction false} OwnFinish(s: Sys, s': Sys, id: nat)
    requires id in s.pending && s'.era == s.era && s'.pending == s.pending - {id}
    ensures |Own(s')| == |Own(s)| - if s.pending[id] == Some(s.era) then 1 else 0
    ensures s.pending[id] == Some(s.era) ==> |Own(s)| >= 1
  {
    if s.pending[id] == Some(s.era) {
      assert Own(s') == Own(s) - {id} && id in Own(s);
    } else {
      assert Own(s') == Own(s);
    }
  }

  lemma {:induction false} TrailingSnoc(outcomes: seq<bool>, ok: bool)
    ensures TrailingFailures(outcomes + [ok]) == if ok then 0 else TrailingFailures(outcomes) + 1
  {
    assert (outcomes + [ok])[..|outcomes|] == outcomes;
  }

  lemma {:induction false} AdmissionKeeps(cfg: Config, s: Sys, now: int)
    requires Invariant(cfg, s) && Answer(cfg, s.b, now).Admitted?
    ensures Invariant(cfg, Next(cfg, s, Begin(now)))
  {
    var s' := Next(cfg, s, Begin(now));
    assert s'.pending.Keys == s.pending.Keys + {s.next};
    if s.b.state == Open {
      OwnFirst(s, s', s.next);
    } else if s.b.state == HalfOpen {
      OwnAdmit(s, s', s.next);
    }
  }

  lemma {:induction false} RejectionKeeps(cfg: Config, s: Sys, now: int)
    requires Invariant(cfg, s) && !Answer(cfg, s.b, now).Admitted?
    ensures Invariant(cfg, Next(cfg, s, Begin(now)))
  {
    assert Own(Next(cfg, s, Begin(now))) == Own(s);
  }

  lemma {:induction false} BeginKeeps(cfg: Config, s: Sys, now: int)
    requires Invariant(cfg, s)
    ensures Invariant(cfg, Next(cfg, s, Begin(now)))
  {
    if Answer(cfg, s.b, now).Admitted? {
      AdmissionKeeps(cfg, s, now);
    } else {
      RejectionKeeps(cfg, s, now);
    }
  }

  lemma {:induction false} FinishKeepsBooks(cfg: Config, s: Sys, id: nat, ok: bool, now: int)
    requires Bookkeeping(s) && id in s.pending
    ensures Bookkeeping(Next(cfg, s, Finish(id, ok, now)))
  {
    assert Next(cfg, s, Finish(id, ok, now)).pending.Keys == s.pending.Keys - {id};
  }

  lemma {:induction false} FinishKeepsCounters(cfg: Config, s: Sys, id: nat, ok: bool, now: int)
    requires Counters(cfg, s) && id in s.pending
    ensures Counters(cfg, Next(cfg, s, Finish(id, ok, now)))
  {
    TrailingSnoc(s.outcomes, ok);
  }

  lemma {:induction false} FinishKeepsProbes(cfg: Config, s: Sys, id: nat, ok: bool, now: int)
    requires Invariant(cfg, s) && id in s.pending
    ensures Probes(cfg, Next(cfg, s, Finish(id, ok, now)))
  {
    OwnFinish(s, Next(cfg, s, Finish(id, ok, now)), id);
  }

  lemma {:induction false} RunKeeps(cfg: Config, run: seq<Step>)
    requires IsRun(cfg, run)
    ensures Invariant(cfg, After(cfg, run))
  {
    if run != [] {
      var before, last := run[..|run| - 1], run[|run| - 1];
      RunKeeps(cfg, before);
      match last {
        case Begin(now) => BeginKeeps(cfg, After(cfg, before), now);
        case Finish(id, ok, now) =>
          FinishKeepsBooks(cfg, After(cfg, before), id, ok, now);
          FinishKeepsCounters(cfg, After(cfg, before), id, ok, now);
          FinishKeepsProbes(cfg, After(cfg, before), id, ok, now);
        case Reset =>
          assert Own(After(cfg, run)) == Own(After(cfg, before));
      }
    }
  }

  // ------------------------------------------------------------------
  // The properties
  // ------------------------------------------------------------------

  /** Every request is accounted for. */
  lemma {:induction false} RequestsBalance(cfg: Config, run: seq<Step>)
    requires IsRun(cfg, run)
    ensures var s := After(cfg, run);
            s.b.totalRequests == s.b.totalSuccesses + s.b.totalFailures + s.rejected + |s.pending|
  {
    RunKeeps(cfg, run);
  }

  function Begins(run: seq<Step>): nat {
    if run == [] then 0 else Begins(run[..|run| - 1]) + if run[|run| - 1].Begin? then 1 else 0
  }

  function Finishes(run: seq<Step>, ok: bool): nat {
    if run == [] then 0 else
      Finishes(run[..|run| - 1], ok) + if run[|run| - 1].Finish? && run[|run| - 1].ok == ok then 1 else 0
  }

  function LastFailure(run: seq<Step>): Option<int> {
    if run == [] then None else
      var last := run[|run| - 1];
      if last.Finish? && !last.ok then Some(last.now) else LastFailure(run[..|run| - 1])
  }

  /** Each total has counted its own kind of step, rejected requests included, resets or not. */
  lemma {:induction false} TotalsCountSteps(cfg: Config, run: seq<Step>)
    requires IsRun(cfg, run)
    ensures var s := After(cfg, run);
            && s.b.totalRequests == Begins(run)
            && s.b.totalSuccesses == Finishes(run, true) && s.b.totalFailures == Finishes(run, false)
            && s.failedAt == LastFailure(run)
  {
    if run != [] {
      TotalsCountSteps(cfg, run[..|run| - 1]);
    }
  }

  /** The answer to a request in every reachable state: an open breaker rejects until more than the timeout has passed
      since the last failure of the run, and names it; in half-open, unless a stale success came, a request is admitted
      exactly if fewer than the limit of the era's own are in flight. */
  lemma {:induction false} AnswersExactly(cfg: Config, run: seq<Step>, now: int)
    requires IsRun(cfg, run)
    ensures var s, answer := After(cfg, run), Answer(cfg, After(cfg, run).b, now);
            && (s.b.state == Closed ==> answer == Admitted)
            && (s.b.state == Open ==>
                  && LastFailure(run).Some?
                  && answer == if now - LastFailure(run).value > cfg.timeout then Admitted
                               else CircuitOpen(LastFailure(run).value))
            && (s.b.state == HalfOpen && s.stale == 0 ==>
                  answer == if |Own(s)| < cfg.maxConcurrentRequests then Admitted else TooManyRequests)
  {
    TotalsCountSteps(cfg, run);
    RunKeeps(cfg, run);
  }

  /** The breaker trips on a step exactly when that step is a failed completion and the completions since it closed
      (or was reset) now end in FailureThreshold failures. */
  lemma {:induction false} TripsExactly(cfg: Config, run: seq<Step>, step: Step)
    requires IsRun(cfg, run) && Enabled(After(cfg, run), step) && After(cfg, run).b.state == Closed
    ensures Next(cfg, After(cfg, run), step).b.state == Open <==>
            (step.Finish? && TrailingFailures(After(cfg, run).outcomes + [step.ok]) == AtLeastOne(cfg.failureThreshold))
  {
    RunKeeps(cfg, run);
    if step.Finish? {
      TrailingSnoc(After(cfg, run).outcomes, step.ok);
    }
  }

  /** It closes again on a completion exactly when that is the era's SuccessThreshold-th completion and none failed. */
  lemma {:induction false} ClosesExactly(cfg: Config, run: seq<Step>, id: nat, ok: bool, now: int)
    requires IsRun(cfg, run) && id in After(cfg, run).pending && After(cfg, run).b.state == HalfOpen
    ensures Next(cfg, After(cfg, run), Finish(id, ok, now)).b.state == Closed <==>
            (ok && |After(cfg, run).outcomes| + 1 == AtLeastOne(cfg.successThreshold))
    ensures forall i :: 0 <= i < |After(cfg, run).outcomes| ==> After(cfg, run).outcomes[i]
  {
    RunKeeps(cfg, run);
  }

  /** Once the timeout has passed since the last failure, a request is admitted unless the half-open era still has one
      of its own in flight. */
  ghost predicate NeverWedged(cfg: Config, run: seq<Step>, now: int) {
    IsRun(cfg, run) && Own(After(cfg, run)) == {}
    && (After(cfg, run).failedAt.Some? ==> now - After(cfg, run).failedAt.value > cfg.timeout)
    ==> Answer(cfg, After(cfg, run).b, now).Admitted?
  }

  /** With a slot in half-open, or when one success closes the breaker, it cannot wedge. */
  lemma {:induction false} NoWedge(cfg: Config, run: seq<Step>, now: int)
    requires cfg.maxConcurrentRequests >= 1 || cfg.successThreshold <= 1
    ensures NeverWedged(cfg, run, now)
  {
    if IsRun(cfg, run) {
      RunKeeps(cfg, run);
    }
  }

  /** The half-open era's own requests in flight stay within the limit (or one) plus the stale successes it received. */
  lemma {:induction false} ProbesBounded(cfg: Config, run: seq<Step>)
    requires IsRun(cfg, run) && After(cfg, run).b.state == HalfOpen
    ensures |Own(After(cfg, run))| <= AtLeastOne(cfg.maxConcurrentRequests) + After(cfg, run).stale
    ensures cfg.successThreshold <= 1 ==> |Own(After(cfg, run))| <= AtLeastOne(cfg.maxConcurrentRequests)
  {
    RunKeeps(cfg, run);
  }

  // ------------------------------------------------------------------
  // When the concurrency limit really holds
  // ------------------------------------------------------------------

  /** A request that outlives the trip: it is in flight from the first step on. */
  ghost predicate Lingering(s: Sys) {
    s.pending == map[0 := None] && s.next > 0 && s.era == 0
  }

  lemma {:induction false} FailTimes(cfg: Config, k: nat) returns (run: seq<Step>)
    requires k < AtLeastOne(cfg.failureThreshold)
    ensures IsRun(cfg, run) && Lingering(After(cfg, run))
    ensures After(cfg, run).b.state == Closed && After(cfg, run).b.failureCount == k
  {
    if k == 0 {
      assert [] + [Begin(0)] == [Begin(0)];
      RunSnoc(cfg, [], Begin(0));
      run := [Begin(0)];
    } else {
      var before := FailTimes(cfg, k - 1);
      run := FailOnce(cfg, before);
    }
  }

  lemma {:induction false} FailOnce(cfg: Config, run: seq<Step>) returns (run': seq<Step>)
    requires IsRun(cfg, run) && Lingering(After(cfg, run)) && After(cfg, run).b.state == Closed
    ensures IsRun(cfg, run') && Lingering(After(cfg, run'))
    ensures After(cfg, run').b.failureCount == After(cfg, run).b.failureCount + 1
    ensures After(cfg, run').b.lastFailureTime == 0
    ensures After(cfg, run').b.state
         == if After(cfg, run).b.failureCount + 1 >= AtLeastOne(cfg.failureThreshold) then Open else Closed
  {
    var id := After(cfg, run).next;
    RunSnoc(cfg, run, Begin(0));
    RunSnoc(cfg, run + [Begin(0)], Finish(id, false, 0));
    run' := run + [Begin(0)] + [Finish(id, false, 0)];
  }

  /** `j` requests of the half-open era are in flight, and one that is older. */
  lemma {:induction false} AdmitTimes(cfg: Config, j: nat) returns (run: seq<Step>)
    requires 1 <= j <= AtLeastOne(cfg.maxConcurrentRequests)
    ensures IsRun(cfg, run)
    ensures var s := After(cfg, run);
            && s.b.state == HalfOpen && s.b.halfOpenRequests == j == |Own(s)| && s.b.successCount == 0
            && 0 in s.pending && s.pending[0] == None
    decreases j
  {
    if j == 1 {
      var closed := FailTimes(cfg, AtLeastOne(cfg.failureThreshold) - 1);
      var open := FailOnce(cfg, closed);
      var late := if cfg.timeout < 0 then 0 else cfg.timeout + 1;
      RunKeeps(cfg, open);
      RunSnoc(cfg, open, Begin(late));
      run := open + [Begin(late)];
      OwnFirst(After(cfg, open), After(cfg, run), After(cfg, open).next);
    } else {
      var before := AdmitTimes(cfg, j - 1);
      run := AdmitOnce(cfg, before);
    }
  }

  lemma {:induction false} AdmitOnce(cfg: Config, run: seq<Step>) returns (run': seq<Step>)
    requires IsRun(cfg, run) && After(cfg, run).b.state == HalfOpen
    requires After(cfg, run).b.halfOpenRequests < cfg.maxConcurrentRequests
    ensures IsRun(cfg, run')
    ensures var s, s' := After(cfg, run), After(cfg, run');
            && s'.b == s.b.(halfOpenRequests := s.b.halfOpenRequests + 1, totalRequests := s.b.totalRequests + 1)
            && |Own(s')| == |Own(s)| + 1
            && forall id :: id in s.pending ==> id in s'.pending && s'.pending[id] == s.pending[id]
  {
    RunKeeps(cfg, run);
    RunSnoc(cfg, run, Begin(0));
    run' := run + [Begin(0)];
    OwnAdmit(After(cfg, run), After(cfg, run'), After(cfg, run).next);
  }

  lemma {:induction false} LimitExceeded(cfg: Config) returns (run: seq<Step>)
    requires cfg.maxConcurrentRequests >= 1 && cfg.successThreshold >= 2
    ensures IsRun(cfg, run) && After(cfg, run).b.state == HalfOpen
    ensures |Own(After(cfg, run))| == cfg.maxConcurrentRequests + 1
  {
    var full := AdmitTimes(cfg, cfg.maxConcurrentRequests);
    RunSnoc(cfg, full, Finish(0, true, 0));
    var freed := full + [Finish(0, true, 0)];
    OwnFinish(After(cfg, full), After(cfg, freed), 0);
    run := AdmitOnce(cfg, freed);
  }

  ghost predicate KeepsLimit(cfg: Config, run: seq<Step>) {
    IsRun(cfg, run) && After(cfg, run).b.state == HalfOpen ==> |Own(After(cfg, run))| <= cfg.maxConcurrentRequests
  }

  /** MaxConcurrentRequests bounds the half-open era's requests in every run exactly when it allows one and one success
      closes the breaker; otherwise the first request already exceeds it, or a success left over from before the trip
      frees a slot that is not free. */
  lemma {:induction false} LimitHoldsIff(cfg: Config)
    ensures (forall run :: KeepsLimit(cfg, run)) <==> cfg.maxConcurrentRequests >= 1 && cfg.successThreshold <= 1
  {
    if cfg.maxConcurrentRequests == 0 {
      var run := AdmitTimes(cfg, 1);
      assert !KeepsLimit(cfg, run);
    } else if cfg.successThreshold <= 1 {
      forall run ensures KeepsLimit(cfg, run) {
        if IsRun(cfg, run) && After(cfg, run).b.state == HalfOpen {
          ProbesBounded(cfg, run);
        }
      }
    } else {
      var run := LimitExceeded(cfg);
      assert !KeepsLimit(cfg, run);
    }
  }

  // ------------------------------------------------------------------
  // When the breaker wedges
  // ------------------------------------------------------------------

  /** Half-open, without slots, and with nothing in flight that could end the era. */
  ghost predicate Stuck(cfg: Config, s: Sys) {
    cfg.maxConcurrentRequests == 0 && s.b.state == HalfOpen && s.pending == map[]
  }

  /** A stuck breaker rejects every request, whenever it comes, until it is reset. */
  lemma {:induction false} StuckForever(cfg: Config, s: Sys, step: Step)
    requires Stuck(cfg, s) && Enabled(s, step) && step != Reset
    ensures Stuck(cfg, Next(cfg, s, step)) && Next(cfg, s, step).rejected == s.rejected + 1
    ensures forall now :: Answer(cfg, s.b, now) == TooManyRequests
  {
  }

  /** Without slots, the success of the one request of the era leaves it with nothing in flight. */
  lemma {:induction false} GetsStuck(cfg: Config) returns (run: seq<Step>)
    requires cfg.maxConcurrentRequests == 0 && cfg.successThreshold >= 2
    ensures IsRun(cfg, run) && Stuck(cfg, After(cfg, run))
  {
    var closed := FailTimes(cfg, AtLeastOne(cfg.failureThreshold) - 1);
    var open := FailOnce(cfg, closed);
    var late := if cfg.timeout < 0 then 0 else cfg.timeout + 1;
    RunKeeps(cfg, open);
    RunSnoc(cfg, open, Finish(0, true, 0));
    var alone := open + [Finish(0, true, 0)];
    RunSnoc(cfg, alone, Begin(late));
    var probing := alone + [Begin(late)];
    var id := After(cfg, alone).next;
    assert After(cfg, alone).pending == map[] && After(cfg, probing).pending.Keys == {id};
    RunSnoc(cfg, probing, Finish(id, true, 0));
    run := probing + [Finish(id, true, 0)];
  }

  /** The breaker never wedges, in any run, if and only if it has a slot in half-open or one success closes it. */
  lemma {:induction false} NoWedgeIff(cfg: Config)
    ensures (forall run, now :: NeverWedged(cfg, run, now))
       <==> cfg.maxConcurrentRequests >= 1 || cfg.successThreshold <= 1
  {
    if cfg.maxConcurrentRequests >= 1 || cfg.successThreshold <= 1 {
      forall run, now ensures NeverWedged(cfg, run, now) {
        NoWedge(cfg, run, now);
      }
    } else {
      var run := GetsStuck(cfg);
      var s := After(cfg, run);
      var now := if s.failedAt.Some? then s.failedAt.value + cfg.timeout + 1 else 0;
      assert Own(s) == {};
      assert !NeverWedged(cfg, run, now);
    }
  }
}
