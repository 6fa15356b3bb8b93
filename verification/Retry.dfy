/** Retrying with exponential backoff, over reals (pkg/errors/retry.go). */
module Retries {
  import opened Seqs
  import RealSums

  datatype Failure = Failure(id: int) | Cancelled

  datatype Policy = Policy(
    maxAttempts: int, initialBackoff: int, maxBackoff: int, multiplier: real, jitter: real,
    retriable: Option<Failure -> bool>)

  /** What the n-th call (from 0) returns, what the random source draws for the n-th wait, and whether the context is
      cancelled during it. */
  datatype Environment = Environment(call: nat -> Option<Failure>, draw: nat -> real, cancelled: nat -> bool)

  datatype RetryResult = RetryResult(success: bool, attempts: nat, lastError: Option<Failure>, totalBackoff: int)

  datatype Report = Report(attempt: nat, error: Failure, nextBackoff: int)

  // ------------------------------------------------------------------
  // Backoff
  // ------------------------------------------------------------------

  function Pow(x: real, n: nat): real {
    if n == 0 then 1.0 else x * Pow(x, n - 1)
  }

  /** The conversion of a float to an integer number of nanoseconds drops the fraction. */
  function Truncated(x: real): int {
    if x < 0.0 then -((-x).Floor) else x.Floor
  }

  function Grown(p: Policy, attempt: nat): real {
    p.initialBackoff as real * Pow(p.multiplier, attempt)
  }

  function Capped(p: Policy, attempt: nat): real {
    if Grown(p, attempt) > p.maxBackoff as real then p.maxBackoff as real else Grown(p, attempt)
  }

  function JitterAmount(delay: real, jitter: real): real {
    delay * jitter
  }

  /** Between minus and plus the amount. */
  function Swing(draw: real, amount: real): real {
    (draw * 2.0 - 1.0) * amount
  }

  function Shaken(delay: real, jitter: real, draw: real): real {
    delay + Swing(draw, JitterAmount(delay, jitter))
  }

  function Jittered(p: Policy, delay: real, draw: real): real {
    if p.jitter > 0.0 then
      var shaken := Shaken(delay, p.jitter, draw);
      if shaken < 0.0 then p.initialBackoff as real else shaken
    else delay
  }

  function Backoff(p: Policy, attempt: nat, draw: real): int {
    Truncated(Jittered(p, Capped(p, attempt), draw))
  }

  /** The wait after the n-th call, as a function of n. */
  function Wait(p: Policy, env: Environment): nat -> int {
    (n: nat) => Backoff(p, n, env.draw(n))
  }

  function TotalOf(wait: nat -> int, n: nat): int {
    if n == 0 then 0 else TotalOf(wait, n - 1) + wait(n - 1)
  }

  function TotalBackoff(p: Policy, env: Environment, waits: nat): int {
    TotalOf(Wait(p, env), waits)
  }

  // ------------------------------------------------------------------
  // The meaning of an execution
  // ------------------------------------------------------------------

  predicate IsRetried(p: Policy, e: Failure) {
    p.retriable.Some? ==> p.retriable.value(e)
  }

  /** The n-th call, counting from 0, is not followed by another wait that completes. */
  predicate EndsAt(p: Policy, env: Environment, n: nat) {
    || env.call(n).None?
    || !IsRetried(p, env.call(n).value)
    || (p.maxAttempts >= 0 && n >= p.maxAttempts)
    || env.cancelled(n)
  }

  /** The n-th call is the last one. */
  ghost predicate LastCall(p: Policy, env: Environment, n: nat) {
    EndsAt(p, env, n) && forall k: nat :: k < n ==> !EndsAt(p, env, k)
  }

  /** The last call was followed by a wait that the context cut short. */
  predicate CutShort(p: Policy, env: Environment, n: nat) {
    && env.call(n).Some? && IsRetried(p, env.call(n).value)
    && !(p.maxAttempts >= 0 && n >= p.maxAttempts)
  }

  function Waits(p: Policy, env: Environment, n: nat): nat {
    if CutShort(p, env, n) then n + 1 else n
  }

  /** A success keeps the error of the failure before it. */
  function Result(p: Policy, env: Environment, n: nat): RetryResult {
    RetryResult(
      env.call(n).None?, n + 1,
      if env.call(n).None? then (if n == 0 then None else env.call(n - 1))
      else if CutShort(p, env, n) then Some(Cancelled) else env.call(n),
      TotalBackoff(p, env, Waits(p, env, n)))
  }

  /** One report for each failed call among the first `k`, each followed by its wait. */
  function Reports(p: Policy, env: Environment, k: nat): seq<Report>
  {
    if k == 0 then [] else
      Reports(p, env, k - 1)
      + if env.call(k - 1).Some? then [Report(k, env.call(k - 1).value, Backoff(p, k - 1, env.draw(k - 1)))] else []
  }

  /** The last failed call is reported with no wait, unless it was waited for and cut short. */
  function AllReports(p: Policy, env: Environment, n: nat): seq<Report> {
    if CutShort(p, env, n) || env.call(n).None? then Reports(p, env, Waits(p, env, n))
    else Reports(p, env, n) + [Report(n + 1, env.call(n).value, 0)]
  }

  /** Without a limit on attempts, something else must end the loop: `bound` is some call that does. */
  ghost predicate Ends(p: Policy, env: Environment, bound: nat) {
    p.maxAttempts < 0 ==> EndsAt(p, env, bound)
  }

  ghost function Horizon(p: Policy, bound: nat): nat {
    if p.maxAttempts < 0 then bound else p.maxAttempts
  }

  /** The first call from `k` on that ends the loop. */
  ghost function LastFrom(p: Policy, env: Environment, bound: nat, k: nat): (n: nat)
    requires Ends(p, env, bound) && k <= Horizon(p, bound)
    ensures k <= n <= Horizon(p, bound) && EndsAt(p, env, n)
    ensures forall j: nat :: k <= j < n ==> !EndsAt(p, env, j)
    decreases Horizon(p, bound) - k
  {
    if EndsAt(p, env, k) then k else LastFrom(p, env, bound, k + 1)
  }

  /** What the first `k` calls return. */
  function Outcomes(env: Environment, k: nat): (r: seq<Option<Failure>>)
    ensures |r| == k
  {
    seq(k, i requires 0 <= i < k => env.call(i))
  }

  method CalculateBackoff(p: Policy, attempt: nat, draw: real) returns (backoff: int)
    ensures backoff == Backoff(p, attempt, draw)
  {
    var delay := Grown(p, attempt);
    if delay > p.maxBackoff as real {
      delay := p.maxBackoff as real;
    }
    delay := AddJitter(p, delay, draw);
    backoff := Truncated(delay);
  }

  /** The jitter part of the calculation. */
  method AddJitter(p: Policy, capped: real, draw: real) returns (delay: real)
    ensures delay == Jittered(p, capped, draw)
  {
    delay := capped;
    if p.jitter > 0.0 {
      var jitterAmount := JitterAmount(delay, p.jitter);
      var jitter := Swing(draw, jitterAmount);
      delay := delay + jitter;
      if delay < 0.0 {
        delay := p.initialBackoff as real;
      }
    }
  }

  /** `outcomes` is what the operation returned, call by call: it was called once for each attempt, and no more. */
  method Execute(p: Policy, env: Environment, ghost bound: nat)
    returns (result: RetryResult, outcomes: seq<Option<Failure>>)
    requires Ends(p, env, bound)
    ensures result == Result(p, env, LastFrom(p, env, bound, 0))
    ensures outcomes == Outcomes(env, LastFrom(p, env, bound, 0) + 1) && |outcomes| == result.attempts
  {
    if p.maxAttempts == 0 {
      assert Outcomes(env, 1) == [env.call(0)];
      return RetryResult(env.call(0).None?, 1, env.call(0), 0), [env.call(0)];
    }
    result := RetryResult(false, 0, None, 0);
    outcomes := [];
    var attempt := 0;
    while p.maxAttempts < 0 || attempt <= p.maxAttempts
      invariant attempt <= Horizon(p, bound) && LastFrom(p, env, bound, 0) == LastFrom(p, env, bound, attempt)
      invariant outcomes == Outcomes(env, attempt)
      invariant result == RetryResult(
                            false, attempt, if attempt == 0 then None else env.call(attempt - 1),
                            TotalBackoff(p, env, attempt))
      decreases Horizon(p, bound) - attempt
    {
      result := result.(attempts := result.attempts + 1);
      var err := env.call(attempt);
      outcomes := outcomes + [err];
      assert outcomes == Outcomes(env, attempt + 1);
      if err.None? {
        result := result.(success := true);
        return;
      }
      result := result.(lastError := err);
      if p.retriable.Some? && !p.retriable.value(err.value) {
        return;
      }
      if p.maxAttempts >= 0 && attempt >= p.maxAttempts {
        return;
      }
      var backoff := CalculateBackoff(p, attempt, env.draw(attempt));
      result := result.(totalBackoff := result.totalBackoff + backoff);
      if env.cancelled(attempt) {
        result := result.(lastError := Some(Cancelled));
        return;
      }
      attempt := attempt + 1;
    }
  }

  lemma {:induction false} NextReport(p: Policy, env: Environment, k: nat)
    requires env.call(k).Some?
    ensures Reports(p, env, k + 1)
         == Reports(p, env, k) + [Report(k + 1, env.call(k).value, Backoff(p, k, env.draw(k)))]
  {
  }

  /** The same loop with a callback; `reports` are the calls made to it. */
  method ExecuteWithCallback(p: Policy, env: Environment, ghost bound: nat)
    returns (result: RetryResult, reports: seq<Report>)
    requires Ends(p, env, bound)
    ensures result == Result(p, env, LastFrom(p, env, bound, 0))
    ensures reports == AllReports(p, env, LastFrom(p, env, bound, 0))
  {
    if p.maxAttempts == 0 {
      result := RetryResult(env.call(0).None?, 1, env.call(0), 0);
      reports := [];
      if !result.success {
        reports := [Report(1, env.call(0).value, 0)];
      }
      return;
    }
    result, reports := RetryResult(false, 0, None, 0), [];
    var attempt := 0;
    while p.maxAttempts < 0 || attempt <= p.maxAttempts
      invariant attempt <= Horizon(p, bound) && LastFrom(p, env, bound, 0) == LastFrom(p, env, bound, attempt)
      invariant reports == Reports(p, env, attempt)
      invariant result == RetryResult(
                            false, attempt, if attempt == 0 then None else env.call(attempt - 1),
                            TotalBackoff(p, env, attempt))
      decreases Horizon(p, bound) - attempt
    {
      result := result.(attempts := result.attempts + 1);
      var err := env.call(attempt);
      if err.None? {
        result := result.(success := true);
        return;
      }
      result := result.(lastError := err);
      if p.retriable.Some? && !p.retriable.value(err.value) {
        reports := reports + [Report(attempt + 1, err.value, 0)];
        return;
      }
      if p.maxAttempts >= 0 && attempt >= p.maxAttempts {
        reports := reports + [Report(attempt + 1, err.value, 0)];
        return;
      }
      var backoff := CalculateBackoff(p, attempt, env.draw(attempt));
      result := result.(totalBackoff := result.totalBackoff + backoff);
      NextReport(p, env, attempt);
      reports := reports + [Report(attempt + 1, err.value, backoff)];
      if env.cancelled(attempt) {
        result := result.(lastError := Some(Cancelled));
        return;
      }
      attempt := attempt + 1;
    }
  }

  // ------------------------------------------------------------------
  // The properties
  // ------------------------------------------------------------------

  /** There is only one last call, whatever bound is known: both loops stop there and return the same result. */
  lemma {:induction false} LastCallIsUnique(p: Policy, env: Environment, bound: nat, n: nat)
    requires Ends(p, env, bound)
    ensures LastCall(p, env, n) <==> n == LastFrom(p, env, bound, 0)
  {
    var last := LastFrom(p, env, bound, 0);
    assert EndsAt(p, env, last) && forall j: nat :: j < last ==> !EndsAt(p, env, j);
  }

  /** Call `k` failed, may be retried, and its wait was completed. */
  predicate WaitedOut(p: Policy, env: Environment, k: nat) {
    && env.call(k).Some? && (p.retriable.None? || p.retriable.value(env.call(k).value))
    && (p.maxAttempts < 0 || k < p.maxAttempts) && !env.cancelled(k)
  }

  /** What both loops return, case by case: every call but the last failed, could be retried and was waited out; the
      last one succeeded, or could not be retried, or was the last allowed, or was cut short while waiting. */
  lemma {:induction false} ResultMeans(p: Policy, env: Environment, bound: nat)
    requires Ends(p, env, bound)
    ensures var n, r := LastFrom(p, env, bound, 0), Result(p, env, LastFrom(p, env, bound, 0));
            && (forall k: nat :: k < n ==> WaitedOut(p, env, k)) && r.attempts == n + 1
            && match env.call(n)
               case None =>
                 r.success && r.lastError == (if n == 0 then None else env.call(n - 1))
                 && r.totalBackoff == TotalBackoff(p, env, n)
               case Some(e) =>
                 !r.success
                 && if (p.retriable.Some? && !p.retriable.value(e)) || (p.maxAttempts >= 0 && n == p.maxAttempts) then
                   r.lastError == Some(e) && r.totalBackoff == TotalBackoff(p, env, n)
                 else
                   env.cancelled(n) && r.lastError == Some(Cancelled) && r.totalBackoff == TotalBackoff(p, env, n + 1)
  {
    var n := LastFrom(p, env, bound, 0);
    forall k: nat | k < n ensures WaitedOut(p, env, k) {
      assert !EndsAt(p, env, k);
    }
  }

  /** The waits that were reported. */
  function TotalReported(reports: seq<Report>): int {
    if reports == [] then 0 else TotalReported(reports[..|reports| - 1]) + reports[|reports| - 1].nextBackoff
  }

  lemma {:induction false} TotalReportedSnoc(reports: seq<Report>, r: Report)
    ensures TotalReported(reports + [r]) == TotalReported(reports) + r.nextBackoff
  {
    assert (reports + [r])[..|reports|] == reports;
  }

  lemma {:induction false} ReportsTotal(p: Policy, env: Environment, k: nat)
    requires forall j: nat :: j < k ==> env.call(j).Some?
    ensures TotalReported(Reports(p, env, k)) == TotalBackoff(p, env, k)
  {
    if k > 0 {
      ReportsTotal(p, env, k - 1);
      TotalReportedSnoc(Reports(p, env, k - 1),
                        Report(k, env.call(k - 1).value, Backoff(p, k - 1, env.draw(k - 1))));
    }
  }

  /** The callback hears of all the waiting there is: the waits it is told of add up to the total that is returned. */
  lemma {:induction false} ReportsAddUp(p: Policy, env: Environment, n: nat)
    requires LastCall(p, env, n)
    ensures TotalReported(AllReports(p, env, n)) == Result(p, env, n).totalBackoff
  {
    forall j: nat | j < n ensures env.call(j).Some? {
      assert !EndsAt(p, env, j);
    }
    ReportsTotal(p, env, Waits(p, env, n));
    if !CutShort(p, env, n) && env.call(n).Some? {
      TotalReportedSnoc(Reports(p, env, n), Report(n + 1, env.call(n).value, 0));
    }
  }

  /** No more than MaxAttempts retries after the first call. */
  lemma {:induction false} AttemptsBounded(p: Policy, env: Environment, n: nat)
    requires LastCall(p, env, n) && p.maxAttempts >= 0
    ensures Result(p, env, n).attempts <= p.maxAttempts + 1
  {
    if n > p.maxAttempts {
      assert EndsAt(p, env, p.maxAttempts);
    }
  }

  lemma {:induction false} ReportsCount(p: Policy, env: Environment, k: nat)
    requires forall j: nat :: j < k ==> env.call(j).Some?
    ensures |Reports(p, env, k)| == k
    ensures forall j: nat :: j < k ==>
              && env.call(j) == Some(Reports(p, env, k)[j].error)
              && Reports(p, env, k)[j] == Report(j + 1, env.call(j).value, Backoff(p, j, env.draw(j)))
  {
    if k > 0 {
      ReportsCount(p, env, k - 1);
    }
  }

  /** The callback hears of every failed call exactly once, in order, with its number, its error and its wait: none
      after a failure that ends the loop. */
  lemma {:induction false} EveryFailureReported(p: Policy, env: Environment, n: nat)
    requires LastCall(p, env, n)
    ensures var reports := AllReports(p, env, n);
            && |reports| == (if env.call(n).None? then n else n + 1)
            && forall j: nat :: j < |reports| ==>
                 && env.call(j).Some? && reports[j].attempt == j + 1 && reports[j].error == env.call(j).value
                 && reports[j].nextBackoff
                    == if j < n || (IsRetried(p, env.call(n).value) && (p.maxAttempts < 0 || n < p.maxAttempts))
                       then Backoff(p, j, env.draw(j)) else 0
  {
    forall j: nat | j < n ensures env.call(j).Some? {
      assert !EndsAt(p, env, j);
    }
    ReportsCount(p, env, n);
    if CutShort(p, env, n) {
      ReportsCount(p, env, n + 1);
    }
  }

  /** Parameters in their documented ranges. */
  ghost predicate Sensible(p: Policy) {
    && p.initialBackoff >= 0 && p.maxBackoff >= 0
    && p.multiplier > 1.0
    && 0.0 <= p.jitter <= 1.0
  }

  ghost predicate FairDraws(env: Environment) {
    forall k: nat :: 0.0 <= env.draw(k) <= 1.0
  }

  lemma {:induction false} ProductNonNegative(x: real, y: real)
    requires x >= 0.0 && y >= 0.0
    ensures x * y >= 0.0
  {
  }

  lemma {:induction false} ScaleUp(k: real, a: real, b: real)
    requires k >= 0.0 && a <= b
    ensures k * a <= k * b
  {
    ProductNonNegative(k, b - a);
    assert k * (b - a) == k * b - k * a;
  }

  lemma {:induction false} PowPositive(x: real, n: nat)
    requires x > 0.0
    ensures Pow(x, n) > 0.0
  {
    if n > 0 {
      PowPositive(x, n - 1);
    }
  }

  lemma {:induction false} SwingBounds(a: real, draw: real)
    requires 0.0 <= a && 0.0 <= draw <= 1.0
    ensures -a <= Swing(draw, a) <= a
  {
    ScaleUp(a, draw * 2.0 - 1.0, 1.0);
    ScaleUp(a, -1.0, draw * 2.0 - 1.0);
  }

  lemma {:induction false} AmountBounds(b: real, j: real)
    requires b >= 0.0 && 0.0 <= j <= 1.0
    ensures 0.0 <= JitterAmount(b, j) <= b
  {
    ProductNonNegative(b, j);
    ScaleUp(b, j, 1.0);
  }

  /** The jittered delay stays between zero and the delay plus the whole amount. */
  lemma {:induction false} JitteredBounds(p: Policy, b: real, draw: real)
    requires Sensible(p) && b >= 0.0 && 0.0 <= draw <= 1.0
    ensures 0.0 <= Jittered(p, b, draw) <= b + JitterAmount(b, p.jitter)
  {
    AmountBounds(b, p.jitter);
    SwingBounds(JitterAmount(b, p.jitter), draw);
  }

  lemma {:induction false} CappedBounds(p: Policy, attempt: nat)
    requires Sensible(p)
    ensures 0.0 <= Capped(p, attempt) <= p.maxBackoff as real && Capped(p, attempt) <= Grown(p, attempt)
  {
    PowPositive(p.multiplier, attempt);
    ProductNonNegative(p.initialBackoff as real, Pow(p.multiplier, attempt));
  }

  lemma {:induction false} TruncatedBounds(x: real, bound: real)
    requires 0.0 <= x <= bound
    ensures 0 <= Truncated(x) && Truncated(x) as real <= bound
  {
  }

  /** What a delay can become with a jitter fraction `j`. */
  function Widened(j: real, delay: real): real {
    (1.0 + j) * delay
  }

  lemma {:induction false} WidenedIsMore(j: real, b: real, c: real)
    requires j >= 0.0 && b <= c
    ensures b + JitterAmount(b, j) == Widened(j, b) <= Widened(j, c)
  {
    ScaleUp(1.0 + j, b, c);
  }

  /** Each wait is within (1+J) of the cap, and within (1+J) of the uncapped exponential. */
  lemma {:induction false} WaitBounds(p: Policy, attempt: nat, draw: real)
    requires Sensible(p) && 0.0 <= draw <= 1.0
    ensures 0 <= Backoff(p, attempt, draw)
    ensures Backoff(p, attempt, draw) as real <= Widened(p.jitter, p.maxBackoff as real)
    ensures Backoff(p, attempt, draw) as real <= Widened(p.jitter, Grown(p, attempt))
  {
    var capped := Capped(p, attempt);
    CappedBounds(p, attempt);
    JitteredBounds(p, capped, draw);
    TruncatedBounds(Jittered(p, capped, draw), Widened(p.jitter, capped)) by {
      WidenedIsMore(p.jitter, capped, capped);
    }
    WidenedIsMore(p.jitter, capped, p.maxBackoff as real);
    WidenedIsMore(p.jitter, capped, Grown(p, attempt));
  }

  lemma {:induction false} TruncatedIs(x: real)
    ensures x >= 0.0 ==> Truncated(x) as real <= x < Truncated(x) as real + 1.0
    ensures x < 0.0 ==> Truncated(x) as real - 1.0 < x <= Truncated(x) as real
  {
  }

  lemma {:induction false} WholeIsKept(k: int)
    ensures Truncated(k as real) == k
  {
    assert -(k as real) == (-k) as real;
  }

  lemma {:induction false} ShakenIs(d: real, jitter: real, draw: real)
    ensures Shaken(d, jitter, draw) == d + (2.0 * draw - 1.0) * (d * jitter)
  {
    assert draw * 2.0 == 2.0 * draw;
  }

  /** One backoff, exactly, for any parameters: with d the capped exponential, the delay x is d plus at most J times d
      either way; a negative one gives way to the initial backoff, and the fraction is dropped. */
  lemma {:induction false} BackoffIs(p: Policy, attempt: nat, draw: real, g: real, d: real, x: real)
    requires g == p.initialBackoff as real * Pow(p.multiplier, attempt)
    requires d == (if g < p.maxBackoff as real then g else p.maxBackoff as real)
    requires x == (if p.jitter > 0.0 then d + (2.0 * draw - 1.0) * (d * p.jitter) else d)
    ensures var b := Backoff(p, attempt, draw);
            if x >= 0.0 then b as real <= x < b as real + 1.0
            else if p.jitter > 0.0 then b == p.initialBackoff
            else b as real - 1.0 < x <= b as real
  {
    assert Capped(p, attempt) == d;
    ShakenIs(d, p.jitter, draw);
    DelayIs(p, d, draw, x);
  }

  lemma {:induction false} DelayIs(p: Policy, d: real, draw: real, x: real)
    requires x == if p.jitter > 0.0 then Shaken(d, p.jitter, draw) else d
    ensures var b := Truncated(Jittered(p, d, draw));
            if x >= 0.0 then b as real <= x < b as real + 1.0
            else if p.jitter > 0.0 then b == p.initialBackoff
            else b as real - 1.0 < x <= b as real
  {
    TruncatedIs(x);
    WholeIsKept(p.initialBackoff);
  }

  lemma {:induction false} PowGrows(x: real, n: nat)
    requires x >= 1.0
    ensures 1.0 <= Pow(x, n) <= Pow(x, n + 1)
  {
    if n > 0 {
      PowGrows(x, n - 1);
    }
    ScaleUp(Pow(x, n), 1.0, x);
  }

  lemma {:induction false} GrownGrows(p: Policy, attempt: nat)
    requires Sensible(p)
    ensures Grown(p, attempt) <= Grown(p, attempt + 1)
  {
    PowGrows(p.multiplier, attempt);
    ScaleUp(p.initialBackoff as real, Pow(p.multiplier, attempt), Pow(p.multiplier, attempt + 1));
  }

  /** Without jitter the waits never get shorter, until they stay at the cap. */
  lemma {:induction false} BackoffGrows(p: Policy, attempt: nat, draw: real, draw': real)
    requires Sensible(p) && p.jitter == 0.0
    ensures Backoff(p, attempt, draw) <= Backoff(p, attempt + 1, draw') <= p.maxBackoff
    ensures Backoff(p, attempt, draw) == p.maxBackoff ==> Backoff(p, attempt + 1, draw') == p.maxBackoff
  {
    GrownGrows(p, attempt);
    CappedBounds(p, attempt);
    CappedBounds(p, attempt + 1);
    FloorGrows(Capped(p, attempt), Capped(p, attempt + 1));
    FloorGrows(Capped(p, attempt + 1), p.maxBackoff as real);
  }

  lemma {:induction false} FloorGrows(x: real, y: real)
    requires x <= y
    ensures x.Floor <= y.Floor
  {
  }

  // ------------------------------------------------------------------
  // The total
  // ------------------------------------------------------------------

  ghost predicate Within(wait: nat -> int, bound: nat -> real) {
    forall n: nat :: 0 <= wait(n) && wait(n) as real <= bound(n)
  }

  lemma {:induction false} SumWithin(wait: nat -> int, bound: nat -> real, w: nat)
    requires Within(wait, bound)
    ensures 0 <= TotalOf(wait, w) && TotalOf(wait, w) as real <= RealSums.Sum(bound, w)
  {
    if w > 0 {
      SumWithin(wait, bound, w - 1);
      assert 0 <= wait(w - 1) && wait(w - 1) as real <= bound(w - 1);
    }
  }

  function AtCap(p: Policy): nat -> real {
    (n: nat) => Widened(p.jitter, p.maxBackoff as real)
  }

  function Uncapped(p: Policy): nat -> real {
    (n: nat) => Widened(p.jitter, Grown(p, n))
  }

  lemma {:induction false} SumAtCap(p: Policy, w: nat)
    ensures RealSums.Sum(AtCap(p), w) == RealSums.Times(w as real, Widened(p.jitter, p.maxBackoff as real))
  {
    if w > 0 {
      SumAtCap(p, w - 1);
      RealSums.OneMore(Widened(p.jitter, p.maxBackoff as real), (w - 1) as real);
      assert w as real == (w - 1) as real + 1.0;
    }
  }

  /** `c` times the n-th power of `m`, by repeated multiplication. */
  function Powered(c: real, m: real, n: nat): real {
    if n == 0 then c else m * Powered(c, m, n - 1)
  }

  lemma {:induction false} PoweredIsProduct(c: real, m: real, n: nat)
    ensures Powered(c, m, n) == c * Pow(m, n)
  {
    if n > 0 {
      PoweredIsProduct(c, m, n - 1);
      Swaps(m, c, Pow(m, n - 1));
    }
  }

  lemma {:induction false} Swaps(a: real, b: real, c: real)
    ensures a * (b * c) == b * (a * c)
  {
  }

  function Geometric(c: real, m: real, n: nat): real {
    if n == 0 then 0.0 else Geometric(c, m, n - 1) + Powered(c, m, n - 1)
  }

  /** The geometric sum, times m - 1. */
  lemma {:induction false} GeometricSum(c: real, m: real, n: nat)
    ensures m * Geometric(c, m, n) - Geometric(c, m, n) == Powered(c, m, n) - c
  {
    if n > 0 {
      GeometricSum(c, m, n - 1);
      RealSums.Distributes(m, Geometric(c, m, n - 1), Powered(c, m, n - 1));
    }
  }

  /** Widening the n-th uncapped backoff is growing the widened first one. */
  lemma {:induction false} WidenedTerm(p: Policy, n: nat)
    ensures Uncapped(p)(n) == Powered(Widened(p.jitter, p.initialBackoff as real), p.multiplier, n)
  {
    PoweredIsProduct(p.initialBackoff as real, p.multiplier, n);
    WidenedPowered(p.jitter, p.initialBackoff as real, p.multiplier, n);
  }

  lemma {:induction false} WidenedPowered(j: real, c: real, m: real, n: nat)
    ensures Widened(j, Powered(c, m, n)) == Powered(Widened(j, c), m, n)
  {
    if n > 0 {
      WidenedPowered(j, c, m, n - 1);
      Swaps(1.0 + j, m, Powered(c, m, n - 1));
    }
  }

  lemma {:induction false} SumUncapped(p: Policy, w: nat)
    ensures RealSums.Sum(Uncapped(p), w) == Geometric(Widened(p.jitter, p.initialBackoff as real), p.multiplier, w)
  {
    if w > 0 {
      SumUncapped(p, w - 1);
      WidenedTerm(p, w - 1);
    }
  }

  lemma {:induction false} WaitsWithin(p: Policy, env: Environment)
    requires Sensible(p) && FairDraws(env)
    ensures Within(Wait(p, env), AtCap(p)) && Within(Wait(p, env), Uncapped(p))
  {
    forall n: nat
      ensures 0 <= Wait(p, env)(n) && Wait(p, env)(n) as real <= AtCap(p)(n)
      ensures Wait(p, env)(n) as real <= Uncapped(p)(n)
    {
      WaitBounds(p, n, env.draw(n));
    }
  }

  lemma {:induction false} CapTotal(wait: nat -> int, bound: nat -> real, w: nat, c: real)
    requires Within(wait, bound) && RealSums.Sum(bound, w) == RealSums.Times(w as real, c)
    ensures 0 <= TotalOf(wait, w) && TotalOf(wait, w) as real <= w as real * c
  {
    SumWithin(wait, bound, w);
  }

  /** The total is at most c times the sum of the first `w` powers of m, with the geometric sum in closed form and
      multiplied out. */
  ghost predicate WithinGeometric(total: real, c: real, m: real, w: nat) {
    (m - 1.0) * total <= c * (Pow(m, w) - 1.0)
  }

  lemma {:induction false} GeometricTotal(total: real, sum: real, c: real, m: real, w: nat)
    requires m > 1.0 && total <= sum && sum == Geometric(c, m, w)
    ensures WithinGeometric(total, c, m, w)
  {
    GeometricSum(c, m, w);
    PoweredIsProduct(c, m, w);
    Closing(c, m, Pow(m, w), Powered(c, m, w), total, sum);
  }

  lemma {:induction false} Closing(c: real, m: real, power: real, scaled: real, total: real, sum: real)
    requires m > 1.0 && total <= sum && m * sum - sum == scaled - c && scaled == c * power
    ensures (m - 1.0) * total <= c * (power - 1.0)
  {
    ScaleUp(m - 1.0, total, sum);
  }

  /** After `w` waits the total is at most (1+J) times `w` waits at the cap. */
  lemma {:induction false} TotalWithinCap(p: Policy, env: Environment, w: nat) returns (c: real)
    requires Sensible(p) && FairDraws(env)
    ensures c == Widened(p.jitter, p.maxBackoff as real)
    ensures 0 <= TotalBackoff(p, env, w) && TotalBackoff(p, env, w) as real <= w as real * c
  {
    c := Widened(p.jitter, p.maxBackoff as real);
    WaitsWithin(p, env);
    SumAtCap(p, w);
    CapTotal(Wait(p, env), AtCap(p), w, c);
  }

  lemma {:induction false} TotalWithinSum(p: Policy, env: Environment, w: nat)
    requires Sensible(p) && FairDraws(env)
    ensures TotalBackoff(p, env, w) as real <= RealSums.Sum(Uncapped(p), w)
  {
    WaitsWithin(p, env);
    SumWithin(Wait(p, env), Uncapped(p), w);
  }

  /** After `w` waits the total is at most (1+J) times the geometric sum of the uncapped backoffs. */
  lemma {:induction false} TotalWithinGeometric(p: Policy, env: Environment, w: nat)
    requires Sensible(p) && FairDraws(env)
    ensures WithinGeometric(
              TotalBackoff(p, env, w) as real, Widened(p.jitter, p.initialBackoff as real), p.multiplier, w)
  {
    TotalWithinSum(p, env, w);
    SumUncapped(p, w);
    GeometricTotal(TotalBackoff(p, env, w) as real, RealSums.Sum(Uncapped(p), w),
                   Widened(p.jitter, p.initialBackoff as real), p.multiplier, w);
  }
}
