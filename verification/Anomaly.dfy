/** The z-score anomaly detector, over reals (pkg/fraud/detector.go). */
module Anomalies {
  import opened RealSums

  // ------------------------------------------------------------------
  // Mean and variance of a window
  // ------------------------------------------------------------------

  function Mean(vs: seq<real>): real
    requires vs != []
  {
    Sum(Value(vs), |vs|) / |vs| as real
  }

  function Deviation(vs: seq<real>, mean: real): nat -> real {
    (i: nat) => Value(vs)(i) - mean
  }

  function Variance(vs: seq<real>): real
    requires vs != []
  {
    Sum(Squared(Deviation(vs, Mean(vs))), |vs|) / |vs| as real
  }

  /** How far the newest value lies from the mean. */
  function LastDeviation(vs: seq<real>): real
    requires vs != []
  {
    vs[|vs| - 1] - Mean(vs)
  }

  function Abs(x: real): real {
    if x < 0.0 then -x else x
  }

  /** The last `size` values. */
  function Slide(vs: seq<real>, value: real, size: int): seq<real> {
    var longer := vs + [value];
    if |longer| > size then longer[1..] else longer
  }

  /** The window after `added` has been added value by value. */
  function WindowAfter(added: seq<real>, size: int): seq<real> {
    if added == [] then [] else Slide(WindowAfter(added[..|added| - 1], size), added[|added| - 1], size)
  }

  /** At every moment the window is the newest `size` of all values added, in order; all of them while there are no
      more; nothing if the size is not positive. */
  lemma {:induction false} WindowIsNewest(added: seq<real>, size: int)
    ensures WindowAfter(added, size)
         == if size <= 0 then [] else if |added| > size then added[|added| - size..] else added
  {
    if added != [] {
      var before, last := added[..|added| - 1], added[|added| - 1];
      WindowIsNewest(before, size);
      assert added == before + [last];
      if 0 < size < |before| {
        assert (before[|before| - size..] + [last])[1..] == added[|added| - size..];
      }
    }
  }

  /** `sqrt` stands for the library's square root. */
  ghost predicate IsSqrt(sqrt: real -> real) {
    forall x {:trigger sqrt(x)} :: x >= 0.0 ==> sqrt(x) >= 0.0 && Times(sqrt(x), sqrt(x)) == x
  }

  /** The root is exact, as no executable function on Dafny's reals is for every argument: the class says what the
      detector computes when the rounding of the library's square root is left out of account. */
  class AnomalyDetector {
    const windowSize: int
    const threshold: real
    const sqrt: real -> real
    var values: seq<real>
    var mean: real
    var stdDev: real

    ghost predicate Valid()
      reads this
    {
      IsSqrt(sqrt) && |values| <= if windowSize < 0 then 0 else windowSize
    }

    constructor (windowSize: int, threshold: real, sqrt: real -> real)
      requires IsSqrt(sqrt)
      ensures Valid() && values == []
      ensures this.windowSize == windowSize && this.threshold == threshold && this.sqrt == sqrt
    {
      this.windowSize := windowSize;
      this.threshold := threshold;
      this.sqrt := sqrt;
      values, mean, stdDev := [], 0.0, 0.0;
    }

    /** A flagged value has a squared z-score below the window's length, so a window no longer than threshold^2 + 1
        flags nothing. */
    method AddValue(value: real) returns (isAnomaly: bool, zScore: real)
      requires Valid()
      modifies this
      ensures Valid() && values == Slide(old(values), value, windowSize)
      ensures |values| < 10 ==> !isAnomaly && zScore == 0.0
      ensures |values| >= 10 ==> stdDev == sqrt(Variance(values)) && mean == Mean(values)
      ensures |values| >= 10 && stdDev == 0.0 ==> !isAnomaly && zScore == 0.0
      ensures |values| >= 10 && stdDev != 0.0 ==>
                zScore == Abs(LastDeviation(values) / stdDev) && (isAnomaly <==> zScore > threshold)
      ensures |values| >= 10 ==> Times(zScore, zScore) <= |values| as real - 1.0
      ensures |values| >= 10 && threshold >= 0.0 ==> (isAnomaly <==> Flags(values, threshold))
      ensures isAnomaly && threshold >= 0.0 ==> |values| as real > Times(threshold, threshold) + 1.0
    {
      values := values + [value];
      if |values| > windowSize {
        values := values[1..];
      }
      if |values| < 10 {
        return false, 0.0;
      }
      UpdateStats();
      assert Times(0.0, 0.0) == 0.0;
      RootSign(stdDev);
      if stdDev == 0.0 {
        return false, 0.0;
      }
      zScore := Abs((value - mean) / stdDev);
      isAnomaly := zScore > threshold;
      ScoreBounded(values, stdDev, zScore);
      if threshold >= 0.0 {
        FlagsIsTheTest(values, stdDev, threshold);
        if isAnomaly {
          SquareGrows(threshold, zScore);
        }
      }
    }

    method UpdateStats()
      requires Valid() && values != []
      modifies this`mean, this`stdDev
      ensures mean == Mean(values) && stdDev == sqrt(Variance(values))
      ensures stdDev >= 0.0 && Times(stdDev, stdDev) == Variance(values)
    {
      var sum := 0.0;
      for i := 0 to |values|
        invariant sum == Sum(Value(values), i)
      {
        sum := sum + values[i];
      }
      mean := sum / |values| as real;
      var variance := 0.0;
      for i := 0 to |values|
        invariant mean == Mean(values)
        invariant variance == Sum(Squared(Deviation(values, mean)), i)
      {
        var diff := values[i] - mean;
        variance := variance + Times(diff, diff);
      }
      variance := variance / |values| as real;
      VarianceNonNegative(values);
      stdDev := sqrt(variance);
    }
  }

  // ------------------------------------------------------------------
  // Samuelson's inequality
  // ------------------------------------------------------------------

  lemma {:induction false} Quotient(x: real, n: real)
    requires n > 0.0
    ensures Times(n, x / n) == x && (x >= 0.0 ==> x / n >= 0.0)
  {
  }

  lemma {:induction false} VarianceNonNegative(vs: seq<real>)
    requires vs != []
    ensures Variance(vs) >= 0.0
  {
    SumOfSquaresNonNegative(Deviation(vs, Mean(vs)), |vs|);
    Quotient(Sum(Squared(Deviation(vs, Mean(vs))), |vs|), |vs| as real);
  }

  lemma {:induction false} DeviationSum(vs: seq<real>, c: real, n: nat)
    ensures Sum(Deviation(vs, c), n) == Sum(Value(vs), n) - Times(n as real, c)
  {
    if n > 0 {
      DeviationSum(vs, c, n - 1);
      OneMore(c, (n - 1) as real);
      assert (n - 1) as real + 1.0 == n as real;
    }
  }

  lemma {:induction false} DeviationsCancel(vs: seq<real>)
    requires vs != []
    ensures Sum(Deviation(vs, Mean(vs)), |vs|) == 0.0
  {
    DeviationSum(vs, Mean(vs), |vs|);
    Quotient(Sum(Value(vs), |vs|), |vs| as real);
  }

  lemma {:induction false} ShiftedSquare(f: real, x: real)
    ensures Times(f - x, f - x) == Times(f, f) - 2.0 * Times(f, x) + Times(x, x)
  {
  }

  /** The squares of the values shifted by `x` sum to something non-negative. */
  lemma {:induction false} ShiftedSquares(f: nat -> real, m: nat, x: real)
    ensures Sum(Squared(f), m) - 2.0 * Times(Sum(f, m), x) + Times(m as real, Times(x, x)) >= 0.0
  {
    if m > 0 {
      ShiftedSquares(f, m - 1, x);
      ShiftedSquare(f(m - 1), x);
      SquareSign(f(m - 1) - x);
      OneMore(Times(x, x), (m - 1) as real);
      assert (m - 1) as real + 1.0 == m as real;
      SplitFirst(Sum(f, m - 1), f(m - 1), x);
    }
  }

  lemma {:induction false} SplitFirst(a: real, b: real, x: real)
    ensures Times(a + b, x) == Times(a, x) + Times(b, x)
  {
  }

  /** The square of a sum of `m` values is at most `m` times the sum of their squares. */
  lemma {:induction false} CauchySchwarz(f: nat -> real, m: nat)
    requires m > 0
    ensures Times(Sum(f, m), Sum(f, m)) <= Times(m as real, Sum(Squared(f), m))
  {
    var s, q, x := Sum(f, m), Sum(Squared(f), m), Sum(f, m) / m as real;
    ShiftedSquares(f, m, x);
    Quotient(s, m as real);
    AtTheMean(s, q, m as real, x);
  }

  lemma {:induction false} AtTheMean(s: real, q: real, m: real, x: real)
    requires m > 0.0 && Times(m, x) == s && q - 2.0 * Times(s, x) + Times(m, Times(x, x)) >= 0.0
    ensures Times(s, s) <= Times(m, q)
  {
    assert Times(m, Times(x, x)) == Times(s, x);
    assert Times(m, Times(s, x)) == Times(s, s);
    Grows(m, Times(s, x), q);
  }

  lemma {:induction false} Grows(k: real, a: real, b: real)
    requires k >= 0.0 && a <= b
    ensures Times(k, a) <= Times(k, b)
  {
    if k > 0.0 && a < b {
      Below(k, a, b);
    } else if k == 0.0 {
      assert Times(0.0, a) == 0.0 == Times(0.0, b);
    }
  }

  /** The newest value's squared deviation is at most n - 1 variances. */
  lemma {:induction false} Samuelson(vs: seq<real>)
    requires vs != []
    ensures Times(LastDeviation(vs), LastDeviation(vs)) <= Times(|vs| as real - 1.0, Variance(vs))
  {
    var n, f, d := |vs|, Deviation(vs, Mean(vs)), LastDeviation(vs);
    DeviationsCancel(vs);
    assert f(n - 1) == d && Sum(f, n - 1) == -d;
    Quotient(Sum(Squared(f), n), n as real);
    if n == 1 {
      assert d == 0.0 && Times(d, d) == 0.0;
      assert Times(0.0, Variance(vs)) == 0.0;
    } else {
      CauchySchwarz(f, n - 1);
      assert Times(-d, -d) == Times(d, d);
      Combine(d, n as real, Sum(Squared(f), n - 1), Variance(vs));
    }
  }

  lemma {:induction false} Combine(d: real, n: real, q: real, v: real)
    requires n >= 1.0 && Times(d, d) <= Times(n - 1.0, q) && Times(n, v) == q + Times(d, d)
    ensures Times(d, d) <= Times(n - 1.0, v)
  {
    var dd := Times(d, d);
    assert Times(n - 1.0, q) == Times(n - 1.0, Times(n, v)) - Times(n - 1.0, dd);
    assert Times(n - 1.0, Times(n, v)) == Times(n, Times(n - 1.0, v));
    assert Times(n - 1.0, dd) == Times(n, dd) - dd;
    Cancel(n, dd, Times(n - 1.0, v));
  }

  lemma {:induction false} SquareGrows(a: real, b: real)
    requires 0.0 <= a < b
    ensures Times(a, a) < Times(b, b)
  {
    Grows(a, a, b);
    Below(b, a, b);
    assert Times(a, b) == Times(b, a);
  }

  /** Every z-score's square is at most the window's length less one. */
  lemma {:induction false} ScoreBounded(vs: seq<real>, root: real, z: real)
    requires vs != [] && root > 0.0 && Times(root, root) == Variance(vs) && z == Abs(LastDeviation(vs) / root)
    ensures Times(z, z) <= |vs| as real - 1.0
  {
    Samuelson(vs);
    ScoreSquare(LastDeviation(vs), root, z, Variance(vs));
    ProductPositive(root, root);
    assert Times(Variance(vs), |vs| as real - 1.0) == Times(|vs| as real - 1.0, Variance(vs));
    Cancel(Variance(vs), Times(z, z), |vs| as real - 1.0);
  }

  lemma {:induction false} ScoreSquare(d: real, root: real, z: real, v: real)
    requires root > 0.0 && Times(root, root) == v && z == Abs(d / root)
    ensures Times(v, Times(z, z)) == Times(d, d)
  {
    Quotient(d, root);
    var q := d / root;
    assert Times(z, z) == Times(q, q);
    assert Times(Times(root, root), Times(q, q)) == Times(Times(root, q), Times(root, q));
  }

  // ------------------------------------------------------------------
  // How long a window must be to flag anything
  // ------------------------------------------------------------------

  /** The newest value is flagged, without the square root. */
  ghost predicate Flags(vs: seq<real>, threshold: real) {
    && vs != [] && Variance(vs) > 0.0
    && Times(LastDeviation(vs), LastDeviation(vs)) > Times(Times(threshold, threshold), Variance(vs))
  }

  /** It is the detector's own test. */
  lemma {:induction false} FlagsIsTheTest(vs: seq<real>, root: real, threshold: real)
    requires vs != [] && threshold >= 0.0 && root > 0.0 && Times(root, root) == Variance(vs)
    ensures Flags(vs, threshold) <==> Abs(LastDeviation(vs) / root) > threshold
  {
    var z, v := Abs(LastDeviation(vs) / root), Variance(vs);
    ProductPositive(root, root);
    ScoreSquare(LastDeviation(vs), root, z, v);
    assert Times(v, Times(threshold, threshold)) == Times(Times(threshold, threshold), v);
    if z > threshold {
      SquareGrows(threshold, z);
      Below(v, Times(threshold, threshold), Times(z, z));
    } else {
      SquareKeeps(z, threshold);
      Grows(v, Times(z, z), Times(threshold, threshold));
    }
  }

  lemma {:induction false} RootSign(root: real)
    requires root >= 0.0
    ensures Times(root, root) > 0.0 <==> root > 0.0
  {
    SquareSign(root);
  }

  lemma {:induction false} SquareKeeps(a: real, b: real)
    requires 0.0 <= a <= b
    ensures Times(a, a) <= Times(b, b)
  {
    if a < b {
      SquareGrows(a, b);
    }
  }

  /** All values zero except the newest, which is `n`. */
  function Spike(n: nat): seq<real> {
    seq(n, i => if i == n - 1 then n as real else 0.0)
  }

  lemma {:induction false} SpikeAt(n: nat, i: nat)
    requires i < n
    ensures Value(Spike(n))(i) == if i == n - 1 then n as real else 0.0
  {
  }

  lemma {:induction false} SpikeSum(n: nat, k: nat)
    requires k < n
    ensures Sum(Value(Spike(n)), k) == 0.0
  {
    if k > 0 {
      SpikeSum(n, k - 1);
      SpikeAt(n, k - 1);
    }
  }

  lemma {:induction false} SpikeSquares(n: nat, k: nat)
    requires k < n
    ensures Sum(Squared(Deviation(Spike(n), 1.0)), k) == k as real
  {
    if k > 0 {
      SpikeSquares(n, k - 1);
      SpikeAt(n, k - 1);
      var off := 0.0 - 1.0;
      assert Deviation(Spike(n), 1.0)(k - 1) == off;
      assert Times(off, off) == 1.0;
    }
  }

  lemma {:induction false} DivideBack(n: real, x: real)
    requires n > 0.0
    ensures Times(n, x) / n == x
  {
    Quotient(Times(n, x), n);
    Cancel(n, x, Times(n, x) / n);
    Cancel(n, Times(n, x) / n, x);
  }

  lemma {:induction false} SpikeTotals(n: nat)
    requires n >= 1
    ensures Sum(Value(Spike(n)), n) == n as real
    ensures Sum(Squared(Deviation(Spike(n), 1.0)), n) == Times(n as real, n as real - 1.0)
  {
    var r := n as real;
    SpikeSum(n, n - 1);
    SpikeSquares(n, n - 1);
    SpikeAt(n, n - 1);
    assert Deviation(Spike(n), 1.0)(n - 1) == r - 1.0;
    assert (n - 1) as real == r - 1.0;
    OneMore(r - 1.0, r - 1.0);
  }

  /** A spike reaches the bound. */
  lemma {:induction false} SpikeIsExtreme(n: nat)
    requires n >= 1
    ensures Variance(Spike(n)) == n as real - 1.0 && LastDeviation(Spike(n)) == n as real - 1.0
  {
    SpikeTotals(n);
    assert Times(n as real, 1.0) == n as real;
    DivideBack(n as real, 1.0);
    assert Mean(Spike(n)) == 1.0;
    DivideBack(n as real, n as real - 1.0);
  }

  /** A window of `n` values can flag its newest exactly when n - 1 exceeds the squared threshold. */
  lemma {:induction false} CanFlagIff(n: nat, threshold: real)
    requires n >= 2 && threshold >= 0.0
    ensures (exists vs :: |vs| == n && Flags(vs, threshold)) <==> n as real - 1.0 > Times(threshold, threshold)
  {
    var t, m := Times(threshold, threshold), n as real - 1.0;
    if m > t {
      SpikeIsExtreme(n);
      Below(m, t, m);
      assert Times(m, t) == Times(t, m);
      assert Flags(Spike(n), threshold);
    } else {
      forall vs | |vs| == n ensures !Flags(vs, threshold) {
        Samuelson(vs);
        if Variance(vs) > 0.0 {
          Grows(Variance(vs), m, t);
          assert Times(Variance(vs), m) == Times(m, Variance(vs));
          assert Times(Variance(vs), t) == Times(t, Variance(vs));
        }
      }
    }
  }
}
