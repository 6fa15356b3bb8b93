/** The trend line of the maintenance predictor: least squares over reals (pkg/iot/sensor.go). */
module Regression {
  import opened RealSums

  datatype Line = Line(slope: real, intercept: real)

  // ------------------------------------------------------------------
  // The fit
  // ------------------------------------------------------------------

  /** The four sums of the loop. */
  datatype Sums = Sums(x: real, y: real, xy: real, xx: real)

  function SumsOf(ys: seq<real>, n: nat): Sums {
    Sums(Sum(Position(), n), Sum(Value(ys), n), Sum(Weighted(Value(ys)), n), Sum(Weighted(Position()), n))
  }

  function Denominator(n: real, s: Sums): real {
    n * s.xx - s.x * s.x
  }

  function LineFrom(n: real, s: Sums): Line
    requires n != 0.0
  {
    if Denominator(n, s) == 0.0 then Line(0.0, s.y / n) else
      var slope := (n * s.xy - s.x * s.y) / Denominator(n, s);
      Line(slope, (s.y - slope * s.x) / n)
  }

  function Fit(ys: seq<real>): Line {
    if |ys| < 2 then Line(0.0, 0.0) else LineFrom(|ys| as real, SumsOf(ys, |ys|))
  }

  method LinearRegression(ys: seq<real>) returns (slope: real, intercept: real)
    ensures Line(slope, intercept) == Fit(ys)
  {
    var n := |ys|;
    if n < 2 {
      return 0.0, 0.0;
    }
    var sumX, sumY, sumXY, sumX2 := 0.0, 0.0, 0.0, 0.0;
    for i := 0 to n
      invariant Sums(sumX, sumY, sumXY, sumX2) == SumsOf(ys, i)
    {
      var x, y := i as real, ys[i];
      NextSums(ys, i);
      sumX := sumX + x;
      sumY := sumY + y;
      sumXY := sumXY + Times(x, y);
      sumX2 := sumX2 + Times(x, x);
    }
    slope, intercept := Solve(n as real, Sums(sumX, sumY, sumXY, sumX2));
  }

  lemma {:induction false} NextSums(ys: seq<real>, i: nat)
    requires i < |ys|
    ensures var s, x, y := SumsOf(ys, i), i as real, ys[i];
            SumsOf(ys, i + 1) == Sums(s.x + x, s.y + y, s.xy + Times(x, y), s.xx + Times(x, x))
  {
  }

  /** The second half of the calculation. */
  method Solve(n: real, s: Sums) returns (slope: real, intercept: real)
    requires n != 0.0
    ensures Line(slope, intercept) == LineFrom(n, s)
  {
    var denominator := n * s.xx - s.x * s.x;
    if denominator == 0.0 {
      return 0.0, s.y / n;
    }
    slope := (n * s.xy - s.x * s.y) / denominator;
    intercept := (s.y - slope * s.x) / n;
  }

  // ------------------------------------------------------------------
  // The denominator
  // ------------------------------------------------------------------

  /** The closed forms of the sums of positions and of their squares. */
  ghost predicate PositionSums(n: real, x: real, xx: real) {
    && 2.0 * x == n * (n - 1.0)
    && 6.0 * xx == n * (n - 1.0) * (2.0 * n - 1.0)
  }

  lemma {:induction false} PositionStep(n: real, x: real, xx: real)
    requires PositionSums(n, x, xx)
    ensures PositionSums(n + 1.0, x + n, xx + Times(n, n))
  {
  }

  lemma {:induction false} PositionsSum(n: nat)
    ensures PositionSums(n as real, Sum(Position(), n), Sum(Weighted(Position()), n))
  {
    if n > 0 {
      PositionsSum(n - 1);
      PositionStep((n - 1) as real, Sum(Position(), n - 1), Sum(Weighted(Position()), n - 1));
      assert (n - 1) as real + 1.0 == n as real;
    }
  }

  ghost predicate DenominatorIs(n: real, d: real) {
    12.0 * d == Times(Times(n, n), Times(n - 1.0, n + 1.0))
  }

  lemma {:induction false} DenominatorFormula(n: real, x: real, xx: real)
    requires PositionSums(n, x, xx)
    ensures DenominatorIs(n, n * xx - x * x)
  {
    assert x == n * (n - 1.0) / 2.0;
    assert xx == n * (n - 1.0) * (2.0 * n - 1.0) / 6.0;
    assert x * x == (n * (n - 1.0) / 2.0) * (n * (n - 1.0) / 2.0);
  }

  lemma {:induction false} FormulaPositive(n: real, d: real)
    requires n > 1.0 && DenominatorIs(n, d)
    ensures d > 0.0
  {
    ProductPositive(n, n);
    ProductPositive(n - 1.0, n + 1.0);
    ProductPositive(Times(n, n), Times(n - 1.0, n + 1.0));
  }

  /** The denominator is n^2 (n^2 - 1) / 12, so with two readings or more its zero branch is never taken. */
  lemma {:induction false} DenominatorPositive(ys: seq<real>)
    requires |ys| >= 2
    ensures DenominatorIs(|ys| as real, Denominator(|ys| as real, SumsOf(ys, |ys|)))
    ensures Denominator(|ys| as real, SumsOf(ys, |ys|)) > 0.0
  {
    var n, s := |ys| as real, SumsOf(ys, |ys|);
    PositionsSum(|ys|);
    DenominatorFormula(n, s.x, s.xx);
    FormulaPositive(n, Denominator(n, s));
  }

  // ------------------------------------------------------------------
  // Residuals and the normal equations
  // ------------------------------------------------------------------

  function At(l: Line): nat -> real {
    (i: nat) => l.intercept + Times(l.slope, i as real)
  }

  function Residual(ys: seq<real>, l: Line): nat -> real {
    (i: nat) => Value(ys)(i) - At(l)(i)
  }

  /** The error of a line, summed over the readings. */
  function Sse(ys: seq<real>, l: Line): real {
    Sum(Squared(Residual(ys, l)), |ys|)
  }

  lemma {:induction false} SumOfLine(l: Line, n: nat)
    ensures Sum(At(l), n) == Times(l.intercept, n as real) + Times(l.slope, Sum(Position(), n))
  {
    SumScales(l.intercept, One(), n);
    SumScales(l.slope, Position(), n);
    SumOfOnes(n);
    assert Times(l.intercept, 1.0) == l.intercept;
    SumAdds(At(l), Scaled(l.intercept, One()), Scaled(l.slope, Position()), n);
  }

  lemma {:induction false} WeightedSumOfLine(l: Line, n: nat)
    ensures Sum(Weighted(At(l)), n)
         == Times(l.intercept, Sum(Position(), n)) + Times(l.slope, Sum(Weighted(Position()), n))
  {
    SumScales(l.intercept, Position(), n);
    SumScales(l.slope, Weighted(Position()), n);
    forall i: nat
      ensures Weighted(At(l))(i) == Scaled(l.intercept, Position())(i) + Scaled(l.slope, Weighted(Position()))(i) {
      LineTerm(l.intercept, l.slope, i as real);
    }
    SumAdds(Weighted(At(l)), Scaled(l.intercept, Position()), Scaled(l.slope, Weighted(Position())), n);
  }

  lemma {:induction false} LineTerm(a: real, b: real, i: real)
    ensures Times(i, a + Times(b, i)) == Times(a, i) + Times(b, Times(i, i))
  {
  }

  /** The residuals sum to zero, and so do the residuals weighted by position. */
  ghost predicate Normal(ys: seq<real>, l: Line) {
    Sum(Residual(ys, l), |ys|) == 0.0 && Sum(Weighted(Residual(ys, l)), |ys|) == 0.0
  }

  ghost predicate Solves(n: real, s: Sums, l: Line) {
    && s.y == Times(l.intercept, n) + Times(l.slope, s.x)
    && s.xy == Times(l.intercept, s.x) + Times(l.slope, s.xx)
  }

  lemma {:induction false} LineSolves(n: real, s: Sums)
    requires n != 0.0 && Denominator(n, s) != 0.0
    ensures Solves(n, s, LineFrom(n, s))
  {
    var slope, intercept, d := LineFrom(n, s).slope, LineFrom(n, s).intercept, Denominator(n, s);
    assert slope * d == n * s.xy - s.x * s.y;
    assert intercept * n == s.y - slope * s.x;
    SecondEquation(n, s, slope, intercept);
  }

  lemma {:induction false} SecondEquation(n: real, s: Sums, slope: real, intercept: real)
    requires n != 0.0
    requires slope * (n * s.xx - s.x * s.x) == n * s.xy - s.x * s.y && intercept * n == s.y - slope * s.x
    ensures s.xy == intercept * s.x + slope * s.xx
  {
    var gap := s.xy - (intercept * s.x + slope * s.xx);
    assert n * gap == n * s.xy - (intercept * n) * s.x - slope * (n * s.xx);
    assert (s.y - slope * s.x) * s.x == s.x * s.y - slope * (s.x * s.x);
    FactorIsZero(n, gap);
  }

  lemma {:induction false} FactorIsZero(a: real, b: real)
    requires a != 0.0 && a * b == 0.0
    ensures b == 0.0
  {
  }

  /** A solution has the readings' sums. */
  lemma {:induction false} SolutionMatches(ys: seq<real>, l: Line, n: nat)
    requires Solves(n as real, SumsOf(ys, n), l)
    ensures Sum(Value(ys), n) == Sum(At(l), n) && Sum(Weighted(Value(ys)), n) == Sum(Weighted(At(l)), n)
  {
    SumOfLine(l, n);
    WeightedSumOfLine(l, n);
  }

  lemma {:induction false} ResidualsAdd(ys: seq<real>, l: Line)
    ensures IsSumOf(Value(ys), Residual(ys, l), At(l))
    ensures IsSumOf(Weighted(Value(ys)), Weighted(Residual(ys, l)), Weighted(At(l)))
  {
    forall i: nat ensures Weighted(Value(ys))(i) == Weighted(Residual(ys, l))(i) + Weighted(At(l))(i) {
      Distributes(i as real, Residual(ys, l)(i), At(l)(i));
    }
  }

  lemma {:induction false} SolutionIsNormal(ys: seq<real>, l: Line)
    requires Solves(|ys| as real, SumsOf(ys, |ys|), l)
    ensures Normal(ys, l)
  {
    SolutionMatches(ys, l, |ys|);
    ResidualsAdd(ys, l);
    SumAdds(Value(ys), Residual(ys, l), At(l), |ys|);
    SumAdds(Weighted(Value(ys)), Weighted(Residual(ys, l)), Weighted(At(l)), |ys|);
  }

  lemma {:induction false} FitIsNormal(ys: seq<real>)
    requires |ys| >= 2
    ensures Normal(ys, Fit(ys))
  {
    DenominatorPositive(ys);
    LineSolves(|ys| as real, SumsOf(ys, |ys|));
    SolutionIsNormal(ys, Fit(ys));
  }

  // ------------------------------------------------------------------
  // Comparing two lines
  // ------------------------------------------------------------------

  function Difference(l: Line, o: Line): Line {
    Line(l.slope - o.slope, l.intercept - o.intercept)
  }

  lemma {:induction false} CrossTerm(r: real, a: real, b: real, i: real)
    ensures Times(r, a + Times(b, i)) == Times(a, r) + Times(b, Times(i, r))
  {
  }

  lemma {:induction false} CrossTerms(r: nat -> real, d: Line)
    ensures IsSumOf(Product(r, At(d)), Scaled(d.intercept, r), Scaled(d.slope, Weighted(r)))
  {
    forall i: nat
      ensures Product(r, At(d))(i) == Scaled(d.intercept, r)(i) + Scaled(d.slope, Weighted(r))(i) {
      CrossTerm(r(i), d.intercept, d.slope, i as real);
    }
  }

  /** A residual that sums to zero, plain and weighted, is orthogonal to every line. */
  lemma {:induction false} CrossSum(r: nat -> real, d: Line, n: nat)
    requires Sum(r, n) == 0.0 && Sum(Weighted(r), n) == 0.0
    ensures Sum(Product(r, At(d)), n) == 0.0
  {
    CrossTerms(r, d);
    SumAdds(Product(r, At(d)), Scaled(d.intercept, r), Scaled(d.slope, Weighted(r)), n);
    SumScales(d.intercept, r, n);
    SumScales(d.slope, Weighted(r), n);
  }

  lemma {:induction false} ShiftTerm(l: Line, o: Line, i: real)
    ensures (l.intercept + Times(l.slope, i)) - (o.intercept + Times(o.slope, i))
         == Difference(l, o).intercept + Times(Difference(l, o).slope, i)
  {
  }

  lemma {:induction false} ResidualsShift(ys: seq<real>, l: Line, o: Line)
    ensures IsSumOf(Residual(ys, o), Residual(ys, l), At(Difference(l, o)))
  {
    forall i: nat ensures Residual(ys, o)(i) == Residual(ys, l)(i) + At(Difference(l, o))(i) {
      ShiftTerm(l, o, i as real);
      assert At(Difference(l, o))(i) == At(l)(i) - At(o)(i);
    }
  }

  /** The error of another line is that of a normal line plus the squares of their difference. */
  lemma {:induction false} ErrorGap(ys: seq<real>, l: Line, o: Line)
    requires Normal(ys, l)
    ensures Sse(ys, o) == Sse(ys, l) + Sum(Squared(At(Difference(l, o))), |ys|)
  {
    ResidualsShift(ys, l, o);
    SquaresShift(Residual(ys, o), Residual(ys, l), At(Difference(l, o)), |ys|);
    CrossSum(Residual(ys, l), Difference(l, o), |ys|);
  }

  lemma {:induction false} SomewhereApart(d: Line) returns (k: nat)
    requires d != Line(0.0, 0.0)
    ensures k < 2 && At(d)(k) != 0.0
  {
    k := if At(d)(0) != 0.0 then 0 else 1;
  }

  // ------------------------------------------------------------------
  // The properties
  // ------------------------------------------------------------------

  /** No line has a smaller sum of squared errors than the fit, and every other line has a larger one. */
  lemma {:induction false} FitIsBest(ys: seq<real>, other: Line)
    requires |ys| >= 2
    ensures Sse(ys, Fit(ys)) <= Sse(ys, other)
    ensures other != Fit(ys) ==> Sse(ys, Fit(ys)) < Sse(ys, other)
  {
    var d := Difference(Fit(ys), other);
    FitIsNormal(ys);
    ErrorGap(ys, Fit(ys), other);
    SumOfSquaresNonNegative(At(d), |ys|);
    if d != Line(0.0, 0.0) {
      var k := SomewhereApart(d);
      SumOfSquaresPositive(At(d), |ys|, k);
    }
  }

  ghost predicate OnLine(ys: seq<real>, l: Line) {
    forall i: nat {:trigger ys[i]} :: i < |ys| ==> ys[i] == At(l)(i)
  }

  lemma {:induction false} OnLineHasNoError(ys: seq<real>, l: Line, n: nat)
    requires OnLine(ys, l) && n <= |ys|
    ensures Sum(Squared(Residual(ys, l)), n) == 0.0
  {
    if n > 0 {
      OnLineHasNoError(ys, l, n - 1);
      assert ys[n - 1] == At(l)(n - 1);
      assert Residual(ys, l)(n - 1) == 0.0 && Times(0.0, 0.0) == 0.0;
    }
  }

  /** Readings that lie on a line give that line back. */
  lemma {:induction false} LineIsRecovered(ys: seq<real>, l: Line)
    requires |ys| >= 2 && OnLine(ys, l)
    ensures Fit(ys) == l
  {
    FitIsBest(ys, l);
    OnLineHasNoError(ys, l, |ys|);
    SumOfSquaresNonNegative(Residual(ys, Fit(ys)), |ys|);
  }
}
