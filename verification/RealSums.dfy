/** Finite sums of reals over positions, and the little algebra the statistics need. */
module RealSums {

  function Value(ys: seq<real>): nat -> real {
    (i: nat) => if i < |ys| then ys[i] else 0.0
  }

  function Sum(f: nat -> real, n: nat): real {
    if n == 0 then 0.0 else Sum(f, n - 1) + f(n - 1)
  }

  ghost predicate IsSumOf(f: nat -> real, g: nat -> real, h: nat -> real) {
    forall i: nat {:trigger f(i)} :: f(i) == g(i) + h(i)
  }

  lemma {:induction false} SumAdds(f: nat -> real, g: nat -> real, h: nat -> real, n: nat)
    requires IsSumOf(f, g, h)
    ensures Sum(f, n) == Sum(g, n) + Sum(h, n)
  {
    if n > 0 {
      SumAdds(f, g, h, n - 1);
      assert f(n - 1) == g(n - 1) + h(n - 1);
    }
  }

  function Times(x: real, y: real): real {
    x * y
  }

  function Scaled(k: real, f: nat -> real): nat -> real {
    (i: nat) => Times(k, f(i))
  }

  lemma {:induction false} Distributes(k: real, a: real, b: real)
    ensures Times(k, a + b) == Times(k, a) + Times(k, b)
  {
  }

  lemma {:induction false} SumScales(k: real, f: nat -> real, n: nat)
    ensures Sum(Scaled(k, f), n) == Times(k, Sum(f, n))
  {
    if n > 0 {
      SumScales(k, f, n - 1);
      Distributes(k, Sum(f, n - 1), f(n - 1));
    }
  }

  lemma {:induction false} OneMore(c: real, u: real)
    ensures Times(u, c) + c == Times(u + 1.0, c)
  {
  }

  function One(): nat -> real {
    (i: nat) => 1.0
  }

  function Position(): nat -> real {
    (i: nat) => i as real
  }

  function Weighted(f: nat -> real): nat -> real {
    (i: nat) => Times(i as real, f(i))
  }

  function Squared(f: nat -> real): nat -> real {
    (i: nat) => Times(f(i), f(i))
  }

  lemma {:induction false} SumOfOnes(n: nat)
    ensures Sum(One(), n) == n as real
  {
    if n > 0 {
      SumOfOnes(n - 1);
    }
  }

  lemma {:induction false} SumOfSquaresNonNegative(f: nat -> real, n: nat)
    ensures Sum(Squared(f), n) >= 0.0
  {
    if n > 0 {
      SumOfSquaresNonNegative(f, n - 1);
      SquareSign(f(n - 1));
    }
  }

  lemma {:induction false} ProductPositive(a: real, b: real)
    requires a > 0.0 && b > 0.0
    ensures Times(a, b) > 0.0
  {
  }

  lemma {:induction false} Below(k: real, a: real, b: real)
    requires k > 0.0 && a < b
    ensures Times(k, a) < Times(k, b)
  {
    ProductPositive(k, b - a);
    Distributes(k, a, b - a);
    assert a + (b - a) == b;
  }

  lemma {:induction false} Cancel(k: real, a: real, b: real)
    requires k > 0.0 && Times(k, a) <= Times(k, b)
    ensures a <= b
  {
    if b < a {
      Below(k, b, a);
    }
  }

  lemma {:induction false} SquareSign(x: real)
    ensures Times(x, x) >= 0.0 && (x != 0.0 ==> Times(x, x) > 0.0)
  {
    if x > 0.0 {
      ProductPositive(x, x);
    } else if x < 0.0 {
      var y := -x;
      ProductPositive(y, y);
      assert Times(x, x) == Times(y, y);
    }
  }

  lemma {:induction false} SumOfSquaresPositive(f: nat -> real, n: nat, k: nat)
    requires k < n && f(k) != 0.0
    ensures Sum(Squared(f), n) > 0.0
  {
    if k == n - 1 {
      SquareSign(f(k));
      SumOfSquaresNonNegative(f, k);
    } else {
      SquareSign(f(n - 1));
      SumOfSquaresPositive(f, n - 1, k);
    }
  }

  function Product(f: nat -> real, g: nat -> real): nat -> real {
    (i: nat) => Times(f(i), g(i))
  }

  lemma {:induction false} SquareOfSum(r: real, d: real)
    ensures Times(r + d, r + d) == Times(r, r) + (2.0 * Times(r, d) + Times(d, d))
  {
  }

  lemma {:induction false} SquaresShift(f: nat -> real, g: nat -> real, h: nat -> real, n: nat)
    requires IsSumOf(f, g, h)
    ensures Sum(Squared(f), n) == Sum(Squared(g), n) + 2.0 * Sum(Product(g, h), n) + Sum(Squared(h), n)
  {
    if n > 0 {
      SquaresShift(f, g, h, n - 1);
      assert f(n - 1) == g(n - 1) + h(n - 1);
      SquareOfSum(g(n - 1), h(n - 1));
    }
  }
}
