/** Facts about products, quotients and remainders. */
module Arithmetic {

  function Abs(n: int): (a: nat)
    ensures (a == n || a == -n) && a >= n && a >= -n
  {
    if n < 0 then -n else n
  }

  function Max(a: int, b: int): (m: int)
    ensures (m == a || m == b) && m >= a && m >= b
  {
    if a < b then b else a
  }

  lemma MulMono(a: int, b: int, c: nat)
    requires a <= b
    ensures a * c <= b * c
  {
  }

  lemma LessByFactor(a: int, b: int, d: nat)
    requires a * d < b * d
    ensures a < b
  {
    if b <= a {
      MulMono(b, a, d);
    }
  }

  lemma FactorOrder(a: int, b: int, d: nat)
    requires d > 0 && a * d <= b * d
    ensures a <= b
  {
    if b < a {
      MulMono(b + 1, a, d);
    }
  }

  /** Quotient and remainder are unique. */
  lemma DivModIs(a: int, q: int, r: int, n: nat)
    requires 0 <= r < n && a == q * n + r
    ensures a / n == q && a % n == r
  {
    var q', r' := a / n, a % n;
    assert a == q' * n + r';
    if q' < q {
      MulMono(q' + 1, q, n);
    } else if q < q' {
      MulMono(q + 1, q', n);
    }
  }

  lemma ModIs(a: int, q: int, r: int, n: nat)
    requires 0 <= r < n && a == q * n + r
    ensures a % n == r
  {
    DivModIs(a, q, r, n);
  }

  // ---------------------------------------------------------------------- real numbers

  lemma PositiveProduct(a: real, b: real)
    requires a > 0.0 && b > 0.0
    ensures a * b > 0.0
  {
  }

  lemma NotNegativeProduct(a: real, b: real)
    requires a >= 0.0 && b >= 0.0
    ensures a * b >= 0.0
  {
    if a > 0.0 && b > 0.0 {
      PositiveProduct(a, b);
    }
  }

  /** A product under a name of its own. */
  lemma Product(a: real, b: real) returns (p: real)
    ensures p == a * b && (a > 0.0 && b > 0.0 ==> p > 0.0)
  {
    p := a * b;
  }

  /** A square under a name of its own is positive but for that of 0. */
  lemma SquareSign(a: real) returns (s: real)
    ensures s == a * a && s >= 0.0 && (a != 0.0 ==> s > 0.0)
  {
    if a > 0.0 {
      s := Product(a, a);
    } else {
      s := Product(-a, -a);
    }
  }

  lemma SquareOfMinus(a: real)
    ensures (-a) * (-a) == a * a
  {
  }

  lemma SquaresApart(a: real, b: real)
    ensures (a - b) * (a + b) == a * a - b * b
  {
  }

  /** A share of d is no more than d. */
  lemma ShareBetween(t: real, d: real)
    requires 0.0 <= t <= 1.0 && d >= 0.0
    ensures 0.0 <= t * d <= d
  {
    NotNegativeProduct(t, d);
    NotNegativeProduct(1.0 - t, d);
    assert (1.0 - t) * d == d - t * d;
  }
}
