/** Truncated Euclidean distance, the weight of every edge and the A* heuristic. */
module Distance {
  import opened Arithmetic

  /** The integer part of the square root: C's conversion of sqrt(n) to int. */
  function Isqrt(n: nat): nat {
    if n == 0 then 0 else
      var r := Isqrt(n - 1);
      if (r + 1) * (r + 1) <= n then r + 1 else r
  }

  lemma {:induction false} IsqrtBounds(n: nat)
    ensures var r := Isqrt(n); r * r <= n < (r + 1) * (r + 1)
  {
    if n > 0 {
      IsqrtBounds(n - 1);
    }
  }

  lemma IsqrtUnique(n: nat, r: nat)
    requires r * r <= n < (r + 1) * (r + 1)
    ensures Isqrt(n) == r
  {
    var q := Isqrt(n);
    IsqrtBounds(n);
    RootLess(q, r + 1);
    RootLess(r, q + 1);
  }

  function Square(n: int): nat {
    n * n
  }

  /** Squared distance of two points. */
  function Dist2(x1: int, y1: int, x2: int, y2: int): nat {
    Square(x2 - x1) + Square(y2 - y1)
  }

  function DistanceFormula(x1: int, y1: int, x2: int, y2: int): nat {
    Isqrt(Dist2(x1, y1, x2, y2))
  }

  /** r is the length of (dx, dy) without its fraction. */
  predicate IsLength(r: int, dx: int, dy: int) {
    r >= 0 && r * r <= dx * dx + dy * dy < (r + 1) * (r + 1)
  }

  /** The truncated distance is the length of the vector between the points, without its fraction. */
  lemma DistanceIs(x1: int, y1: int, x2: int, y2: int, r: nat)
    ensures r == DistanceFormula(x1, y1, x2, y2) <==>
            r * r <= (x2 - x1) * (x2 - x1) + (y2 - y1) * (y2 - y1) < (r + 1) * (r + 1)
  {
    IsqrtBounds(Dist2(x1, y1, x2, y2));
    if r * r <= Dist2(x1, y1, x2, y2) < (r + 1) * (r + 1) {
      IsqrtUnique(Dist2(x1, y1, x2, y2), r);
    }
  }

  /** |u| < r and |v| < s give |u + v| < r + s, without square roots. */
  lemma Triangle(ux: int, uy: int, vx: int, vy: int, r: nat, s: nat)
    requires ux * ux + uy * uy < r * r
    requires vx * vx + vy * vy < s * s
    ensures (ux + vx) * (ux + vx) + (uy + vy) * (uy + vy) < (r + s) * (r + s)
  {
    var a, b := ux * ux + uy * uy, vx * vx + vy * vy;
    var dot := ux * vx + uy * vy;
    CauchySchwarz(ux, uy, vx, vy);
    ProductBelow(a, b, r * r, s * s);
    assert (r * s) * (r * s) == (r * r) * (s * s);
    if dot >= 0 {
      RootLess(dot, r * s);
    }
    assert (ux + vx) * (ux + vx) + (uy + vy) * (uy + vy) == a + b + 2 * dot;
    assert (r + s) * (r + s) == r * r + s * s + 2 * (r * s);
  }

  lemma CauchySchwarz(ux: int, uy: int, vx: int, vy: int)
    ensures (ux * vx + uy * vy) * (ux * vx + uy * vy) <= (ux * ux + uy * uy) * (vx * vx + vy * vy)
  {
    var cross := ux * vy - uy * vx;
    assert (ux * ux + uy * uy) * (vx * vx + vy * vy)
        == (ux * vx + uy * vy) * (ux * vx + uy * vy) + cross * cross;
    assert cross * cross >= 0;
  }

  lemma RootLess(a: nat, b: nat)
    requires a * a < b * b
    ensures a < b
  {
    if b <= a {
      MulMono(b, a, b);
      MulMono(b, a, a);
    }
  }

  lemma ProductBelow(a: int, b: int, c: int, d: int)
    requires 0 <= a < c && 0 <= b < d
    ensures a * b < c * d
  {
    assert a * b <= a * d;
    assert a * d < c * d;
  }

  /** Truncation costs the triangle inequality at most one unit. */
  lemma TruncatedTriangle(ax: int, ay: int, bx: int, by_: int, cx: int, cy: int)
    ensures DistanceFormula(ax, ay, cx, cy)
         <= DistanceFormula(ax, ay, bx, by_) + DistanceFormula(bx, by_, cx, cy) + 1
  {
    var p := DistanceFormula(ax, ay, bx, by_);
    var q := DistanceFormula(bx, by_, cx, cy);
    IsqrtBounds(Dist2(ax, ay, bx, by_));
    IsqrtBounds(Dist2(bx, by_, cx, cy));
    IsqrtBounds(Dist2(ax, ay, cx, cy));
    Triangle(bx - ax, by_ - ay, cx - bx, cy - by_, p + 1, q + 1);
    var d := DistanceFormula(ax, ay, cx, cy);
    assert Dist2(ax, ay, cx, cy) < (p + 1 + q + 1) * (p + 1 + q + 1);
    RootLess(d, p + q + 2);
  }

  lemma DistanceSymmetric(ax: int, ay: int, bx: int, by_: int)
    ensures DistanceFormula(ax, ay, bx, by_) == DistanceFormula(bx, by_, ax, ay)
  {
    assert Square(bx - ax) == Square(ax - bx);
    assert Square(by_ - ay) == Square(ay - by_);
  }

  /** Distinct points are at truncated distance at least 1. */
  lemma DistancePositive(ax: int, ay: int, bx: int, by_: int)
    ensures DistanceFormula(ax, ay, bx, by_) >= 1 <==> (ax, ay) != (bx, by_)
  {
    var d := DistanceFormula(ax, ay, bx, by_);
    SquarePositive(bx - ax);
    SquarePositive(by_ - ay);
    if (ax, ay) == (bx, by_) {
      IsqrtUnique(0, 0);
    } else {
      assert Dist2(ax, ay, bx, by_) >= 1;
      IsqrtBounds(Dist2(ax, ay, bx, by_));
    }
  }

  lemma SquarePositive(n: int)
    ensures Square(n) >= 0
    ensures n != 0 ==> Square(n) >= 1
  {
    if n > 0 {
      MulMono(1, n, n);
    } else if n < 0 {
      MulMono(1, -n, -n);
      assert Square(n) == (-n) * (-n);
    }
  }
}
