/** What lineInCircle promises, that a segment meets a circle, and when its samples keep the promise. */
module LinePromise {
  import opened Arithmetic
  import opened Distance
  import opened LineProbe

  // ------------------------------------------------------------ segments and circles

  /** The point at parameter t of the segment lies in the circle. */
  ghost predicate Touches(xa: int, ya: int, xb: int, yb: int, xc: int, yc: int, r: int, t: real) {
    0.0 <= t <= 1.0
    && Near(xa as real + t * (xb - xa) as real - xc as real, ya as real + t * (yb - ya) as real - yc as real, r as real)
  }

  predicate Near(x: real, y: real, r: real) {
    x * x + y * y <= r * r
  }

  /** Some point of the segment lies in the circle. */
  ghost predicate Meets(xa: int, ya: int, xb: int, yb: int, xc: int, yc: int, r: int) {
    exists t: real :: Touches(xa, ya, xb, yb, xc, yc, r, t)
  }

  lemma MeetsSymmetric(xa: int, ya: int, xb: int, yb: int, xc: int, yc: int, r: int)
    requires Meets(xa, ya, xb, yb, xc, yc, r)
    ensures Meets(xb, yb, xa, ya, xc, yc, r)
  {
    var t :| Touches(xa, ya, xb, yb, xc, yc, r, t);
    OtherWay(xa, xb, t);
    OtherWay(ya, yb, t);
    assert Touches(xb, yb, xa, ya, xc, yc, r, 1.0 - t);
  }

  lemma OtherWay(a: int, b: int, t: real)
    ensures b as real + (1.0 - t) * (a - b) as real == a as real + t * (b - a) as real
  {
    var d := (b - a) as real;
    assert (a - b) as real == -d;
    assert (1.0 - t) * (-d) == t * d - d;
  }

  // ---------------------------------------------------------------- evenly spaced points

  /** One of the points a, a + v, .., a + n * v is in the circle. */
  ghost predicate OneIn(ax: int, ay: int, vx: int, vy: int, n: nat, xc: int, yc: int, r: int) {
    exists k: nat :: k <= n && PointIn(ax, ay, vx, vy, k, xc, yc, r)
  }

  predicate PointIn(ax: int, ay: int, vx: int, vy: int, k: nat, xc: int, yc: int, r: int) {
    InCircle(ax + k * vx, ay + k * vy, xc, yc, r)
  }

  lemma RealSquare(n: int)
    ensures (n as real) * (n as real) == Square(n) as real
  {
  }

  lemma NearOfIn(x: int, y: int, xc: int, yc: int, r: int)
    ensures InCircle(x, y, xc, yc, r) <==> Near((x - xc) as real, (y - yc) as real, r as real)
  {
    RealSquare(x - xc);
    RealSquare(y - yc);
    RealSquare(r);
    hide Square;
  }

  /** A point among them is a point of the segment. */
  lemma PointTouches(ax: int, ay: int, vx: int, vy: int, n: nat, k: nat, xc: int, yc: int, r: int)
    requires k <= n && n > 0 && PointIn(ax, ay, vx, vy, k, xc, yc, r)
    ensures Meets(ax, ay, ax + n * vx, ay + n * vy, xc, yc, r)
  {
    var t := (k as real) / (n as real);
    Share(vx, n, k, t);
    Share(vy, n, k, t);
    NearOfIn(ax + k * vx, ay + k * vy, xc, yc, r);
    assert 0.0 <= t <= 1.0;
    var X := ax as real + t * (ax + n * vx - ax) as real - xc as real;
    var Y := ay as real + t * (ay + n * vy - ay) as real - yc as real;
    assert X == (ax + k * vx - xc) as real && Y == (ay + k * vy - yc) as real;
    hide Near;
    assert Touches(ax, ay, ax + n * vx, ay + n * vy, xc, yc, r, t);
  }

  lemma Share(v: int, n: nat, k: nat, t: real)
    requires n > 0 && t == (k as real) / (n as real)
    ensures t * (n * v) as real == (k * v) as real
  {
    assert (n * v) as real == (n as real) * (v as real);
    assert (k * v) as real == (k as real) * (v as real);
    assert t * (n as real) == k as real;
  }

  // --------------------------------------------------------------------- small steps

  /** Squared distance from w to the point f * v of the line through v. */
  lemma Expand(wx: real, wy: real, vx: real, vy: real, f: real)
    ensures (wx - f * vx) * (wx - f * vx) + (wy - f * vy) * (wy - f * vy)
            == wx * wx + wy * wy - 2.0 * f * (wx * vx + wy * vy) + f * f * (vx * vx + vy * vy)
  {
    ExpandOne(wx, vx, f);
    ExpandOne(wy, vy, f);
    var a, b, c, d := wx * vx, wy * vy, vx * vx, vy * vy;
    assert f * (a + b) == f * a + f * b;
    assert (f * f) * (c + d) == (f * f) * c + (f * f) * d;
  }

  lemma ExpandOne(w: real, v: real, f: real)
    ensures (w - f * v) * (w - f * v) == w * w - 2.0 * (f * (w * v)) + (f * f) * (v * v)
  {
    var u := f * v;
    assert (w - u) * (w - u) == w * w - 2.0 * (w * u) + u * u;
    assert w * u == f * (w * v);
    assert u * u == (f * f) * (v * v);
  }

  /** Products in integers and in reals. */
  lemma RealInner(a: int, b: int, c: int, d: int)
    ensures (a * b + c * d) as real == (a as real) * (b as real) + (c as real) * (d as real)
  {
  }

  /** Unless the nearest point of the line is strictly between 0 and v, an end is as near as any point between. */
  lemma OutsideEnds(big: real, s: real, l: real, f: real)
    requires 0.0 <= f <= 1.0 && l >= 0.0
    ensures s <= 0.0 ==> big <= big - 2.0 * f * s + f * f * l
    ensures s >= l ==> big - 2.0 * s + l <= big - 2.0 * f * s + f * f * l
  {
    if s <= 0.0 {
      assert f * s <= 0.0;
      assert (f * f) * l >= 0.0;
    }
    if s >= l {
      var g := 1.0 - f;
      assert g * (s - l) >= 0.0;
      assert (g * g) * l >= 0.0;
      assert f * s == s - g * s;
      assert (f * f) * l == l - 2.0 * (g * l) + (g * g) * l;
    }
  }

  /** The line is no nearer than its perpendicular distance: l * distance is at least l * big - s * s. */
  lemma Perpendicular(big: real, s: real, l: real, f: real)
    ensures l * (big - 2.0 * f * s + f * f * l) >= l * big - s * s
  {
    var u := s - f * l;
    assert u * u >= 0.0;
    assert u * u == s * s - 2.0 * ((f * l) * s) + (f * l) * (f * l);
    assert l * (2.0 * f * s) == 2.0 * ((f * l) * s);
    assert l * (f * f * l) == (f * l) * (f * l);
  }

  /** Squared length of (x, y). */
  function Norm(x: int, y: int): int {
    x * x + y * y
  }

  /** Near to the point f * v, in terms of lengths and the inner product. */
  lemma NearMeans(wx: int, wy: int, vx: int, vy: int, f: real, r: int)
    requires Near(wx as real - f * vx as real, wy as real - f * vy as real, r as real)
    ensures Norm(wx, wy) as real - 2.0 * f * (wx * vx + wy * vy) as real + f * f * Norm(vx, vy) as real
            <= Square(r) as real
  {
    Expand(wx as real, wy as real, vx as real, vy as real, f);
    RealInner(wx, wx, wy, wy);
    RealInner(vx, vx, vy, vy);
    RealInner(wx, vx, wy, vy);
    RealSquare(r);
    hide Square;
  }

  /** A step too short to have a lattice point farther from both its ends than from the line through it. */
  predicate Short(vx: int, vy: int) {
    Norm(vx, vy) == 1 || Norm(vx, vy) == 2 || Norm(vx, vy) == 5
  }

  /** If the step is short, a circle around a lattice point that meets it contains one of its ends. */
  lemma EndsSuffice(wx: int, wy: int, vx: int, vy: int, f: real, r: int)
    requires 0.0 <= f <= 1.0 && Near(wx as real - f * vx as real, wy as real - f * vy as real, r as real)
    requires Short(vx, vy)
    ensures Norm(wx, wy) <= Square(r) || Norm(wx - vx, wy - vy) <= Square(r)
  {
    NearMeans(wx, wy, vx, vy, f, r);
    OtherEnd(wx, wy, vx, vy);
    EndsOf(Norm(wx, wy), wx * vx + wy * vy, Norm(vx, vy), f, Square(r));
    hide Norm;
    hide Square;
    hide Near;
  }

  lemma EndsOf(big: int, s: int, l: int, f: real, rr: int)
    requires 0.0 <= f <= 1.0 && (l == 1 || l == 2 || l == 5)
    requires big as real - 2.0 * f * s as real + f * f * l as real <= rr as real
    ensures big <= rr || big - 2 * s + l <= rr
  {
    OutsideEnds(big as real, s as real, l as real, f);
    if 0 < s < l {
      NotNearer(big, s, l, f, rr);
      BetweenEnds(big, s, l, rr);
    }
  }

  lemma NotNearer(big: int, s: int, l: int, f: real, rr: int)
    requires l > 0 && big as real - 2.0 * f * s as real + f * f * l as real <= rr as real
    ensures l * big - s * s <= l * rr
  {
    var near := big as real - 2.0 * f * s as real + f * f * l as real;
    Perpendicular(big as real, s as real, l as real, f);
    TimesPositive(near, rr as real, l as real);
    RealInner(l, big, -s, s);
    RealInner(l, rr, 0, 0);
  }

  lemma TimesPositive(a: real, b: real, l: real)
    requires a <= b && l > 0.0
    ensures l * a <= l * b
  {
  }

  lemma OtherEnd(wx: int, wy: int, vx: int, vy: int)
    ensures Norm(wx - vx, wy - vy) == Norm(wx, wy) - 2 * (wx * vx + wy * vy) + Norm(vx, vy)
  {
    assert (wx - vx) * (wx - vx) == wx * wx - 2 * (wx * vx) + vx * vx;
    assert (wy - vy) * (wy - vy) == wy * wy - 2 * (wy * vy) + vy * vy;
  }

  lemma BetweenEnds(big: int, s: int, l: int, rr: int)
    requires 0 < s < l && (l == 2 || l == 5) && l * big - s * s <= l * rr
    ensures big <= rr || big - 2 * s + l <= rr
  {
    if s >= 3 {
      assert s == 3 || s == 4;
    }
  }

  lemma MirroredIn(x: int, y: int, xc: int, yc: int, r: int)
    ensures InCircle(x, y, xc, yc, r) <==> Norm(xc - x, yc - y) <= Square(r)
  {
    assert (x - xc) * (x - xc) == (xc - x) * (xc - x);
    assert (y - yc) * (y - yc) == (yc - y) * (yc - y);
  }

  /** Where t lies among n equal steps: after k of them and a fraction f of the next. */
  lemma StepAt(n: nat, t: real) returns (k: nat, f: real)
    requires n > 0 && 0.0 <= t <= 1.0
    ensures k < n && 0.0 <= f <= 1.0 && t * n as real == k as real + f
  {
    var u := t * n as real;
    ShareBetween(t, n as real);
    k := if u.Floor == n then n - 1 else u.Floor;
    f := u - k as real;
  }

  lemma CoordinateAt(a: int, c: int, v: int, n: nat, t: real, k: nat, f: real)
    requires t * n as real == k as real + f
    ensures a as real + t * (a + n * v - a) as real - c as real == -((c - (a + k * v)) as real - f * v as real)
  {
    assert (n * v) as real == (n as real) * (v as real);
    assert (k * v) as real == (k as real) * (v as real);
    assert t * ((n as real) * (v as real)) == (t * n as real) * (v as real);
    assert (k as real + f) * (v as real) == (k as real) * (v as real) + f * (v as real);
  }

  /** Short steps leave no gap: a circle that meets the segment contains one of the points. */
  lemma NoGap(ax: int, ay: int, vx: int, vy: int, n: nat, xc: int, yc: int, r: int)
    requires n > 0 && Short(vx, vy) && Meets(ax, ay, ax + n * vx, ay + n * vy, xc, yc, r)
    ensures OneIn(ax, ay, vx, vy, n, xc, yc, r)
  {
    hide Near;
    hide Short;
    hide Norm;
    hide InCircle;
    var t :| Touches(ax, ay, ax + n * vx, ay + n * vy, xc, yc, r, t);
    var k, f := StepAt(n, t);
    CoordinateAt(ax, xc, vx, n, t, k, f);
    CoordinateAt(ay, yc, vy, n, t, k, f);
    var wx, wy := xc - (ax + k * vx), yc - (ay + k * vy);
    MirrorNear(-(wx as real - f * vx as real), -(wy as real - f * vy as real), r as real);
    EndsSuffice(wx, wy, vx, vy, f, r);
    MirroredIn(ax + k * vx, ay + k * vy, xc, yc, r);
    NextPoint(k, vx);
    NextPoint(k, vy);
    MirroredIn(ax + (k + 1) * vx, ay + (k + 1) * vy, xc, yc, r);
    assert xc - (ax + (k + 1) * vx) == wx - vx && yc - (ay + (k + 1) * vy) == wy - vy;
    assert PointIn(ax, ay, vx, vy, k, xc, yc, r) || PointIn(ax, ay, vx, vy, k + 1, xc, yc, r);
  }

  lemma NextPoint(k: nat, v: int)
    ensures (k + 1) * v == k * v + v
  {
  }

  /** With short steps, the points answer for the whole segment. */
  lemma ShortStepsExact(ax: int, ay: int, vx: int, vy: int, n: nat, xc: int, yc: int, r: int)
    requires n > 0 && Short(vx, vy)
    ensures OneIn(ax, ay, vx, vy, n, xc, yc, r) <==> Meets(ax, ay, ax + n * vx, ay + n * vy, xc, yc, r)
  {
    hide PointIn;
    hide Meets;
    if OneIn(ax, ay, vx, vy, n, xc, yc, r) {
      var k: nat :| k <= n && PointIn(ax, ay, vx, vy, k, xc, yc, r);
      PointTouches(ax, ay, vx, vy, n, k, xc, yc, r);
    }
    if Meets(ax, ay, ax + n * vx, ay + n * vy, xc, yc, r) {
      NoGap(ax, ay, vx, vy, n, xc, yc, r);
    }
  }

  // ------------------------------------------------------------------ when it is exact

  /** The code keeps its promise for this segment, whatever the circle. */
  ghost predicate KeepsPromise(xa: int, ya: int, xb: int, yb: int) {
    forall xc, yc, r :: Hits(xa, ya, xb, yb, xc, yc, r) <==> Meets(xa, ya, xb, yb, xc, yc, r)
  }

  /** Segments, by width and height, whose samples are lattice points in short steps from end to end. */
  predicate Exact(dx: nat, dy: nat) {
    if dx == 0 then dy < 20
    else if dx < 20 then dy == 0 || dy == dx || dy == 2 * dx
    else dx < 30 && 2 * dy == dx
  }

  lemma PointMeets(x: int, y: int, xc: int, yc: int, r: int)
    ensures InCircle(x, y, xc, yc, r) <==> Meets(x, y, x, y, xc, yc, r)
  {
    NearOfIn(x, y, xc, yc, r);
    hide Near;
    hide InCircle;
    if InCircle(x, y, xc, yc, r) {
      assert Touches(x, y, x, y, xc, yc, r, 0.0);
    }
    if t: real :| Touches(x, y, x, y, xc, yc, r, t) {
      assert Near((x - xc) as real, (y - yc) as real, r as real);
    }
  }

  lemma UprightExact(x: int, y1: int, y2: int, xc: int, yc: int, r: int)
    requires 0 <= y2 - y1 < 20
    ensures HitsUpright(x, y1, y2, xc, yc, r) <==> Meets(x, y1, x, y2, xc, yc, r)
  {
    hide Meets;
    hide InCircle;
    var n := y2 - y1;
    if n == 0 {
      PointMeets(x, y1, xc, yc, r);
    } else {
      ShortStepsExact(x, y1, 0, 1, n, xc, yc, r);
      UprightPoints(x, y1, n, xc, yc, r);
    }
    if n == 0 && InCircle(x, y1, xc, yc, r) {
      assert OnStride(y1, y1, 1);
    }
  }

  lemma UprightPoints(x: int, y1: int, n: nat, xc: int, yc: int, r: int)
    requires n < 20
    ensures HitsUpright(x, y1, y1 + n, xc, yc, r) <==> OneIn(x, y1, 0, 1, n, xc, yc, r)
  {
    hide InCircle;
    if y :| y1 <= y <= y1 + n && OnStride(y1, y, 1) && InCircle(x, y, xc, yc, r) {
      assert PointIn(x, y1, 0, 1, y - y1, xc, yc, r);
    }
    if k: nat :| k <= n && PointIn(x, y1, 0, 1, k, xc, yc, r) {
      assert OnStride(y1, y1 + k, 1) && InCircle(x, y1 + k, xc, yc, r);
    }
  }

  /** On a segment of n steps (vx, vy) every sample is a lattice point of it. */
  lemma SampleExact(x1: int, y1: int, vx: int, vy: int, n: nat, k: nat)
    requires n > 0 && vx > 0 && n * vx > 0
    ensures SampleY(x1, y1, x1 + n * vx, y1 + n * vy, x1 + k * vx) == y1 + k * vy
  {
    var d := n * vx;
    assert (n * vy) * (k * vx) == (k * vy) * d;
    assert (k * vy) * d + y1 * d == (y1 + k * vy) * d;
    TruncateMultiple(y1 + k * vy, d);
  }

  lemma TruncateMultiple(z: int, d: int)
    requires d > 0
    ensures Truncate(z * d, d) == z
  {
    TruncateBetween(z * d, d, z, z);
  }

  lemma SlopedPoints(x1: int, y1: int, vx: int, vy: int, n: nat, xc: int, yc: int, r: int)
    requires n > 0 && vx > 0 && n * vx > 0 && Stride(n * vx) == vx
    ensures HitsSloped(x1, y1, x1 + n * vx, y1 + n * vy, xc, yc, r) <==> OneIn(x1, y1, vx, vy, n, xc, yc, r)
  {
    hide InCircle;
    hide SampleY;
    hide Stride;
    var x2, y2 := x1 + n * vx, y1 + n * vy;
    if x :| x1 <= x <= x2 && OnStride(x1, x, vx) && InCircle(x, SampleY(x1, y1, x2, y2, x), xc, yc, r) {
      var k := (x - x1) / vx;
      StridePoint(x1, x, vx, n);
      SampleExact(x1, y1, vx, vy, n, k);
      assert PointIn(x1, y1, vx, vy, k, xc, yc, r);
    }
    if k: nat :| k <= n && PointIn(x1, y1, vx, vy, k, xc, yc, r) {
      SampleExact(x1, y1, vx, vy, n, k);
      PointOnStride(x1, k, vx, n);
    }
  }

  lemma StridePoint(x1: int, x: int, v: int, n: nat)
    requires v > 0 && x1 <= x <= x1 + n * v && OnStride(x1, x, v)
    ensures var k := (x - x1) / v; 0 <= k <= n && x == x1 + k * v
  {
    var k := (x - x1) / v;
    assert x - x1 == k * v;
    FactorOrder(k, n, v);
  }

  lemma PointOnStride(x1: int, k: nat, v: int, n: nat)
    requires v > 0 && k <= n
    ensures OnStride(x1, x1 + k * v, v) && x1 <= x1 + k * v <= x1 + n * v
  {
    ModIs(k * v, k, 0, v);
    MulMono(0, k, v);
    MulMono(k, n, v);
  }

  /** The steps of a segment that is exact. */
  lemma StepsOf(x1: int, y1: int, x2: int, y2: int) returns (vx: int, vy: int, n: nat)
    requires x1 < x2 && Exact(x2 - x1, Abs(y2 - y1))
    ensures n > 0 && vx > 0 && x2 == x1 + n * vx && y2 == y1 + n * vy && Stride(x2 - x1) == vx && Short(vx, vy)
  {
    var dx, dy := x2 - x1, y2 - y1;
    if dx < 20 {
      vx, n := 1, dx;
      vy := if dy == 0 then 0 else if dy == dx then 1 else if dy == -dx then -1 else if dy == 2 * dx then 2 else -2;
    } else {
      vx, n := 2, dx / 2;
      vy := if dy > 0 then 1 else -1;
    }
  }

  lemma SlopedExact(x1: int, y1: int, x2: int, y2: int, xc: int, yc: int, r: int)
    requires x1 < x2 && Exact(x2 - x1, Abs(y2 - y1))
    ensures HitsSloped(x1, y1, x2, y2, xc, yc, r) <==> Meets(x1, y1, x2, y2, xc, yc, r)
  {
    var vx, vy, n := StepsOf(x1, y1, x2, y2);
    hide HitsSloped;
    hide Meets;
    hide OneIn;
    hide Short;
    SlopedPoints(x1, y1, vx, vy, n, xc, yc, r);
    ShortStepsExact(x1, y1, vx, vy, n, xc, yc, r);
  }

  // -------------------------------------------------------------- when it is not exact

  /** A circle of radius 0 is its centre. */
  lemma NearNothing(x: real, y: real)
    requires Near(x, y, 0 as real)
    ensures x == 0.0 && y == 0.0
  {
    var a := SquareSign(x);
    var b := SquareSign(y);
  }

  /** Truncation takes the first sample off the segment, onto a lattice point that the segment misses. */
  lemma OffSegment(x1: int, y1: int, dx: int, dy: int, n: int, yc: int)
    requires dx > 0 && (n * dy) % dx != 0
    ensures !Meets(x1, y1, x1 + dx, y1 + dy, x1 + n, yc, 0)
  {
    hide Meets;
    if n * dy == (yc - y1) * dx {
      ModIs(n * dy, yc - y1, 0, dx);
    } else {
      OffPoint(x1, y1, dx, dy, x1 + n, yc);
    }
  }

  /** A lattice point that is out of proportion is not on the segment. */
  lemma OffPoint(x1: int, y1: int, dx: int, dy: int, xc: int, yc: int)
    requires (xc - x1) * dy != (yc - y1) * dx
    ensures !Meets(x1, y1, x1 + dx, y1 + dy, xc, yc, 0)
  {
    hide Touches;
    if Meets(x1, y1, x1 + dx, y1 + dy, xc, yc, 0) {
      var t :| Touches(x1, y1, x1 + dx, y1 + dy, xc, yc, 0, t);
      AtCentre(x1, y1, dx, dy, xc, yc, t);
      ProportionOf(dx, dy, xc - x1, yc - y1, t);
    }
  }

  /** A point of the segment in a circle of radius 0. */
  lemma AtCentre(x1: int, y1: int, dx: int, dy: int, xc: int, yc: int, t: real)
    requires Touches(x1, y1, x1 + dx, y1 + dy, xc, yc, 0, t)
    ensures t * dx as real == (xc - x1) as real && t * dy as real == (yc - y1) as real
  {
    hide Near;
    var x := x1 as real + t * (x1 + dx - x1) as real - xc as real;
    var y := y1 as real + t * (y1 + dy - y1) as real - yc as real;
    assert Near(x, y, 0 as real);
    NearNothing(x, y);
    assert x1 + dx - x1 == dx && y1 + dy - y1 == dy;
  }

  lemma ProportionOf(dx: int, dy: int, n: int, z: int, t: real)
    requires t * dx as real == n as real && t * dy as real == z as real
    ensures n * dy == z * dx
  {
    assert (t * dx as real) * dy as real == (t * dy as real) * dx as real;
    assert (n * dy) as real == n as real * dy as real;
    assert (z * dx) as real == z as real * dx as real;
  }

  /** A circle that meets the step (p, q) at the fraction f and contains none of the points spaced by such steps. */
  ghost predicate Missed(p: int, q: int, cx: int, cy: int, r: nat, f: real) {
    0.0 <= f <= 1.0 && Near(cx as real - f * p as real, cy as real - f * q as real, r as real)
    && forall k: nat :: Norm(cx - k * p, cy - k * q) > Square(r)
  }

  /** A step that is not short has such a circle: around a lattice point on the step or beside its middle. */
  lemma MissedCentre(p: int, q: int) returns (cx: int, cy: int, r: nat, f: real)
    requires p > 0 && !Short(p, q)
    ensures Missed(p, q, cx, cy, r, f)
  {
    if q == 0 {
      cx, cy, r, f := 1, 0, 0, 1.0 / (p as real);
      MissedLevel(p);
    } else {
      hide Missed;
      hide Short;
      cx, cy, f := (p + p % 2) / 2, if q > 0 then q / 2 else -(-q / 2), 0.5;
      r := if p % 2 == 0 && Abs(q) % 2 == 0 then 0 else 1;
      MissedSloped(p, q, cx, cy, r);
    }
  }

  lemma MissedLevel(p: int)
    requires p > 0 && !Short(p, 0)
    ensures Missed(p, 0, 1, 0, 0, 1.0 / (p as real))
  {
    assert p >= 2;
    hide Short;
    hide Norm;
    hide Square;
    var f := 1.0 / (p as real);
    assert f * p as real == 1.0 && 0.0 <= f <= 1.0;
    forall k: nat
      ensures Norm(1 - k * p, 0 - k * 0) > Square(0)
    {
      NotOne(k, p);
      LongSide(1 - k * p, 0);
      assert Square(0) == 0;
    }
  }

  lemma MissedSloped(p: int, q: int, cx: int, cy: int, r: nat)
    requires p > 0 && q != 0 && !Short(p, q)
    requires cx == (p + p % 2) / 2 && cy == if q > 0 then q / 2 else -(-q / 2)
    requires r == if p % 2 == 0 && Abs(q) % 2 == 0 then 0 else 1
    ensures Missed(p, q, cx, cy, r, 0.5)
  {
    HalfAway(cx, p);
    HalfAway(cy, q);
    NearHalf(cx as real - 0.5 * p as real, cy as real - 0.5 * q as real, r);
    hide Short;
    hide Norm;
    hide Near;
    forall k: nat
      ensures Norm(cx - k * p, cy - k * q) > Square(r)
    {
      MissedPoint(p, q, cx, cy, k);
      assert Square(0) == 0 && Square(1) == 1;
    }
  }

  lemma NotOne(k: nat, p: int)
    requires p >= 2
    ensures k * p != 1
  {
    if k >= 1 {
      MulMono(1, k, p);
    }
  }

  lemma HalfAway(c: int, p: int)
    requires -1 <= 2 * c - p <= 1
    ensures var x := c as real - 0.5 * p as real; (-0.5 == x || x == 0.5 || x == 0.0) && (2 * c == p ==> x == 0.0)
  {
    assert (2 * c - p) as real == 2.0 * (c as real - 0.5 * p as real);
  }

  lemma NearHalf(x: real, y: real, r: nat)
    requires (x == -0.5 || x == 0.5 || x == 0.0) && (y == -0.5 || y == 0.5 || y == 0.0)
    requires r == 1 || (x == 0.0 && y == 0.0)
    ensures Near(x, y, r as real)
  {
    assert x * x <= 0.25 && y * y <= 0.25;
    assert (r as real) * (r as real) >= 0.0;
  }

  lemma MissedPoint(p: int, q: int, cx: int, cy: int, k: nat)
    requires p > 0 && q != 0 && !Short(p, q)
    requires cx == (p + p % 2) / 2 && cy == if q > 0 then q / 2 else -(-q / 2)
    ensures Norm(cx - k * p, cy - k * q) > 1 || (p % 2 == 0 && Abs(q) % 2 == 0 && Norm(cx - k * p, cy - k * q) > 0)
  {
    var u, v := cx - k * p, cy - k * q;
    if k == 0 {
      MissedFirst(p, q, cx, cy);
    } else if k == 1 {
      MissedSecond(p, q, cx, cy);
    } else {
      FarOff(q, cy, k);
      LongSide(u, v);
    }
  }

  /** A side of at least 2, or two sides of at least 1. */
  lemma LongSide(u: int, v: int)
    ensures Abs(u) >= 2 || Abs(v) >= 2 || (u != 0 && v != 0) ==> Norm(u, v) > 1
    ensures u != 0 || v != 0 ==> Norm(u, v) > 0
  {
    SideSquare(u);
    SideSquare(v);
  }

  lemma SideSquare(u: int)
    ensures u * u >= 0 && (u != 0 ==> u * u >= 1) && (Abs(u) >= 2 ==> u * u >= 4) && (Abs(u) >= 3 ==> u * u >= 9)
  {
    var a := Abs(u);
    assert u * u == a * a;
    if a >= 3 {
      MulMono(3, a, a);
    } else if a == 2 {
      MulMono(2, a, a);
    }
  }

  lemma UnitSteps(p: int, q: int)
    ensures 1 <= p <= 2 && Abs(q) == 1 ==> Short(p, q)
    ensures p == 1 && Abs(q) == 2 ==> Short(p, q)
  {
  }

  lemma MissedFirst(p: int, q: int, cx: int, cy: int)
    requires p > 0 && q != 0 && !Short(p, q)
    requires cx == (p + p % 2) / 2 && cy == if q > 0 then q / 2 else -(-q / 2)
    ensures Norm(cx, cy) > 1
  {
    UnitSteps(p, q);
    LongSide(cx, cy);
  }

  lemma MissedSecond(p: int, q: int, cx: int, cy: int)
    requires p > 0 && q != 0 && !Short(p, q)
    requires cx == (p + p % 2) / 2 && cy == if q > 0 then q / 2 else -(-q / 2)
    ensures Norm(cx - p, cy - q) > 1
  {
    UnitSteps(p, q);
    LongSide(cx - p, cy - q);
  }

  lemma FarOff(q: int, cy: int, k: nat)
    requires k >= 2 && q != 0 && cy == if q > 0 then q / 2 else -(-q / 2)
    ensures Abs(cy - k * q) >= 2
  {
    if q > 0 {
      MulMono(2, k, q);
    } else {
      MulMono(2, k, -q);
      assert k * q == -(k * -q);
    }
  }

  /** A segment from left to right that is not exact, with a circle for which the answer is wrong. */
  lemma WrongSloped(x1: int, y1: int, x2: int, y2: int) returns (xc: int, yc: int, r: int)
    requires x1 < x2 && !Exact(x2 - x1, Abs(y2 - y1))
    ensures HitsSloped(x1, y1, x2, y2, xc, yc, r) <==> !Meets(x1, y1, x2, y2, xc, yc, r)
  {
    var dx, dy := x2 - x1, y2 - y1;
    var n := Stride(dx);
    if (n * dy) % dx != 0 {
      xc, yc, r := x1 + n, SampleY(x1, y1, x2, y2, x1 + n), 0;
      FirstSampleHits(x1, y1, x2, y2);
      OffSegment(x1, y1, dx, dy, n, yc);
    } else if dx % n != 0 {
      xc, yc, r := x2, y2, 0;
      EndMissed(x1, y1, x2, y2);
    } else {
      var k, q := CommonStep(dx, dy, n);
      if Short(n, q) {
        ShortIsExact(k, n, q);
      }
      hide Stride;
      hide Short;
      xc, yc, r := WrongBetween(x1, y1, n, q, k);
    }
  }

  lemma FirstSampleHits(x1: int, y1: int, x2: int, y2: int)
    requires x1 < x2
    ensures var x := x1 + Stride(x2 - x1); HitsSloped(x1, y1, x2, y2, x, SampleY(x1, y1, x2, y2, x), 0)
  {
    var n := Stride(x2 - x1);
    var x := x1 + n;
    NextOnStride(x1, x1, n);
    assert InCircle(x, SampleY(x1, y1, x2, y2, x), x, SampleY(x1, y1, x2, y2, x), 0);
    hide SampleY;
  }

  /** Samples that do not reach the far end miss it. */
  lemma EndMissed(x1: int, y1: int, x2: int, y2: int)
    requires x1 < x2 && (x2 - x1) % Stride(x2 - x1) != 0
    ensures Meets(x1, y1, x2, y2, x2, y2, 0)
    ensures !HitsSloped(x1, y1, x2, y2, x2, y2, 0)
  {
    hide SampleY;
    hide Stride;
    assert Touches(x1, y1, x2, y2, x2, y2, 0, 1.0);
    forall x, y | InCircle(x, y, x2, y2, 0)
      ensures x == x2
    {
      SideSquare(x - x2);
      SideSquare(y - y2);
    }
  }

  /** A segment whose samples are all exact is a whole number of equal lattice steps. */
  lemma CommonStep(dx: int, dy: int, n: int) returns (k: nat, q: int)
    requires dx > 0 && n > 0 && dx % n == 0 && (n * dy) % dx == 0
    ensures k > 0 && dx == k * n && dy == k * q
  {
    k, q := dx / n, (n * dy) / dx;
    assert dx == k * n && n * dy == q * dx;
    assert (k * q) * n == q * dx;
    Cancel(dy, k * q, n);
  }

  lemma Cancel(a: int, b: int, d: nat)
    requires d > 0 && a * d == b * d
    ensures a == b
  {
    FactorOrder(a, b, d);
    FactorOrder(b, a, d);
  }

  lemma ShortIsExact(k: nat, n: nat, q: int)
    requires k > 0 && n > 0 && Short(n, q) && Stride(k * n) == n
    ensures Exact(k * n, Abs(k * q))
  {
    SideSquare(n);
    SideSquare(q);
  }

  /** Between two samples whose step is not short there is a circle that meets the segment and contains no sample. */
  lemma WrongBetween(x1: int, y1: int, p: int, q: int, n: nat) returns (xc: int, yc: int, r: int)
    requires n > 0 && p > 0 && n * p > 0 && Stride(n * p) == p && !Short(p, q)
    ensures Meets(x1, y1, x1 + n * p, y1 + n * q, xc, yc, r)
    ensures !HitsSloped(x1, y1, x1 + n * p, y1 + n * q, xc, yc, r)
  {
    hide Norm;
    hide Near;
    hide InCircle;
    hide HitsSloped;
    hide Short;
    hide Stride;
    hide Square;
    var cx, cy, s, f := MissedCentre(p, q);
    xc, yc, r := x1 + cx, y1 + cy, s;
    SlopedPoints(x1, y1, p, q, n, xc, yc, r);
    MeetsFirstStep(x1, y1, p, q, n, cx, cy, s, f);
    forall k: nat | k <= n
      ensures !PointIn(x1, y1, p, q, k, xc, yc, r)
    {
      MirroredIn(x1 + k * p, y1 + k * q, xc, yc, r);
      assert Norm(cx - k * p, cy - k * q) > Square(s);
      assert xc - (x1 + k * p) == cx - k * p && yc - (y1 + k * q) == cy - k * q;
    }
  }

  /** The first of n steps holds the point at the fraction f of it. */
  lemma MeetsFirstStep(x1: int, y1: int, p: int, q: int, n: nat, cx: int, cy: int, r: nat, f: real)
    requires n > 0 && 0.0 <= f <= 1.0 && Near(cx as real - f * p as real, cy as real - f * q as real, r as real)
    ensures Meets(x1, y1, x1 + n * p, y1 + n * q, x1 + cx, y1 + cy, r)
  {
    var t := f / (n as real);
    assert t * n as real == f;
    assert 0.0 <= t <= 1.0;
    CoordinateAt(x1, x1 + cx, p, n, t, 0, f);
    CoordinateAt(y1, y1 + cy, q, n, t, 0, f);
    MirrorNear(cx as real - f * p as real, cy as real - f * q as real, r as real);
    hide Near;
    assert x1 + cx - (x1 + 0 * p) == cx && y1 + cy - (y1 + 0 * q) == cy;
    assert Touches(x1, y1, x1 + n * p, y1 + n * q, x1 + cx, y1 + cy, r, t);
  }

  lemma MirrorNear(x: real, y: real, r: real)
    requires Near(x, y, r)
    ensures Near(-x, -y, r)
  {
    SquareOfMinus(x);
    SquareOfMinus(y);
  }

  /** On an upright segment with samples 2 or more apart, the second lattice point is missed. */
  lemma WrongUpright(x: int, y1: int, y2: int)
    requires y2 - y1 >= 20
    ensures Meets(x, y1, x, y2, x, y1 + 1, 0)
    ensures !HitsUpright(x, y1, y2, x, y1 + 1, 0)
  {
    assert PointIn(x, y1, 0, 1, 1, x, y1 + 1, 0);
    PointTouches(x, y1, 0, 1, y2 - y1, 1, x, y1 + 1, 0);
    var yc := y1 + 1;
    forall y | InCircle(x, y, x, yc, 0)
      ensures y == yc
    {
      SideSquare(y - yc);
    }
    hide InCircle;
    assert Stride(y2 - y1) >= 2;
    ModIs(1, 0, 1, Stride(y2 - y1));
  }

  // --------------------------------------------------------------------- main results

  /** For one segment, the answer is right for every circle exactly when the segment is one of those of Exact. */
  lemma PromiseKept(xa: int, ya: int, xb: int, yb: int)
    ensures KeepsPromise(xa, ya, xb, yb) <==> Exact(Abs(xb - xa), Abs(yb - ya))
  {
    if Exact(Abs(xb - xa), Abs(yb - ya)) {
      forall xc, yc, r
        ensures Hits(xa, ya, xb, yb, xc, yc, r) <==> Meets(xa, ya, xb, yb, xc, yc, r)
      {
        ExactAnswer(xa, ya, xb, yb, xc, yc, r);
      }
    } else {
      var xc, yc, r := WrongAnswer(xa, ya, xb, yb);
      hide Hits;
      hide Meets;
      hide Exact;
    }
  }

  lemma MeetsEitherWay(xa: int, ya: int, xb: int, yb: int, xc: int, yc: int, r: int)
    ensures Meets(xa, ya, xb, yb, xc, yc, r) <==> Meets(xb, yb, xa, ya, xc, yc, r)
  {
    hide Meets;
    if Meets(xa, ya, xb, yb, xc, yc, r) {
      MeetsSymmetric(xa, ya, xb, yb, xc, yc, r);
    }
    if Meets(xb, yb, xa, ya, xc, yc, r) {
      MeetsSymmetric(xb, yb, xa, ya, xc, yc, r);
    }
  }

  lemma ExactAnswer(xa: int, ya: int, xb: int, yb: int, xc: int, yc: int, r: int)
    requires Exact(Abs(xb - xa), Abs(yb - ya))
    ensures Hits(xa, ya, xb, yb, xc, yc, r) <==> Meets(xa, ya, xb, yb, xc, yc, r)
  {
    hide Meets;
    hide HitsSloped;
    hide HitsUpright;
    MeetsEitherWay(xa, ya, xb, yb, xc, yc, r);
    if xa < xb {
      SlopedExact(xa, ya, xb, yb, xc, yc, r);
    } else if xb < xa {
      SlopedExact(xb, yb, xa, ya, xc, yc, r);
    } else if ya <= yb {
      UprightExact(xa, ya, yb, xc, yc, r);
    } else {
      UprightExact(xa, yb, ya, xc, yc, r);
    }
  }

  lemma WrongAnswer(xa: int, ya: int, xb: int, yb: int) returns (xc: int, yc: int, r: int)
    requires !Exact(Abs(xb - xa), Abs(yb - ya))
    ensures Hits(xa, ya, xb, yb, xc, yc, r) <==> !Meets(xa, ya, xb, yb, xc, yc, r)
  {
    hide Meets;
    hide HitsSloped;
    hide HitsUpright;
    if xa < xb {
      xc, yc, r := WrongSloped(xa, ya, xb, yb);
    } else if xb < xa {
      xc, yc, r := WrongSloped(xb, yb, xa, ya);
    } else if ya <= yb {
      xc, yc, r := xa, ya + 1, 0;
      WrongUpright(xa, ya, yb);
    } else {
      xc, yc, r := xa, yb + 1, 0;
      WrongUpright(xa, yb, ya);
    }
    MeetsEitherWay(xa, ya, xb, yb, xc, yc, r);
  }

  // --------------------------------------------------------- whatever the samples' ordinates

  /** Some sample of the segment is in the circle, when the ordinates are computed by ys. */
  ghost predicate HitsSampled(ys: int -> int, x1: int, x2: int, xc: int, yc: int, r: int)
    requires x1 < x2
  {
    exists x :: x1 <= x <= x2 && OnStride(x1, x, Stride(x2 - x1)) && InCircle(x, ys(x), xc, yc, r)
  }

  ghost predicate RightForAll(ys: int -> int, x1: int, y1: int, x2: int, y2: int)
    requires x1 < x2
  {
    forall xc, yc, r :: HitsSampled(ys, x1, x2, xc, yc, r) <==> Meets(x1, y1, x2, y2, xc, yc, r)
  }

  /** The ordinates are those of the exact quotients, truncated. */
  ghost predicate Faithful(ys: int -> int, x1: int, y1: int, x2: int, y2: int)
    requires x1 < x2
  {
    forall x :: x1 <= x <= x2 && OnStride(x1, x, Stride(x2 - x1)) ==> ys(x) == SampleY(x1, y1, x2, y2, x)
  }

  /** A sample that is not on the segment is itself a circle of radius 0 that the segment does not meet. */
  lemma SampleOnSegment(ys: int -> int, x1: int, y1: int, x2: int, y2: int, x: int)
    requires x1 < x2 && RightForAll(ys, x1, y1, x2, y2) && x1 <= x <= x2 && OnStride(x1, x, Stride(x2 - x1))
    ensures ys(x) == SampleY(x1, y1, x2, y2, x)
  {
    hide Meets;
    hide Stride;
    hide OnStride;
    var dx, dy, y := x2 - x1, y2 - y1, ys(x);
    assert InCircle(x, y, x, y, 0);
    assert HitsSampled(ys, x1, x2, x, y, 0);
    if (x - x1) * dy != (y - y1) * dx {
      OffPoint(x1, y1, dx, dy, x, y);
    }
    Proportional(x1, y1, dx, dy, x, y);
  }

  lemma Proportional(x1: int, y1: int, dx: int, dy: int, x: int, y: int)
    requires dx > 0 && (x - x1) * dy == (y - y1) * dx
    ensures SampleY(x1, y1, x1 + dx, y1 + dy, x) == y
  {
    assert dy * (x - x1) + y1 * dx == y * dx;
    TruncateMultiple(y, dx);
  }

  lemma FaithfulHits(ys: int -> int, x1: int, y1: int, x2: int, y2: int, xc: int, yc: int, r: int)
    requires x1 < x2 && Faithful(ys, x1, y1, x2, y2)
    ensures HitsSampled(ys, x1, x2, xc, yc, r) <==> HitsSloped(x1, y1, x2, y2, xc, yc, r)
  {
    hide InCircle;
    hide SampleY;
    hide Stride;
    hide OnStride;
  }

  /**
   * However the ordinates of the samples are rounded, the answer is right for every circle exactly when the segment
   * is one of those of Exact and no ordinate differs from the exact one.
   */
  lemma AnySampling(ys: int -> int, x1: int, y1: int, x2: int, y2: int)
    requires x1 < x2
    ensures RightForAll(ys, x1, y1, x2, y2) <==> Exact(x2 - x1, Abs(y2 - y1)) && Faithful(ys, x1, y1, x2, y2)
  {
    hide Meets;
    hide HitsSloped;
    hide HitsSampled;
    hide Exact;
    if RightForAll(ys, x1, y1, x2, y2) {
      forall x | x1 <= x <= x2 && OnStride(x1, x, Stride(x2 - x1))
        ensures ys(x) == SampleY(x1, y1, x2, y2, x)
      {
        SampleOnSegment(ys, x1, y1, x2, y2, x);
      }
      if !Exact(x2 - x1, Abs(y2 - y1)) {
        var xc, yc, r := WrongSloped(x1, y1, x2, y2);
        FaithfulHits(ys, x1, y1, x2, y2, xc, yc, r);
      }
    }
    if Exact(x2 - x1, Abs(y2 - y1)) && Faithful(ys, x1, y1, x2, y2) {
      forall xc, yc, r
        ensures HitsSampled(ys, x1, x2, xc, yc, r) <==> Meets(x1, y1, x2, y2, xc, yc, r)
      {
        FaithfulHits(ys, x1, y1, x2, y2, xc, yc, r);
        SlopedExact(x1, y1, x2, y2, xc, yc, r);
      }
    }
  }
}
