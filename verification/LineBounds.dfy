/** How far lineInCircle can be wrong: bounds in both directions that hold for every segment and circle. */
module LineBounds {
  import opened Arithmetic
  import opened Distance
  import opened LineProbe
  import opened LinePromise

  // -------------------------------------------------------------------- shifted points

  /** A point moved by at most e and g along the axes stays within a radius larger by e + g. */
  lemma Shifted(x: real, y: real, r: real, u: real, v: real, e: real, g: real)
    requires Near(x, y, r) && r >= 0.0 && -e <= u <= e && -g <= v <= g
    ensures Near(x + u, y + v, r + e + g)
  {
    WithinRadius(x, y, r);
    Cross(x, u, r, e);
    Cross(y, v, r, g);
    Cross(u, u, e, e);
    Cross(v, v, g, g);
    Cross(e, g, e, g);
    var s := x * x + y * y + 2.0 * (x * u) + 2.0 * (y * v) + u * u + v * v;
    assert (x + u) * (x + u) + (y + v) * (y + v) == s;
    assert (r + e + g) * (r + e + g) == r * r + e * e + g * g + 2.0 * (r * e) + 2.0 * (r * g) + 2.0 * (e * g);
    NotNegativeProduct(e, g);
  }

  lemma WithinRadius(x: real, y: real, r: real)
    requires Near(x, y, r) && r >= 0.0
    ensures -r <= x <= r && -r <= y <= r
  {
    SideWithin(x, y, r);
    SideWithin(y, x, r);
  }

  lemma SideWithin(x: real, y: real, r: real)
    requires x * x + y * y <= r * r && r >= 0.0
    ensures -r <= x <= r
  {
    assert y * y >= 0.0;
    LargerSquare(r, x);
    LargerSquare(r, -x);
    SquareOfMinus(x);
  }

  lemma LargerSquare(r: real, x: real)
    requires r >= 0.0
    ensures r < x ==> r * r < x * x
  {
    SquaresApart(x, r);
    if r < x {
      PositiveProduct(x - r, x + r);
    }
  }

  lemma Cross(a: real, b: real, r: real, e: real)
    requires -r <= a <= r && -e <= b <= e
    ensures a * b <= r * e
  {
    NotNegativeProduct(r - a, e + b);
    NotNegativeProduct(r + a, e - b);
    assert (r - a) * (e + b) + (r + a) * (e - b) == 2.0 * (r * e) - 2.0 * (a * b);
  }

  lemma Wider(x: real, y: real, r: real, s: real)
    requires Near(x, y, r) && 0.0 <= r <= s
    ensures Near(x, y, s)
  {
    NotNegativeProduct(s - r, s + r);
    SquaresApart(s, r);
  }

  lemma TouchesAt(xa: int, ya: int, xb: int, yb: int, xc: int, yc: int, r: int, t: real, x: real, y: real, s: real)
    requires 0.0 <= t <= 1.0 && Near(x, y, s) && s == r as real
    requires x == xa as real + t * (xb - xa) as real - xc as real
    requires y == ya as real + t * (yb - ya) as real - yc as real
    ensures Touches(xa, ya, xb, yb, xc, yc, r, t)
    ensures Meets(xa, ya, xb, yb, xc, yc, r)
  {
    assert Touches(xa, ya, xb, yb, xc, yc, r, t);
  }

  /** A sample, as a lattice point near the segment's own point above it. */
  lemma SampleNear(x1: int, y1: int, x2: int, y2: int, x: int, t: real)
    requires x1 < x2 && x1 <= x <= x2 && t == (x - x1) as real / (x2 - x1) as real
    ensures 0.0 <= t <= 1.0 && x1 as real + t * (x2 - x1) as real == x as real
    ensures -1.0 <= y1 as real + t * (y2 - y1) as real - SampleY(x1, y1, x2, y2, x) as real <= 1.0
  {
    var d, m := x2 - x1, (y2 - y1) * (x - x1) + y1 * (x2 - x1);
    var y := SampleY(x1, y1, x2, y2, x);
    TruncateNear(m, d);
    assert y == Truncate(m, d);
    hide SampleY;
    hide Truncate;
    ShareOf(x - x1, d, t);
    HeightTimes(x1, y1, d, y2 - y1, x, t);
    HeightNear(y1 as real + t * (y2 - y1) as real, y, d, m);
  }

  lemma ShareOf(a: nat, d: nat, t: real)
    requires d > 0 && a <= d && t == a as real / d as real
    ensures t * d as real == a as real && 0.0 <= t <= 1.0
  {
  }

  lemma HeightNear(h: real, y: int, d: int, m: int)
    requires d > 0 && h * d as real == m as real && -d <= m - y * d <= d
    ensures -1.0 <= h - y as real <= 1.0
  {
    RealInner(y, d, 0, 0);
    assert (h - y as real) * d as real == h * d as real - y as real * d as real;
    Divided(h - y as real, d as real, (m - y * d) as real, 1.0);
  }

  lemma TruncateNear(n: int, d: int)
    requires d > 0
    ensures -d <= n - Truncate(n, d) * d <= d
  {
    var q := n / d;
    if n < 0 {
      var p := (-n) / d;
      assert (-p) * d == -(p * d);
    }
  }

  lemma HeightTimes(x1: int, y1: int, d: int, dy: int, x: int, t: real)
    requires t * d as real == (x - x1) as real
    ensures (y1 as real + t * dy as real) * d as real == (dy * (x - x1) + y1 * d) as real
  {
    assert (dy * (x - x1)) as real == dy as real * (x - x1) as real;
    assert (y1 * d) as real == y1 as real * d as real;
    assert (t * dy as real) * d as real == dy as real * (t * d as real);
    assert (y1 as real + t * dy as real) * d as real == y1 as real * d as real + (t * dy as real) * d as real;
  }

  lemma Divided(g: real, d: real, m: real, c: real)
    requires d > 0.0 && g * d == m && -(c * d) <= m <= c * d
    ensures -c <= g <= c
  {
    Scaled(g, d, c);
    Scaled(-g, d, c);
    assert (-g) * d == -m;
  }

  lemma Scaled(g: real, d: real, c: real)
    requires d > 0.0
    ensures g > c ==> g * d > c * d
  {
    assert (g - c) * d == g * d - c * d;
    if g > c {
      PositiveProduct(g - c, d);
    }
  }

  // --------------------------------------------------------------- a hit is near the segment

  /** An answer of true is right for a circle of radius one more. */
  lemma HitIsNear(xa: int, ya: int, xb: int, yb: int, xc: int, yc: int, r: int)
    requires Hits(xa, ya, xb, yb, xc, yc, r)
    ensures Meets(xa, ya, xb, yb, xc, yc, Abs(r) + 1)
  {
    hide Meets;
    hide HitsSloped;
    hide HitsUpright;
    MeetsEitherWay(xa, ya, xb, yb, xc, yc, Abs(r) + 1);
    if xa < xb {
      SlopedHitIsNear(xa, ya, xb, yb, xc, yc, r);
    } else if xb < xa {
      SlopedHitIsNear(xb, yb, xa, ya, xc, yc, r);
    } else if ya <= yb {
      UprightHitIsNear(xa, ya, yb, xc, yc, r);
    } else {
      UprightHitIsNear(xa, yb, ya, xc, yc, r);
    }
  }

  lemma InAbs(x: int, y: int, xc: int, yc: int, r: int)
    requires InCircle(x, y, xc, yc, r)
    ensures Near((x - xc) as real, (y - yc) as real, Abs(r) as real)
  {
    assert Square(Abs(r)) == Square(r);
    NearOfIn(x, y, xc, yc, Abs(r));
  }

  lemma SlopedHitIsNear(x1: int, y1: int, x2: int, y2: int, xc: int, yc: int, r: int)
    requires x1 < x2 && HitsSloped(x1, y1, x2, y2, xc, yc, r)
    ensures Meets(x1, y1, x2, y2, xc, yc, Abs(r) + 1)
  {
    hide SampleY;
    hide InCircle;
    hide Near;
    hide Stride;
    hide OnStride;
    var x :| x1 <= x <= x2 && OnStride(x1, x, Stride(x2 - x1)) && InCircle(x, SampleY(x1, y1, x2, y2, x), xc, yc, r);
    var y := SampleY(x1, y1, x2, y2, x);
    var t := (x - x1) as real / (x2 - x1) as real;
    SampleNear(x1, y1, x2, y2, x, t);
    InAbs(x, y, xc, yc, r);
    var v := y1 as real + t * (y2 - y1) as real - y as real;
    Shifted((x - xc) as real, (y - yc) as real, Abs(r) as real, 0.0, v, 0.0, 1.0);
    assert (x - xc) as real + 0.0 == x1 as real + t * (x2 - x1) as real - xc as real;
    assert (y - yc) as real + v == y1 as real + t * (y2 - y1) as real - yc as real;
    TouchesAt(x1, y1, x2, y2, xc, yc, Abs(r) + 1, t,
              (x - xc) as real + 0.0, (y - yc) as real + v, Abs(r) as real + 0.0 + 1.0);
  }

  lemma UprightHitIsNear(x: int, y1: int, y2: int, xc: int, yc: int, r: int)
    requires y1 <= y2 && HitsUpright(x, y1, y2, xc, yc, r)
    ensures Meets(x, y1, x, y2, xc, yc, Abs(r) + 1)
  {
    hide InCircle;
    hide Near;
    hide Stride;
    hide OnStride;
    var y :| y1 <= y <= y2 && OnStride(y1, y, Stride(y2 - y1)) && InCircle(x, y, xc, yc, r);
    var n := y2 - y1;
    InAbs(x, y, xc, yc, r);
    Wider((x - xc) as real, (y - yc) as real, Abs(r) as real, (Abs(r) + 1) as real);
    var t := if n == 0 then 0.0 else (y - y1) as real / n as real;
    if n > 0 {
      ShareOf(y - y1, n, t);
    }
    TouchesAt(x, y1, x, y2, xc, yc, Abs(r) + 1, t, (x - xc) as real, (y - yc) as real, (Abs(r) + 1) as real);
  }

  // --------------------------------------------------------- a near segment is a hit

  /** A circle that the segment meets is detected once its radius is widened to cover the gaps between the samples. */
  lemma NearIsHit(xa: int, ya: int, xb: int, yb: int, xc: int, yc: int, r: nat, gap: nat)
    requires Meets(xa, ya, xb, yb, xc, yc, r)
    requires var dx, dy := Abs(xb - xa), Abs(yb - ya);
             if dx == 0 then Max(1, dy / 10) <= gap
             else Max(1, dx / 10) * dy <= dx * (gap - 1 - Max(1, dx / 10))
    ensures Hits(xa, ya, xb, yb, xc, yc, r + gap)
  {
    hide Meets;
    hide HitsSloped;
    hide HitsUpright;
    hide Stride;
    hide Max;
    MeetsEitherWay(xa, ya, xb, yb, xc, yc, r);
    if xa < xb {
      SlopedNearIsHit(xa, ya, xb, yb, xc, yc, r, gap);
    } else if xb < xa {
      SlopedNearIsHit(xb, yb, xa, ya, xc, yc, r, gap);
    } else if ya <= yb {
      UprightNearIsHit(xa, ya, yb, xc, yc, r, gap);
    } else {
      UprightNearIsHit(xa, yb, ya, xc, yc, r, gap);
    }
  }

  /** The last sample at or before the parameter t of a length. */
  lemma SampleBefore(from: int, length: nat, stride: nat, t: real) returns (at: int)
    requires stride > 0 && 0.0 <= t <= 1.0
    ensures from <= at <= from + length && OnStride(from, at, stride)
    ensures at as real <= from as real + t * length as real <= (at + stride) as real
  {
    ShareBetween(t, length as real);
    at := StrideBelow(from, length, stride, t * length as real);
  }

  lemma StrideBelow(from: int, length: nat, stride: nat, u: real) returns (at: int)
    requires stride > 0 && 0.0 <= u <= length as real
    ensures from <= at <= from + length && OnStride(from, at, stride)
    ensures at as real <= from as real + u <= (at + stride) as real
  {
    var n: nat := u.Floor;
    var k := n / stride;
    var z := k * stride;
    at := from + z;
    MultipleBelow(n, stride);
    ModIs(z, k, 0, stride);
    Between(from, z, stride, u);
  }

  lemma Between(from: int, z: int, stride: nat, u: real)
    requires z <= u.Floor < z + stride
    ensures (from + z) as real <= from as real + u <= (from + z + stride) as real
  {
  }

  lemma MultipleBelow(n: nat, stride: nat)
    requires stride > 0
    ensures var k := n / stride; 0 <= k * stride <= n < k * stride + stride
  {
    assert n == (n / stride) * stride + n % stride;
    MulMono(0, n / stride, stride);
  }

  lemma UprightNearIsHit(x: int, y1: int, y2: int, xc: int, yc: int, r: nat, gap: nat)
    requires y1 <= y2 && Meets(x, y1, x, y2, xc, yc, r) && Max(1, (y2 - y1) / 10) <= gap
    ensures HitsUpright(x, y1, y2, xc, yc, r + gap)
  {
    hide InCircle;
    hide Near;
    hide OnStride;
    var n := Stride(y2 - y1);
    hide Stride;
    var t :| Touches(x, y1, x, y2, xc, yc, r, t);
    var y := SampleBefore(y1, y2 - y1, n, t);
    var v := y as real - (y1 as real + t * (y2 - y1) as real);
    var a, b := x as real + t * (x - x) as real - xc as real, y1 as real + t * (y2 - y1) as real - yc as real;
    Shifted(a, b, r as real, 0.0, v, 0.0, n as real);
    assert a + 0.0 == (x - xc) as real && b + v == (y - yc) as real;
    Wider((x - xc) as real, (y - yc) as real, r as real + 0.0 + n as real, (r + gap) as real);
    NearOfIn(x, y, xc, yc, r + gap);
  }

  lemma SlopedNearIsHit(x1: int, y1: int, x2: int, y2: int, xc: int, yc: int, r: nat, gap: nat)
    requires x1 < x2 && Meets(x1, y1, x2, y2, xc, yc, r)
    requires var dx, n := x2 - x1, Max(1, (x2 - x1) / 10); n * Abs(y2 - y1) <= dx * (gap - 1 - n)
    ensures HitsSloped(x1, y1, x2, y2, xc, yc, r + gap)
  {
    hide InCircle;
    hide Near;
    hide OnStride;
    hide SampleY;
    var dx, dy := x2 - x1, y2 - y1;
    var n := Stride(dx);
    hide Stride;
    GapCovers(dx, dy, n, gap);
    var t :| Touches(x1, y1, x2, y2, xc, yc, r, t);
    var x := SampleBefore(x1, dx, n, t);
    WideSample(x1, y1, x2, y2, xc, yc, r, t, x, n, gap);
  }

  /** The sample before a point of the segment in the circle is in the circle that covers the gap as well. */
  lemma WideSample(x1: int, y1: int, x2: int, y2: int, xc: int, yc: int, r: nat, t: real, x: int, n: nat, gap: nat)
    requires x1 < x2 && Touches(x1, y1, x2, y2, xc, yc, r, t)
    requires gap - 1 - n >= 0 && n * Abs(y2 - y1) <= (x2 - x1) * (gap - 1 - n)
    requires x1 <= x <= x2 && x as real <= x1 as real + t * (x2 - x1) as real <= (x + n) as real
    ensures InCircle(x, SampleY(x1, y1, x2, y2, x), xc, yc, r + gap)
  {
    hide InCircle;
    hide Near;
    hide SampleY;
    SampleDrift(x1, y1, x2, y2, x, t, n, gap - 1 - n);
    var X, Y := x1 as real + t * (x2 - x1) as real, y1 as real + t * (y2 - y1) as real;
    WideNear(X, Y, xc, yc, x, SampleY(x1, y1, x2, y2, x), r, n, gap);
  }

  lemma WideNear(X: real, Y: real, xc: int, yc: int, x: int, y: int, r: nat, n: nat, gap: nat)
    requires Near(X - xc as real, Y - yc as real, r as real) && n <= gap
    requires x as real <= X <= (x + n) as real
    requires -((gap - n) as real) <= y as real - Y <= (gap - n) as real
    ensures InCircle(x, y, xc, yc, r + gap)
  {
    hide InCircle;
    hide Near;
    var a, b, u, v := X - xc as real, Y - yc as real, x as real - X, y as real - Y;
    Shifted(a, b, r as real, u, v, n as real, (gap - n) as real);
    assert a + u == (x - xc) as real && b + v == (y - yc) as real;
    assert r as real + n as real + (gap - n) as real == (r + gap) as real;
    NearOfIn(x, y, xc, yc, r + gap);
  }

  lemma GapCovers(dx: int, dy: int, n: nat, gap: int)
    requires dx > 0 && n * Abs(dy) <= dx * (gap - 1 - n)
    ensures gap - 1 - n >= 0
  {
    MulMono(0, Abs(dy), n);
    FactorOrder(0, gap - 1 - n, dx);
  }

  /** How far the sample before a point of the segment is from it in height. */
  lemma SampleDrift(x1: int, y1: int, x2: int, y2: int, x: int, t: real, n: nat, c: nat)
    requires x1 < x2 && x1 <= x <= x2 && n * Abs(y2 - y1) <= (x2 - x1) * c
    requires x as real <= x1 as real + t * (x2 - x1) as real <= (x + n) as real
    ensures var v := SampleY(x1, y1, x2, y2, x) as real - (y1 as real + t * (y2 - y1) as real);
            -((c + 1) as real) <= v <= (c + 1) as real
  {
    hide SampleY;
    var dx, dy := x2 - x1, y2 - y1;
    var s := (x - x1) as real / dx as real;
    SampleNear(x1, y1, x2, y2, x, s);
    ShareOf(x - x1, dx, s);
    Apart(t, s, dx as real);
    Apart(t, s, dy as real);
    Drift(t - s, dx, dy, n, c);
    TwoErrors(y1 as real, SampleY(x1, y1, x2, y2, x) as real, s * dy as real, t * dy as real, c);
  }

  /** A height y within 1 of h + a is within c + 1 of h + b when a and b are within c. */
  lemma TwoErrors(h: real, y: real, a: real, b: real, c: nat)
    requires -1.0 <= h + a - y <= 1.0 && -(c as real) <= b - a <= c as real
    ensures -((c + 1) as real) <= y - (h + b) <= (c + 1) as real
  {
  }

  lemma Apart(t: real, s: real, d: real)
    ensures (t - s) * d == t * d - s * d
  {
  }

  lemma Drift(z: real, dx: int, dy: int, n: nat, c: nat)
    requires dx > 0 && n * Abs(dy) <= dx * c && 0.0 <= z * dx as real <= n as real
    ensures -(c as real) <= z * dy as real <= c as real
  {
    var w := z * dx as real;
    Cross(w, dy as real, n as real, Abs(dy) as real);
    Cross(-w, dy as real, n as real, Abs(dy) as real);
    assert (-w) * dy as real == -(w * dy as real);
    RealInner(n, Abs(dy), 0, 0);
    RealInner(c, dx, 0, 0);
    assert (z * dy as real) * dx as real == w * dy as real;
    Divided(z * dy as real, dx as real, w * dy as real, c as real);
  }

  // ----------------------------------------------------------------------- examples

  /** Truncation drops the ordinate under the segment: an answer of true for a circle that the segment does not meet. */
  lemma FalseAlarm()
    ensures Hits(0, 0, 2, 1, 1, 0, 0)
    ensures !Meets(0, 0, 2, 1, 1, 0, 0)
  {
    hide SampleY;
    hide InCircle;
    hide Meets;
    hide OnStride;
    FirstSampleHits(0, 0, 2, 1);
    HalfTruncated();
    OffSegment(0, 0, 2, 1, 1, 0);
  }

  lemma HalfTruncated()
    ensures SampleY(0, 0, 2, 1, 1) == 0
  {
  }

  lemma TenApart(x: int)
    requires 0 <= x && x % 10 == 0
    ensures Square(x - 5) >= 25
  {
    var k := x / 10;
    if k >= 1 {
      MulMono(5, x - 5, x - 5);
    }
  }

  /** Samples are a tenth of the segment apart, so a circle between two of them goes unnoticed. */
  lemma SamplesCanMiss()
    ensures !Hits(0, 0, 100, 0, 5, 0, 1)
    ensures Meets(0, 0, 100, 0, 5, 0, 1)
  {
    assert PointIn(0, 0, 1, 0, 5, 5, 0, 1);
    PointTouches(0, 0, 1, 0, 100, 5, 5, 0, 1);
    hide Meets;
    forall x | 0 <= x <= 100 && OnStride(0, x, 10)
      ensures !InCircle(x, SampleY(0, 0, 100, 0, x), 5, 0, 1)
    {
      SampleBetween(0, 0, 100, 0, x);
      TenApart(x);
    }
    hide SampleY;
  }
}
