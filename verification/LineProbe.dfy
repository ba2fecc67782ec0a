/** lineInCircle: samples of a segment tested against a circle. */
module LineProbe {
  import opened Arithmetic
  import opened Distance

  /** C's integer quotient, which drops the fraction; d is positive. */
  function Truncate(n: int, d: int): int
    requires d > 0
  {
    if n >= 0 then n / d else -((-n) / d)
  }

  predicate InCircle(x: int, y: int, xc: int, yc: int, r: int) {
    Square(x - xc) + Square(y - yc) <= Square(r)
  }

  function Stride(length: nat): (stride: nat)
    ensures stride > 0
  {
    Max(1, length / 10)
  }

  /** The ordinate of the segment at x, truncated. */
  function SampleY(x1: int, y1: int, x2: int, y2: int, x: int): int
    requires x1 < x2
  {
    Truncate((y2 - y1) * (x - x1) + y1 * (x2 - x1), x2 - x1)
  }

  /** Some sample of the segment from the left end (x1, y1) is in the circle. */
  predicate HitsSloped(x1: int, y1: int, x2: int, y2: int, xc: int, yc: int, r: int)
    requires x1 < x2
  {
    exists x :: x1 <= x <= x2 && OnStride(x1, x, Stride(x2 - x1)) && InCircle(x, SampleY(x1, y1, x2, y2, x), xc, yc, r)
  }

  /** Some sample of the upright segment from the low end is in the circle. */
  predicate HitsUpright(x: int, y1: int, y2: int, xc: int, yc: int, r: int)
    requires y1 <= y2
  {
    exists y :: y1 <= y <= y2 && OnStride(y1, y, Stride(y2 - y1)) && InCircle(x, y, xc, yc, r)
  }

  predicate OnStride(from: int, at: int, stride: nat)
    requires stride > 0
  {
    (at - from) % stride == 0
  }

  predicate Hits(xa: int, ya: int, xb: int, yb: int, xc: int, yc: int, r: int) {
    if xa < xb then HitsSloped(xa, ya, xb, yb, xc, yc, r)
    else if xb < xa then HitsSloped(xb, yb, xa, ya, xc, yc, r)
    else if ya <= yb then HitsUpright(xa, ya, yb, xc, yc, r)
    else HitsUpright(xa, yb, ya, xc, yc, r)
  }

  /** swapPoints */
  method SwapPoints(x1: int, y1: int, x2: int, y2: int) returns (a1: int, b1: int, a2: int, b2: int)
    ensures a1 == x2 && b1 == y2 && a2 == x1 && b2 == y1
  {
    a1 := x1 + x2;
    a2 := a1 - x2;
    a1 := a1 - a2;
    b1 := y1 + y2;
    b2 := b1 - y2;
    b1 := b1 - b2;
  }

  /**
   * The k-th sample of the segment from the left end (x1, y1), a tenth of the width apart or 1 on a short segment,
   * is in the circle; y is its ordinate with the fraction dropped.
   */
  ghost predicate SlopedSample(x1: int, y1: int, x2: int, y2: int, xc: int, yc: int, r: int, k: nat, y: int) {
    var d, x := x2 - x1, x1 + k * Max(1, (x2 - x1) / 10);
    var n := (y2 - y1) * (x - x1) + y1 * d;
    && x <= x2
    && (if n >= 0 then y * d <= n < y * d + d else y * d - d < n <= y * d)
    && (x - xc) * (x - xc) + (y - yc) * (y - yc) <= r * r
  }

  /** The k-th sample of the upright segment from the low end is in the circle. */
  ghost predicate UprightSample(x: int, y1: int, y2: int, xc: int, yc: int, r: int, k: nat) {
    var y := y1 + k * Max(1, (y2 - y1) / 10);
    y <= y2 && (x - xc) * (x - xc) + (y - yc) * (y - yc) <= r * r
  }

  method LineInCircle(xa: int, ya: int, xb: int, yb: int, xc: int, yc: int, r: int) returns (hit: bool)
    ensures hit == Hits(xa, ya, xb, yb, xc, yc, r)
    ensures xa < xb ==> (hit <==> exists k: nat, y :: SlopedSample(xa, ya, xb, yb, xc, yc, r, k, y))
    ensures xb < xa ==> (hit <==> exists k: nat, y :: SlopedSample(xb, yb, xa, ya, xc, yc, r, k, y))
    ensures xa == xb && ya <= yb ==> (hit <==> exists k: nat :: UprightSample(xa, ya, yb, xc, yc, r, k))
    ensures xa == xb && yb < ya ==> (hit <==> exists k: nat :: UprightSample(xa, yb, ya, xc, yc, r, k))
  {
    hide HitsSloped;
    hide HitsUpright;
    hide SlopedSample;
    hide UprightSample;
    SamplesTested(xa, ya, xb, yb, xc, yc, r);
    hide InCircle;
    hide SampleY;
    var x1, y1, x2, y2 := xa, ya, xb, yb;
    if xa != xb {
      if xa > xb {
        x1, y1, x2, y2 := SwapPoints(x1, y1, x2, y2);
      }
      hit := ScanSloped(x1, y1, x2, y2, xc, yc, r);
    } else {
      if ya > yb {
        x1, y1, x2, y2 := SwapPoints(x1, y1, x2, y2);
      }
      hit := ScanUpright(x1, y1, y2, xc, yc, r);
    }
  }

  method ScanSloped(x1: int, y1: int, x2: int, y2: int, xc: int, yc: int, r: int) returns (hit: bool)
    requires x1 < x2
    ensures hit == HitsSloped(x1, y1, x2, y2, xc, yc, r)
  {
    hide InCircle;
    hide SampleY;
    var stride := Stride(x2 - x1);
    var x := x1;
    NextOnStride(x1, x1, stride);
    while x <= x2
      invariant x1 <= x && OnStride(x1, x, stride)
      invariant forall u :: x1 <= u < x && u <= x2 && OnStride(x1, u, stride) ==>
                  !InCircle(u, SampleY(x1, y1, x2, y2, u), xc, yc, r)
      decreases x2 - x
    {
      var y := SampleY(x1, y1, x2, y2, x);
      if InCircle(x, y, xc, yc, r) {
        return true;
      }
      NextOnStride(x1, x, stride);
      x := x + stride;
    }
    return false;
  }

  method ScanUpright(x: int, y1: int, y2: int, xc: int, yc: int, r: int) returns (hit: bool)
    requires y1 <= y2
    ensures hit == HitsUpright(x, y1, y2, xc, yc, r)
  {
    hide InCircle;
    var stride := Stride(y2 - y1);
    var y := y1;
    NextOnStride(y1, y1, stride);
    while y <= y2
      invariant y1 <= y && OnStride(y1, y, stride)
      invariant forall u :: y1 <= u < y && u <= y2 && OnStride(y1, u, stride) ==> !InCircle(x, u, xc, yc, r)
      decreases y2 - y
    {
      if InCircle(x, y, xc, yc, r) {
        return true;
      }
      NextOnStride(y1, y, stride);
      y := y + stride;
    }
    return false;
  }

  lemma SamplesTested(xa: int, ya: int, xb: int, yb: int, xc: int, yc: int, r: int)
    ensures xa < xb ==> (Hits(xa, ya, xb, yb, xc, yc, r) <==>
                         exists k: nat, y :: SlopedSample(xa, ya, xb, yb, xc, yc, r, k, y))
    ensures xb < xa ==> (Hits(xa, ya, xb, yb, xc, yc, r) <==>
                         exists k: nat, y :: SlopedSample(xb, yb, xa, ya, xc, yc, r, k, y))
    ensures xa == xb && ya <= yb ==> (Hits(xa, ya, xb, yb, xc, yc, r) <==>
                                      exists k: nat :: UprightSample(xa, ya, yb, xc, yc, r, k))
    ensures xa == xb && yb < ya ==> (Hits(xa, ya, xb, yb, xc, yc, r) <==>
                                     exists k: nat :: UprightSample(xa, yb, ya, xc, yc, r, k))
  {
    hide HitsSloped;
    hide HitsUpright;
    hide SlopedSample;
    hide UprightSample;
    if xa < xb {
      SlopedTested(xa, ya, xb, yb, xc, yc, r);
    } else if xb < xa {
      SlopedTested(xb, yb, xa, ya, xc, yc, r);
    } else if ya <= yb {
      UprightTested(xa, ya, yb, xc, yc, r);
    } else {
      UprightTested(xa, yb, ya, xc, yc, r);
    }
  }

  lemma SlopedTested(x1: int, y1: int, x2: int, y2: int, xc: int, yc: int, r: int)
    requires x1 < x2
    ensures HitsSloped(x1, y1, x2, y2, xc, yc, r) <==>
            exists k: nat, y :: SlopedSample(x1, y1, x2, y2, xc, yc, r, k, y)
  {
    hide OnStride;
    hide InCircle;
    hide SampleY;
    hide SlopedSample;
    var stride := Stride(x2 - x1);
    if x :| x1 <= x <= x2 && OnStride(x1, x, stride) && InCircle(x, SampleY(x1, y1, x2, y2, x), xc, yc, r) {
      var k := Multiple(x1, x, stride);
      SampleMeans(x1, y1, x2, y2, xc, yc, r, k, SampleY(x1, y1, x2, y2, x));
    }
    if k: nat, y :| SlopedSample(x1, y1, x2, y2, xc, yc, r, k, y) {
      SampleMeans(x1, y1, x2, y2, xc, yc, r, k, y);
      AtMultiple(x1, k, stride);
    }
  }

  /** What is tested of the sample at x, in terms of numbers. */
  lemma SampleMeans(x1: int, y1: int, x2: int, y2: int, xc: int, yc: int, r: int, k: nat, y: int)
    requires x1 < x2
    ensures var x := x1 + k * Stride(x2 - x1);
            SlopedSample(x1, y1, x2, y2, xc, yc, r, k, y) <==>
              x <= x2 && y == SampleY(x1, y1, x2, y2, x) && InCircle(x, y, xc, yc, r)
  {
    var d, x := x2 - x1, x1 + k * Stride(x2 - x1);
    TruncateMeans((y2 - y1) * (x - x1) + y1 * d, d, y);
    hide Truncate;
  }

  /** Truncate drops the fraction, toward 0. */
  lemma TruncateMeans(n: int, d: int, y: int)
    requires d > 0
    ensures y == Truncate(n, d) <==> if n >= 0 then y * d <= n < y * d + d else y * d - d < n <= y * d
  {
    if n >= 0 {
      QuotientMeans(n, d, y);
    } else {
      QuotientMeans(-n, d, -y);
      assert (-y) * d == -(y * d);
    }
  }

  lemma QuotientMeans(n: nat, d: int, y: int)
    requires d > 0
    ensures y == n / d <==> y * d <= n < y * d + d
  {
    if y * d <= n < y * d + d {
      DivModIs(n, y, n - y * d, d);
    }
  }

  lemma UprightTested(x: int, y1: int, y2: int, xc: int, yc: int, r: int)
    requires y1 <= y2
    ensures HitsUpright(x, y1, y2, xc, yc, r) <==> exists k: nat :: UprightSample(x, y1, y2, xc, yc, r, k)
  {
    hide OnStride;
    var stride := Stride(y2 - y1);
    if y :| y1 <= y <= y2 && OnStride(y1, y, stride) && InCircle(x, y, xc, yc, r) {
      var k := Multiple(y1, y, stride);
      assert UprightSample(x, y1, y2, xc, yc, r, k);
    }
    if k: nat :| UprightSample(x, y1, y2, xc, yc, r, k) {
      AtMultiple(y1, k, stride);
      assert InCircle(x, y1 + k * stride, xc, yc, r);
    }
  }

  lemma Multiple(from: int, at: int, stride: nat) returns (k: nat)
    requires stride > 0 && from <= at && OnStride(from, at, stride)
    ensures at == from + k * stride
  {
    k := (at - from) / stride;
    assert at - from == k * stride + (at - from) % stride;
  }

  lemma AtMultiple(from: int, k: nat, stride: nat)
    requires stride > 0
    ensures OnStride(from, from + k * stride, stride) && from <= from + k * stride
  {
    MulMono(0, k, stride);
    ModIs(k * stride, k, 0, stride);
  }

  /** Between two consecutive samples there is none. */
  lemma NextOnStride(from: int, at: int, stride: nat)
    requires stride > 0 && from <= at && (at == from || OnStride(from, at, stride))
    ensures OnStride(from, at, stride) && OnStride(from, at + stride, stride)
    ensures forall u :: at < u < at + stride ==> !OnStride(from, u, stride)
  {
    if at == from {
      ModIs(0, 0, 0, stride);
    }
    var q := (at - from) / stride;
    assert at - from == q * stride;
    ModIs(at + stride - from, q + 1, 0, stride);
    forall u | at < u < at + stride
      ensures !OnStride(from, u, stride)
    {
      ModIs(u - from, q, u - at, stride);
    }
  }

  // ------------------------------------------------------------------- properties

  /** Which end of the segment comes first does not matter. */
  lemma HitsSymmetric(xa: int, ya: int, xb: int, yb: int, xc: int, yc: int, r: int)
    ensures Hits(xa, ya, xb, yb, xc, yc, r) <==> Hits(xb, yb, xa, ya, xc, yc, r)
  {
  }

  lemma TruncateBetween(n: int, d: int, lo: int, hi: int)
    requires d > 0 && lo * d <= n <= hi * d
    ensures lo <= Truncate(n, d) <= hi
  {
    if n >= 0 {
      QuotientBetween(n, d, lo, hi);
    } else {
      assert (-hi) * d <= -n <= (-lo) * d;
      QuotientBetween(-n, d, -hi, -lo);
    }
  }

  lemma QuotientBetween(n: nat, d: int, lo: int, hi: int)
    requires d > 0 && lo * d <= n <= hi * d
    ensures lo <= n / d <= hi
  {
    var q := n / d;
    assert q * d <= n < q * d + d;
    if q < lo {
      MulMono(q + 1, lo, d);
    } else if hi < q {
      MulMono(hi + 1, q, d);
    }
  }

  /** A sample lies between the segment's ends. */
  lemma SampleBetween(x1: int, y1: int, x2: int, y2: int, x: int)
    requires x1 < x2 && x1 <= x <= x2
    ensures var y := SampleY(x1, y1, x2, y2, x); y1 <= y <= y2 || y2 <= y <= y1
  {
    var d, n := x2 - x1, (y2 - y1) * (x - x1) + y1 * (x2 - x1);
    if y1 <= y2 {
      MulMono(0, y2 - y1, x - x1);
      MulMono(x - x1, d, y2 - y1);
      assert y2 * d == (y2 - y1) * d + y1 * d;
      TruncateBetween(n, d, y1, y2);
    } else {
      MulMono(0, y1 - y2, x - x1);
      MulMono(x - x1, d, y1 - y2);
      assert (y2 - y1) * (x - x1) == -((y1 - y2) * (x - x1));
      assert y2 * d == -((y1 - y2) * d) + y1 * d;
      TruncateBetween(n, d, y2, y1);
    }
  }

  /** The mark of an empty slot is no circle that a map without negative coordinates can meet. */
  lemma EmptyMisses(xa: int, ya: int, xb: int, yb: int)
    requires xa >= 0 && ya >= 0 && xb >= 0 && yb >= 0
    ensures !Hits(xa, ya, xb, yb, -1, -1, -1)
  {
    forall x, y | x >= 0 && y >= 0
      ensures !InCircle(x, y, -1, -1, -1)
    {
      MulMono(1, x + 1, x + 1);
      MulMono(1, y + 1, y + 1);
    }
    if xa != xb {
      forall x | (xa <= x <= xb || xb <= x <= xa)
        ensures xa < xb ==> SampleY(xa, ya, xb, yb, x) >= 0
        ensures xb < xa ==> SampleY(xb, yb, xa, ya, x) >= 0
      {
        if xa < xb {
          SampleBetween(xa, ya, xb, yb, x);
        } else {
          SampleBetween(xb, yb, xa, ya, x);
        }
      }
    }
  }
}
