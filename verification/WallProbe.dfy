/** The wall probe: Bresenham's line from one point to another, stopped at the first wall pixel. */
module WallProbe {
  import opened Arithmetic
  import opened Distance

  function Sgn(n: int): int {
    if n < 0 then -1 else if n > 0 then 1 else 0
  }

  /** Pixels probed on the way: one for each unit of the longer side. */
  function Steps(x1: int, y1: int, x2: int, y2: int): nat {
    if Abs(x2 - x1) >= Abs(y2 - y1) then Abs(x2 - x1) else Abs(y2 - y1)
  }

  /** The minor offset after i steps: i * minor / major rounded to the nearest integer, halves upward. */
  function Offset(major: nat, minor: nat, i: nat): nat
    requires major > 0
  {
    (major / 2 + i * minor) / major
  }

  /** The i-th pixel of the line. */
  function Pixel(x1: int, y1: int, x2: int, y2: int, i: nat): (int, int)
    requires 1 <= i <= Steps(x1, y1, x2, y2)
  {
    var dx, dy := x2 - x1, y2 - y1;
    if Abs(dx) >= Abs(dy)
    then (x1 + Sgn(dx) * i, y1 + Sgn(dy) * Offset(Abs(dx), Abs(dy), i))
    else (x1 + Sgn(dx) * Offset(Abs(dy), Abs(dx), i), y1 + Sgn(dy) * i)
  }

  // -------------------------------------------------------------- what pixels are

  lemma OffsetBounds(major: nat, minor: nat, i: nat)
    requires major > 0
    ensures var k := Offset(major, minor, i);
            k * major <= major / 2 + i * minor < k * major + major
  {
  }

  lemma OffsetUnique(major: nat, minor: nat, i: nat, k: int)
    requires major > 0 && k * major <= major / 2 + i * minor < k * major + major
    ensures Offset(major, minor, i) == k
  {
    var q := Offset(major, minor, i);
    OffsetBounds(major, minor, i);
    LessByFactor(q, k + 1, major);
    LessByFactor(k, q + 1, major);
  }

  lemma OffsetWithinHalf(major: nat, minor: nat, i: nat)
    requires major > 0
    ensures Abs(i * minor - Offset(major, minor, i) * major) * 2 <= major
  {
    OffsetBounds(major, minor, i);
  }

  /** The minor offset never runs ahead of the major one. */
  lemma OffsetAtMost(major: nat, minor: nat, i: nat)
    requires 0 < major && minor <= major
    ensures Offset(major, minor, i) <= i
  {
    var k := Offset(major, minor, i);
    OffsetBounds(major, minor, i);
    MulMono(minor, major, i);
    assert (i + 1) * major == i * major + major;
    LessByFactor(k, i + 1, major);
  }

  /**
   * The i-th pixel is i units from the start along the longer side and within half a pixel of the segment along
   * the shorter one.
   */
  lemma WithinHalfPixel(x1: int, y1: int, x2: int, y2: int, i: nat)
    requires 1 <= i <= Steps(x1, y1, x2, y2)
    ensures var p, dx, dy := Pixel(x1, y1, x2, y2, i), x2 - x1, y2 - y1;
            && (if Abs(dx) >= Abs(dy) then Abs(p.0 - x1) else Abs(p.1 - y1)) == i
            && Abs(p.0 - x1) <= i && Abs(p.1 - y1) <= i
            && 2 * Abs((p.0 - x1) * dy - (p.1 - y1) * dx) <= Steps(x1, y1, x2, y2)
  {
    hide Offset;
    var dx, dy := x2 - x1, y2 - y1;
    var major, minor := Steps(x1, y1, x2, y2), if Abs(dx) >= Abs(dy) then Abs(dy) else Abs(dx);
    var k := Offset(major, minor, i);
    OffsetWithinHalf(major, minor, i);
    OffsetAtMost(major, minor, i);
    SgnTimes(dx, i);
    SgnTimes(dy, i);
    SgnTimes(dx, k);
    SgnTimes(dy, k);
    if Abs(dx) >= Abs(dy) {
      SignsOut(Sgn(dx), Sgn(dy), i, k, major, minor);
    } else {
      SignsOut(Sgn(dy), Sgn(dx), i, k, major, minor);
    }
    SgnAbs(dx);
    SgnAbs(dy);
  }

  lemma SgnTimes(n: int, k: nat)
    ensures Abs(Sgn(n) * k) <= k && (n != 0 ==> Abs(Sgn(n) * k) == k)
  {
  }

  lemma SignsOut(s: int, t: int, i: nat, k: nat, major: nat, minor: nat)
    requires -1 <= s <= 1 && -1 <= t <= 1
    ensures Abs((s * i) * (t * minor) - (t * k) * (s * major)) <= Abs(i * minor - k * major)
    ensures Abs((t * k) * (s * major) - (s * i) * (t * minor)) <= Abs(i * minor - k * major)
  {
    Regroup(s, i, t, minor);
    Regroup(t, k, s, major);
    Distribute(s * t, i * minor, k * major);
    UnitTimes(s, t, i * minor - k * major);
  }

  lemma Regroup(a: int, x: int, b: int, y: int)
    ensures (a * x) * (b * y) == (a * b) * (x * y)
  {
    assert (a * x) * (b * y) == a * (x * (b * y));
    assert x * (b * y) == b * (x * y);
  }

  lemma Distribute(u: int, a: int, b: int)
    ensures u * a - u * b == u * (a - b)
  {
  }

  lemma UnitTimes(s: int, t: int, m: int)
    requires -1 <= s <= 1 && -1 <= t <= 1
    ensures (s * t) * m == m || (s * t) * m == -m || (s * t) * m == 0
  {
    if s == 0 || t == 0 {
      assert s * t == 0;
    } else if s == t {
      assert s * t == 1;
    } else {
      assert s * t == -1;
    }
  }

  /** Along the longer side a pixel is exactly i away; along the shorter side it is rounded, and halves go outward. */
  lemma PixelRounds(x1: int, y1: int, x2: int, y2: int, i: nat)
    requires 1 <= i <= Steps(x1, y1, x2, y2)
    ensures var p, dx, dy := Pixel(x1, y1, x2, y2, i), x2 - x1, y2 - y1;
            if Abs(dx) >= Abs(dy)
            then p.0 == (if dx > 0 then x1 + i else x1 - i) && Rounded(Abs(dx), dy, i, p.1 - y1)
            else p.1 == (if dy > 0 then y1 + i else y1 - i) && Rounded(Abs(dy), dx, i, p.0 - x1)
  {
    hide Offset;
    var dx, dy := x2 - x1, y2 - y1;
    if Abs(dx) >= Abs(dy) {
      OffsetRounds(Abs(dx), dy, i);
    } else {
      OffsetRounds(Abs(dy), dx, i);
    }
  }

  /** The offset m is i * minor / major, rounded to the nearest integer and halves away from 0. */
  predicate Rounded(major: int, minor: int, i: nat, m: int) {
    if minor >= 0 then -major <= 2 * (i * minor - m * major) < major
    else -major < 2 * (i * minor - m * major) <= major
  }

  lemma OffsetRounds(major: nat, minor: int, i: nat)
    requires major > 0
    ensures Rounded(major, minor, i, Sgn(minor) * Offset(major, Abs(minor), i))
  {
    var k := Offset(major, Abs(minor), i);
    OffsetBounds(major, Abs(minor), i);
    hide Offset;
    if minor < 0 {
      assert i * minor == -(i * Abs(minor)) && (-k) * major == -(k * major);
    } else if minor == 0 {
      assert i * minor == 0;
      if k >= 1 {
        MulMono(1, k, major);
      }
    }
  }

  /** The last pixel is the far end. */
  lemma LastPixel(x1: int, y1: int, x2: int, y2: int)
    requires (x1, y1) != (x2, y2)
    ensures Steps(x1, y1, x2, y2) >= 1
    ensures Pixel(x1, y1, x2, y2, Steps(x1, y1, x2, y2)) == (x2, y2)
  {
    hide Offset;
    hide Sgn;
    var dx, dy := Abs(x2 - x1), Abs(y2 - y1);
    SgnAbs(x2 - x1);
    SgnAbs(y2 - y1);
    if dx >= dy {
      OffsetAtEnd(dx, dy);
    } else {
      OffsetAtEnd(dy, dx);
    }
  }

  lemma OffsetAtEnd(major: nat, minor: nat)
    requires major > 0
    ensures Offset(major, minor, major) == minor
  {
    assert minor * major == major * minor;
    OffsetUnique(major, minor, major, minor);
  }

  lemma SgnAbs(n: int)
    ensures Sgn(n) * Abs(n) == n
  {
  }

  /** The offset grows by at most one a step, exactly when the accumulator overflows. */
  lemma OffsetStep(major: nat, minor: nat, i: nat)
    requires 0 < major && minor <= major
    ensures var k := Offset(major, minor, i);
            var acc := major / 2 + i * minor - k * major;
            && 0 <= acc < major
            && Offset(major, minor, i + 1) == if acc + minor >= major then k + 1 else k
  {
    var k := Offset(major, minor, i);
    OffsetBounds(major, minor, i);
    assert (i + 1) * minor == i * minor + minor;
    var acc := major / 2 + i * minor - k * major;
    if acc + minor >= major {
      assert (k + 1) * major == k * major + major;
      OffsetUnique(major, minor, i + 1, k + 1);
    } else {
      OffsetUnique(major, minor, i + 1, k);
    }
  }

  /** Consecutive pixels touch: each coordinate moves by at most one, and one of them does move. */
  lemma PixelsTouch(x1: int, y1: int, x2: int, y2: int, i: nat)
    requires 1 <= i < Steps(x1, y1, x2, y2)
    ensures var p, q := Pixel(x1, y1, x2, y2, i), Pixel(x1, y1, x2, y2, i + 1);
            Abs(q.0 - p.0) <= 1 && Abs(q.1 - p.1) <= 1 && p != q
  {
    var dx, dy := Abs(x2 - x1), Abs(y2 - y1);
    if dx >= dy {
      OffsetStep(dx, dy, i);
    } else {
      OffsetStep(dy, dx, i);
    }
  }

  lemma FirstOffset(major: nat, minor: nat)
    requires major > 0
    ensures Offset(major, minor, 0) == 0
  {
    OffsetUnique(major, minor, 0, 0);
  }

  // --------------------------------------------------------------------- the loop

  /** The distance reported for pixel i. */
  function Reported(x1: int, y1: int, x2: int, y2: int, i: nat): nat
    requires 1 <= i <= Steps(x1, y1, x2, y2)
  {
    var p := Pixel(x1, y1, x2, y2, i);
    DistanceFormula(x1, y1, p.0, p.1)
  }

  /** No pixel is the start itself, so a wall is always reported at a positive distance. */
  lemma ReportedPositive(x1: int, y1: int, x2: int, y2: int, i: nat)
    requires 1 <= i <= Steps(x1, y1, x2, y2)
    ensures Reported(x1, y1, x2, y2, i) >= 1
  {
    ReportedBetween(x1, y1, x2, y2, i);
  }

  /** Pixel i is reported at least i away and at most the root of 2 times i, so the first one at 1. */
  lemma ReportedBetween(x1: int, y1: int, x2: int, y2: int, i: nat)
    requires 1 <= i <= Steps(x1, y1, x2, y2)
    ensures var r := Reported(x1, y1, x2, y2, i); i <= r && r * r <= 2 * i * i
    ensures i == 1 ==> Reported(x1, y1, x2, y2, i) == 1
  {
    hide Pixel;
    hide Dist2;
    hide Isqrt;
    var p := Pixel(x1, y1, x2, y2, i);
    PixelDist(x1, y1, x2, y2, i);
    RootBetween(Dist2(x1, y1, p.0, p.1), i);
  }

  lemma PixelDist(x1: int, y1: int, x2: int, y2: int, i: nat)
    requires 1 <= i <= Steps(x1, y1, x2, y2)
    ensures var p := Pixel(x1, y1, x2, y2, i); i * i <= Dist2(x1, y1, p.0, p.1) <= 2 * i * i
  {
    hide Pixel;
    hide Square;
    WithinHalfPixel(x1, y1, x2, y2, i);
    var p := Pixel(x1, y1, x2, y2, i);
    SquareUpTo(p.0 - x1, i);
    SquareUpTo(p.1 - y1, i);
  }

  lemma RootBetween(d: nat, i: nat)
    requires i >= 1 && i * i <= d <= 2 * i * i
    ensures var r := Isqrt(d); i <= r && r * r <= 2 * i * i
    ensures i == 1 ==> Isqrt(d) == 1
  {
    IsqrtBounds(d);
    hide Isqrt;
    RootLess(i, Isqrt(d) + 1);
    if i == 1 {
      IsqrtUnique(d, 1);
    }
  }

  lemma SquareUpTo(n: int, i: nat)
    requires Abs(n) <= i
    ensures Square(n) <= i * i && (Abs(n) == i ==> Square(n) == i * i)
  {
    var a := Abs(n);
    assert Square(n) == a * a;
    MulMono(a, i, a);
    MulMono(a, i, i);
  }

  predicate WallAt(wall: (int, int) -> bool, x1: int, y1: int, x2: int, y2: int, i: nat)
    requires 1 <= i <= Steps(x1, y1, x2, y2)
  {
    var p := Pixel(x1, y1, x2, y2, i);
    wall(p.0, p.1)
  }

  /** r answers for the line: 0 when it meets no wall, else the distance to the first wall pixel. */
  ghost predicate Answers(wall: (int, int) -> bool, x1: int, y1: int, x2: int, y2: int, r: int) {
    var n := Steps(x1, y1, x2, y2);
    if r == 0 then forall i :: 1 <= i <= n ==> !WallAt(wall, x1, y1, x2, y2, i)
    else exists i :: FirstWall(wall, x1, y1, x2, y2, i) && r == Reported(x1, y1, x2, y2, i)
  }

  ghost predicate FirstWall(wall: (int, int) -> bool, x1: int, y1: int, x2: int, y2: int, i: int) {
    && 1 <= i <= Steps(x1, y1, x2, y2) && WallAt(wall, x1, y1, x2, y2, i)
    && forall j :: 1 <= j < i ==> !WallAt(wall, x1, y1, x2, y2, j)
  }

  /** The loop has come to (px, py) after i steps, with acc of the shorter side gathered toward the next minor step. */
  predicate OnLine(x1: int, y1: int, x2: int, y2: int, i: nat, px: int, py: int, acc: int) {
    var dx, dy := x2 - x1, y2 - y1;
    if Abs(dx) >= Abs(dy)
    then px == x1 + Sgn(dx) * i && (dx != 0 ==> Gathered(Abs(dx), Abs(dy), Sgn(dy), i, py - y1, acc))
    else py == y1 + Sgn(dy) * i && Gathered(Abs(dy), Abs(dx), Sgn(dx), i, px - x1, acc)
  }

  predicate Gathered(major: nat, minor: nat, s: int, i: nat, moved: int, acc: int)
    requires major > 0
  {
    moved == s * Offset(major, minor, i) && acc == major / 2 + i * minor - Offset(major, minor, i) * major
  }

  lemma StartsOnLine(x1: int, y1: int, x2: int, y2: int)
    ensures var dx, dy := Abs(x2 - x1), Abs(y2 - y1);
            OnLine(x1, y1, x2, y2, 0, x1, y1, (if dx >= dy then dx else dy) / 2)
  {
    var dx, dy := Abs(x2 - x1), Abs(y2 - y1);
    if dx >= dy {
      if dx > 0 {
        FirstOffset(dx, dy);
      }
    } else {
      FirstOffset(dy, dx);
    }
    hide Offset;
  }

  /** One more step: the minor side moves when enough has been gathered. */
  lemma GatheredNext(major: nat, minor: nat, s: int, i: nat, moved: int, acc: int)
    requires 0 < major && minor <= major && Gathered(major, minor, s, i, moved, acc)
    ensures var full := acc + minor >= major;
            Gathered(major, minor, s, i + 1, if full then moved + s else moved,
                     if full then acc + minor - major else acc + minor)
  {
    hide Offset;
    OffsetStep(major, minor, i);
    var k := Offset(major, minor, i);
    assert (i + 1) * minor == i * minor + minor;
    assert s * (k + 1) == s * k + s && (k + 1) * major == k * major + major;
  }

  lemma NextAcross(x1: int, y1: int, x2: int, y2: int, i: nat, px: int, py: int, acc: int)
    requires Abs(x2 - x1) >= Abs(y2 - y1) && i < Abs(x2 - x1) && OnLine(x1, y1, x2, y2, i, px, py, acc)
    ensures var dx, dy := x2 - x1, y2 - y1;
            var full := acc + Abs(dy) >= Abs(dx);
            var qx, qy := px + Sgn(dx), if full then py + Sgn(dy) else py;
            && OnLine(x1, y1, x2, y2, i + 1, qx, qy, if full then acc + Abs(dy) - Abs(dx) else acc + Abs(dy))
            && (qx, qy) == Pixel(x1, y1, x2, y2, i + 1)
  {
    hide Offset;
    GatheredNext(Abs(x2 - x1), Abs(y2 - y1), Sgn(y2 - y1), i, py - y1, acc);
    assert Sgn(x2 - x1) * (i + 1) == Sgn(x2 - x1) * i + Sgn(x2 - x1);
  }

  lemma NextUpright(x1: int, y1: int, x2: int, y2: int, i: nat, px: int, py: int, acc: int)
    requires Abs(x2 - x1) < Abs(y2 - y1) && i < Abs(y2 - y1) && OnLine(x1, y1, x2, y2, i, px, py, acc)
    ensures var dx, dy := x2 - x1, y2 - y1;
            var full := acc + Abs(dx) >= Abs(dy);
            var qx, qy := if full then px + Sgn(dx) else px, py + Sgn(dy);
            && OnLine(x1, y1, x2, y2, i + 1, qx, qy, if full then acc + Abs(dx) - Abs(dy) else acc + Abs(dx))
            && (qx, qy) == Pixel(x1, y1, x2, y2, i + 1)
  {
    hide Offset;
    GatheredNext(Abs(y2 - y1), Abs(x2 - x1), Sgn(x2 - x1), i, px - x1, acc);
    assert Sgn(y2 - y1) * (i + 1) == Sgn(y2 - y1) * i + Sgn(y2 - y1);
  }

  /** The answer at the first wall pixel. */
  lemma WallFound(wall: (int, int) -> bool, x1: int, y1: int, x2: int, y2: int, i: nat)
    requires FirstWall(wall, x1, y1, x2, y2, i)
    ensures var p := Pixel(x1, y1, x2, y2, i);
            var r := DistanceFormula(x1, y1, p.0, p.1);
            r > 0 && Answers(wall, x1, y1, x2, y2, r) && IsLength(r, p.0 - x1, p.1 - y1)
  {
    hide Pixel;
    hide DistanceFormula;
    hide WallAt;
    ReportedPositive(x1, y1, x2, y2, i);
    var p := Pixel(x1, y1, x2, y2, i);
    DistanceIs(x1, y1, p.0, p.1, DistanceFormula(x1, y1, p.0, p.1));
  }

  /** wallBetween, with Wall_here as the predicate wall. */
  method WallBetween(x1: int, y1: int, x2: int, y2: int, wall: (int, int) -> bool) returns (r: int)
    ensures r >= 0 && Answers(wall, x1, y1, x2, y2, r)
    ensures r == 0 <==> forall i :: 1 <= i <= Steps(x1, y1, x2, y2) ==> !WallAt(wall, x1, y1, x2, y2, i)
    ensures r > 0 ==>
              exists i ::
                && FirstWall(wall, x1, y1, x2, y2, i)
                && IsLength(r, Pixel(x1, y1, x2, y2, i).0 - x1, Pixel(x1, y1, x2, y2, i).1 - y1)
  {
    hide Offset;
    hide DistanceFormula;
    hide IsLength;
    hide OnLine;
    hide Pixel;
    var dxabs, dyabs := Abs(x2 - x1), Abs(y2 - y1);
    var sdx, sdy := Sgn(x2 - x1), Sgn(y2 - y1);
    var x, y := dyabs / 2, dxabs / 2;
    var px, py := x1, y1;
    if dxabs >= dyabs {
      StartsOnLine(x1, y1, x2, y2);
      for i := 0 to dxabs
        invariant OnLine(x1, y1, x2, y2, i, px, py, y)
        invariant forall j :: 1 <= j <= i ==> !WallAt(wall, x1, y1, x2, y2, j)
      {
        NextAcross(x1, y1, x2, y2, i, px, py, y);
        y := y + dyabs;
        if y >= dxabs {
          y := y - dxabs;
          py := py + sdy;
        }
        px := px + sdx;
        if wall(px, py) {
          WallFound(wall, x1, y1, x2, y2, i + 1);
          return DistanceFormula(x1, y1, px, py);
        }
      }
    } else {
      StartsOnLine(x1, y1, x2, y2);
      for i := 0 to dyabs
        invariant OnLine(x1, y1, x2, y2, i, px, py, x)
        invariant forall j :: 1 <= j <= i ==> !WallAt(wall, x1, y1, x2, y2, j)
      {
        NextUpright(x1, y1, x2, y2, i, px, py, x);
        x := x + dxabs;
        if x >= dyabs {
          x := x - dyabs;
          px := px + sdx;
        }
        py := py + sdy;
        if wall(px, py) {
          WallFound(wall, x1, y1, x2, y2, i + 1);
          return DistanceFormula(x1, y1, px, py);
        }
      }
    }
    return 0;
  }

  /** wallFeeler and wallFeelerRad, from the start to the far end (x2, y2) of a feeler of length dist. */
  method WallFeeler(x1: int, y1: int, x2: int, y2: int, dist: int, wall: (int, int) -> bool) returns (r: int)
    ensures Answers(wall, x1, y1, x2, y2, r)
  {
    r := WallBetween(x1, y1, x2, y2, wall);
    if r == -1 {
      return dist;
    }
  }

  // ------------------------------------------------------- the answer as documented

  /** No pixel of the line is a wall. */
  ghost predicate Clear(wall: (int, int) -> bool, x1: int, y1: int, x2: int, y2: int) {
    forall i :: 1 <= i <= Steps(x1, y1, x2, y2) ==> !WallAt(wall, x1, y1, x2, y2, i)
  }

  /** The answer is determined, 0 means a clear line, and 1 means a wall on the first pixel. */
  lemma AnswerMeans(wall: (int, int) -> bool, x1: int, y1: int, x2: int, y2: int, r: int)
    requires Answers(wall, x1, y1, x2, y2, r)
    ensures r == 0 <==> Clear(wall, x1, y1, x2, y2)
    ensures r == 1 <==> Steps(x1, y1, x2, y2) >= 1 && WallAt(wall, x1, y1, x2, y2, 1)
    ensures forall s :: Answers(wall, x1, y1, x2, y2, s) ==> s == r
  {
    hide Reported;
    hide WallAt;
    forall i | FirstWall(wall, x1, y1, x2, y2, i)
      ensures i <= Reported(x1, y1, x2, y2, i) && (i == 1 ==> Reported(x1, y1, x2, y2, i) == 1)
    {
      ReportedBetween(x1, y1, x2, y2, i);
    }
    forall i, j | FirstWall(wall, x1, y1, x2, y2, i) && FirstWall(wall, x1, y1, x2, y2, j)
      ensures i == j
    {
    }
    if Steps(x1, y1, x2, y2) >= 1 && WallAt(wall, x1, y1, x2, y2, 1) {
      assert FirstWall(wall, x1, y1, x2, y2, 1);
    }
  }

  /** The documented answer, 1 for a wall and 0 for none, is given exactly when the line is clear or blocked at once. */
  lemma DocumentedAnswer(wall: (int, int) -> bool, x1: int, y1: int, x2: int, y2: int, r: int)
    requires Answers(wall, x1, y1, x2, y2, r)
    ensures r == (if Clear(wall, x1, y1, x2, y2) then 0 else 1)
       <==> Clear(wall, x1, y1, x2, y2) || WallAt(wall, x1, y1, x2, y2, 1)
  {
    hide WallAt;
    AnswerMeans(wall, x1, y1, x2, y2, r);
    if Clear(wall, x1, y1, x2, y2) {
    } else {
      assert Steps(x1, y1, x2, y2) >= 1;
    }
  }

  /** With a wall at (3, 0) only, the answer from (0, 0) to (5, 0) is 3. */
  lemma WallAtThree(r: int)
    requires Answers((x, y) => x == 3 && y == 0, 0, 0, 5, 0, r)
    ensures r == 3
  {
    var wall := (x: int, y: int) => x == 3 && y == 0;
    forall i: nat | 1 <= i <= 5
      ensures Pixel(0, 0, 5, 0, i) == (i, 0)
    {
    }
    hide Pixel;
    hide DistanceFormula;
    assert FirstWall(wall, 0, 0, 5, 0, 3);
    ReportedThree();
    assert Answers(wall, 0, 0, 5, 0, 3);
    AnswerMeans(wall, 0, 0, 5, 0, 3);
  }

  lemma ReportedThree()
    ensures Reported(0, 0, 5, 0, 3) == 3
  {
    assert Pixel(0, 0, 5, 0, 3) == (3, 0);
    IsqrtUnique(9, 3);
  }
}
