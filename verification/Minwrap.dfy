/** The three distance functions that poly_link gives to findmin, and the shifts each is shortest under. */
module Minwrap {
  import opened Arithmetic
  import opened TileMap
  import opened Tracing
  import opened FindMin
  import F = FindEdges

  /** Lines drawn along half-edges are fit for findmin. */
  lemma DrawnIsGradual(m: Tiles, poly: Poly, hs: seq<HalfEdge>, x: int, y: int, endX: int, endY: int)
    requires Valid(m) && Draws(m, poly, hs, x, y, endX, endY)
    ensures Gradual(poly)
  {
    hide Wrap;
    forall i | 0 <= i < |poly| - 1
      ensures NextTo(poly[i], poly[i + 1])
    {
      assert Follow(poly[i]) == (poly[i + 1].x, poly[i + 1].y);
    }
  }

  /** The polygons that poly_findedges finds are fit for findmin. */
  lemma FoundIsGradual(m: Tiles, log: seq<F.Found>, i: nat)
    requires Valid(m) && F.Disjoint(m, log) && i < |log|
    ensures Gradual(log[i].poly) && log[i].poly != []
  {
    hide Boundary;
    hide Next;
    hide Gradual;
    var poly, hs := log[i].poly, log[i].hs;
    assert F.DrawsOrbit(m, poly, hs);
    var x, y :| Draws(m, poly, hs, poly[0].x, poly[0].y, x, y) && Wrap(m, x, y) == hs[0].loc;
    DrawnIsGradual(m, poly, hs, poly[0].x, poly[0].y, x, y);
  }

  // ------------------------------------------------------------- a part that is bounded

  function Plain(v: Vector): Vector {
    v
  }

  predicate NoShift(s: Vector) {
    s == (0, 0)
  }

  lemma PlainShortest()
    ensures Shortest(Plain, NoShift) && Symmetric(NoShift)
  {
    forall x, y
      ensures ShortestFor(Plain, NoShift, x, y)
    {
    }
  }

  // --------------------------------------------------- a part that goes around both ways

  /** The number closest to 0 that equals x modulo w. */
  function Centered(x: int, w: nat): int
    requires w > 0
  {
    (x + w / 2) % w - w / 2
  }

  function Torus(width: nat, height: nat): Vector -> Vector
    requires width > 0 && height > 0
  {
    (v: Vector) => (Centered(v.0, width), Centered(v.1, height))
  }

  function TorusShift(width: nat, height: nat): Shifts
    requires width > 0 && height > 0
  {
    (s: Vector) => s.0 % width == 0 && s.1 % height == 0
  }

  lemma CenteredCongruent(x: int, w: nat)
    requires w > 0
    ensures (Centered(x, w) - x) % w == 0
  {
    var h := w / 2;
    ModAdd(x + h, -(x + h), w);
    ModAdd((x + h) % w, -(x + h), w);
    var k := (x + h) / w;
    assert Centered(x, w) - x == -k * w;
    ModIs(-k * w, -k, 0, w);
  }

  /** Of two numbers that are equally close, the negative one. */
  lemma CenteredIs(x: int, w: nat, c: int)
    requires w > 0
    ensures c == Centered(x, w) <==> (c - x) % w == 0 && 0 <= 2 * c + w < 2 * w
  {
    CenteredCongruent(x, w);
    var r := Centered(x, w);
    if (c - x) % w == 0 && 0 <= 2 * c + w < 2 * w {
      var k := (c - x) / w - (r - x) / w;
      assert c - x == ((c - x) / w) * w && r - x == ((r - x) / w) * w;
      assert k * w == ((c - x) / w) * w - ((r - x) / w) * w;
      if k >= 1 {
        MulMono(1, k, w);
      } else if k <= -1 {
        MulMono(k, -1, w);
      }
    }
  }

  lemma CenteredIsLeast(x: int, w: nat, a: int)
    requires w > 0 && a % w == 0
    ensures Centered(x, w) * Centered(x, w) <= (x + a) * (x + a)
  {
    var r, y := Centered(x, w), x + a;
    CenteredCongruent(x, w);
    var k := a / w - (r - x) / w;
    assert a == (a / w) * w && r - x == ((r - x) / w) * w;
    assert y - r == k * w by {
      assert k * w == (a / w) * w - ((r - x) / w) * w;
    }
    assert -(w / 2) <= r <= w - w / 2 - 1;
    if k >= 1 {
      MulMono(1, k, w);
      assert y >= w - w / 2;
    } else if k <= -1 {
      MulMono(1, -k, w);
      assert (-k) * w == r - y;
      assert y <= -(w / 2) - 1;
    }
    Larger(r, y);
  }

  lemma Larger(a: int, b: int)
    requires (-b <= a <= b) || (b <= a <= -b) || a == b
    ensures a * a <= b * b
  {
    var c, d := if a < 0 then -a else a, if b < 0 then -b else b;
    SameSquare(a);
    SameSquare(b);
    SquareGrows(c, d);
  }

  lemma TorusShortest(width: nat, height: nat)
    requires width > 0 && height > 0
    ensures Shortest(Torus(width, height), TorusShift(width, height)) && Symmetric(TorusShift(width, height))
  {
    hide Centered;
    var wrap, shifts := Torus(width, height), TorusShift(width, height);
    forall x, y
      ensures ShortestFor(wrap, shifts, x, y)
    {
      CenteredCongruent(x, width);
      CenteredCongruent(y, height);
      forall a, b | shifts((a, b))
        ensures Norm2(x + a, y + b) >= Norm2(wrap((x, y)).0, wrap((x, y)).1)
      {
        CenteredIsLeast(x, width, a);
        CenteredIsLeast(y, height, b);
      }
    }
    forall a, b | shifts((a, b))
      ensures shifts((-a, -b))
    {
      NegatedMultiple(a, width);
      NegatedMultiple(b, height);
    }
  }

  lemma NegatedMultiple(a: int, n: nat)
    requires n > 0 && a % n == 0
    ensures (-a) % n == 0
  {
    var k := a / n;
    assert -a == (-k) * n;
    ModIs(-a, -k, 0, n);
  }

  // ---------------------------------------------------- a part that goes around one way

  /** The integer nearest to n / l; halves are rounded away from 0. */
  function Round(n: int, l: int): (d: int)
    requires l > 0
    ensures -l <= 2 * (n - d * l) <= l
  {
    if n >= 0 then RoundUp(n, l) else
      assert (-RoundUp(-n, l)) * l == -(RoundUp(-n, l) * l);
      -RoundUp(-n, l)
  }

  function RoundUp(n: nat, l: int): (d: int)
    requires l > 0
    ensures -l <= 2 * (n - d * l) <= l
  {
    var d := (2 * n + l) / (2 * l);
    assert d * (2 * l) <= 2 * n + l < d * (2 * l) + 2 * l;
    assert d * (2 * l) == 2 * (d * l);
    d
  }

  lemma RoundIs(n: int, l: int, d: int)
    requires l > 0
    ensures d == Round(n, l) <==>
            if n >= 0 then -l <= 2 * (n - d * l) < l else -l < 2 * (n - d * l) <= l
  {
    if n >= 0 {
      RoundUpIs(n, l, d);
    } else {
      RoundUpIs(-n, l, -d);
      assert (-d) * l == -(d * l);
    }
  }

  lemma RoundUpIs(n: nat, l: int, d: int)
    requires l > 0
    ensures d == RoundUp(n, l) <==> -l <= 2 * (n - d * l) < l
  {
    var q := (2 * n + l) / (2 * l);
    assert q * (2 * l) <= 2 * n + l < q * (2 * l) + 2 * l;
    assert q * (2 * l) == 2 * (q * l) && d * (2 * l) == 2 * (d * l);
    if -l <= 2 * (n - d * l) < l {
      DivModIs(2 * n + l, d, 2 * n + l - d * (2 * l), 2 * l);
    }
  }

  /** The way around is (wx, wy). */
  function Strip(wx: int, wy: int): Vector -> Vector
    requires Norm2(wx, wy) > 0
  {
    (v: Vector) => var d := Round(wx * v.0 + wy * v.1, Norm2(wx, wy)); (v.0 - d * wx, v.1 - d * wy)
  }

  ghost predicate Times(s: Vector, k: int, wx: int, wy: int) {
    s.0 == k * wx && s.1 == k * wy
  }

  ghost function StripShift(wx: int, wy: int): Shifts {
    (s: Vector) => exists k: int :: Times(s, k, wx, wy)
  }

  /** The squared length of v moved k times around. */
  lemma Moved(x: int, y: int, wx: int, wy: int, k: int)
    ensures Norm2(x + k * wx, y + k * wy) == Norm2(x, y) + 2 * (k * (wx * x + wy * y)) + k * k * Norm2(wx, wy)
  {
    SquareOfSum(x, k * wx);
    SquareOfSum(y, k * wy);
    assert (k * wx) * (k * wx) == (k * k) * (wx * wx);
    assert (k * wy) * (k * wy) == (k * k) * (wy * wy);
    assert x * (k * wx) == k * (wx * x);
    assert y * (k * wy) == k * (wy * y);
    var a, b := wx * x, wy * y;
    assert k * (a + b) == k * a + k * b;
    var c, d := wx * wx, wy * wy;
    assert (k * k) * (c + d) == (k * k) * c + (k * k) * d;
  }

  /** A parabola over the integers is least where it is nearest to its middle. */
  lemma NearestIsLeast(n: int, l: int, d: int, k: int)
    requires l > 0 && -l <= 2 * (n - d * l) <= l
    ensures 2 * (-d * n) + d * d * l <= 2 * (k * n) + k * k * l
  {
    var t := n - d * l;
    Parabola(t, l, d, k + d);
    Parabola(t, l, d, 0);
    assert k + d - d == k && 0 - d == -d && t + d * l == n;
    assert -d * -d == d * d;
    LinearBelowSquare(k + d, t, l);
  }

  lemma Parabola(t: int, l: int, d: int, m: int)
    ensures 2 * ((m - d) * (t + d * l)) + (m - d) * (m - d) * l == 2 * (m * t) + m * m * l - 2 * (d * t) - d * d * l
  {
    var dl, ml := d * l, m * l;
    Products(m, -d, t, dl);
    Products(m, -d, ml, -dl);
    assert (m - d) * l == ml - dl;
    assert (m - d) * (m - d) * l == (m - d) * (ml - dl);
    assert m * dl == d * ml;
    assert m * m * l == m * ml;
    assert d * d * l == d * dl;
  }

  lemma Products(a: int, b: int, c: int, d: int)
    ensures (a + b) * (c + d) == a * c + a * d + b * c + b * d
  {
  }

  lemma LinearBelowSquare(m: int, t: int, l: int)
    requires l > 0 && -l <= 2 * t <= l
    ensures 2 * (m * t) + m * m * l >= 0
    decreases m <= -1
  {
    if m >= 1 {
      MulOrder(m, -l, 2 * t);
      MulMono(1, m, l);
      MulOrder(m, l, m * l);
      assert m * (m * l) == m * m * l;
      assert m * -l == -(m * l) && m * (2 * t) == 2 * (m * t);
    } else if m <= -1 {
      LinearBelowSquare(-m, -t, l);
      assert -m * -t == m * t && -m * -m == m * m;
    }
  }

  lemma MulOrder(m: int, a: int, b: int)
    requires m >= 1 && a <= b
    ensures m * a <= m * b
  {
  }

  lemma StripSymmetric(wx: int, wy: int)
    ensures Symmetric(StripShift(wx, wy))
  {
    hide Times;
    forall a, b | StripShift(wx, wy)((a, b))
      ensures StripShift(wx, wy)((-a, -b))
    {
      var k :| Times((a, b), k, wx, wy);
      TimesBack(a, b, k, wx, wy);
    }
  }

  lemma TimesBack(a: int, b: int, k: int, wx: int, wy: int)
    requires Times((a, b), k, wx, wy)
    ensures Times((-a, -b), -k, wx, wy)
  {
  }

  lemma StripShortest(wx: int, wy: int)
    requires Norm2(wx, wy) > 0
    ensures Shortest(Strip(wx, wy), StripShift(wx, wy)) && Symmetric(StripShift(wx, wy))
  {
    StripSymmetric(wx, wy);
    forall x, y
      ensures ShortestFor(Strip(wx, wy), StripShift(wx, wy), x, y)
    {
      StripShortestFor(wx, wy, x, y);
    }
  }

  lemma StripShortestFor(wx: int, wy: int, x: int, y: int)
    requires Norm2(wx, wy) > 0
    ensures ShortestFor(Strip(wx, wy), StripShift(wx, wy), x, y)
  {
    hide Norm2;
    hide Round;
    hide Times;
    var d := Round(wx * x + wy * y, Norm2(wx, wy));
    var v := Strip(wx, wy)((x, y));
    StripMoves(x, y, d, wx, wy);
    assert Times((v.0 - x, v.1 - y), -d, wx, wy);
    forall a, b | StripShift(wx, wy)((a, b))
      ensures Norm2(x + a, y + b) >= Norm2(v.0, v.1)
    {
      var k :| Times((a, b), k, wx, wy);
      NoneShorter(wx, wy, x, y, d, k, a, b);
    }
  }

  lemma StripMoves(x: int, y: int, d: int, wx: int, wy: int)
    ensures Times((x - d * wx - x, y - d * wy - y), -d, wx, wy)
  {
  }

  lemma NoneShorter(wx: int, wy: int, x: int, y: int, d: int, k: int, a: int, b: int)
    requires Norm2(wx, wy) > 0 && d == Round(wx * x + wy * y, Norm2(wx, wy)) && Times((a, b), k, wx, wy)
    ensures Norm2(x + a, y + b) >= Norm2(x - d * wx, y - d * wy)
  {
    hide Norm2;
    hide Round;
    RoundIsNearest(wx, wy, x, y, d, k);
    assert x + -d * wx == x - d * wx && y + -d * wy == y - d * wy;
  }

  lemma RoundIsNearest(wx: int, wy: int, x: int, y: int, d: int, k: int)
    requires Norm2(wx, wy) > 0 && d == Round(wx * x + wy * y, Norm2(wx, wy))
    ensures Norm2(x + k * wx, y + k * wy) >= Norm2(x + -d * wx, y + -d * wy)
  {
    Moved(x, y, wx, wy, -d);
    Moved(x, y, wx, wy, k);
    NearestIsLeast(wx * x + wy * y, Norm2(wx, wy), d, k);
    assert -d * -d == d * d;
    hide Norm2;
    hide Round;
  }
}
