/** How far apart the points of a map's polygons can be: what findmin needs to know to measure them. */
module WallExtent {
  import opened Arithmetic
  import opened Distance
  import opened Seqs
  import opened TileMap
  import opened Tracing
  import opened FindMin
  import opened FindEdges
  import opened PolyLink
  import opened Minwrap
  import P = Partition

  // ------------------------------------------------------------------- sizes of a map

  function Area(m: Tiles): nat {
    m.width * m.height
  }

  ghost function Row(y: nat, n: nat): set<Cell> {
    set x: nat | x < n :: Cell(x, y)
  }

  lemma {:induction false} RowSize(y: nat, n: nat)
    ensures |Row(y, n)| == n
  {
    if n > 0 {
      RowSize(y, n - 1);
      assert Row(y, n) == Row(y, n - 1) + {Cell(n - 1, y)};
    }
  }

  ghost function Rows(width: nat, n: nat): set<Cell> {
    set x: nat, y: nat | x < width && y < n :: Cell(x, y)
  }

  lemma {:induction false} RowsSize(width: nat, n: nat)
    ensures |Rows(width, n)| == width * n
  {
    if n > 0 {
      RowsSize(width, n - 1);
      RowSize(n - 1, width);
      assert Rows(width, n) == Rows(width, n - 1) + Row(n - 1, width);
      assert Rows(width, n - 1) !! Row(n - 1, width);
      hide Rows;
      hide Row;
      OneMoreTime(width, n);
    }
  }

  lemma AreaIsSize(m: Tiles)
    ensures |Cells(m)| == Area(m)
  {
    RowsSize(m.width, m.height);
    assert Cells(m) == Rows(m.width, m.height);
  }

  lemma OneMoreTime(a: nat, n: nat)
    requires n > 0
    ensures a * n == a * (n - 1) + a
  {
  }

  /** The half-edges of the first n directions at a set of cells. */
  ghost function Leaving(cells: set<Cell>, n: nat): set<HalfEdge>
    requires n <= 8
  {
    set c, d: Dir | c in cells && 0 <= d < n :: HalfEdge(c, d)
  }

  ghost function Towards(cells: set<Cell>, d: Dir): set<HalfEdge> {
    set c | c in cells :: HalfEdge(c, d)
  }

  lemma {:induction false} TowardsSize(cells: set<Cell>, d: Dir)
    ensures |Towards(cells, d)| == |cells|
  {
    if cells != {} {
      var c :| c in cells;
      TowardsSize(cells - {c}, d);
      assert Towards(cells, d) == Towards(cells - {c}, d) + {HalfEdge(c, d)};
    }
  }

  lemma {:induction false} LeavingSize(cells: set<Cell>, n: nat)
    requires n <= 8
    ensures |Leaving(cells, n)| == n * |cells|
  {
    if n > 0 {
      LeavingSize(cells, n - 1);
      TowardsSize(cells, n - 1);
      assert Leaving(cells, n) == Leaving(cells, n - 1) + Towards(cells, n - 1);
      assert Leaving(cells, n - 1) !! Towards(cells, n - 1);
      hide Leaving;
      hide Towards;
      OneMoreTime(|cells|, n);
    }
  }

  lemma HalfEdgesSize(m: Tiles)
    ensures |HalfEdges(m)| == 8 * Area(m)
  {
    var cells := Cells(m);
    AreaIsSize(m);
    CellsInside(m);
    LeavingSize(cells, 8);
    forall h
      ensures h in HalfEdges(m) <==> h in Leaving(cells, 8)
    {
      if h in Leaving(cells, 8) {
        assert h.loc in cells && h == HalfEdge(Cell(h.loc.x, h.loc.y), h.dir);
      }
    }
    assert HalfEdges(m) == Leaving(cells, 8);
  }

  lemma PartsFit(m: Tiles, v: P.Parts, seeds: seq<Cell>)
    requires P.Sound(m, v, seeds)
    ensures |v| <= Area(m)
  {
    P.SoundInside(m, v, seeds);
    hide P.Sound;
    AreaIsSize(m);
    CellsInside(m);
    SubsetSize(v.Keys, Cells(m));
    assert |v| == |v.Keys|;
  }

  // ------------------------------------------------------------- where the points lie

  lemma {:induction false} ChainReach(m: Tiles, x: int, y: int, ds: seq<Dir>)
    ensures x - |ds| <= P.EndX(x, ds) <= x + |ds| && y - |ds| <= P.EndY(y, ds) <= y + |ds|
    decreases |ds|
  {
    if ds != [] {
      ChainReach(m, x + DirX(ds[0]), y + DirY(ds[0]), ds[1..]);
    }
  }

  /** A part is unwrapped to within as many cells of the map as there are. */
  lemma PartReach(m: Tiles, v: P.Parts, seeds: seq<Cell>, c: Cell)
    requires P.Sound(m, v, seeds) && c in v
    ensures 0 <= v[c].x + Area(m) && v[c].x <= m.width + Area(m)
    ensures 0 <= v[c].y + Area(m) && v[c].y <= m.height + Area(m)
  {
    hide P.Sound;
    hide P.Rooted;
    hide Area;
    PartsFit(m, v, seeds);
    P.SoundAt(m, v, seeds, c);
    SeedInside(m, v, seeds, c);
    RootReach(m, seeds[v[c].num], v[c], c, |v|);
  }

  lemma RootReach(m: Tiles, seed: Cell, p: P.Part, c: Cell, n: nat)
    requires Valid(m) && P.Rooted(m, seed, p, c, n)
    ensures seed.x - n <= p.x <= seed.x + n && seed.y - n <= p.y <= seed.y + n
  {
    hide P.Follows;
    hide P.EndX;
    hide P.EndY;
    hide Wrap;
    var ds :| |ds| <= n && P.Arrives(m, seed, ds, p);
    ChainReach(m, seed.x, seed.y, ds);
  }

  lemma SeedInside(m: Tiles, v: P.Parts, seeds: seq<Cell>, c: Cell)
    requires P.Sound(m, v, seeds) && c in v
    ensures v[c].num < |seeds| && Inside(m, seeds[v[c].num])
  {
    hide P.Rooted;
  }

  lemma {:induction false} PolyReach(m: Tiles, poly: Poly, i: nat)
    requires Gradual(poly) && i < |poly|
    ensures poly[0].x - i <= poly[i].x <= poly[0].x + i && poly[0].y - i <= poly[i].y <= poly[0].y + i
  {
    if i > 0 {
      PolyReach(m, poly, i - 1);
      assert NextTo(poly[i - 1], poly[i - 1 + 1]);
    }
  }

  /** No point of a polygon lies farther out than this. */
  predicate Near(m: Tiles, p: Point) {
    && -9 * Area(m) <= p.x <= m.width + 9 * Area(m) + 1
    && -9 * Area(m) <= p.y <= m.height + 9 * Area(m) + 1
  }

  lemma FoundNear(m: Tiles, v: P.Parts, seeds: seq<Cell>, log: seq<Found>, i: nat, j: nat)
    requires Valid(m) && P.Partitioned(m, v, seeds) && Disjoint(m, log) && AllFiled(m, v, log)
    requires i < |log| && j < |log[i].poly|
    ensures Near(m, log[i].poly[j])
  {
    FoundIsGradual(m, log, i);
    FoundFits(m, log, i);
    assert Filed(m, v, log[i]);
    PartReach(m, v, seeds, LeftTile(m, log[i].hs[0]));
    PolyReach(m, log[i].poly, j);
    hide P.Partitioned;
    hide Disjoint;
    hide Gradual;
    hide LeftTile;
    hide Area;
  }

  lemma FoundFits(m: Tiles, log: seq<Found>, i: nat)
    requires Valid(m) && Disjoint(m, log) && i < |log|
    ensures |log[i].poly| <= 8 * Area(m)
  {
    assert DrawsOrbit(m, log[i].poly, log[i].hs);
    HalfEdgesSize(m);
    PathFits(m, log[i].hs);
    hide HalfEdges;
    hide Area;
    hide Boundary;
    hide Next;
  }

  // ------------------------------------------------------------- what findmin asks for

  lemma {:induction false} FoundForPart(log: seq<Found>, k: nat, poly: Poly) returns (i: nat)
    requires poly in PolysOfPart(log, k)
    ensures i < |log| && log[i].part == k && log[i].poly == poly
  {
    i := |log| - 1;
    if !(log[i].part == k && log[i].poly == poly) {
      i := FoundForPart(log[..|log| - 1], k, poly);
    }
  }

  /** The squared distance of two points of the map's polygons is at most this. */
  function Widest(m: Tiles): nat {
    800 * (Area(m) * Area(m))
  }

  /** wrap can measure the distances of these polygons. */
  ghost predicate AllNear(m: Tiles, polys: seq<Poly>) {
    forall i, p :: 0 <= i < |polys| && p in polys[i] ==> Near(m, p)
  }

  lemma PlainWithin(m: Tiles, p: Point, q: Point)
    requires Valid(m) && Near(m, p) && Near(m, q)
    ensures Norm2(q.x - p.x, q.y - p.y) <= Widest(m)
  {
    var n := Area(m);
    MulMono(1, m.width, m.height);
    MulMono(1, m.height, m.width);
    assert m.width <= n && m.height <= n && 1 <= n;
    hide Area;
    SquareWithin(q.x - p.x, 20 * n);
    SquareWithin(q.y - p.y, 20 * n);
    assert (20 * n) * (20 * n) == 400 * (n * n);
  }

  lemma SquareWithin(x: int, n: nat)
    requires Abs(x) <= n
    ensures x * x <= n * n
  {
    SquareGrows(Abs(x), n);
    assert Abs(x) * Abs(x) == x * x;
  }

  /** Wrapping never makes a distance longer. */
  lemma WrappedWithin(wrap: Vector -> Vector, shifts: Shifts, p: Point, q: Point)
    requires Shortest(wrap, shifts) && shifts((0, 0))
    ensures Apart(wrap, p, q) <= Norm2(q.x - p.x, q.y - p.y)
  {
    var x, y := q.x - p.x, q.y - p.y;
    assert ShortestFor(wrap, shifts, x, y);
    assert Norm2(x + 0, y + 0) >= Apart(wrap, p, q);
  }

  /** root is accurate for all distances on the map, and they are below the number that stands for infinity. */
  ghost predicate Measures(root: nat -> real, m: Tiles) {
    Widest(m) < FARTHEST && forall n: nat :: n <= Widest(m) ==> Accurate(root, n)
  }

  /** The integer root of 16 times n, taken as quarters. */
  function QuarterRoot(n: nat): real {
    Isqrt(16 * n) as real / 4.0
  }

  /** Quarters are fine enough, on every map whose widest distance is below the number for infinity. */
  lemma QuarterRootMeasures(m: Tiles)
    ensures Measures(QuarterRoot, m) <==> Widest(m) < FARTHEST
  {
    hide Accurate;
    forall n: nat
      ensures Accurate(QuarterRoot, n)
    {
      QuarterRootAccurate(n);
    }
  }

  /** On maps of up to 3e47 cells the distances can be measured. */
  lemma OrdinaryMaps(m: Tiles)
    requires m.width * m.height <= 3_0000000000_0000000000_0000000000_0000000000_0000000
    ensures Measures(QuarterRoot, m)
  {
    var most: nat := 3_0000000000_0000000000_0000000000_0000000000_0000000;
    MulMono(Area(m), most, Area(m));
    MulMono(Area(m), most, most);
    QuarterRootMeasures(m);
    hide Measures;
  }

  lemma QuarterRootAccurate(n: nat)
    ensures Accurate(QuarterRoot, n)
  {
    hide AtLeast;
    hide AtMost;
    hide Accurate;
    var r: int := Isqrt(16 * n);
    RootSteps(16 * n);
    hide Isqrt;
    var lo, hi := (r - 1) as real / 4.0, (r + 1) as real / 4.0;
    QuarterAbove(r + 1, n);
    if r > 0 {
      QuarterBelow(r - 1, n);
    } else {
      NotPositive(n, lo);
    }
    IsAccurate(QuarterRoot, n, lo, hi);
  }

  /** A length of at most r. */
  predicate AtMost(d: nat, r: real) {
    r * r >= d as real
  }

  lemma NotPositive(n: nat, r: real)
    requires r <= 0.0
    ensures AtLeast(n, r)
  {
  }

  lemma IsAccurate(root: nat -> real, n: nat, lo: real, hi: real)
    requires root(n) >= 0.0 && lo == root(n) - 0.25 && hi == root(n) + 0.25 && AtLeast(n, lo) && AtMost(n, hi)
    ensures Accurate(root, n)
  {
    hide AtLeast;
  }

  lemma RootSteps(n: nat)
    ensures var r := Isqrt(n); (r > 0 ==> (r - 1) * (r - 1) <= n) && (r + 1) * (r + 1) >= n
  {
    var r := Isqrt(n);
    IsqrtBounds(n);
    hide Isqrt;
    if r > 0 {
      MulMono(r - 1, r, r - 1);
      MulMono(r - 1, r, r);
    }
  }

  lemma QuarterBelow(k: nat, n: nat)
    requires k * k <= 16 * n
    ensures AtLeast(n, k as real / 4.0)
  {
    var s := QuarterSquare(k);
    assert (16 * n) as real == 16.0 * n as real;
  }

  lemma QuarterAbove(k: nat, n: nat)
    requires k * k >= 16 * n
    ensures AtMost(n, k as real / 4.0)
  {
    var s := QuarterSquare(k);
    assert (16 * n) as real == 16.0 * n as real;
  }

  /** The square of k quarters is k * k sixteenths. */
  lemma QuarterSquare(k: nat) returns (s: real)
    ensures s == (k as real / 4.0) * (k as real / 4.0) && 16.0 * s == (k * k) as real
  {
    var q := k as real / 4.0;
    s := q * q;
    assert 4.0 * q == k as real;
    assert 16.0 * (q * q) == (4.0 * q) * (4.0 * q);
    RealProduct(k);
  }

  lemma NearMeasurable(m: Tiles, polys: seq<Poly>, wrap: Vector -> Vector, shifts: Shifts, root: nat -> real)
    requires Valid(m) && AllNear(m, polys) && Measures(root, m)
    requires Symmetric(shifts) && Shortest(wrap, shifts) && shifts((0, 0))
    requires forall i :: 0 <= i < |polys| ==> polys[i] != [] && Gradual(polys[i])
    ensures Measurable(wrap, shifts, root, Widest(m), polys)
  {
    hide Near;
    hide Widest;
    hide Accurate;
    hide Shortest;
    hide Symmetric;
    hide Gradual;
    hide Apart;
    hide Norm2;
    forall i, j | 0 <= i < |polys| && 0 <= j < |polys|
      ensures InRange(wrap, polys[i], polys[j], root, Widest(m))
    {
      forall p: Point, q: Point | p in polys[i] && q in polys[j]
        ensures Apart(wrap, p, q) <= Widest(m)
      {
        PlainWithin(m, p, q);
        WrappedWithin(wrap, shifts, p, q);
      }
    }
  }

  /** The polygons found for a part are not empty, and each is fit for findmin. */
  lemma PartPolys(m: Tiles, v: P.Parts, seeds: seq<Cell>, log: seq<Found>, k: nat)
    requires Valid(m) && P.Partitioned(m, v, seeds) && Disjoint(m, log) && AllFiled(m, v, log)
    ensures AllNear(m, PolysOfPart(log, k))
    ensures forall i :: 0 <= i < |PolysOfPart(log, k)| ==>
              PolysOfPart(log, k)[i] != [] && Gradual(PolysOfPart(log, k)[i])
  {
    hide P.Partitioned;
    hide Disjoint;
    hide AllFiled;
    hide Near;
    hide Gradual;
    hide PolysOfPart;
    var polys := PolysOfPart(log, k);
    forall n | 0 <= n < |polys|
      ensures polys[n] != [] && Gradual(polys[n]) && forall p :: p in polys[n] ==> Near(m, p)
    {
      var i := FoundForPart(log, k, polys[n]);
      FoundIsGradual(m, log, i);
      forall p | p in polys[n]
        ensures Near(m, p)
      {
        var j :| 0 <= j < |polys[n]| && polys[n][j] == p;
        FoundNear(m, v, seeds, log, i, j);
      }
    }
  }

  /** Whatever the way a part wraps, its distances can be measured. */
  lemma AllMeasurable(m: Tiles, polys: seq<Poly>, root: nat -> real)
    requires Valid(m) && AllNear(m, polys) && Measures(root, m)
    requires forall i :: 0 <= i < |polys| ==> polys[i] != [] && Gradual(polys[i])
    ensures Measurable(Plain, NoShift, root, Widest(m), polys)
    ensures Measurable(Torus(m.width, m.height), TorusShift(m.width, m.height), root, Widest(m), polys)
    ensures forall wx, wy :: Norm2(wx, wy) > 0 ==> Measurable(Strip(wx, wy), StripShift(wx, wy), root, Widest(m), polys)
  {
    hide Measurable;
    hide Measures;
    hide AllNear;
    hide Gradual;
    hide Widest;
    hide Shortest;
    hide Symmetric;
    hide Norm2;
    PlainShortest();
    NearMeasurable(m, polys, Plain, NoShift, root);
    TorusShortest(m.width, m.height);
    ModIs(0, 0, 0, m.width);
    ModIs(0, 0, 0, m.height);
    NearMeasurable(m, polys, Torus(m.width, m.height), TorusShift(m.width, m.height), root);
    forall wx, wy | Norm2(wx, wy) > 0
      ensures Measurable(Strip(wx, wy), StripShift(wx, wy), root, Widest(m), polys)
    {
      StripShortest(wx, wy);
      assert Times((0, 0), 0, wx, wy);
      NearMeasurable(m, polys, Strip(wx, wy), StripShift(wx, wy), root);
    }
  }

  /** poly_link can measure the polygons that poly_findedges found for a part, whatever the way the part wraps. */
  lemma PartMeasurable(m: Tiles, v: P.Parts, seeds: seq<Cell>, log: seq<Found>, k: nat, root: nat -> real)
    requires Valid(m) && P.Partitioned(m, v, seeds) && Disjoint(m, log) && AllFiled(m, v, log) && Measures(root, m)
    ensures Measurable(Plain, NoShift, root, Widest(m), PolysOfPart(log, k))
    ensures Measurable(Torus(m.width, m.height), TorusShift(m.width, m.height), root, Widest(m), PolysOfPart(log, k))
    ensures forall wx, wy :: Norm2(wx, wy) > 0 ==>
              Measurable(Strip(wx, wy), StripShift(wx, wy), root, Widest(m), PolysOfPart(log, k))
  {
    PartPolys(m, v, seeds, log, k);
    AllMeasurable(m, PolysOfPart(log, k), root);
    hide P.Partitioned;
    hide Disjoint;
    hide AllFiled;
    hide Measurable;
    hide AllNear;
    hide Gradual;
    hide PolysOfPart;
    hide Norm2;
  }
}
