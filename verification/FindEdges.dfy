/** poly_findedges: the polygons that draw every edge of the wall exactly once. */
module FindEdges {
  import opened Seqs
  import opened TileMap
  import opened Tracing
  import opened EdgeOrbits
  import P = Partition

  // ------------------------------------------------------------ polygons found so far

  /** A polygon that has been found, the orbit it draws, and the part whose list it was put on. */
  datatype Found = Found(part: nat, poly: Poly, hs: seq<HalfEdge>)

  /** poly draws the orbit hs without a break. */
  ghost predicate DrawsOrbit(m: Tiles, poly: Poly, hs: seq<HalfEdge>)
    requires Valid(m)
  {
    && Orbit(m, hs) && poly != []
    && exists x, y :: Draws(m, poly, hs, poly[0].x, poly[0].y, x, y) && Wrap(m, x, y) == hs[0].loc
  }

  ghost function Covered(log: seq<Found>): set<HalfEdge> {
    if log == [] then {} else Covered(log[..|log| - 1]) + Elements(log[|log| - 1].hs)
  }

  /** The polygons draw orbits, no two of which meet. */
  ghost predicate Disjoint(m: Tiles, log: seq<Found>)
    requires Valid(m)
  {
    && (forall i :: 0 <= i < |log| ==> DrawsOrbit(m, log[i].poly, log[i].hs))
    && (forall i, j :: 0 <= i < j < |log| ==> Elements(log[i].hs) !! Elements(log[j].hs))
  }

  lemma {:induction false} CoveredBy(log: seq<Found>, h: HalfEdge)
    ensures h in Covered(log) <==> exists i :: 0 <= i < |log| && h in log[i].hs
  {
    if log != [] {
      var front, last := log[..|log| - 1], log[|log| - 1];
      CoveredBy(front, h);
      if h in Covered(log) {
        if h in last.hs {
          assert h in log[|log| - 1].hs;
        } else {
          var i :| 0 <= i < |front| && h in front[i].hs;
          assert h in log[i].hs;
        }
      }
      if i :| 0 <= i < |log| && h in log[i].hs {
        assert i < |front| ==> h in front[i].hs;
      }
    }
  }

  lemma {:induction false} CoveredIsClosed(m: Tiles, log: seq<Found>)
    requires Valid(m) && Disjoint(m, log)
    ensures Closed(m, Covered(log))
  {
    hide Boundary;
    hide Next;
    hide DrawsOrbit;
    if log != [] {
      var front, last := log[..|log| - 1], log[|log| - 1];
      assert DrawsOrbit(m, last.poly, last.hs);
      CoveredIsClosed(m, front);
      LastOrbit(m, log);
      OrbitIsClosed(m, last.hs);
      UnionIsClosed(m, Covered(front), Elements(last.hs));
    }
  }

  lemma LastOrbit(m: Tiles, log: seq<Found>)
    requires Valid(m) && Disjoint(m, log) && log != []
    ensures Orbit(m, log[|log| - 1].hs)
  {
    assert DrawsOrbit(m, log[|log| - 1].poly, log[|log| - 1].hs);
  }

  /** An orbit whose first half-edge is new is new altogether. */
  lemma NewOrbit(m: Tiles, log: seq<Found>, f: Found)
    requires Valid(m) && Disjoint(m, log) && DrawsOrbit(m, f.poly, f.hs) && f.hs[0] !in Covered(log)
    ensures Disjoint(m, log + [f]) && Covered(log + [f]) == Covered(log) + Elements(f.hs)
  {
    hide Boundary;
    hide Next;
    CoveredIsClosed(m, log);
    var more := log + [f];
    assert more[..|log|] == log;
    forall i | 0 <= i < |log|
      ensures Elements(log[i].hs) !! Elements(f.hs)
    {
      forall h | h in f.hs
        ensures h !in log[i].hs
      {
        var k :| 0 <= k < |f.hs| && f.hs[k] == h;
        PathStaysOut(m, f.hs, Covered(log), k);
        CoveredBy(log, h);
      }
    }
    hide DrawsOrbit;
  }

  /** The polygons that part k has been given, in order. */
  function PolysOfPart(log: seq<Found>, k: nat): seq<Poly> {
    if log == [] then []
    else PolysOfPart(log[..|log| - 1], k) + if log[|log| - 1].part == k then [log[|log| - 1].poly] else []
  }

  /** The lists of polygons, one for each part, hold what has been found. */
  ghost predicate HoldsPolys(partpolys: array<seq<Poly>>, log: seq<Found>)
    reads partpolys
  {
    && (forall i :: 0 <= i < |log| ==> log[i].part < partpolys.Length)
    && forall k :: 0 <= k < partpolys.Length ==> partpolys[k] == PolysOfPart(log, k)
  }

  method AddPoly(partpolys: array<seq<Poly>>, part: nat, poly: Poly, ghost log: seq<Found>, ghost f: Found)
    requires HoldsPolys(partpolys, log) && part < partpolys.Length && f.part == part && f.poly == poly
    modifies partpolys
    ensures HoldsPolys(partpolys, log + [f])
  {
    assert (log + [f])[..|log|] == log;
    partpolys[part] := partpolys[part] + [poly];
  }

  /** The tile whose wall lies on the left of a half-edge. */
  function LeftTile(m: Tiles, h: HalfEdge): Cell
    requires Valid(m)
  {
    if h.dir == 6 || h.dir == 7 then h.loc
    else if h.dir == 4 || h.dir == 5 then Step(m, h.loc, 4)
    else if h.dir == 2 || h.dir == 3 then Step(m, h.loc, 3)
    else Step(m, h.loc, 2)
  }

  /** The corner of a tile at which an edge leaves in direction d with the tile on its left. */
  function CornerX(d: Dir): int {
    if 2 <= d <= 5 then 1 else 0
  }

  function CornerY(d: Dir): int {
    if d <= 3 then 1 else 0
  }

  /** The polygon is listed for the part of the wall on its left, and starts at the right corner of that wall tile. */
  ghost predicate Filed(m: Tiles, v: P.Parts, f: Found)
    requires Valid(m)
  {
    f.hs != [] && f.poly != [] && LeftTile(m, f.hs[0]) in v
    && var p := v[LeftTile(m, f.hs[0])];
       f.part == p.num && f.poly[0].x == p.x + CornerX(f.hs[0].dir) && f.poly[0].y == p.y + CornerY(f.hs[0].dir)
  }

  ghost predicate AllFiled(m: Tiles, v: P.Parts, log: seq<Found>)
    requires Valid(m)
  {
    forall i :: 0 <= i < |log| ==> Filed(m, v, log[i])
  }

  /** newLog has one more polygon, of the given part, that starts with s at the point (x, y). */
  predicate OneMore(log: seq<Found>, newLog: seq<Found>, part: nat, x: int, y: int, s: HalfEdge) {
    && log <= newLog && |newLog| == |log| + 1
    && var f := newLog[|log|];
       f.part == part && f.hs != [] && f.hs[0] == s && f.poly != [] && f.poly[0].x == x && f.poly[0].y == y
  }

  lemma FiledMore(m: Tiles, v: P.Parts, log: seq<Found>, newLog: seq<Found>, c: Cell, dx: int, dy: int, s: HalfEdge)
    requires Valid(m) && AllFiled(m, v, log) && c in v && LeftTile(m, s) == c
    requires dx == CornerX(s.dir) && dy == CornerY(s.dir)
    requires OneMore(log, newLog, v[c].num, v[c].x + dx, v[c].y + dy, s)
    ensures AllFiled(m, v, newLog)
  {
    hide LeftTile;
    forall i | 0 <= i < |newLog|
      ensures Filed(m, v, newLog[i])
    {
      if i < |log| {
        assert newLog[i] == log[i];
      }
    }
  }

  // --------------------------------------------------------- the order of the polygons

  /** When the search comes to s: the tiles row by row, then the first row, then top and bottom of each row. */
  function Rank(m: Tiles, s: HalfEdge): int
    requires Valid(m)
  {
    var tiles := m.width * m.height;
    if Marking(s) then LeftTile(m, s).y * m.width + LeftTile(m, s).x
    else if s.dir == 2 then tiles + s.loc.x
    else if s.dir == 4 then tiles + m.width + 2 * LeftTile(m, s).y
    else tiles + m.width + 2 * LeftTile(m, s).y + 1
  }

  /** The polygons start in the order of the search, all before the rank n. */
  predicate Ordered(m: Tiles, log: seq<Found>, n: int)
    requires Valid(m)
  {
    && (forall i :: 0 <= i < |log| ==> log[i].hs != [] && Rank(m, log[i].hs[0]) < n)
    && (forall i, j :: 0 <= i < j < |log| ==> Rank(m, log[i].hs[0]) < Rank(m, log[j].hs[0]))
  }

  lemma OrderedMore(m: Tiles, log: seq<Found>, newLog: seq<Found>, part: nat, x: int, y: int, s: HalfEdge, n: int)
    requires Valid(m) && Ordered(m, log, n) && Rank(m, s) == n
    requires newLog == log || OneMore(log, newLog, part, x, y, s)
    ensures Ordered(m, newLog, n + 1)
  {
    hide Rank;
    assert forall i :: 0 <= i < |log| ==> newLog[i] == log[i];
  }

  lemma OrderedUpTo(m: Tiles, log: seq<Found>, n: int, k: int)
    requires Valid(m) && Ordered(m, log, n) && n <= k
    ensures Ordered(m, log, k)
  {
    hide Rank;
  }

  /** The polygons of a part are listed in the order in which they were found. */
  lemma {:induction false} ListedInOrder(log: seq<Found>, k: nat, a: nat, b: nat) returns (i: nat, j: nat)
    requires a < b < |PolysOfPart(log, k)|
    ensures i < j < |log| && log[i].part == k && log[j].part == k
    ensures PolysOfPart(log, k)[a] == log[i].poly && PolysOfPart(log, k)[b] == log[j].poly
  {
    var front := PolysOfPart(log[..|log| - 1], k);
    if b < |front| {
      i, j := ListedInOrder(log[..|log| - 1], k, a, b);
    } else {
      i := ListedAt(log[..|log| - 1], k, a);
      j := |log| - 1;
    }
  }

  lemma {:induction false} ListedAt(log: seq<Found>, k: nat, a: nat) returns (i: nat)
    requires a < |PolysOfPart(log, k)|
    ensures i < |log| && log[i].part == k && PolysOfPart(log, k)[a] == log[i].poly
  {
    if a < |PolysOfPart(log[..|log| - 1], k)| {
      i := ListedAt(log[..|log| - 1], k, a);
    } else {
      i := |log| - 1;
    }
  }

  // ------------------------------------------------------------------ the first pass

  /** The marked tiles are those of the marking half-edges covered. */
  ghost predicate OnesMatch(m: Tiles, log: seq<Found>, ones: set<Cell>)
    requires Valid(m)
  {
    && (forall h :: h in Covered(log) && Inside(m, h.loc) && Marking(h) ==> MarkCell(m, h) in ones)
    && (forall c :: c in ones ==> exists h :: MarkedBy(m, log, h, c))
  }

  ghost predicate MarkedBy(m: Tiles, log: seq<Found>, h: HalfEdge, c: Cell)
    requires Valid(m)
  {
    h in Covered(log) && Boundary(m, h) && Marking(h) && MarkCell(m, h) == c
  }

  /** A marked tile has its start covered. */
  lemma MarkedStartCovered(m: Tiles, log: seq<Found>, ones: set<Cell>, c: Cell)
    requires Valid(m) && Disjoint(m, log) && OnesMatch(m, log, ones) && c in ones && Inside(m, c)
    ensures StartOf(m, c).Some? && StartOf(m, c).value in Covered(log)
  {
    hide Boundary;
    hide Next;
    hide StartOf;
    hide MarkCell;
    var h :| MarkedBy(m, log, h, c);
    CoveredIsClosed(m, log);
    MarkedHasStart(m, h);
  }

  /** A tile that is not marked has its start, if any, not covered. */
  lemma UnmarkedStartNew(m: Tiles, log: seq<Found>, ones: set<Cell>, c: Cell)
    requires Valid(m) && OnesMatch(m, log, ones) && Inside(m, c) && c !in ones && StartOf(m, c).Some?
    ensures StartOf(m, c).value !in Covered(log)
  {
    StartFacts(m, c);
    hide StartOf;
    hide MarkCell;
    hide NoEdge;
  }

  lemma OnesGrow(m: Tiles, log: seq<Found>, f: Found, ones: set<Cell>)
    requires Valid(m) && OnesMatch(m, log, ones) && Orbit(m, f.hs)
    requires Covered(log + [f]) == Covered(log) + Elements(f.hs)
    requires forall h :: h in f.hs ==> Inside(m, h.loc)
    ensures OnesMatch(m, log + [f], ones + MarkSet(m, f.hs))
  {
    hide MarkCell;
    hide NoEdge;
    hide Next;
    hide Marking;
    var more, all := log + [f], ones + MarkSet(m, f.hs);
    forall h | h in Covered(more) && Inside(m, h.loc) && Marking(h)
      ensures MarkCell(m, h) in all
    {
      if h in Elements(f.hs) {
        var i :| 0 <= i < |f.hs| && f.hs[i] == h;
        assert MarkCell(m, f.hs[i]) in MarkSet(m, f.hs);
      }
    }
    forall c | c in all
      ensures exists h :: MarkedBy(m, more, h, c)
    {
      if c in ones {
        var h :| MarkedBy(m, log, h, c);
        assert MarkedBy(m, more, h, c);
      } else {
        var i :| 0 <= i < |f.hs| && Marking(f.hs[i]) && c == MarkCell(m, f.hs[i]);
        assert Boundary(m, f.hs[i]) && f.hs[i] in Elements(f.hs);
        assert MarkedBy(m, more, f.hs[i], c);
      }
    }
  }

  /** All half-edges of the five directions that mark tiles are covered. */
  ghost predicate MarkingCovered(m: Tiles, log: seq<Found>)
    requires Valid(m)
  {
    forall h :: Boundary(m, h) && Marking(h) ==> h in Covered(log)
  }

  /** After the first pass every start is covered, and with it every half-edge that marks a tile. */
  lemma FirstPassCovers(m: Tiles, log: seq<Found>)
    requires Valid(m) && Disjoint(m, log)
    requires forall c :: Inside(m, c) && StartOf(m, c).Some? ==> StartOf(m, c).value in Covered(log)
    ensures MarkingCovered(m, log)
  {
    hide NoEdge;
    hide Next;
    hide StartOf;
    hide MarkCell;
    CoveredIsClosed(m, log);
    forall h | Boundary(m, h) && Marking(h)
      ensures h in Covered(log)
    {
      MarkedHasStart(m, h);
    }
  }

  /** Each polygon so far starts with a half-edge that marks its tile. */
  predicate StartsMarking(log: seq<Found>) {
    forall i :: 0 <= i < |log| ==> log[i].hs != [] && Marking(log[i].hs[0])
  }

  /** The partition that the polygons are sorted by. */
  ghost predicate Parts(m: Tiles, mapparts: array2<P.Entry>, partcount: nat, v: P.Parts, seeds: seq<Cell>)
    reads mapparts
  {
    P.Holds(mapparts, m, v) && P.Partitioned(m, v, seeds) && partcount == |seeds|
  }

  /** The unwrapped position stored for a wall cell lies in that cell. */
  method Located(m: Tiles, mapparts: array2<P.Entry>, c: Cell, ghost partcount: nat, ghost v: P.Parts,
                 ghost seeds: seq<Cell>)
    returns (sl: P.Part)
    requires Valid(m) && Parts(m, mapparts, partcount, v, seeds) && Inside(m, c) && IsWall(TileAt(m, c))
    ensures sl.num < partcount && Wrap(m, sl.x, sl.y) == c && c in v && sl == v[c]
    ensures forall d: Dir :: Wrap(m, sl.x + DirX(d), sl.y + DirY(d)) == Step(m, c, d)
  {
    hide Parts;
    hide Wrap;
    hide Step;
    hide DirX;
    hide DirY;
    hide TileAt;
    hide IsWall;
    sl := PartHeld(m, mapparts, c, partcount, v, seeds);
    StepsWrap(m, sl.x, sl.y);
  }

  method PartHeld(m: Tiles, mapparts: array2<P.Entry>, c: Cell, ghost partcount: nat, ghost v: P.Parts,
                  ghost seeds: seq<Cell>)
    returns (sl: P.Part)
    requires Valid(m) && Parts(m, mapparts, partcount, v, seeds) && Inside(m, c) && IsWall(TileAt(m, c))
    ensures sl.num < partcount && Wrap(m, sl.x, sl.y) == c && c in v && sl == v[c]
  {
    hide P.Partitioned;
    hide TileAt;
    hide IsWall;
    hide Wrap;
    WallHasPart(m, v, seeds, c);
    assert c == Cell(c.x, c.y);
    sl := mapparts[c.y, c.x].part;
  }

  lemma WallHasPart(m: Tiles, v: P.Parts, seeds: seq<Cell>, c: Cell)
    requires Valid(m) && P.Partitioned(m, v, seeds) && Inside(m, c) && IsWall(TileAt(m, c))
    ensures c in v && v[c].num < |seeds| && Wrap(m, v[c].x, v[c].y) == c
  {
    hide P.ClosedExcept;
    hide P.Sound;
    hide P.Rooted;
    hide Wrap;
    hide Step;
    hide DirX;
    hide DirY;
    P.SoundAt(m, v, seeds, c);
    P.RootWraps(m, seeds[v[c].num], v[c], c, |v|);
  }

  lemma StepsWrap(m: Tiles, x: int, y: int)
    requires Valid(m)
    ensures forall d: Dir :: Wrap(m, x + DirX(d), y + DirY(d)) == Step(m, Wrap(m, x, y), d)
  {
    hide DirX;
    hide DirY;
    hide Wrap;
    hide Step;
    forall d: Dir
      ensures Wrap(m, x + DirX(d), y + DirY(d)) == Step(m, Wrap(m, x, y), d)
    {
      StepWraps(m, x, y, d);
    }
  }

  lemma TracedDraws(m: Tiles, poly: Poly, hs: seq<HalfEdge>, x0: int, y0: int)
    requires Valid(m) && Orbit(m, hs)
    requires exists x, y :: Draws(m, poly, hs, x0, y0, x, y) && Wrap(m, x, y) == hs[0].loc
    ensures DrawsOrbit(m, poly, hs) && poly != [] && poly[0].x == x0 && poly[0].y == y0
  {
    hide Wrap;
    hide Follow;
  }

  lemma PathInside(m: Tiles, hs: seq<HalfEdge>)
    requires Valid(m) && Path(m, hs)
    ensures forall h :: h in hs ==> Inside(m, h.loc)
  {
    hide NoEdge;
    hide Next;
  }

  /** Traces the orbit of a start that is not covered and files its polygon. */
  method TraceNew(m: Tiles, sl: P.Part, dx: int, dy: int, dir: Dir, partpolys: array<seq<Poly>>, done: Marks,
                  ghost log: seq<Found>, ghost ones: set<Cell>)
    returns (ghost newLog: seq<Found>, ghost newOnes: set<Cell>)
    requires Valid(m) && Disjoint(m, log) && OnesMatch(m, log, ones) && StartsMarking(log)
    requires HoldsPolys(partpolys, log) && HoldsMarks(done, m, ones, {}) && sl.num < partpolys.Length
    requires var s := HalfEdge(Wrap(m, sl.x + dx, sl.y + dy), dir); Boundary(m, s) && Marking(s) && s !in Covered(log)
    modifies partpolys, done
    ensures Disjoint(m, newLog) && OnesMatch(m, newLog, newOnes) && StartsMarking(newLog)
    ensures HoldsPolys(partpolys, newLog) && HoldsMarks(done, m, newOnes, {})
    ensures HalfEdge(Wrap(m, sl.x + dx, sl.y + dy), dir) in Covered(newLog) && Covered(log) <= Covered(newLog)
    ensures OneMore(log, newLog, sl.num, sl.x + dx, sl.y + dy, HalfEdge(Wrap(m, sl.x + dx, sl.y + dy), dir))
  {
    hide HoldsMarks;
    hide Boundary;
    hide Draws;
    hide Wrap;
    hide OnesMatch;
    hide Next;
    hide MarkSet;
    hide UpSet;
    var poly;
    ghost var hs;
    poly, hs := TracePoly(m, sl.x + dx, sl.y + dy, dir, AnyDir, done, ones, {});
    ghost var f := Found(sl.num, poly.value, hs);
    assert hs[..|hs|] == hs;
    PathInside(m, hs);
    NewFound(m, log, f, sl.x + dx, sl.y + dy, ones);
    newLog, newOnes := log + [f], ones + MarkSet(m, hs);
    assert {} - MarkSet(m, hs) == {};
    AddPoly(partpolys, sl.num, poly.value, log, f);
  }

  /** A polygon that has just been traced, from a start that is not covered, joins those found so far. */
  lemma NewFound(m: Tiles, log: seq<Found>, f: Found, x0: int, y0: int, ones: set<Cell>)
    requires Valid(m) && Disjoint(m, log) && OnesMatch(m, log, ones) && StartsMarking(log)
    requires Orbit(m, f.hs) && Marking(f.hs[0]) && f.hs[0] !in Covered(log)
    requires exists x, y :: Draws(m, f.poly, f.hs, x0, y0, x, y) && Wrap(m, x, y) == f.hs[0].loc
    ensures Disjoint(m, log + [f]) && OnesMatch(m, log + [f], ones + MarkSet(m, f.hs)) && StartsMarking(log + [f])
    ensures f.hs[0] in Covered(log + [f]) && Covered(log) <= Covered(log + [f])
    ensures f.poly != [] && f.poly[0].x == x0 && f.poly[0].y == y0
  {
    hide Boundary;
    hide Draws;
    hide Wrap;
    hide OnesMatch;
    hide Next;
    hide MarkSet;
    hide Marking;
    hide Disjoint;
    hide Covered;
    TracedDraws(m, f.poly, f.hs, x0, y0);
    hide DrawsOrbit;
    PathInside(m, f.hs);
    assert f.hs[0] in Elements(f.hs);
    NewOrbit(m, log, f);
    OnesGrow(m, log, f, ones);
  }

  /** The first pass at one tile. */
  method TraceTile(m: Tiles, mapparts: array2<P.Entry>, c: Cell, partpolys: array<seq<Poly>>, done: Marks,
                   ghost v: P.Parts, ghost seeds: seq<Cell>, ghost log: seq<Found>, ghost ones: set<Cell>)
    returns (ghost newLog: seq<Found>, ghost newOnes: set<Cell>)
    requires Valid(m) && Inside(m, c) && Parts(m, mapparts, partpolys.Length, v, seeds)
    requires Disjoint(m, log) && OnesMatch(m, log, ones) && StartsMarking(log) && AllFiled(m, v, log)
    requires HoldsPolys(partpolys, log) && HoldsMarks(done, m, ones, {})
    requires Ordered(m, log, c.y * m.width + c.x)
    modifies partpolys, done
    ensures Ordered(m, newLog, c.y * m.width + c.x + 1)
    ensures Disjoint(m, newLog) && OnesMatch(m, newLog, newOnes) && StartsMarking(newLog) && AllFiled(m, v, newLog)
    ensures HoldsPolys(partpolys, newLog) && HoldsMarks(done, m, newOnes, {})
    ensures StartOf(m, c).Some? ==> StartOf(m, c).value in Covered(newLog)
    ensures Covered(log) <= Covered(newLog)
  {
    hide OnesMatch;
    hide Parts;
    hide HoldsPolys;
    hide Disjoint;
    hide StartsMarking;
    hide Wrap;
    hide NoEdge;
    hide MarkCell;
    newLog, newOnes := log, ones;
    ghost var n := c.y * m.width + c.x;
    OrderedUpTo(m, log, n, n + 1);
    hide Ordered;
    assert c == Cell(c.x, c.y);
    if done[c.y, c.x] != 0 {
      MarkedStartCovered(m, log, ones, c);
      return;
    }
    if StartOf(m, c).None? {
      NoStart(m, c);
    } else {
      StartFacts(m, c);
      StartLeft(m, c);
      UnmarkedStartNew(m, log, ones, c);
    }
    hide HoldsMarks;
    hide LeftTile;
    hide AllFiled;
    hide OneMore;
    var block := TileAt(m, c);
    if !IsWall(block) {
      return;
    }
    var dx, dy, dir: Dir := 0, 0, 0;
    if block == REC_UR {
      dir := 7;
    } else if block == REC_DR {
      dx, dir := 1, 5;
    } else if block == REC_DL {
      dx, dy, dir := 1, 1, 3;
    } else if block == REC_UL {
      dy, dir := 1, 1;
    } else if OneOf(block, REC_DL, REC_UL) && !OneOf(TileAt(m, Step(m, c, 4)), REC_DR, REC_UR) {
      dir := 6;
    } else {
      return;
    }
    var sl := Located(m, mapparts, c, partpolys.Length, v, seeds);
    assert Wrap(m, sl.x + dx, sl.y + dy) == StartOf(m, c).value.loc by {
      assert Wrap(m, sl.x + DirX(0), sl.y + DirY(0)) == Step(m, c, 0);
      assert Wrap(m, sl.x + DirX(7), sl.y + DirY(7)) == Step(m, c, 7);
      assert Wrap(m, sl.x + DirX(6), sl.y + DirY(6)) == Step(m, c, 6);
    }
    newLog, newOnes := TraceNew(m, sl, dx, dy, dir, partpolys, done, log, ones);
    FiledMore(m, v, log, newLog, c, dx, dy, StartOf(m, c).value);
    OrderedMore(m, log, newLog, sl.num, sl.x + dx, sl.y + dy, StartOf(m, c).value, n);
  }

  lemma StartLeft(m: Tiles, c: Cell)
    requires Valid(m) && Inside(m, c) && StartOf(m, c).Some?
    ensures LeftTile(m, StartOf(m, c).value) == c
  {
    Corners(m, c);
    hide Step;
    hide TileAt;
  }

  lemma NoStart(m: Tiles, c: Cell)
    requires Valid(m) && Inside(m, c)
    ensures !IsWall(TileAt(m, c)) ==> StartOf(m, c).None?
  {
    hide Step;
  }

  // --------------------------------------------------------- polygons without diagonals

  /** A step from an allowed direction into one that is not leads to a covered half-edge. */
  ghost predicate ExitsCovered(m: Tiles, log: seq<Found>, dirs: set<Dir>)
    requires Valid(m)
  {
    forall h :: Boundary(m, h) && h.dir in dirs && Next(m, h).dir !in dirs ==> Next(m, h) in Covered(log)
  }

  /** An orbit from s in the given directions would be new. */
  ghost predicate NewIfFlat(m: Tiles, log: seq<Found>, dirs: set<Dir>, s: HalfEdge)
    requires Valid(m)
  {
    forall hs: seq<HalfEdge> :: hs != [] && hs[0] == s && Orbit(m, hs) && Keeps(hs, dirs) ==> s !in Covered(log)
  }

  predicate Keeps(hs: seq<HalfEdge>, dirs: set<Dir>) {
    forall i :: 0 <= i < |hs| ==> hs[i].dir in dirs
  }

  /** Traces from s and files the polygon if it stays within the given directions; s is covered either way. */
  method TraceFlat(m: Tiles, sl: P.Part, dx: int, dy: int, dir: Dir, dirs: set<Dir>, partpolys: array<seq<Poly>>,
                   done: Marks, ghost log: seq<Found>, ghost ones: set<Cell>, ghost minuses: set<Cell>)
    returns (ghost newLog: seq<Found>, ghost hs: seq<HalfEdge>)
    requires Valid(m) && Disjoint(m, log) && HoldsPolys(partpolys, log) && HoldsMarks(done, m, ones, minuses)
    requires sl.num < partpolys.Length && dir in dirs && dirs <= {0, 2, 4}
    requires var s := HalfEdge(Wrap(m, sl.x + dx, sl.y + dy), dir); Boundary(m, s) && NewIfFlat(m, log, dirs, s)
    requires ExitsCovered(m, log, dirs)
    modifies partpolys, done
    ensures Disjoint(m, newLog) && HoldsPolys(partpolys, newLog)
    ensures newLog == log || (log <= newLog && |newLog| == |log| + 1 && newLog[|log|].hs == hs)
    ensures newLog == log
            || OneMore(log, newLog, sl.num, sl.x + dx, sl.y + dy, HalfEdge(Wrap(m, sl.x + dx, sl.y + dy), dir))
    ensures Path(m, hs) && hs[0] == HalfEdge(Wrap(m, sl.x + dx, sl.y + dy), dir)
    ensures forall h :: h in hs ==> h.dir in dirs && h in Covered(newLog)
    ensures Covered(log) <= Covered(newLog)
    ensures HoldsMarks(done, m, ones - UpSet(m, hs[1..]), minuses + UpSet(m, hs[1..]))
  {
    hide HoldsMarks;
    hide Boundary;
    hide Draws;
    hide Wrap;
    hide Next;
    hide MarkSet;
    hide UpSet;
    hide DrawsOrbit;
    hide Disjoint;
    hide HoldsPolys;
    var poly;
    poly, hs := TracePoly(m, sl.x + dx, sl.y + dy, dir, Only(dirs), done, ones, minuses);
    newLog := log;
    if poly.Some? {
      TracedDraws(m, poly.value, hs, sl.x + dx, sl.y + dy);
      ghost var f := Found(sl.num, poly.value, hs);
      NewOrbit(m, log, f);
      newLog := log + [f];
      assert forall h :: h in hs ==> h in Elements(hs);
      AddPoly(partpolys, sl.num, poly.value, log, f);
    } else {
      assert Boundary(m, hs[|hs| - 1]);
      CoveredIsClosed(m, log);
      PathLeadsIn(m, hs, Covered(log));
    }
  }

  lemma FlatOrMarking(m: Tiles, h: HalfEdge)
    ensures Marking(h) || h.dir == 0 || h.dir == 2 || h.dir == 4
  {
  }

  lemma NextToMarkingCovered(m: Tiles, log: seq<Found>, h: HalfEdge)
    requires Valid(m) && Disjoint(m, log) && MarkingCovered(m, log) && Boundary(m, h) && NextToMarking(m, h)
    ensures h in Covered(log)
  {
    hide NoEdge;
    hide Next;
    CoveredIsClosed(m, log);
    hide Disjoint;
    hide Covered;
  }

  // ------------------------------------------------------------ the row of upward edges

  ghost predicate MinusCovered(m: Tiles, log: seq<Found>, minuses: set<Cell>)
    requires Valid(m)
  {
    forall c :: c in minuses ==> UpEdge(m, c) in Covered(log)
  }

  /** Polygons that do not start at a mark of the first pass have all their upward half-edges marked. */
  ghost predicate UpsMarked(m: Tiles, log: seq<Found>, minuses: set<Cell>)
    requires Valid(m)
  {
    forall i, h :: 0 <= i < |log| && h in log[i].hs && h.dir == 2 && log[i].hs != [] && !Marking(log[i].hs[0]) ==>
      Step(m, h.loc, 2) in minuses
  }

  predicate UpStart(m: Tiles, c: Cell)
    requires Valid(m) && Inside(m, c)
  {
    !OneOf(TileAt(m, c), REC_DL, REC_UL) && Filled(TileAt(m, Step(m, c, 4)))
  }

  lemma UpStartBoundary(m: Tiles, c: Cell)
    requires Valid(m) && Inside(m, c) && UpStart(m, c)
    ensures Boundary(m, UpEdge(m, c)) && Step(m, UpEdge(m, c).loc, 2) == c
    ensures Step(m, Step(m, c, 4), 7) == UpEdge(m, c).loc
  {
    Corners(m, c);
    hide Step;
    hide TileAt;
  }

  /** An unmarked upward start is on no polygon yet, unless its orbit leaves the flat directions. */
  lemma UpStartNew(m: Tiles, log: seq<Found>, minuses: set<Cell>, c: Cell)
    requires Valid(m) && Inside(m, c) && UpStart(m, c) && c !in minuses
    requires Disjoint(m, log) && UpsMarked(m, log, minuses)
    ensures NewIfFlat(m, log, {0, 2, 4}, UpEdge(m, c))
  {
    UpStartBoundary(m, c);
    UpEdgeDir(m, c);
    hide Orbit;
    hide UpEdge;
    hide Step;
    hide UpStart;
    hide Covered;
    hide Disjoint;
    hide UpsMarked;
    hide Keeps;
    forall hs: seq<HalfEdge> | hs != [] && hs[0] == UpEdge(m, c) && Orbit(m, hs) && Keeps(hs, {0, 2, 4})
      ensures UpEdge(m, c) !in Covered(log)
    {
      UnmarkedUpIsNew(m, log, minuses, UpEdge(m, c), hs);
    }
  }

  lemma UnmarkedUpIsNew(m: Tiles, log: seq<Found>, minuses: set<Cell>, s: HalfEdge, hs: seq<HalfEdge>)
    requires Valid(m) && Disjoint(m, log) && UpsMarked(m, log, minuses)
    requires hs != [] && hs[0] == s && Orbit(m, hs) && Keeps(hs, {0, 2, 4})
    requires s.dir == 2 && Step(m, s.loc, 2) !in minuses
    ensures s !in Covered(log)
  {
    hide Orbit;
    hide Step;
    hide Covered;
    hide Disjoint;
    hide UpsMarked;
    hide Keeps;
    if s in Covered(log) {
      var i := OnOrbit(m, log, s);
      assert hs[0] in hs;
      UpOnMarkingOrbit(m, log, minuses, i, s);
      FlatAllThrough(m, log[i].hs, hs, {0, 2, 4}, s);
    }
  }

  lemma OnOrbit(m: Tiles, log: seq<Found>, h: HalfEdge) returns (i: nat)
    requires Valid(m) && Disjoint(m, log) && h in Covered(log)
    ensures i < |log| && h in log[i].hs && Orbit(m, log[i].hs) && log[i].hs != []
  {
    hide Boundary;
    hide Next;
    hide Draws;
    CoveredBy(log, h);
    i :| 0 <= i < |log| && h in log[i].hs;
    assert DrawsOrbit(m, log[i].poly, log[i].hs);
  }

  lemma UpOnMarkingOrbit(m: Tiles, log: seq<Found>, minuses: set<Cell>, i: nat, s: HalfEdge)
    requires Valid(m) && UpsMarked(m, log, minuses) && i < |log| && s in log[i].hs
    requires s.dir == 2 && Step(m, s.loc, 2) !in minuses
    ensures Marking(log[i].hs[0])
  {
    hide Step;
  }

  /** If one orbit keeps to some directions, so does any orbit that it meets. */
  lemma FlatAllThrough(m: Tiles, gs: seq<HalfEdge>, hs: seq<HalfEdge>, dirs: set<Dir>, s: HalfEdge)
    requires Valid(m) && Orbit(m, gs) && Orbit(m, hs) && s in gs && s in hs
    requires Keeps(hs, dirs)
    ensures forall i :: 0 <= i < |gs| ==> gs[i].dir in dirs && gs[i] in hs
  {
    hide Orbit;
    var k :| 0 <= k < |gs| && gs[k] == s;
    forall i | 0 <= i < |gs|
      ensures gs[i].dir in dirs && gs[i] in hs
    {
      MeetingOrbits(m, gs, hs, k, i);
    }
  }

  lemma UpEdgeDir(m: Tiles, c: Cell)
    requires Valid(m)
    ensures UpEdge(m, c).dir == 2
  {
  }

  lemma FlatExits(m: Tiles, log: seq<Found>)
    requires Valid(m) && MarkingCovered(m, log)
    ensures ExitsCovered(m, log, {0, 2, 4})
  {
    hide NoEdge;
    hide Next;
    hide Covered;
    forall h | Boundary(m, h) && h.dir in {0, 2, 4} && Next(m, h).dir !in {0, 2, 4}
      ensures Next(m, h) in Covered(log)
    {
      NextBoundary(m, h);
      FlatOrMarking(m, Next(m, h));
    }
  }

  /** Marks and polygons after a trace from the upward start of c. */
  lemma UpTraced(m: Tiles, log: seq<Found>, newLog: seq<Found>, hs: seq<HalfEdge>, minuses: set<Cell>, c: Cell)
    requires Valid(m) && MinusCovered(m, log, minuses) && UpsMarked(m, log, minuses) && Inside(m, c)
    requires newLog == log || (log <= newLog && |newLog| == |log| + 1 && newLog[|log|].hs == hs)
    requires hs != [] && hs[0] == UpEdge(m, c) && Step(m, UpEdge(m, c).loc, 2) == c
    requires forall h :: h in hs ==> h in Covered(newLog) && Inside(m, h.loc)
    requires Covered(log) <= Covered(newLog)
    ensures var after := minuses + {c} + UpSet(m, hs[1..]);
            MinusCovered(m, newLog, after) && UpsMarked(m, newLog, after)
  {
    hide Covered;
    hide Step;
    var after := minuses + {c} + UpSet(m, hs[1..]);
    forall b | b in after
      ensures UpEdge(m, b) in Covered(newLog)
    {
      if b in UpSet(m, hs[1..]) {
        var i :| 0 <= i < |hs[1..]| && hs[1..][i].dir == 2 && b == Step(m, hs[1..][i].loc, 2);
        UpEdgeOf(m, hs[1..][i]);
        assert hs[1 + i] in hs;
      }
    }
    forall i, h | 0 <= i < |newLog| && h in newLog[i].hs && h.dir == 2 && newLog[i].hs != [] &&
      !Marking(newLog[i].hs[0])
      ensures Step(m, h.loc, 2) in after
    {
      if i == |log| {
        var k :| 0 <= k < |hs| && hs[k] == h;
        if k > 0 {
          assert hs[1..][k - 1] == h;
        }
      } else {
        assert newLog[i] == log[i];
      }
    }
  }

  /** The second pass at one tile of the first row. */
  method TraceUp(m: Tiles, mapparts: array2<P.Entry>, c: Cell, partpolys: array<seq<Poly>>, done: Marks,
                 ghost v: P.Parts, ghost seeds: seq<Cell>, ghost log: seq<Found>, ghost ones: set<Cell>,
                 ghost minuses: set<Cell>)
    returns (ghost newLog: seq<Found>, ghost newOnes: set<Cell>, ghost newMinuses: set<Cell>)
    requires Valid(m) && Inside(m, c) && Parts(m, mapparts, partpolys.Length, v, seeds)
    requires Disjoint(m, log) && MarkingCovered(m, log) && MinusCovered(m, log, minuses) && UpsMarked(m, log, minuses)
    requires AllFiled(m, v, log) && Ordered(m, log, m.width * m.height + c.x)
    requires HoldsPolys(partpolys, log) && HoldsMarks(done, m, ones, minuses)
    modifies partpolys, done
    ensures Ordered(m, newLog, m.width * m.height + c.x + 1)
    ensures Disjoint(m, newLog) && MarkingCovered(m, newLog) && AllFiled(m, v, newLog)
    ensures MinusCovered(m, newLog, newMinuses) && UpsMarked(m, newLog, newMinuses)
    ensures HoldsPolys(partpolys, newLog) && HoldsMarks(done, m, newOnes, newMinuses)
    ensures UpStart(m, c) ==> UpEdge(m, c) in Covered(newLog)
    ensures Covered(log) <= Covered(newLog) && log <= newLog
    ensures forall i :: |log| <= i < |newLog| ==> newLog[i].hs != [] && newLog[i].hs[0].dir == 2
  {
    hide Parts;
    hide HoldsPolys;
    hide Disjoint;
    hide UpsMarked;
    hide AllFiled;
    hide OneMore;
    hide Wrap;
    hide NoEdge;
    hide Covered;
    hide MarkingCovered;
    hide Next;
    hide Filled;
    newLog, newOnes, newMinuses := log, ones, minuses;
    ghost var n := m.width * m.height + c.x;
    OrderedUpTo(m, log, n, n + 1);
    hide Ordered;
    assert c == Cell(c.x, c.y);
    var marked := done[c.y, c.x];
    hide HoldsMarks;
    assert Inside(m, Step(m, c, 4));
    hide Step;
    if !OneOf(TileAt(m, c), REC_DL, REC_UL) && Filled(TileAt(m, Step(m, c, 4))) && marked != -1 {
      UpStartBoundary(m, c);
      UpStartNew(m, log, minuses, c);
      FlatExits(m, log);
      MarkMinus(done, m, c, ones, minuses);
      FilledIsWall(TileAt(m, Step(m, c, 4)));
      var sl := Located(m, mapparts, Step(m, c, 4), partpolys.Length, v, seeds);
      assert Wrap(m, sl.x + DirX(7), sl.y + DirY(7)) == UpEdge(m, c).loc;
      ghost var hs;
      newLog, hs := TraceFlat(m, sl, 1, 1, 2, {0, 2, 4}, partpolys, done, log, ones - {c}, minuses + {c});
      PathInside(m, hs);
      UpFiled(m, v, log, newLog, c);
      UpRank(m, c);
      OrderedMore(m, log, newLog, sl.num, sl.x + 1, sl.y + 1, UpEdge(m, c), n);
      UpTraced(m, log, newLog, hs, minuses, c);
      StillMarking(m, log, newLog);
      newOnes, newMinuses := ones - {c} - UpSet(m, hs[1..]), minuses + {c} + UpSet(m, hs[1..]);
      assert hs[0] in hs;
    }
  }

  lemma UpFiled(m: Tiles, v: P.Parts, log: seq<Found>, newLog: seq<Found>, c: Cell)
    requires Valid(m) && Inside(m, c) && AllFiled(m, v, log) && Step(m, c, 4) in v
    requires var p := v[Step(m, c, 4)];
             newLog == log || OneMore(log, newLog, p.num, p.x + 1, p.y + 1, UpEdge(m, c))
    ensures AllFiled(m, v, newLog)
  {
    if newLog != log {
      TwoSteps(m, c, 6, 3);
      assert LeftTile(m, UpEdge(m, c)) == Step(m, c, 4);
      FiledMore(m, v, log, newLog, Step(m, c, 4), 1, 1, UpEdge(m, c));
    }
  }

  lemma UpRank(m: Tiles, c: Cell)
    requires Valid(m) && Inside(m, c)
    ensures Rank(m, UpEdge(m, c)) == m.width * m.height + c.x
  {
    WrapInside(m, c);
  }

  lemma FilledIsWall(t: char)
    ensures Filled(t) ==> IsWall(t)
  {
  }

  lemma StillMarking(m: Tiles, log: seq<Found>, newLog: seq<Found>)
    requires Valid(m) && MarkingCovered(m, log) && Covered(log) <= Covered(newLog)
    ensures MarkingCovered(m, newLog)
  {
    hide Boundary;
    hide Covered;
  }
}
