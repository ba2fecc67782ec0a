/** Following the edge of the wall: half-edges with wall on the left and none on the right. */
module Tracing {
  import opened Arithmetic
  import opened Seqs
  import opened TileMap

  // ---------------------------------------------------------------- where the wall is

  /** Solid wall lies immediately to the right of the way that leaves corner loc in direction d. */
  predicate NoEdge(m: Tiles, loc: Cell, d: Dir)
    requires Valid(m) && Inside(m, loc)
  {
    if d == 0 then OneOf(TileAt(m, loc), REC_UL, REC_UR)
    else if d == 1 then OneOf(TileAt(m, Step(m, loc, 2)), REC_DL, REC_DR)
    else if d == 2 then OneOf(TileAt(m, Step(m, loc, 2)), REC_UL, REC_DL)
    else if d == 3 then OneOf(TileAt(m, Step(m, loc, 3)), REC_UR, REC_DR)
    else if d == 4 then OneOf(TileAt(m, Step(m, loc, 3)), REC_DL, REC_DR)
    else if d == 5 then OneOf(TileAt(m, Step(m, loc, 4)), REC_UR, REC_UL)
    else if d == 6 then OneOf(TileAt(m, Step(m, loc, 4)), REC_DR, REC_UR)
    else OneOf(TileAt(m, loc), REC_DL, REC_UL)
  }

  predicate OneOf(c: char, a: char, b: char) {
    Filled(c) || c == a || c == b
  }

  /** Tile c is solid at the point u eighths of a tile to the right of its upper left corner and v below it. */
  predicate SolidIn(c: char, u: int, v: int) {
    || c == 'x' || c == '#'
    || (c == 's' && u + v < 8) || (c == 'a' && v < u) || (c == 'w' && u < v) || (c == 'q' && u + v > 8)
  }

  /** The map is solid at the point with these coordinates, in eighths of a tile. */
  predicate SolidAt(m: Tiles, x: int, y: int)
    requires Valid(m)
  {
    SolidIn(TileAt(m, Wrap(m, x / 8, y / 8)), x % 8, y % 8)
  }

  /** NoEdge tells whether the map is solid between direction d and the next one to its right. */
  lemma NoEdgeIsSolid(m: Tiles, loc: Cell, d: Dir)
    requires Valid(m) && Inside(m, loc)
    ensures var right: Dir := (d + 7) % 8;
            NoEdge(m, loc, d) <==>
            SolidAt(m, 8 * loc.x + 2 * DirX(d) + DirX(right), 8 * loc.y + 2 * DirY(d) + DirY(right))
  {
    var right: Dir := (d + 7) % 8;
    var u, v := 2 * DirX(d) + DirX(right), 2 * DirY(d) + DirY(right);
    hide TileAt;
    hide Wrap;
    hide SolidIn;
    hide OneOf;
    WrapInside(m, loc);
    Eighths(loc.x, u);
    Eighths(loc.y, v);
    SolidOctants(TileAt(m, Wrap(m, if u < 0 then loc.x - 1 else loc.x, if v < 0 then loc.y - 1 else loc.y)));
  }

  /** A point less than a tile away from a corner, by tile and position in the tile. */
  lemma Eighths(x: int, u: int)
    requires -8 <= u < 8
    ensures (8 * x + u) / 8 == if u < 0 then x - 1 else x
    ensures (8 * x + u) % 8 == if u < 0 then u + 8 else u
  {
    DivModIs(8 * x + u, if u < 0 then x - 1 else x, if u < 0 then u + 8 else u, 8);
  }

  /** The eight octants of a tile, each seen from a corner of the tile. */
  lemma SolidOctants(c: char)
    ensures SolidIn(c, 3, 1) <==> OneOf(c, REC_UL, REC_UR)
    ensures SolidIn(c, 3, 6) <==> OneOf(c, REC_DL, REC_DR)
    ensures SolidIn(c, 1, 5) <==> OneOf(c, REC_UL, REC_DL)
    ensures SolidIn(c, 6, 5) <==> OneOf(c, REC_UR, REC_DR)
    ensures SolidIn(c, 5, 7) <==> OneOf(c, REC_DL, REC_DR)
    ensures SolidIn(c, 5, 2) <==> OneOf(c, REC_UR, REC_UL)
    ensures SolidIn(c, 7, 3) <==> OneOf(c, REC_DR, REC_UR)
    ensures SolidIn(c, 2, 3) <==> OneOf(c, REC_DL, REC_UL)
  {
  }

  /** One step along the grid, from corner loc in direction dir. */
  datatype HalfEdge = HalfEdge(loc: Cell, dir: Dir)

  function Turn(d: Dir, k: int): Dir {
    (d + k) % 8
  }

  /** Wall on the left, none on the right. */
  predicate Boundary(m: Tiles, h: HalfEdge)
    requires Valid(m)
  {
    Inside(m, h.loc) && NoEdge(m, h.loc, Turn(h.dir, 1)) && !NoEdge(m, h.loc, h.dir)
  }

  function Head(m: Tiles, h: HalfEdge): (c: Cell)
    requires Valid(m)
    ensures Inside(m, c)
  {
    Step(m, h.loc, h.dir)
  }

  /** Two steps in a row end at the sum of their displacements. */
  lemma TwoSteps(m: Tiles, c: Cell, d: Dir, e: Dir)
    requires Valid(m)
    ensures Step(m, Step(m, c, d), e) == Wrap(m, c.x + DirX(d) + DirX(e), c.y + DirY(d) + DirY(e))
  {
    StepWraps(m, c.x + DirX(d), c.y + DirY(d), e);
  }

  /** Seen from its far end, a boundary half-edge has the wall on the right of the way back. */
  lemma WallAtHead(m: Tiles, h: HalfEdge)
    requires Valid(m) && Boundary(m, h)
    ensures NoEdge(m, Head(m, h), Back(h.dir)) && !NoEdge(m, Head(m, h), Turn(h.dir, 5))
  {
    var l, d := h.loc, h.dir;
    TwoSteps(m, l, d, 2);
    TwoSteps(m, l, d, 3);
    TwoSteps(m, l, d, 4);
    WrapInside(m, l);
    hide TileAt;
    hide Wrap;
    hide Filled;
    assert Step(m, l, 2) == Wrap(m, l.x, l.y - 1);
    assert Step(m, l, 3) == Wrap(m, l.x - 1, l.y - 1);
    assert Step(m, l, 4) == Wrap(m, l.x - 1, l.y);
    assert Step(m, l, d) == Wrap(m, l.x + DirX(d), l.y + DirY(d));
  }

  // -------------------------------------------------------------- the next half-edge

  lemma TurnTurn(d: Dir, a: int, b: int)
    ensures Turn(Turn(d, a), b) == Turn(d, a + b)
  {
    ModAdd(d + a, b, 8);
  }

  lemma TurnAround(d: Dir)
    ensures Turn(d, 8) == d && Turn(d, 4) == Back(d)
  {
  }

  /** After i right turns from the sharpest left turn, wall still bars the way. */
  predicate Barred(m: Tiles, l: Cell, d: Dir, i: int)
    requires Valid(m) && Inside(m, l)
  {
    NoEdge(m, l, Turn(d, 3 - i))
  }

  /** How far to turn right, from the sharpest left turn at corner l, until the way is open; k so far. */
  function FirstOpen(m: Tiles, l: Cell, d: Dir, k: nat): (r: nat)
    requires Valid(m) && Inside(m, l) && !NoEdge(m, l, Turn(d, 5)) && k <= 6
    ensures k <= r <= 6 && !Barred(m, l, d, r)
    ensures forall i :: k <= i < r ==> Barred(m, l, d, i)
    decreases 6 - k
  {
    LastTurn(m, l, d);
    if k == 6 || !Barred(m, l, d, k) then k else FirstOpen(m, l, d, k + 1)
  }

  lemma LastTurn(m: Tiles, l: Cell, d: Dir)
    requires Valid(m) && Inside(m, l) && !NoEdge(m, l, Turn(d, 5))
    ensures !Barred(m, l, d, 6)
  {
    hide NoEdge;
    ModShift(d + 5, -1, 8);
    assert Turn(d, 3 - 6) == Turn(d, 5);
  }

  function Next(m: Tiles, h: HalfEdge): (n: HalfEdge)
    requires Valid(m) && Boundary(m, h)
  {
    WallAtHead(m, h);
    HalfEdge(Head(m, h), Turn(h.dir, 3 - FirstOpen(m, Head(m, h), h.dir, 0)))
  }

  /** The next half-edge leaves the far end of h k right turns away from the sharpest left turn, as wall bars those. */
  lemma LeftmostOpen(m: Tiles, h: HalfEdge) returns (k: nat)
    requires Valid(m) && Boundary(m, h)
    ensures var n := Next(m, h);
            && n.loc == Wrap(m, h.loc.x + DirX(h.dir), h.loc.y + DirY(h.dir))
            && k <= 6 && n.dir == (h.dir + 3 - k) % 8 && !NoEdge(m, n.loc, n.dir)
            && forall i :: 0 <= i < k ==> Barred(m, n.loc, h.dir, i)
  {
    hide NoEdge;
    WallAtHead(m, h);
    k := FirstOpen(m, Head(m, h), h.dir, 0);
  }

  lemma NextBoundary(m: Tiles, h: HalfEdge)
    requires Valid(m) && Boundary(m, h)
    ensures Boundary(m, Next(m, h)) && Next(m, h).dir != Back(h.dir)
  {
    hide NoEdge;
    hide Step;
    hide Turn;
    hide Back;
    WallAtHead(m, h);
    var l := Head(m, h);
    var k: int := FirstOpen(m, l, h.dir, 0);
    TurnTurn(h.dir, 3 - k, 1);
    TurnAround(h.dir);
    if k > 0 {
      assert Barred(m, l, h.dir, k - 1);
    }
  }

  /** The run of walled directions to the left of the way out tells the way in. */
  lemma SameTurns(m: Tiles, l: Cell, d: Dir, e: Dir)
    requires Valid(m) && Inside(m, l)
    requires NoEdge(m, l, Back(d)) && !NoEdge(m, l, Turn(d, 5))
    requires NoEdge(m, l, Back(e)) && !NoEdge(m, l, Turn(e, 5))
    requires Turn(d, 3 - FirstOpen(m, l, d, 0)) == Turn(e, 3 - FirstOpen(m, l, e, 0))
    ensures FirstOpen(m, l, d, 0) >= FirstOpen(m, l, e, 0)
    ensures FirstOpen(m, l, d, 0) == FirstOpen(m, l, e, 0) ==> d == e
  {
    hide NoEdge;
    hide Turn;
    hide Back;
    var j: int, k: int := FirstOpen(m, l, d, 0), FirstOpen(m, l, e, 0);
    var i := k - j - 2;
    assert 0 <= i < k ==> Barred(m, l, e, i);
    // the direction just past d's run, measured from e
    TurnTurn(d, 3 - j, 2 + j);
    TurnTurn(e, 3 - k, 2 + j);
    assert Turn(d, 5) == Turn(e, 5 + j - k);
    TurnAround(e);
    TurnAround(d);
    assert 3 - i == 5 + j - k;
    TurnTurn(d, 3 - j, 5 + j);
    TurnTurn(e, 3 - k, 5 + j);
  }

  /** Different half-edges continue differently. */
  lemma NextInjective(m: Tiles, g: HalfEdge, h: HalfEdge)
    requires Valid(m) && Boundary(m, g) && Boundary(m, h) && Next(m, g) == Next(m, h)
    ensures g == h
  {
    hide NoEdge;
    hide Step;
    hide Turn;
    hide Back;
    WallAtHead(m, g);
    WallAtHead(m, h);
    StepBack(m, g.loc, g.dir);
    StepBack(m, h.loc, h.dir);
    SameTurns(m, Head(m, g), g.dir, h.dir);
    SameTurns(m, Head(m, g), h.dir, g.dir);
  }

  // -------------------------------------------------------------------------- orbits

  /** hs follows the boundary from its first half-edge, without coming back to it. */
  ghost predicate Path(m: Tiles, hs: seq<HalfEdge>)
    requires Valid(m)
  {
    && hs != []
    && (forall i :: 0 <= i < |hs| ==> Boundary(m, hs[i]))
    && (forall i :: 0 <= i < |hs| - 1 ==> Next(m, hs[i]) == hs[i + 1])
    && (forall i, j :: 0 <= i < j < |hs| ==> hs[i] != hs[j])
  }

  /** hs goes once around: after its last half-edge comes its first. */
  ghost predicate Orbit(m: Tiles, hs: seq<HalfEdge>)
    requires Valid(m)
  {
    Path(m, hs) && Next(m, hs[|hs| - 1]) == hs[0]
  }

  lemma OneStepPath(m: Tiles, h: HalfEdge)
    requires Valid(m) && Boundary(m, h)
    ensures Path(m, [h])
  {
  }

  /** A path that does not close goes on to a half-edge that it has not visited. */
  lemma PathSnoc(m: Tiles, hs: seq<HalfEdge>)
    requires Valid(m) && Path(m, hs) && Next(m, hs[|hs| - 1]) != hs[0]
    ensures Path(m, hs + [Next(m, hs[|hs| - 1])])
  {
    hide Next;
    hide Boundary;
    var n := Next(m, hs[|hs| - 1]);
    NextBoundary(m, hs[|hs| - 1]);
    forall i | 0 <= i < |hs|
      ensures hs[i] != n
    {
      if i > 0 && hs[i] == n {
        NextInjective(m, hs[i - 1], hs[|hs| - 1]);
      }
    }
  }

  ghost function HalfEdges(m: Tiles): set<HalfEdge> {
    set x, y, d: Dir | 0 <= x < m.width && 0 <= y < m.height && 0 <= d < 8 :: HalfEdge(Cell(x, y), d)
  }

  lemma PathFits(m: Tiles, hs: seq<HalfEdge>)
    requires Valid(m) && Path(m, hs)
    ensures |hs| <= |HalfEdges(m)|
  {
    hide Next;
    hide NoEdge;
    ElementsOfDistinct(hs);
    forall h | h in Elements(hs)
      ensures h in HalfEdges(m)
    {
      var i :| 0 <= i < |hs| && hs[i] == h;
      assert Boundary(m, hs[i]);
      assert h == HalfEdge(Cell(h.loc.x, h.loc.y), h.dir);
    }
    SubsetSize(Elements(hs), HalfEdges(m));
  }

  // ------------------------------------------------------------------------- polygons

  /** A point of a polygon: an unwrapped corner and the direction in which the edge leaves it. */
  datatype Point = Point(x: int, y: int, dir: Dir)

  type Poly = seq<Point>

  /** poly draws the half-edges hs one after the other without a break, from (x, y) to (endX, endY). */
  predicate Draws(m: Tiles, poly: Poly, hs: seq<HalfEdge>, x: int, y: int, endX: int, endY: int)
    requires Valid(m)
  {
    && |poly| == |hs|
    && (forall i :: 0 <= i < |hs| ==> poly[i].dir == hs[i].dir && Wrap(m, poly[i].x, poly[i].y) == hs[i].loc)
    && (forall i :: 0 <= i < |hs| - 1 ==> Follow(poly[i]) == (poly[i + 1].x, poly[i + 1].y))
    && (if poly == [] then (x, y) == (endX, endY)
        else (poly[0].x, poly[0].y) == (x, y) && Follow(poly[|poly| - 1]) == (endX, endY))
  }

  /** The corner at which the edge that leaves p ends. */
  function Follow(p: Point): (int, int) {
    (p.x + DirX(p.dir), p.y + DirY(p.dir))
  }

  /** Sums of the edges' displacements. */
  function SumX(poly: Poly): int {
    if poly == [] then 0 else SumX(poly[..|poly| - 1]) + DirX(poly[|poly| - 1].dir)
  }

  function SumY(poly: Poly): int {
    if poly == [] then 0 else SumY(poly[..|poly| - 1]) + DirY(poly[|poly| - 1].dir)
  }

  lemma {:induction false} DrawsSums(m: Tiles, poly: Poly, hs: seq<HalfEdge>, x: int, y: int, endX: int, endY: int)
    requires Valid(m) && Draws(m, poly, hs, x, y, endX, endY)
    ensures endX == x + SumX(poly) && endY == y + SumY(poly)
  {
    hide Wrap;
    hide DirX;
    hide DirY;
    if poly != [] {
      var n := |poly| - 1;
      DrawsFront(m, poly, hs, x, y);
      DrawsSums(m, poly[..n], hs[..n], x, y, poly[n].x, poly[n].y);
    }
  }

  lemma DrawsFront(m: Tiles, poly: Poly, hs: seq<HalfEdge>, x: int, y: int)
    requires Valid(m) && poly != [] && Draws(m, poly, hs, x, y, Follow(poly[|poly| - 1]).0, Follow(poly[|poly| - 1]).1)
    ensures var n := |poly| - 1; Draws(m, poly[..n], hs[..n], x, y, poly[n].x, poly[n].y)
  {
    hide Wrap;
    hide Follow;
    var n := |poly| - 1;
    assert n > 0 ==> Follow(poly[n - 1]) == (poly[n - 1 + 1].x, poly[n - 1 + 1].y);
  }

  /** Around an orbit the displacements add up to multiples of the map's width and height. */
  lemma OrbitClosesUp(m: Tiles, poly: Poly, hs: seq<HalfEdge>, x: int, y: int, endX: int, endY: int)
    requires Valid(m) && Draws(m, poly, hs, x, y, endX, endY) && hs != [] && Wrap(m, endX, endY) == hs[0].loc
    ensures SumX(poly) % m.width == 0 && SumY(poly) % m.height == 0
  {
    DrawsSums(m, poly, hs, x, y, endX, endY);
    SameModulo(x, endX, m.width);
    SameModulo(y, endY, m.height);
  }

  lemma SameModulo(a: int, b: int, n: nat)
    requires n > 0 && a % n == b % n
    ensures (b - a) % n == 0
  {
    ModAdd(b, -a, n);
    ModAdd(a, -a, n);
    ModIs(0, 0, 0, n);
  }

  // ------------------------------------------------------------------------ the loops

  /** The scratch grid of marks: 0 for none, 1 and -1 as the source sets them. */
  type Marks = array2<int>

  /** The tile that a traced half-edge marks with 1, if any. */
  function MarkCell(m: Tiles, h: HalfEdge): (c: Cell)
    requires Valid(m) && Inside(m, h.loc)
    ensures Inside(m, c)
  {
    if h.dir == 5 then Step(m, h.loc, 4)
    else if h.dir == 3 then Step(m, h.loc, 3)
    else if h.dir == 1 then Step(m, h.loc, 2)
    else h.loc
  }

  predicate Marking(h: HalfEdge) {
    h.dir == 1 || h.dir == 3 || h.dir == 5 || h.dir == 6 || h.dir == 7
  }

  ghost function Marks1(m: Tiles, h: HalfEdge): set<Cell>
    requires Valid(m) && Inside(m, h.loc)
  {
    if Marking(h) then {MarkCell(m, h)} else {}
  }

  /** The turns of the inner loop. */
  method TurnRight(m: Tiles, l: Cell, d: Dir) returns (dir: Dir)
    requires Valid(m) && Inside(m, l) && !NoEdge(m, l, Turn(d, 5))
    ensures dir == Turn(d, 3 - FirstOpen(m, l, d, 0))
  {
    hide NoEdge;
    dir := (d + 3) % 8;
    ghost var k: int := 0;
    LastTurn(m, l, d);
    while NoEdge(m, l, dir)
      invariant 0 <= k <= 6 && dir == Turn(d, 3 - k) && FirstOpen(m, l, d, 0) == FirstOpen(m, l, d, k)
      decreases 6 - k
    {
      assert Barred(m, l, d, k);
      TurnTurn(d, 3 - k, 7);
      ModShift(d + 2 - k, 1, 8);
      dir := (dir + 7) % 8;
      k := k + 1;
    }
  }

  /** The grid has 1 on ones, -1 on minuses and 0 elsewhere. */
  ghost predicate HoldsMarks(done: Marks, m: Tiles, ones: set<Cell>, minuses: set<Cell>)
    reads done
  {
    && done.Length0 == m.height && done.Length1 == m.width && ones !! minuses
    && forall x, y :: 0 <= x < m.width && 0 <= y < m.height ==>
         done[y, x] == if Cell(x, y) in ones then 1 else if Cell(x, y) in minuses then -1 else 0
  }

  method Mark(done: Marks, m: Tiles, c: Cell, ghost ones: set<Cell>, ghost minuses: set<Cell>)
    requires HoldsMarks(done, m, ones, minuses) && Inside(m, c)
    modifies done
    ensures HoldsMarks(done, m, ones + {c}, minuses - {c})
  {
    done[c.y, c.x] := 1;
  }

  method MarkMinus(done: Marks, m: Tiles, c: Cell, ghost ones: set<Cell>, ghost minuses: set<Cell>)
    requires HoldsMarks(done, m, ones, minuses) && Inside(m, c)
    modifies done
    ensures HoldsMarks(done, m, ones - {c}, minuses + {c})
  {
    done[c.y, c.x] := -1;
  }

  /** The tiles that half-edges mark with 1. */
  ghost function MarkSet(m: Tiles, hs: seq<HalfEdge>): set<Cell>
    requires Valid(m) && forall h :: h in hs ==> Inside(m, h.loc)
  {
    set i | 0 <= i < |hs| && Marking(hs[i]) :: MarkCell(m, hs[i])
  }

  /** The tiles to the right of the upward half-edges. */
  ghost function UpSet(m: Tiles, hs: seq<HalfEdge>): set<Cell>
    requires Valid(m)
  {
    set i | 0 <= i < |hs| && hs[i].dir == 2 :: Step(m, hs[i].loc, 2)
  }

  lemma MarkSetSnoc(m: Tiles, hs: seq<HalfEdge>, h: HalfEdge)
    requires Valid(m) && (forall g :: g in hs ==> Inside(m, g.loc)) && Inside(m, h.loc)
    ensures MarkSet(m, hs + [h]) == MarkSet(m, hs) + Marks1(m, h)
  {
    hide MarkCell;
    hide Marking;
    var more := hs + [h];
    assert forall g :: g in more <==> g in hs || g == h;
    forall c
      ensures c in MarkSet(m, more) <==> c in MarkSet(m, hs) || (Marking(h) && c == MarkCell(m, h))
    {
      if c in MarkSet(m, hs) {
        var i :| 0 <= i < |hs| && Marking(hs[i]) && c == MarkCell(m, hs[i]);
        assert more[i] == hs[i];
      }
      if Marking(h) && c == MarkCell(m, h) {
        assert more[|hs|] == h;
      }
    }
  }

  lemma UpSetSnoc(m: Tiles, hs: seq<HalfEdge>, h: HalfEdge)
    requires Valid(m)
    ensures UpSet(m, hs + [h]) == UpSet(m, hs) + if h.dir == 2 then {Step(m, h.loc, 2)} else {}
  {
    hide Step;
    var more := hs + [h];
    forall c
      ensures c in UpSet(m, more) <==> c in UpSet(m, hs) || (h.dir == 2 && c == Step(m, h.loc, 2))
    {
      if c in UpSet(m, hs) {
        var i :| 0 <= i < |hs| && hs[i].dir == 2 && c == Step(m, hs[i].loc, 2);
        assert more[i] == hs[i];
      }
      if h.dir == 2 && c == Step(m, h.loc, 2) {
        assert more[|hs|] == h;
      }
    }
  }

  /** okdir: the directions a polygon may take, where the source restricts them. */
  datatype OkDir = AnyDir | Only(dirs: set<Dir>)

  predicate Allowed(ok: OkDir, d: Dir) {
    ok.AnyDir? || d in ok.dirs
  }

  /** Restrictions leave out every direction that marks a tile. */
  predicate Flat(ok: OkDir) {
    ok.Only? ==> ok.dirs <= {0, 2, 4}
  }

  datatype Option<T> = None | Some(value: T)

  /** Leaves the half-edge h: marks its tile if it has one. */
  method Leave(m: Tiles, h: HalfEdge, done: Marks, ghost ones: set<Cell>, ghost minuses: set<Cell>)
    requires Valid(m) && Inside(m, h.loc) && HoldsMarks(done, m, ones, minuses)
    modifies done
    ensures HoldsMarks(done, m, ones + Marks1(m, h), minuses - Marks1(m, h))
  {
    hide HoldsMarks;
    assert ones + {} == ones && minuses - {} == minuses;
    if h.dir == 6 || h.dir == 7 {
      Mark(done, m, h.loc, ones, minuses);
    } else if h.dir == 5 {
      Mark(done, m, Step(m, h.loc, 4), ones, minuses);
    } else if h.dir == 3 {
      Mark(done, m, Step(m, h.loc, 3), ones, minuses);
    } else if h.dir == 1 {
      Mark(done, m, Step(m, h.loc, 2), ones, minuses);
    }
  }

  /** One turn of the trace: leaves h and turns into the next half-edge. */
  method TraceStep(m: Tiles, h: HalfEdge, done: Marks, ghost ones: set<Cell>, ghost minuses: set<Cell>)
    returns (n: HalfEdge)
    requires Valid(m) && Boundary(m, h) && HoldsMarks(done, m, ones, minuses)
    modifies done
    ensures n == Next(m, h) && HoldsMarks(done, m, ones + Marks1(m, h), minuses - Marks1(m, h))
  {
    hide HoldsMarks;
    hide NoEdge;
    hide Marks1;
    Leave(m, h, done, ones, minuses);
    WallAtHead(m, h);
    var l := Head(m, h);
    var dir := TurnRight(m, l, h.dir);
    n := HalfEdge(l, dir);
  }

  /** hs is a path that stays within the allowed directions. */
  ghost predicate Traced(m: Tiles, start: HalfEdge, ok: OkDir, hs: seq<HalfEdge>)
    requires Valid(m)
  {
    Path(m, hs) && hs[0] == start && forall i :: 0 <= i < |hs| ==> Allowed(ok, hs[i].dir)
  }

  /** The unbroken line over all half-edges of hs but the last, which starts where the line ends. */
  ghost predicate Drawn(m: Tiles, points: Poly, hs: seq<HalfEdge>, x0: int, y0: int, x: int, y: int)
    requires Valid(m)
  {
    hs != [] && Draws(m, points, hs[..|hs| - 1], x0, y0, x, y) && Wrap(m, x, y) == hs[|hs| - 1].loc
  }

  lemma DrawnSnoc(m: Tiles, points: Poly, hs: seq<HalfEdge>, x0: int, y0: int, x: int, y: int)
    requires Valid(m) && Drawn(m, points, hs, x0, y0, x, y)
    ensures var h := hs[|hs| - 1];
            && Draws(m, points + [Point(x, y, h.dir)], hs, x0, y0, x + DirX(h.dir), y + DirY(h.dir))
            && Wrap(m, x + DirX(h.dir), y + DirY(h.dir)) == Head(m, h)
            && forall n: HalfEdge :: Head(m, h) == n.loc ==>
                 Drawn(m, points + [Point(x, y, h.dir)], hs + [n], x0, y0, x + DirX(h.dir), y + DirY(h.dir))
  {
    hide DirX;
    hide DirY;
    hide Wrap;
    var h := hs[|hs| - 1];
    StepWraps(m, x, y, h.dir);
    var more := points + [Point(x, y, h.dir)];
    assert hs == hs[..|hs| - 1] + [h];
    forall n: HalfEdge | Head(m, h) == n.loc
      ensures Drawn(m, more, hs + [n], x0, y0, x + DirX(h.dir), y + DirY(h.dir))
    {
      assert (hs + [n])[..|hs|] == hs;
    }
  }

  /** What a trace over the path hs leaves marked, once n of its half-edges have been left. */
  ghost function OnesAfter(m: Tiles, ok: OkDir, hs: seq<HalfEdge>, n: nat, ones: set<Cell>): set<Cell>
    requires Valid(m) && 1 <= |hs| && n <= |hs| && forall h :: h in hs ==> Inside(m, h.loc)
  {
    if ok.AnyDir? then ones + MarkSet(m, hs[..n]) else ones - UpSet(m, hs[1..])
  }

  ghost function MinusesAfter(m: Tiles, ok: OkDir, hs: seq<HalfEdge>, n: nat, minuses: set<Cell>): set<Cell>
    requires Valid(m) && 1 <= |hs| && n <= |hs| && forall h :: h in hs ==> Inside(m, h.loc)
  {
    if ok.AnyDir? then minuses - MarkSet(m, hs[..n]) else minuses + UpSet(m, hs[1..])
  }

  lemma LeftMarks(m: Tiles, ok: OkDir, hs: seq<HalfEdge>, ones: set<Cell>, minuses: set<Cell>)
    requires Valid(m) && hs != [] && (forall h :: h in hs ==> Inside(m, h.loc)) && Flat(ok)
    requires Allowed(ok, hs[|hs| - 1].dir)
    ensures var h, k := hs[|hs| - 1], |hs| - 1;
            && OnesAfter(m, ok, hs, k + 1, ones) == OnesAfter(m, ok, hs, k, ones) + Marks1(m, h)
            && MinusesAfter(m, ok, hs, k + 1, minuses) == MinusesAfter(m, ok, hs, k, minuses) - Marks1(m, h)
  {
    hide MarkCell;
    var h, k := hs[|hs| - 1], |hs| - 1;
    assert hs[..k] + [h] == hs == hs[..k + 1];
    assert forall g :: g in hs[..k] ==> g in hs;
    MarkSetSnoc(m, hs[..k], h);
    hide MarkSet;
    hide UpSet;
  }

  lemma ArrivedMarks(m: Tiles, ok: OkDir, hs: seq<HalfEdge>, n: HalfEdge, ones: set<Cell>, minuses: set<Cell>)
    requires Valid(m) && hs != [] && (forall h :: h in hs ==> Inside(m, h.loc)) && Inside(m, n.loc)
    ensures forall h :: h in hs + [n] ==> Inside(m, h.loc)
    ensures var a, b := OnesAfter(m, ok, hs, |hs|, ones), MinusesAfter(m, ok, hs, |hs|, minuses);
            if ok.Only? && n.dir == 2
            then OnesAfter(m, ok, hs + [n], |hs|, ones) == a - {Step(m, n.loc, 2)}
                 && MinusesAfter(m, ok, hs + [n], |hs|, minuses) == b + {Step(m, n.loc, 2)}
            else OnesAfter(m, ok, hs + [n], |hs|, ones) == a && MinusesAfter(m, ok, hs + [n], |hs|, minuses) == b
  {
    hide Step;
    var more := hs + [n];
    assert forall h :: h in more <==> h in hs || h == n;
    assert more[1..] == hs[1..] + [n] && more[..|hs|] == hs && hs[..|hs|] == hs;
    UpSetSnoc(m, hs[1..], n);
    hide UpSet;
    hide MarkSet;
  }

  /**
   * tracepoly: the polygon of a whole orbit, or None when the orbit takes a direction that is not allowed.
   * hs is the part of the orbit that was visited.
   */
  method TracePoly(m: Tiles, x0: int, y0: int, startdir: Dir, ok: OkDir, done: Marks,
                   ghost ones: set<Cell>, ghost minuses: set<Cell>)
    returns (poly: Option<Poly>, ghost hs: seq<HalfEdge>)
    requires Valid(m) && Flat(ok) && Allowed(ok, startdir) && HoldsMarks(done, m, ones, minuses)
    requires Boundary(m, HalfEdge(Wrap(m, x0, y0), startdir))
    modifies done
    ensures Traced(m, HalfEdge(Wrap(m, x0, y0), startdir), ok, hs)
    ensures poly.Some? ==>
              && Orbit(m, hs)
              && exists x, y :: Draws(m, poly.value, hs, x0, y0, x, y) && Wrap(m, x, y) == hs[0].loc
    ensures poly.None? ==> !Allowed(ok, Next(m, hs[|hs| - 1]).dir) && Next(m, hs[|hs| - 1]) != hs[0]
    ensures HoldsMarks(done, m, OnesAfter(m, ok, hs, |hs|, ones), MinusesAfter(m, ok, hs, |hs|, minuses))
  {
    hide HoldsMarks;
    hide Boundary;
    hide Next;
    hide Draws;
    hide Wrap;
    hide OnesAfter;
    hide MinusesAfter;
    hide Marks1;
    hide Flat;
    var start := HalfEdge(Wrap(m, x0, y0), startdir);
    var h := start;
    var x, y := x0, y0;
    var points: Poly := [];
    hs := [start];
    StartTrace(m, start, ok, x0, y0, ones, minuses);
    while true
      invariant Traced(m, start, ok, hs) && hs[|hs| - 1] == h && Drawn(m, points, hs, x0, y0, x, y)
      invariant forall g :: g in hs ==> Inside(m, g.loc)
      invariant HoldsMarks(done, m, OnesAfter(m, ok, hs, |hs| - 1, ones), MinusesAfter(m, ok, hs, |hs| - 1, minuses))
      decreases |HalfEdges(m)| - |hs|
    {
      DrawnSnoc(m, points, hs, x0, y0, x, y);
      LeftMarks(m, ok, hs, ones, minuses);
      points := points + [Point(x, y, h.dir)];
      x, y := x + DirX(h.dir), y + DirY(h.dir);
      h := TraceStep(m, h, done, OnesAfter(m, ok, hs, |hs| - 1, ones), MinusesAfter(m, ok, hs, |hs| - 1, minuses));
      PathFits(m, hs);
      NextAt(m, hs[|hs| - 1]);
      if h == start {
        return Some(points), hs;
      }
      if !Allowed(ok, h.dir) {
        return None, hs;
      }
      PathSnoc(m, hs);
      PathFits(m, hs + [h]);
      ArrivedMarks(m, ok, hs, h, ones, minuses);
      if ok.Only? && h.dir == 2 {
        MarkMinus(done, m, Step(m, h.loc, 2), OnesAfter(m, ok, hs, |hs|, ones), MinusesAfter(m, ok, hs, |hs|, minuses));
      }
      hs := hs + [h];
    }
  }

  lemma NextAt(m: Tiles, h: HalfEdge)
    requires Valid(m) && Boundary(m, h)
    ensures Next(m, h).loc == Head(m, h)
  {
    hide NoEdge;
  }

  lemma StartTrace(m: Tiles, start: HalfEdge, ok: OkDir, x: int, y: int, ones: set<Cell>, minuses: set<Cell>)
    requires Valid(m) && Boundary(m, start) && Wrap(m, x, y) == start.loc && Allowed(ok, start.dir)
    ensures Traced(m, start, ok, [start]) && Drawn(m, [], [start], x, y, x, y) && Inside(m, start.loc)
    ensures OnesAfter(m, ok, [start], 0, ones) == ones && MinusesAfter(m, ok, [start], 0, minuses) == minuses
  {
    hide NoEdge;
    hide Wrap;
    assert [start][..0] == [] && [start][1..] == [];
  }
}
