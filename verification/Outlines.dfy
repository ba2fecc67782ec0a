/** What the polygons of poly_findedges outline: each runs along a single part of the wall, and closes up. */
module Outlines {
  import opened Seqs
  import opened TileMap
  import opened Tracing
  import opened FindEdges
  import opened FlatEdges
  import P = Partition

  /** Every half-edge along the wall is drawn by one polygon and no other. */
  lemma DrawnExactlyOnce(m: Tiles, log: seq<Found>, h: HalfEdge) returns (i: nat)
    requires Valid(m) && Disjoint(m, log) && AllCovered(m, log) && Boundary(m, h)
    ensures i < |log| && h in log[i].hs && forall j :: 0 <= j < |log| && h in log[j].hs ==> j == i
  {
    i := OnOrbit(m, log, h);
    hide Boundary;
    forall j | 0 <= j < |log| && h in log[j].hs
      ensures j == i
    {
      assert h in Elements(log[j].hs) && h in Elements(log[i].hs);
    }
  }

  /** The displacements of each polygon add up to whole trips around the torus. */
  lemma PolygonsCloseUp(m: Tiles, log: seq<Found>, i: nat)
    requires Valid(m) && Disjoint(m, log) && i < |log|
    ensures SumX(log[i].poly) % m.width == 0 && SumY(log[i].poly) % m.height == 0
  {
    var poly, hs := log[i].poly, log[i].hs;
    assert DrawsOrbit(m, poly, hs);
    var x, y :| Draws(m, poly, hs, poly[0].x, poly[0].y, x, y) && Wrap(m, x, y) == hs[0].loc;
    OrbitClosesUp(m, poly, hs, poly[0].x, poly[0].y, x, y);
  }

  // ------------------------------------------------------- one part along a polygon

  /** The tile to the right of direction d at corner l. */
  function RightTile(m: Tiles, l: Cell, d: Dir): Cell
    requires Valid(m)
  {
    if d == 0 || d == 7 then l
    else if d == 1 || d == 2 then Step(m, l, 2)
    else if d == 3 || d == 4 then Step(m, l, 3)
    else Step(m, l, 4)
  }

  /** Cells a and b are the same, or have a solid side in common. */
  predicate Beside(m: Tiles, a: Cell, b: Cell)
    requires Valid(m) && Inside(m, a)
  {
    a == b || exists d: Dir :: P.Linked(m, a, d) && Step(m, a, d) == b
  }

  /** Neighbouring tiles belong together exactly when both are solid along their edge, as seen from its corners. */
  lemma LinkedIsSolid(m: Tiles, c: Cell, d: Dir)
    requires Valid(m) && Inside(m, c)
    ensures P.Linked(m, c, 0) <==> NoEdge(m, Step(m, c, 7), 2) && NoEdge(m, Step(m, c, 0), 6)
    ensures P.Linked(m, c, 2) <==> NoEdge(m, c, 0) && NoEdge(m, Step(m, c, 0), 4)
    ensures P.Linked(m, c, 4) <==> NoEdge(m, Step(m, c, 6), 2) && NoEdge(m, c, 6)
    ensures P.Linked(m, c, 6) <==> NoEdge(m, Step(m, c, 6), 0) && NoEdge(m, Step(m, c, 7), 4)
    ensures P.Linked(m, c, d) ==> d == 0 || d == 2 || d == 4 || d == 6
  {
    hide TileAt;
    hide P.Ways;
    hide Filled;
    AroundTile(m, c);
    WaysAreSides(TileAt(m, c));
    WaysAreSides(TileAt(m, Step(m, c, 0)));
    WaysAreSides(TileAt(m, Step(m, c, 2)));
    WaysAreSides(TileAt(m, Step(m, c, 4)));
    WaysAreSides(TileAt(m, Step(m, c, 6)));
    hide Step;
  }

  lemma WaysAreSides(c: char)
    ensures 0 in P.Ways(c) <==> OneOf(c, REC_UR, REC_DR)
    ensures 2 in P.Ways(c) <==> OneOf(c, REC_UR, REC_UL)
    ensures 4 in P.Ways(c) <==> OneOf(c, REC_UL, REC_DL)
    ensures 6 in P.Ways(c) <==> OneOf(c, REC_DL, REC_DR)
    ensures forall d: Dir :: d in P.Ways(c) ==> d == 0 || d == 2 || d == 4 || d == 6
  {
  }

  /** From the corners of a tile back to the tile and to its neighbours. */
  lemma AroundTile(m: Tiles, c: Cell)
    requires Valid(m) && Inside(m, c)
    ensures Step(m, Step(m, c, 0), 4) == c == Step(m, Step(m, c, 6), 2) == Step(m, Step(m, c, 7), 3)
    ensures Step(m, Step(m, c, 7), 2) == Step(m, c, 0) && Step(m, Step(m, c, 0), 3) == Step(m, c, 2)
  {
    TwoSteps(m, c, 7, 2);
    TwoSteps(m, c, 0, 4);
    TwoSteps(m, c, 0, 3);
    TwoSteps(m, c, 6, 2);
    TwoSteps(m, c, 7, 3);
    WrapInside(m, c);
    hide Wrap;
  }

  /** The tiles x and a side by side make two parts, as the left side of a is open. */
  lemma TwoParts(m: Tiles, v: P.Parts, seeds: seq<Cell>)
    requires m.width == 4 && m.height == 3 && m.data == ["    ", " xa ", "    "] && P.Partitioned(m, v, seeds)
    ensures Cell(1, 1) in v && Cell(2, 1) in v && v[Cell(1, 1)].num != v[Cell(2, 1)].num
  {
    hide P.Sound;
    hide P.ClosedExcept;
    hide P.Connected;
    assert Valid(m) by {
      P.SoundInside(m, v, seeds);
    }
    assert IsWall(TileAt(m, Cell(1, 1))) && IsWall(TileAt(m, Cell(2, 1)));
    P.SamePartIsConnected(m, v, seeds, Cell(1, 1), Cell(2, 1));
    if P.Connected(m, Cell(1, 1), Cell(2, 1)) {
      NoWayOut(m);
    }
  }

  lemma NoWayOut(m: Tiles)
    requires m.width == 4 && m.height == 3 && m.data == ["    ", " xa ", "    "]
    ensures Valid(m) && !P.Connected(m, Cell(1, 1), Cell(2, 1))
  {
    forall d: Dir
      ensures !P.Linked(m, Cell(1, 1), d)
    {
      NeighboursOpen(m, d);
    }
    hide P.Linked;
    forall ds: seq<Dir>
      ensures !P.Leads(m, Cell(1, 1), ds, Cell(2, 1))
    {
      assert Wrap(m, 1, 1) == Cell(1, 1);
    }
  }

  lemma NeighboursOpen(m: Tiles, d: Dir)
    requires m.width == 4 && m.height == 3 && m.data == ["    ", " xa ", "    "]
    ensures Valid(m) && !P.Linked(m, Cell(1, 1), d)
  {
    if d == 0 || d == 2 || d == 4 || d == 6 {
      assert Step(m, Cell(1, 1), d) == Cell(1 + DirX(d), 1 + DirY(d));
    }
  }

  /** Two walled directions next to each other belong to one piece of wall. */
  lemma WalledTogether(m: Tiles, l: Cell, d: Dir)
    requires Valid(m) && Inside(m, l) && NoEdge(m, l, d) && NoEdge(m, l, Turn(d, 1))
    ensures Inside(m, RightTile(m, l, Turn(d, 1))) && Beside(m, RightTile(m, l, Turn(d, 1)), RightTile(m, l, d))
  {
    TwoSteps(m, l, 2, 6);
    TwoSteps(m, l, 3, 0);
    TwoSteps(m, l, 4, 2);
    WrapInside(m, l);
    assert Step(m, Step(m, l, 2), 6) == l && Step(m, Step(m, l, 3), 0) == Step(m, l, 2);
    assert Step(m, Step(m, l, 4), 2) == Step(m, l, 3) && Step(m, l, 4) == Wrap(m, l.x - 1, l.y);
    hide TileAt;
    if d == 0 {
      assert P.Linked(m, Step(m, l, 2), 6);
    } else if d == 2 {
      assert P.Linked(m, Step(m, l, 3), 0);
    } else if d == 4 {
      assert P.Linked(m, Step(m, l, 4), 2);
    } else if d == 6 {
      assert P.Linked(m, l, 4);
    }
  }

  lemma BesideSamePart(m: Tiles, v: P.Parts, seeds: seq<Cell>, a: Cell, b: Cell)
    requires Valid(m) && P.Partitioned(m, v, seeds) && Inside(m, a) && a in v && Beside(m, a, b)
    ensures b in v && v[b].num == v[a].num
  {
    hide P.Linked;
    hide P.Rooted;
    hide Step;
    assert P.ClosedAt(m, v, a);
  }

  /** A half-edge's left tile, seen from its end. */
  lemma LeftFromHead(m: Tiles, h: HalfEdge)
    requires Valid(m) && Inside(m, h.loc)
    ensures LeftTile(m, h) == RightTile(m, Head(m, h), Back(h.dir)) == RightTile(m, h.loc, Turn(h.dir, 1))
  {
    var l, d := h.loc, h.dir;
    TwoSteps(m, l, d, 2);
    TwoSteps(m, l, d, 3);
    TwoSteps(m, l, d, 4);
    WrapInside(m, l);
    hide Wrap;
    assert Step(m, l, 2) == Wrap(m, l.x, l.y - 1);
    assert Step(m, l, 3) == Wrap(m, l.x - 1, l.y - 1);
    assert Step(m, l, 4) == Wrap(m, l.x - 1, l.y);
    assert Step(m, l, d) == Wrap(m, l.x + DirX(d), l.y + DirY(d));
  }

  /** The wall that bars k directions in a row is of one part. */
  lemma {:induction false} BarredSamePart(m: Tiles, v: P.Parts, seeds: seq<Cell>, l: Cell, d: Dir, k: nat)
    requires Valid(m) && P.Partitioned(m, v, seeds) && Inside(m, l) && NoEdge(m, l, Back(d)) &&
             RightTile(m, l, Back(d)) in v
    requires forall i :: 0 <= i < k ==> Barred(m, l, d, i)
    ensures RightTile(m, l, Turn(d, 4 - k)) in v
    ensures v[RightTile(m, l, Turn(d, 4 - k))].num == v[RightTile(m, l, Back(d))].num
    decreases k
  {
    hide P.Partitioned;
    hide NoEdge;
    hide RightTile;
    hide Turn;
    hide Back;
    hide Beside;
    TurnAround(d);
    if k > 0 {
      BarredSamePart(m, v, seeds, l, d, k - 1);
      TurnTurn(d, 4 - k, 1);
      assert Barred(m, l, d, k - 1);
      assert 3 - (k - 1) == 4 - k && 4 - k + 1 == 4 - (k - 1);
      if k > 1 {
        assert Barred(m, l, d, k - 2);
      }
      WalledTogether(m, l, Turn(d, 4 - k));
      BesideSamePart(m, v, seeds, RightTile(m, l, Turn(d, 4 - (k - 1))), RightTile(m, l, Turn(d, 4 - k)));
    }
  }

  lemma NextSamePart(m: Tiles, v: P.Parts, seeds: seq<Cell>, h: HalfEdge)
    requires Valid(m) && P.Partitioned(m, v, seeds) && Boundary(m, h) && LeftTile(m, h) in v
    ensures LeftTile(m, Next(m, h)) in v && v[LeftTile(m, Next(m, h))].num == v[LeftTile(m, h)].num
  {
    hide P.Partitioned;
    hide NoEdge;
    hide RightTile;
    hide LeftTile;
    hide Turn;
    hide Back;
    hide Step;
    WallAtHead(m, h);
    LeftFromHead(m, h);
    var l := Head(m, h);
    var k: int := FirstOpen(m, l, h.dir, 0);
    BarredSamePart(m, v, seeds, l, h.dir, k);
    TurnTurn(h.dir, 3 - k, 1);
    assert 3 - k + 1 == 4 - k;
    LeftFromHead(m, Next(m, h));
  }

  lemma {:induction false} PathSamePart(m: Tiles, v: P.Parts, seeds: seq<Cell>, hs: seq<HalfEdge>, k: nat)
    requires Valid(m) && P.Partitioned(m, v, seeds) && Path(m, hs) && LeftTile(m, hs[0]) in v && k < |hs|
    ensures LeftTile(m, hs[k]) in v && v[LeftTile(m, hs[k])].num == v[LeftTile(m, hs[0])].num
  {
    hide P.Partitioned;
    hide Boundary;
    hide Next;
    hide LeftTile;
    if k > 0 {
      PathSamePart(m, v, seeds, hs, k - 1);
      assert Boundary(m, hs[k - 1]) && Next(m, hs[k - 1]) == hs[k - 1 + 1];
      NextSamePart(m, v, seeds, hs[k - 1]);
    }
  }

  /** All the wall along a polygon is of the part that the polygon is listed for. */
  lemma PolygonStaysInPart(m: Tiles, v: P.Parts, seeds: seq<Cell>, log: seq<Found>, i: nat, k: nat)
    requires Valid(m) && P.Partitioned(m, v, seeds) && Disjoint(m, log) && AllFiled(m, v, log) && i < |log| &&
             k < |log[i].hs|
    ensures LeftTile(m, log[i].hs[k]) in v && v[LeftTile(m, log[i].hs[k])].num == log[i].part
  {
    hide P.Partitioned;
    hide Boundary;
    hide Next;
    hide LeftTile;
    hide Draws;
    assert DrawsOrbit(m, log[i].poly, log[i].hs) && Filed(m, v, log[i]);
    PathSamePart(m, v, seeds, log[i].hs, k);
  }

  /** poly_partition and poly_findedges together, as the conversion runs them. */
  method OutlineWalls(m: Tiles)
    returns (partpolys: array<seq<Poly>>, ghost log: seq<Found>, ghost v: P.Parts, ghost seeds: seq<Cell>)
    requires Valid(m)
    ensures P.Partitioned(m, v, seeds) && partpolys.Length == |seeds| && HoldsPolys(partpolys, log)
    ensures Disjoint(m, log) && AllCovered(m, log) && AllFiled(m, v, log)
    ensures P.FirstCells(v, seeds) && InSearchOrder(m, log)
  {
    hide P.Partitioned;
    hide P.Holds;
    hide HoldsPolys;
    hide Disjoint;
    hide AllFiled;
    hide P.FirstCells;
    hide InSearchOrder;
    var mapparts, partcount;
    mapparts, partcount, v, seeds := P.PolyPartition(m);
    partpolys, log := PolyFindEdges(m, mapparts, partcount, v, seeds);
  }
}
