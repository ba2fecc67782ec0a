/** The last edges that poly_findedges looks for: bands around the torus, and that nothing is left after them. */
module FlatEdges {
  import opened Arithmetic
  import opened TileMap
  import opened Tracing
  import opened EdgeOrbits
  import opened FindEdges
  import P = Partition

  // ------------------------------------------------------- upward edges are all covered

  /** The second pass has covered the upward starts of the first row. */
  ghost predicate UpRowCovered(m: Tiles, log: seq<Found>)
    requires Valid(m)
  {
    forall c :: Inside(m, c) && c.y == 0 && UpStart(m, c) ==> UpEdge(m, c) in Covered(log)
  }

  ghost predicate AllUpCovered(m: Tiles, log: seq<Found>)
    requires Valid(m)
  {
    forall h :: Boundary(m, h) && h.dir == 2 ==> h in Covered(log)
  }

  /** How far an edge is below the first row. */
  function Below(m: Tiles, h: HalfEdge): int
    requires Valid(m)
  {
    Step(m, h.loc, 2).y
  }

  /** Without a diagonal an edge does not lead down, unless it leads up from the first row. */
  lemma FlatGoesUp(m: Tiles, h: HalfEdge)
    requires Valid(m) && Boundary(m, h) && (h.dir == 0 || h.dir == 2 || h.dir == 4)
    requires h.dir == 2 ==> Below(m, h) != 0
    ensures Below(m, Next(m, h)) <= Below(m, h)
    ensures h.dir == 2 ==> Below(m, Next(m, h)) < Below(m, h)
  {
    NextAt(m, h);
    hide NoEdge;
    hide Next;
    if h.dir == 2 {
      ModIs(Below(m, h) - 1, 0, Below(m, h) - 1, m.height);
    } else {
      ModIs(h.loc.y, 0, h.loc.y, m.height);
    }
  }

  /** An upward half-edge that is not next to a diagonal is the upward start of the tile on its right. */
  lemma UpStartOf(m: Tiles, h: HalfEdge)
    requires Valid(m) && Boundary(m, h) && h.dir == 2 && !NextToMarking(m, h)
    ensures var c := Step(m, h.loc, 2); Inside(m, c) && UpStart(m, c) && UpEdge(m, c) == h
  {
    UpBesideFilled(m, h);
    TwoSteps(m, h.loc, 2, 4);
    StepBack(m, h.loc, 2);
    assert Step(m, Step(m, h.loc, 2), 4) == Step(m, h.loc, 3);
    hide NextToMarking;
    hide NoEdge;
    hide TileAt;
  }

  lemma UncoveredUp(m: Tiles, log: seq<Found>, h: HalfEdge)
    requires Valid(m) && Disjoint(m, log) && MarkingCovered(m, log) && UpRowCovered(m, log)
    requires Boundary(m, h) && h !in Covered(log)
    ensures h.dir == 0 || h.dir == 2 || h.dir == 4
    ensures h.dir == 2 ==> Below(m, h) != 0
  {
    FlatOrMarking(m, h);
    if h.dir == 2 {
      if NextToMarking(m, h) {
        NextToMarkingCovered(m, log, h);
      }
      UpStartOf(m, h);
    }
    hide NoEdge;
    hide Step;
    hide Next;
    hide Covered;
    hide Disjoint;
    hide NextToMarking;
  }

  /** Upward edges form an orbit around the torus, which the first row meets, or meet a diagonal. */
  lemma UpsCovered(m: Tiles, log: seq<Found>)
    requires Valid(m) && Disjoint(m, log) && MarkingCovered(m, log) && UpRowCovered(m, log)
    ensures AllUpCovered(m, log)
  {
    forall h | Boundary(m, h) && h.dir == 2
      ensures h in Covered(log)
    {
      if h !in Covered(log) {
        UncoveredUpRises(m, log, h);
      }
    }
  }

  lemma UncoveredUpRises(m: Tiles, log: seq<Found>, h: HalfEdge)
    requires Valid(m) && Disjoint(m, log) && MarkingCovered(m, log) && UpRowCovered(m, log)
    requires Boundary(m, h) && h !in Covered(log)
    ensures h.dir != 2
  {
    hide Boundary;
    hide Below;
    hide Next;
    hide Disjoint;
    hide Covered;
    hide MarkingCovered;
    hide UpRowCovered;
    var hs := OrbitFrom(m, h);
    CoveredIsClosed(m, log);
    forall i | 0 <= i < |hs|
      ensures Below(m, Next(m, hs[i])) <= Below(m, hs[i])
    {
      PathStaysOut(m, hs, Covered(log), i);
      UncoveredUp(m, log, hs[i]);
      FlatGoesUp(m, hs[i]);
    }
    RankStays(m, hs, g => Below(m, g));
    UncoveredUp(m, log, h);
    FlatGoesUp(m, h);
  }

  // -------------------------------------------------------- edges along a whole row

  predicate TopStart(m: Tiles, c: Cell)
    requires Valid(m) && Inside(m, c)
  {
    Filled(TileAt(m, c)) && !OneOf(TileAt(m, Step(m, c, 2)), REC_DL, REC_DR)
  }

  predicate BottomStart(m: Tiles, c: Cell)
    requires Valid(m) && Inside(m, c)
  {
    Filled(TileAt(m, c)) && !OneOf(TileAt(m, Step(m, c, 6)), REC_UR, REC_UL)
  }

  /** The row of tiles whose top or bottom a half-edge runs along. */
  function Row(m: Tiles, h: HalfEdge): int
    requires Valid(m)
  {
    if h.dir == 4 then h.loc.y else Step(m, h.loc, 2).y
  }

  lemma TopEdgeFacts(m: Tiles, c: Cell)
    requires Valid(m) && Inside(m, c) && TopStart(m, c)
    ensures var h := TopEdge(m, c); Boundary(m, h) && LeftTile(m, h) == c && Row(m, h) == c.y && h.dir == 4
  {
    Corners(m, c);
    ModIs(c.y, 0, c.y, m.height);
    hide TileAt;
  }

  lemma BottomEdgeFacts(m: Tiles, c: Cell)
    requires Valid(m) && Inside(m, c) && BottomStart(m, c)
    ensures var h := BottomEdge(m, c); Boundary(m, h) && LeftTile(m, h) == c && Row(m, h) == c.y && h.dir == 0
  {
    Corners(m, c);
    hide TileAt;
    hide Step;
  }

  /** The polygons that start in direction dir start along the rows above y. */
  predicate HeadsAbove(m: Tiles, log: seq<Found>, dir: Dir, y: int)
    requires Valid(m)
  {
    forall i :: 0 <= i < |log| && log[i].hs != [] && log[i].hs[0].dir == dir ==> Row(m, log[i].hs[0]) < y
  }

  /** An orbit in a single direction stays along its row. */
  lemma {:induction false} StaysInRow(m: Tiles, hs: seq<HalfEdge>, dir: Dir, i: nat)
    requires Valid(m) && Path(m, hs) && Keeps(hs, {dir}) && (dir == 0 || dir == 4) && i < |hs|
    ensures Row(m, hs[i]) == Row(m, hs[0])
  {
    if i > 0 {
      StaysInRow(m, hs, dir, i - 1);
      assert Boundary(m, hs[i - 1]) && Next(m, hs[i - 1]) == hs[i - 1 + 1];
      NextAt(m, hs[i - 1]);
      ModIs(hs[i - 1].loc.y, 0, hs[i - 1].loc.y, m.height);
    }
    hide NoEdge;
    hide Next;
  }

  /** The start along a row that no polygon starts along is new, unless its orbit leaves the direction. */
  lemma RowIsNew(m: Tiles, log: seq<Found>, s: HalfEdge)
    requires Valid(m) && Disjoint(m, log) && (s.dir == 0 || s.dir == 4) && HeadsAbove(m, log, s.dir, Row(m, s))
    ensures NewIfFlat(m, log, {s.dir}, s)
  {
    hide Orbit;
    hide Covered;
    hide Disjoint;
    hide Keeps;
    hide Row;
    forall hs: seq<HalfEdge> | hs != [] && hs[0] == s && Orbit(m, hs) && Keeps(hs, {s.dir})
      ensures s !in Covered(log)
    {
      NoRowOrbit(m, log, s, hs);
    }
  }

  lemma NoRowOrbit(m: Tiles, log: seq<Found>, s: HalfEdge, hs: seq<HalfEdge>)
    requires Valid(m) && Disjoint(m, log) && (s.dir == 0 || s.dir == 4) && HeadsAbove(m, log, s.dir, Row(m, s))
    requires hs != [] && hs[0] == s && Orbit(m, hs) && Keeps(hs, {s.dir})
    ensures s !in Covered(log)
  {
    hide Covered;
    hide Disjoint;
    hide Keeps;
    hide Row;
    hide Boundary;
    hide Next;
    if s in Covered(log) {
      var i := OnOrbit(m, log, s);
      FlatAllThrough(m, log[i].hs, hs, {s.dir}, s);
      var g := log[i].hs[0];
      assert g.dir in {s.dir} && g in hs;
      var k :| 0 <= k < |hs| && hs[k] == g;
      StaysInRow(m, hs, s.dir, k);
    }
  }

  lemma RowExits(m: Tiles, log: seq<Found>, dir: Dir)
    requires Valid(m) && MarkingCovered(m, log) && AllUpCovered(m, log) && (dir == 0 || dir == 4)
    ensures ExitsCovered(m, log, {dir})
  {
    hide NoEdge;
    hide Next;
    hide Covered;
    forall h | Boundary(m, h) && h.dir in {dir} && Next(m, h).dir !in {dir}
      ensures Next(m, h) in Covered(log)
    {
      NextBoundary(m, h);
      FlatOrMarking(m, Next(m, h));
    }
  }

  lemma HeadsAboveMore(m: Tiles, log: seq<Found>, newLog: seq<Found>, s: HalfEdge, part: nat, x: int, y: int, dir: Dir,
                       row: int)
    requires Valid(m) && HeadsAbove(m, log, dir, row) && (newLog == log || OneMore(log, newLog, part, x, y, s))
    ensures s.dir != dir ==> HeadsAbove(m, newLog, dir, row)
    ensures Row(m, s) == row ==> HeadsAbove(m, newLog, dir, row + 1)
  {
    hide Row;
    forall i | 0 <= i < |newLog| && newLog[i].hs != [] && newLog[i].hs[0].dir == dir
      ensures Row(m, newLog[i].hs[0]) < row || newLog[i].hs[0] == s
    {
      assert i < |log| ==> newLog[i] == log[i];
    }
  }

  lemma StillUp(m: Tiles, log: seq<Found>, newLog: seq<Found>)
    requires Valid(m) && AllUpCovered(m, log) && Covered(log) <= Covered(newLog)
    ensures AllUpCovered(m, newLog)
  {
    hide Boundary;
    hide Covered;
  }

  /** When the search comes to the lines along row y in direction 4 or 0. */
  function RowRank(m: Tiles, dir: Dir, y: int): int {
    m.width * m.height + m.width + 2 * y + if dir == 4 then 0 else 1
  }

  /** Traces a line along the top (dir 4) or bottom (dir 0) of tile c and on in the same direction. */
  method TraceRow(m: Tiles, mapparts: array2<P.Entry>, c: Cell, dx: int, dy: int, dir: Dir, partpolys: array<seq<Poly>>,
                  done: Marks, ghost v: P.Parts, ghost seeds: seq<Cell>, ghost log: seq<Found>,
                  ghost ones: set<Cell>, ghost minuses: set<Cell>)
    returns (ghost newLog: seq<Found>, ghost newOnes: set<Cell>, ghost newMinuses: set<Cell>)
    requires Valid(m) && Inside(m, c) && Parts(m, mapparts, partpolys.Length, v, seeds)
    requires (dx == 1 && dy == 0 && dir == 4 && TopStart(m, c)) || (dx == 0 && dy == 1 && dir == 0 && BottomStart(m, c))
    requires Disjoint(m, log) && MarkingCovered(m, log) && AllUpCovered(m, log) && AllFiled(m, v, log)
    requires HeadsAbove(m, log, dir, c.y) && Ordered(m, log, RowRank(m, dir, c.y))
    requires HoldsPolys(partpolys, log) && HoldsMarks(done, m, ones, minuses)
    modifies partpolys, done
    ensures Ordered(m, newLog, RowRank(m, dir, c.y) + 1)
    ensures Disjoint(m, newLog) && MarkingCovered(m, newLog) && AllUpCovered(m, newLog) && AllFiled(m, v, newLog)
    ensures HeadsAbove(m, newLog, dir, c.y + 1)
    ensures forall e: Dir, y :: e != dir && HeadsAbove(m, log, e, y) ==> HeadsAbove(m, newLog, e, y)
    ensures HoldsPolys(partpolys, newLog) && HoldsMarks(done, m, newOnes, newMinuses)
    ensures Covered(log) <= Covered(newLog)
    ensures (if dir == 4 then TopEdge(m, c) else BottomEdge(m, c)) in Covered(newLog)
  {
    hide Parts;
    hide HoldsPolys;
    hide Disjoint;
    hide AllFiled;
    hide HeadsAbove;
    hide Wrap;
    hide NoEdge;
    hide Covered;
    hide MarkingCovered;
    hide AllUpCovered;
    hide HoldsMarks;
    hide Next;
    hide OneMore;
    hide Row;
    hide LeftTile;
    hide Ordered;
    ghost var s := if dir == 4 then TopEdge(m, c) else BottomEdge(m, c);
    if dir == 4 {
      TopEdgeFacts(m, c);
    } else {
      BottomEdgeFacts(m, c);
    }
    hide TopStart;
    hide BottomStart;
    RowIsNew(m, log, s);
    RowExits(m, log, dir);
    hide NewIfFlat;
    hide ExitsCovered;
    StartIsWall(m, c);
    var sl := Located(m, mapparts, c, partpolys.Length, v, seeds);
    assert Wrap(m, sl.x + DirX(0), sl.y + DirY(0)) == Step(m, c, 0);
    assert Wrap(m, sl.x + DirX(6), sl.y + DirY(6)) == Step(m, c, 6);
    hide Step;
    ghost var hs;
    newLog, hs := TraceFlat(m, sl, dx, dy, dir, {dir}, partpolys, done, log, ones, minuses);
    newOnes, newMinuses := ones - UpSet(m, hs[1..]), minuses + UpSet(m, hs[1..]);
    StillMarking(m, log, newLog);
    StillUp(m, log, newLog);
    if newLog != log {
      FiledMore(m, v, log, newLog, c, dx, dy, s);
    }
    OrderedMore(m, log, newLog, sl.num, sl.x + dx, sl.y + dy, s, RowRank(m, dir, c.y));
    HeadsAboveMore(m, log, newLog, s, sl.num, sl.x + dx, sl.y + dy, dir, c.y);
    forall e: Dir, y | e != dir && HeadsAbove(m, log, e, y)
      ensures HeadsAbove(m, newLog, e, y)
    {
      HeadsAboveMore(m, log, newLog, s, sl.num, sl.x + dx, sl.y + dy, e, y);
    }
    assert hs[0] in hs;
  }

  lemma StartIsWall(m: Tiles, c: Cell)
    requires Valid(m) && Inside(m, c)
    ensures TopStart(m, c) || BottomStart(m, c) ==> IsWall(TileAt(m, c))
  {
    hide Step;
  }

  // -------------------------------------------------------- nothing is left at the end

  /** The third pass has covered the tops and bottoms of the tiles in the first column. */
  ghost predicate ColumnCovered(m: Tiles, log: seq<Found>)
    requires Valid(m)
  {
    forall c :: Inside(m, c) && c.x == 0 ==>
      (TopStart(m, c) ==> TopEdge(m, c) in Covered(log)) && (BottomStart(m, c) ==> BottomEdge(m, c) in Covered(log))
  }

  ghost predicate AllCovered(m: Tiles, log: seq<Found>)
    requires Valid(m)
  {
    forall h :: Boundary(m, h) ==> h in Covered(log)
  }

  /** How far a half-edge in direction 4 or 0 is from the first column, going on in its direction. */
  function Ahead(m: Tiles, h: HalfEdge): int
    requires Valid(m)
  {
    if h.dir == 4 then Step(m, h.loc, 4).x
    else if h.loc.x == 0 then 0
    else m.width - h.loc.x
  }

  lemma StraightOn(m: Tiles, h: HalfEdge)
    requires Valid(m) && Boundary(m, h) && (h.dir == 0 || h.dir == 4) && Next(m, h).dir == h.dir && Ahead(m, h) != 0
    ensures Ahead(m, Next(m, h)) < Ahead(m, h)
  {
    NextAt(m, h);
    hide NoEdge;
    hide Next;
    if h.dir == 4 {
      ModIs(Ahead(m, h) - 1, 0, Ahead(m, h) - 1, m.width);
    } else if h.loc.x + 1 == m.width {
      ModIs(m.width, 1, 0, m.width);
    } else {
      ModIs(h.loc.x + 1, 0, h.loc.x + 1, m.width);
    }
  }

  lemma TopStartOf(m: Tiles, h: HalfEdge)
    requires Valid(m) && Boundary(m, h) && h.dir == 4 && !NextToMarking(m, h)
    ensures var c := Step(m, h.loc, 4); Inside(m, c) && TopStart(m, c) && TopEdge(m, c) == h
  {
    TopBesideFilled(m, h);
    StepBack(m, h.loc, 4);
    hide NextToMarking;
    hide NoEdge;
    hide TileAt;
  }

  lemma BottomStartOf(m: Tiles, h: HalfEdge)
    requires Valid(m) && Boundary(m, h) && h.dir == 0 && !NextToMarking(m, h)
    ensures var c := Step(m, h.loc, 2); Inside(m, c) && BottomStart(m, c) && BottomEdge(m, c) == h && c.x == h.loc.x
  {
    BottomBesideFilled(m, h);
    StepBack(m, h.loc, 2);
    ModIs(h.loc.x, 0, h.loc.x, m.width);
    hide NextToMarking;
    hide NoEdge;
    hide TileAt;
  }

  /** A half-edge that is not covered goes straight on, away from the first column. */
  lemma UncoveredFlat(m: Tiles, log: seq<Found>, h: HalfEdge)
    requires Valid(m) && Disjoint(m, log) && MarkingCovered(m, log) && AllUpCovered(m, log) && ColumnCovered(m, log)
    requires Boundary(m, h) && h !in Covered(log) && Next(m, h) !in Covered(log)
    ensures (h.dir == 0 || h.dir == 4) && Next(m, h).dir == h.dir && Ahead(m, h) != 0
  {
    hide NoEdge;
    hide Next;
    hide Covered;
    hide Disjoint;
    hide TopStart;
    hide BottomStart;
    FlatOrMarking(m, h);
    NextBoundary(m, h);
    FlatOrMarking(m, Next(m, h));
    if NextToMarking(m, h) {
      NextToMarkingCovered(m, log, h);
    }
    if h.dir == 4 {
      TopStartOf(m, h);
    } else {
      BottomStartOf(m, h);
    }
    hide NextToMarking;
  }

  lemma EverythingCovered(m: Tiles, log: seq<Found>)
    requires Valid(m) && Disjoint(m, log) && MarkingCovered(m, log) && AllUpCovered(m, log) && ColumnCovered(m, log)
    ensures AllCovered(m, log)
  {
    hide Boundary;
    hide Next;
    hide Disjoint;
    hide Covered;
    hide MarkingCovered;
    hide AllUpCovered;
    hide ColumnCovered;
    forall h | Boundary(m, h)
      ensures h in Covered(log)
    {
      if h !in Covered(log) {
        UncoveredComesNearer(m, log, h);
      }
    }
  }

  lemma UncoveredComesNearer(m: Tiles, log: seq<Found>, h: HalfEdge)
    requires Valid(m) && Disjoint(m, log) && MarkingCovered(m, log) && AllUpCovered(m, log) && ColumnCovered(m, log)
    requires Boundary(m, h)
    ensures h in Covered(log)
  {
    hide Boundary;
    hide Ahead;
    hide Next;
    hide Disjoint;
    hide Covered;
    hide MarkingCovered;
    hide AllUpCovered;
    hide ColumnCovered;
    if h !in Covered(log) {
      var hs := OrbitFrom(m, h);
      CoveredIsClosed(m, log);
      forall i | 0 <= i < |hs|
        ensures Ahead(m, Next(m, hs[i])) < Ahead(m, hs[i])
      {
        PathStaysOut(m, hs, Covered(log), i);
        assert Boundary(m, hs[i]) && Next(m, hs[i]) !in Covered(log);
        UncoveredFlat(m, log, hs[i]);
        StraightOn(m, hs[i]);
      }
      RankStays(m, hs, g => Ahead(m, g));
    }
  }

  // ------------------------------------------------------------------ the whole search

  /** The starts of the tiles before column x of row y have been traced. */
  ghost predicate StartsCovered(m: Tiles, log: seq<Found>, x: int, y: int)
    requires Valid(m)
  {
    forall c :: Inside(m, c) && (c.y < y || (c.y == y && c.x < x)) && StartOf(m, c).Some? ==>
      StartOf(m, c).value in Covered(log)
  }

  /** The state of the first pass. */
  ghost predicate FirstPass(m: Tiles, v: P.Parts, log: seq<Found>, ones: set<Cell>)
    requires Valid(m)
  {
    Disjoint(m, log) && OnesMatch(m, log, ones) && StartsMarking(log) && AllFiled(m, v, log)
  }

  /** The first pass over the tiles of row y. */
  method TraceTileRow(m: Tiles, mapparts: array2<P.Entry>, y: nat, partpolys: array<seq<Poly>>, done: Marks,
                      ghost v: P.Parts, ghost seeds: seq<Cell>, ghost log0: seq<Found>, ghost ones0: set<Cell>)
    returns (ghost log: seq<Found>, ghost ones: set<Cell>)
    requires Valid(m) && Parts(m, mapparts, partpolys.Length, v, seeds) && y < m.height
    requires FirstPass(m, v, log0, ones0) && StartsCovered(m, log0, 0, y) && Ordered(m, log0, y * m.width)
    requires HoldsPolys(partpolys, log0) && HoldsMarks(done, m, ones0, {})
    modifies partpolys, done
    ensures FirstPass(m, v, log, ones) && StartsCovered(m, log, 0, y + 1) && Ordered(m, log, y * m.width + m.width)
    ensures HoldsPolys(partpolys, log) && HoldsMarks(done, m, ones, {})
  {
    hide Parts;
    hide HoldsPolys;
    hide HoldsMarks;
    hide StartOf;
    hide OnesMatch;
    hide Disjoint;
    hide StartsMarking;
    hide AllFiled;
    hide Covered;
    hide Ordered;
    log, ones := log0, ones0;
    for x := 0 to m.width
      invariant Parts(m, mapparts, partpolys.Length, v, seeds) && FirstPass(m, v, log, ones)
      invariant HoldsPolys(partpolys, log) && HoldsMarks(done, m, ones, {})
      invariant StartsCovered(m, log, x, y) && Ordered(m, log, y * m.width + x)
    {
      log, ones := TraceTile(m, mapparts, Cell(x, y), partpolys, done, v, seeds, log, ones);
    }
  }

  /** The first pass over all tiles. */
  method TraceTiles(m: Tiles, mapparts: array2<P.Entry>, partpolys: array<seq<Poly>>, done: Marks, ghost v: P.Parts,
                    ghost seeds: seq<Cell>)
    returns (ghost log: seq<Found>, ghost ones: set<Cell>)
    requires Valid(m) && Parts(m, mapparts, partpolys.Length, v, seeds)
    requires HoldsPolys(partpolys, []) && HoldsMarks(done, m, {}, {})
    modifies partpolys, done
    ensures Disjoint(m, log) && StartsMarking(log) && AllFiled(m, v, log) && MarkingCovered(m, log)
    ensures HoldsPolys(partpolys, log) && HoldsMarks(done, m, ones, {}) && Ordered(m, log, m.width * m.height)
  {
    hide Parts;
    hide HoldsPolys;
    hide HoldsMarks;
    hide StartOf;
    hide MarkingCovered;
    hide Disjoint;
    hide AllFiled;
    hide StartsMarking;
    log, ones := [], {};
    NothingFound(m, v);
    hide FirstPass;
    hide StartsCovered;
    hide Ordered;
    for y := 0 to m.height
      invariant Parts(m, mapparts, partpolys.Length, v, seeds) && FirstPass(m, v, log, ones)
      invariant HoldsPolys(partpolys, log) && HoldsMarks(done, m, ones, {})
      invariant StartsCovered(m, log, 0, y) && Ordered(m, log, y * m.width)
    {
      log, ones := TraceTileRow(m, mapparts, y, partpolys, done, v, seeds, log, ones);
      RowsOf(m.width, y);
    }
    FirstPassDone(m, v, log, ones);
    assert m.height * m.width == m.width * m.height;
  }

  lemma RowsOf(width: nat, y: nat)
    ensures y * width + width == (y + 1) * width
  {
  }

  lemma NothingFound(m: Tiles, v: P.Parts)
    requires Valid(m)
    ensures FirstPass(m, v, [], {}) && StartsCovered(m, [], 0, 0) && Ordered(m, [], 0)
  {
    hide StartOf;
  }

  lemma FirstPassDone(m: Tiles, v: P.Parts, log: seq<Found>, ones: set<Cell>)
    requires Valid(m) && FirstPass(m, v, log, ones) && StartsCovered(m, log, 0, m.height)
    ensures Disjoint(m, log) && StartsMarking(log) && AllFiled(m, v, log) && MarkingCovered(m, log)
  {
    hide OnesMatch;
    hide StartsMarking;
    hide AllFiled;
    hide Disjoint;
    hide StartOf;
    hide Covered;
    FirstPassCovers(m, log);
  }

  predicate HeadsNotFlat(log: seq<Found>) {
    forall i :: 0 <= i < |log| ==> log[i].hs != [] && (Marking(log[i].hs[0]) || log[i].hs[0].dir == 2)
  }

  /** The second pass, along the first row. */
  method TraceFirstRow(m: Tiles, mapparts: array2<P.Entry>, partpolys: array<seq<Poly>>, done: Marks,
                       ghost v: P.Parts, ghost seeds: seq<Cell>, ghost log0: seq<Found>, ghost ones0: set<Cell>)
    returns (ghost log: seq<Found>, ghost ones: set<Cell>, ghost minuses: set<Cell>)
    requires Valid(m) && Parts(m, mapparts, partpolys.Length, v, seeds)
    requires Disjoint(m, log0) && StartsMarking(log0) && AllFiled(m, v, log0) && MarkingCovered(m, log0)
    requires HoldsPolys(partpolys, log0) && HoldsMarks(done, m, ones0, {}) && Ordered(m, log0, m.width * m.height)
    modifies partpolys, done
    ensures Ordered(m, log, m.width * m.height + m.width)
    ensures Disjoint(m, log) && HeadsNotFlat(log) && AllFiled(m, v, log) && MarkingCovered(m, log) &&
            AllUpCovered(m, log)
    ensures HoldsPolys(partpolys, log) && HoldsMarks(done, m, ones, minuses)
  {
    hide Parts;
    hide HoldsPolys;
    hide HoldsMarks;
    hide MarkingCovered;
    hide AllFiled;
    hide UpStart;
    hide UpEdge;
    hide Disjoint;
    hide Covered;
    log, ones, minuses := log0, ones0, {};
    assert MinusCovered(m, log, minuses) && UpsMarked(m, log, minuses) && HeadsNotFlat(log);
    hide MinusCovered;
    hide UpsMarked;
    hide Ordered;
    for x := 0 to m.width
      invariant Parts(m, mapparts, partpolys.Length, v, seeds)
      invariant Disjoint(m, log) && HeadsNotFlat(log) && AllFiled(m, v, log) && MarkingCovered(m, log)
      invariant MinusCovered(m, log, minuses) && UpsMarked(m, log, minuses)
      invariant HoldsPolys(partpolys, log) && HoldsMarks(done, m, ones, minuses)
      invariant Ordered(m, log, m.width * m.height + x)
      invariant forall c :: Inside(m, c) && c.y == 0 && c.x < x && UpStart(m, c) ==> UpEdge(m, c) in Covered(log)
    {
      ghost var before := log;
      log, ones, minuses := TraceUp(m, mapparts, Cell(x, 0), partpolys, done, v, seeds, log, ones, minuses);
      StillNotFlat(before, log);
    }
    UpsCovered(m, log);
  }

  lemma StillNotFlat(log: seq<Found>, newLog: seq<Found>)
    requires HeadsNotFlat(log) && log <= newLog
    requires forall i :: |log| <= i < |newLog| ==> newLog[i].hs != [] && newLog[i].hs[0].dir == 2
    ensures HeadsNotFlat(newLog)
  {
    assert forall i :: 0 <= i < |log| ==> newLog[i] == log[i];
  }

  lemma NoHeadsFlat(m: Tiles, log: seq<Found>)
    requires Valid(m) && HeadsNotFlat(log)
    ensures HeadsAbove(m, log, 4, 0) && HeadsAbove(m, log, 0, 0)
  {
    hide Row;
  }

  /** The third pass at the tile c of the first column. */
  method TraceTopAndBottom(m: Tiles, mapparts: array2<P.Entry>, c: Cell, partpolys: array<seq<Poly>>, done: Marks,
                           ghost v: P.Parts, ghost seeds: seq<Cell>, ghost log0: seq<Found>, ghost ones0: set<Cell>,
                           ghost minuses0: set<Cell>)
    returns (ghost log: seq<Found>, ghost ones: set<Cell>, ghost minuses: set<Cell>)
    requires Valid(m) && Inside(m, c) && Parts(m, mapparts, partpolys.Length, v, seeds)
    requires Disjoint(m, log0) && MarkingCovered(m, log0) && AllUpCovered(m, log0) && AllFiled(m, v, log0)
    requires HeadsAbove(m, log0, 4, c.y) && HeadsAbove(m, log0, 0, c.y) && Ordered(m, log0, RowRank(m, 4, c.y))
    requires HoldsPolys(partpolys, log0) && HoldsMarks(done, m, ones0, minuses0)
    modifies partpolys, done
    ensures Ordered(m, log, RowRank(m, 4, c.y + 1))
    ensures Disjoint(m, log) && MarkingCovered(m, log) && AllUpCovered(m, log) && AllFiled(m, v, log)
    ensures HeadsAbove(m, log, 4, c.y + 1) && HeadsAbove(m, log, 0, c.y + 1)
    ensures HoldsPolys(partpolys, log) && HoldsMarks(done, m, ones, minuses)
    ensures Covered(log0) <= Covered(log)
    ensures (TopStart(m, c) ==> TopEdge(m, c) in Covered(log)) &&
            (BottomStart(m, c) ==> BottomEdge(m, c) in Covered(log))
  {
    hide Parts;
    hide HoldsPolys;
    hide HoldsMarks;
    hide MarkingCovered;
    hide AllUpCovered;
    hide AllFiled;
    hide Disjoint;
    hide Covered;
    hide TopEdge;
    hide BottomEdge;
    hide OneOf;
    log, ones, minuses := log0, ones0, minuses0;
    HeadsRise(m, log, 4, c.y);
    HeadsRise(m, log, 0, c.y);
    hide HeadsAbove;
    OrderedUpTo(m, log, RowRank(m, 4, c.y), RowRank(m, 0, c.y));
    hide Ordered;
    if Filled(TileAt(m, c)) && !OneOf(TileAt(m, Step(m, c, 2)), REC_DL, REC_DR) {
      log, ones, minuses := TraceRow(m, mapparts, c, 1, 0, 4, partpolys, done, v, seeds, log, ones, minuses);
    }
    OrderedUpTo(m, log, RowRank(m, 0, c.y), RowRank(m, 4, c.y + 1));
    if Filled(TileAt(m, c)) && !OneOf(TileAt(m, Step(m, c, 6)), REC_UR, REC_UL) {
      log, ones, minuses := TraceRow(m, mapparts, c, 0, 1, 0, partpolys, done, v, seeds, log, ones, minuses);
    }
  }

  lemma HeadsRise(m: Tiles, log: seq<Found>, dir: Dir, y: int)
    requires Valid(m) && HeadsAbove(m, log, dir, y)
    ensures HeadsAbove(m, log, dir, y + 1)
  {
    hide Row;
  }

  /** poly_findedges: each half-edge with wall on the left and none on the right is drawn by exactly one polygon. */
  method PolyFindEdges(m: Tiles, mapparts: array2<P.Entry>, partcount: nat, ghost v: P.Parts, ghost seeds: seq<Cell>)
    returns (partpolys: array<seq<Poly>>, ghost log: seq<Found>)
    requires Valid(m) && Parts(m, mapparts, partcount, v, seeds)
    ensures fresh(partpolys) && partpolys.Length == partcount && HoldsPolys(partpolys, log)
    ensures Disjoint(m, log) && AllCovered(m, log) && AllFiled(m, v, log) && InSearchOrder(m, log)
  {
    hide Parts;
    hide MarkingCovered;
    hide AllUpCovered;
    hide AllFiled;
    hide Disjoint;
    hide Covered;
    hide TopEdge;
    hide BottomEdge;
    hide TopStart;
    hide BottomStart;
    partpolys := new seq<Poly>[partcount](_ => []);
    var done := new int[m.height, m.width]((_, _) => 0);
    assert HoldsPolys(partpolys, []) && HoldsMarks(done, m, {}, {});
    hide HoldsPolys;
    hide HoldsMarks;
    ghost var ones, minuses;
    log, ones := TraceTiles(m, mapparts, partpolys, done, v, seeds);
    log, ones, minuses := TraceFirstRow(m, mapparts, partpolys, done, v, seeds, log, ones);
    NoHeadsFlat(m, log);
    hide HeadsAbove;
    hide HeadsNotFlat;
    hide Ordered;
    assert RowRank(m, 4, 0) == m.width * m.height + m.width;
    for y := 0 to m.height
      invariant Parts(m, mapparts, partpolys.Length, v, seeds)
      invariant Disjoint(m, log) && MarkingCovered(m, log) && AllUpCovered(m, log) && AllFiled(m, v, log)
      invariant HeadsAbove(m, log, 4, y) && HeadsAbove(m, log, 0, y) && Ordered(m, log, RowRank(m, 4, y))
      invariant HoldsPolys(partpolys, log) && HoldsMarks(done, m, ones, minuses)
      invariant forall c :: Inside(m, c) && c.x == 0 && c.y < y ==>
        (TopStart(m, c) ==> TopEdge(m, c) in Covered(log)) && (BottomStart(m, c) ==> BottomEdge(m, c) in Covered(log))
    {
      log, ones, minuses := TraceTopAndBottom(m, mapparts, Cell(0, y), partpolys, done, v, seeds, log, ones, minuses);
    }
    EverythingCovered(m, log);
    AllOrdered(m, log, RowRank(m, 4, m.height));
  }

  /** The polygons are found in the order in which the search comes to their starts. */
  ghost predicate InSearchOrder(m: Tiles, log: seq<Found>)
    requires Valid(m)
  {
    forall i, j :: 0 <= i < j < |log| ==>
      log[i].hs != [] && log[j].hs != [] && Rank(m, log[i].hs[0]) < Rank(m, log[j].hs[0])
  }

  lemma AllOrdered(m: Tiles, log: seq<Found>, n: int)
    requires Valid(m) && Ordered(m, log, n)
    ensures InSearchOrder(m, log)
  {
    hide Rank;
  }
}
