/** What the lines of makepolys show of the map: every edge of the wall once, where it is, and links besides. */
module WallLines {
  import opened Arithmetic
  import opened Seqs
  import opened TileMap
  import opened Tracing
  import opened FindMin
  import opened FindEdges
  import opened FlatEdges
  import opened Outlines
  import opened PolyLink
  import opened EulerTour
  import opened TourLaws
  import opened ClosedLine
  import opened Winding
  import opened WallExtent
  import opened MakePolys
  import opened PartKinds
  import M = Minwrap
  import P = Partition

  // ------------------------------------------------------------ sides are where they belong

  /** The position (x, y) is an image of the point p. */
  predicate On(m: Tiles, x: int, y: int, p: Point)
    requires Valid(m)
  {
    Wrap(m, x, y) == Wrap(m, p.x, p.y)
  }

  lemma OnMoved(m: Tiles, x: int, y: int, p: Point, dx: int, dy: int)
    requires Valid(m) && On(m, x, y, p)
    ensures Wrap(m, x + dx, y + dy) == Wrap(m, p.x + dx, p.y + dy)
  {
    ModAdd(x, dx, m.width);
    ModAdd(p.x, dx, m.width);
    ModAdd(y, dy, m.height);
    ModAdd(p.y, dy, m.height);
  }

  /** From every corner the polygon leads to its next one, and from the last to the first, up to images. */
  predicate Cyclic(m: Tiles, poly: Poly)
    requires Valid(m)
  {
    forall i :: 0 <= i < |poly| ==> LeadsOn(m, poly, i)
  }

  predicate LeadsOn(m: Tiles, poly: Poly, i: nat)
    requires Valid(m) && i < |poly|
  {
    On(m, poly[i].x + DirX(poly[i].dir), poly[i].y + DirY(poly[i].dir), poly[if i + 1 < |poly| then i + 1 else 0])
  }

  /** Each link leads from its one point to the other, up to images. */
  predicate LinksFit(m: Tiles, links: seq<Link>, polys: seq<Poly>)
    requires Valid(m) && IsTree(links, polys)
  {
    forall k :: 0 <= k < |links| ==> LinkFits(m, links[k], polys[links[k].parent][links[k].start], polys[k + 1])
  }

  predicate LinkFits(m: Tiles, l: Link, from: Point, poly: Poly)
    requires Valid(m) && l.target < |poly|
  {
    On(m, from.x + l.dx, from.y + l.dy, poly[l.target])
  }

  predicate InPlace(m: Tiles, polys: seq<Poly>, at: Placed)
    requires Valid(m)
  {
    at.piece.Side? && at.piece.p < |polys| && at.piece.i < |polys[at.piece.p]| ==>
      On(m, at.x, at.y, polys[at.piece.p][at.piece.i])
  }

  predicate AllInPlace(m: Tiles, polys: seq<Poly>, line: seq<Placed>)
    requires Valid(m)
  {
    forall i :: 0 <= i < |line| ==> InPlace(m, polys, line[i])
  }

  /** The polygons and the links that the line follows. */
  ghost predicate Fitting(m: Tiles, links: seq<Link>, polys: seq<Poly>)
    requires Valid(m)
  {
    IsTree(links, polys) && LinksFit(m, links, polys) && forall p :: 0 <= p < |polys| ==> Cyclic(m, polys[p])
  }

  lemma {:induction false} TourInPlace(m: Tiles, links: seq<Link>, polys: seq<Poly>, p: nat, start: nat, x: int, y: int)
    requires Valid(m) && Fitting(m, links, polys) && p < |polys| && start < |polys[p]|
    requires On(m, x, y, polys[p][start])
    ensures AllInPlace(m, polys, Tour(links, polys, p, start, x, y))
    decreases |polys| - p, 2, 0
  {
    hide On;
    hide InPlace;
    hide LinksFit;
    hide Cyclic;
    ModIs(start, 0, start, |polys[p]|);
    SidesInPlace(m, links, polys, p, start, 0, x, y);
  }

  lemma {:induction false} SidesInPlace(m: Tiles, links: seq<Link>, polys: seq<Poly>, p: nat, start: nat, c: nat,
                                        x: int,
                                        y: int)
    requires Valid(m) && Fitting(m, links, polys) && p < |polys| && start < |polys[p]| && c <= |polys[p]|
    requires On(m, x, y, polys[p][Corner(start, c, |polys[p]|)])
    ensures AllInPlace(m, polys, Sides(links, polys, p, start, c, x, y))
    decreases |polys| - p, 1, |polys[p]| - c
  {
    hide On;
    hide LinksFit;
    hide Tour;
    hide DirX;
    hide DirY;
    hide Branches;
    hide Cyclic;
    hide Sides;
    hide AllInPlace;
    hide Corner;
    NoSides(m, links, polys, p, start, x, y);
    if c < |polys[p]| {
      var i := Corner(start, c, |polys[p]|);
      var x', y' := x + DirX(polys[p][i].dir), y + DirY(polys[p][i].dir);
      var ks := SidesStep(links, polys, p, start, c, x, y);
      BranchesInPlace(m, links, polys, p, ks, i, x, y);
      NextCorner(m, polys[p], start, c, x, y);
      SidesInPlace(m, links, polys, p, start, c + 1, x', y');
      OneMoreInPlace(m, polys, Branches(links, polys, p, ks, x, y), Placed(x, y, Side(p, i)),
                     Sides(links, polys, p, start, c + 1, x', y'));
    }
  }

  lemma NoSides(m: Tiles, links: seq<Link>, polys: seq<Poly>, p: nat, start: nat, x: int, y: int)
    requires Valid(m) && IsTree(links, polys) && p < |polys| && start < |polys[p]|
    ensures AllInPlace(m, polys, Sides(links, polys, p, start, |polys[p]|, x, y))
  {
  }

  /** At one corner: the links that start there, the side, and the rest. */
  lemma SidesStep(links: seq<Link>, polys: seq<Poly>, p: nat, start: nat, c: nat, x: int, y: int) returns (ks: seq<nat>)
    requires IsTree(links, polys) && p < |polys| && start < |polys[p]| && c < |polys[p]|
    ensures var i := Corner(start, c, |polys[p]|);
            && AreKids(links, p, ks) && (forall j :: 0 <= j < |ks| ==> links[ks[j]].start == i)
            && Sides(links, polys, p, start, c, x, y)
               == Branches(links, polys, p, ks, x, y) + [Placed(x, y, Side(p, i))]
                  + Sides(links, polys, p, start, c + 1, x + DirX(polys[p][i].dir), y + DirY(polys[p][i].dir))
  {
    ks := From(links, KidsOf(links, p), Corner(start, c, |polys[p]|));
  }

  lemma OneMoreInPlace(m: Tiles, polys: seq<Poly>, a: seq<Placed>, at: Placed, b: seq<Placed>)
    requires Valid(m) && AllInPlace(m, polys, a) && InPlace(m, polys, at) && AllInPlace(m, polys, b)
    ensures AllInPlace(m, polys, a + [at] + b)
  {
    hide InPlace;
  }

  lemma NextCorner(m: Tiles, poly: Poly, start: nat, c: nat, x: int, y: int)
    requires Valid(m) && Cyclic(m, poly) && start < |poly| && c < |poly| && On(m, x, y, poly[Corner(start, c, |poly|)])
    ensures var dir := poly[Corner(start, c, |poly|)].dir;
            On(m, x + DirX(dir), y + DirY(dir), poly[Corner(start, c + 1, |poly|)])
  {
    var i := Corner(start, c, |poly|);
    CornerAfter(start, c, |poly|);
    OnMoved(m, x, y, poly[i], DirX(poly[i].dir), DirY(poly[i].dir));
    hide Corner;
    hide Wrap;
    hide DirX;
    hide DirY;
    assert LeadsOn(m, poly, i);
  }

  lemma CornerAfter(start: nat, c: nat, n: nat)
    requires start < n && c < n
    ensures Corner(start, c + 1, n) == if Corner(start, c, n) + 1 < n then Corner(start, c, n) + 1 else 0
  {
    CornerIs(start, c, n);
    if c + 1 < n {
      CornerIs(start, c + 1, n);
    } else {
      ModIs(start + n, 1, start, n);
    }
    hide Corner;
  }

  lemma {:induction false} BranchesInPlace(m: Tiles, links: seq<Link>, polys: seq<Poly>, p: nat, ks: seq<nat>, i: nat,
                                           x: int, y: int)
    requires Valid(m) && Fitting(m, links, polys) && p < |polys| && AreKids(links, p, ks) && i < |polys[p]|
    requires (forall j :: 0 <= j < |ks| ==> links[ks[j]].start == i) && On(m, x, y, polys[p][i])
    ensures AllInPlace(m, polys, Branches(links, polys, p, ks, x, y))
    decreases |polys| - p, 0, |ks|
  {
    hide Tour;
    hide Cyclic;
    if ks != [] {
      var k := ks[0];
      var l := links[k];
      OnMoved(m, x, y, polys[p][i], l.dx, l.dy);
      assert LinkFits(m, l, polys[p][i], polys[k + 1]);
      TourInPlace(m, links, polys, k + 1, l.target, x + l.dx, y + l.dy);
      BranchesInPlace(m, links, polys, p, ks[1..], i, x, y);
    }
    hide On;
  }

  // ------------------------------------------------------------ the line of a part fits

  lemma FoundCyclic(m: Tiles, log: seq<Found>, i: nat)
    requires Valid(m) && Disjoint(m, log) && i < |log|
    ensures Cyclic(m, log[i].poly)
  {
    hide Wrap;
    hide Next;
    hide Boundary;
    hide LeadsOn;
    var poly, hs := log[i].poly, log[i].hs;
    assert DrawsOrbit(m, poly, hs);
    var x, y :| Draws(m, poly, hs, poly[0].x, poly[0].y, x, y) && Wrap(m, x, y) == hs[0].loc;
    hide Draws;
    hide Orbit;
    forall k | 0 <= k < |poly|
      ensures LeadsOn(m, poly, k)
    {
      DrawnLeadsOn(m, poly, hs, x, y, k);
    }
  }

  lemma DrawnLeadsOn(m: Tiles, poly: Poly, hs: seq<HalfEdge>, x: int, y: int, k: nat)
    requires Valid(m) && k < |poly| == |hs|
    requires Draws(m, poly, hs, poly[0].x, poly[0].y, x, y) && Wrap(m, x, y) == hs[0].loc
    ensures LeadsOn(m, poly, k)
  {
    hide Wrap;
    hide DirX;
    hide DirY;
    if k + 1 < |poly| {
      assert Follow(poly[k]) == (poly[k + 1].x, poly[k + 1].y);
    } else {
      assert Wrap(m, poly[0].x, poly[0].y) == hs[0].loc;
    }
  }

  /** Whatever repeats a part also repeats the map. */
  lemma ShiftIsWhole(m: Tiles, polys: seq<Poly>, v: Vector)
    requires Valid(m) && KindOf(polys).Some? && ShiftsOf(m, KindOf(polys).value)(v)
    requires forall i :: 0 <= i < |polys| ==> Closes(polys[i], Around(m))
    ensures v.0 % m.width == 0 && v.1 % m.height == 0
  {
    hide SumX;
    hide SumY;
    hide Direction;
    hide Closes;
    ModIs(0, 0, 0, m.width);
    ModIs(0, 0, 0, m.height);
    match KindOf(polys).value
    case Bounded =>
    case BothWays =>
    case OneWay(wx, wy) =>
      var zero := Filter(Turning(0), polys)[0];
      FilterMembers(Turning(0), polys, zero);
      WholeTrips(m, zero);
      var t: int :| M.Times(v, t, wx, wy);
      MultipleOfWhole(t, wx, m.width);
      MultipleOfWhole(t, wy, m.height);
  }

  lemma MultipleOfWhole(t: int, a: int, n: nat)
    requires n > 0 && a % n == 0
    ensures (t * a) % n == 0
  {
    var q := a / n;
    assert t * a == (t * q) * n;
    ModIs(t * a, t * q, 0, n);
  }

  lemma WholeIsImage(m: Tiles, x: int, y: int, p: Point)
    requires Valid(m) && (x - p.x) % m.width == 0 && (y - p.y) % m.height == 0
    ensures On(m, x, y, p)
  {
    ModShift(p.x, (x - p.x) / m.width, m.width);
    ModShift(p.y, (y - p.y) / m.height, m.height);
    assert x == p.x + ((x - p.x) / m.width) * m.width;
    assert y == p.y + ((y - p.y) / m.height) * m.height;
  }

  lemma LineLinksFit(m: Tiles, polys: seq<Poly>, inOrder: seq<Poly>, links: seq<Link>, items: seq<Item>)
    requires Valid(m) && KindOf(polys).Some?
    requires IsLine(ShiftsOf(m, KindOf(polys).value), polys, inOrder, links, items)
    requires forall i :: 0 <= i < |polys| ==> Closes(polys[i], Around(m))
    ensures IsTree(links, inOrder) && LinksFit(m, links, inOrder)
  {
    hide KindOf;
    hide ShiftsOf;
    hide LinksPolys;
    hide ShortestOut;
    hide Tour;
    hide Closes;
    hide Listed;
    forall k | 0 <= k < |links|
      ensures LinkFits(m, links[k], inOrder[links[k].parent][links[k].start], inOrder[k + 1])
    {
      LinkShifts(m, polys, inOrder, links, items, k);
      ShiftIsWhole(m, polys, Beyond(inOrder, k, links[k]));
      hide IsLine;
      hide Beyond;
      var l := links[k];
      var from := inOrder[l.parent][l.start];
      WholeIsImage(m, from.x + l.dx, from.y + l.dy, inOrder[k + 1][l.target]);
    }
  }

  /** items is a line around the polygons of part k, in some order, with every side where it belongs. */
  ghost predicate DrawsPart(m: Tiles, log: seq<Found>, k: nat, inOrder: seq<Poly>, links: seq<Link>, items: seq<Item>,
                            line: seq<Placed>)
    requires Valid(m)
  {
    && multiset(inOrder) == multiset(PolysOfPart(log, k)) && IsTree(links, inOrder) && AllInPlace(m, inOrder, line)
    && line == Tour(links, inOrder, 0, 0, inOrder[0][0].x, inOrder[0][0].y) && items == Items(links, inOrder, line)
  }

  lemma LineDrawsPart(m: Tiles, log: seq<Found>, k: nat, items: seq<Item>)
    returns (inOrder: seq<Poly>, links: seq<Link>, line: seq<Placed>)
    requires Valid(m) && Disjoint(m, log) && LineOf(m, PolysOfPart(log, k), items)
    ensures DrawsPart(m, log, k, inOrder, links, items, line)
  {
    hide Disjoint;
    hide KindOf;
    hide ShiftsOf;
    hide LinksPolys;
    hide ShortestOut;
    hide Tour;
    hide Listed;
    hide Cyclic;
    hide LinksFit;
    var polys := PolysOfPart(log, k);
    inOrder, links :| IsLine(ShiftsOf(m, KindOf(polys).value), polys, inOrder, links, items);
    hide PolysOfPart;
    PartCloses(m, log, k);
    LineLinksFit(m, polys, inOrder, links, items);
    PartCyclic(m, log, k, inOrder);
    hide Closes;
    line := Tour(links, inOrder, 0, 0, inOrder[0][0].x, inOrder[0][0].y);
    TourInPlace(m, links, inOrder, 0, 0, inOrder[0][0].x, inOrder[0][0].y);
  }

  lemma PartCloses(m: Tiles, log: seq<Found>, k: nat)
    requires Valid(m) && Disjoint(m, log)
    ensures forall i :: 0 <= i < |PolysOfPart(log, k)| ==> Closes(PolysOfPart(log, k)[i], Around(m))
  {
    hide Disjoint;
    hide PolysOfPart;
    hide SumX;
    hide SumY;
    forall n | 0 <= n < |PolysOfPart(log, k)|
      ensures Closes(PolysOfPart(log, k)[n], Around(m))
    {
      var i := FoundForPart(log, k, PolysOfPart(log, k)[n]);
      PolygonsCloseUp(m, log, i);
    }
  }

  lemma PartCyclic(m: Tiles, log: seq<Found>, k: nat, inOrder: seq<Poly>)
    requires Valid(m) && Disjoint(m, log) && multiset(inOrder) == multiset(PolysOfPart(log, k))
    ensures forall p :: 0 <= p < |inOrder| ==> Cyclic(m, inOrder[p])
  {
    hide Disjoint;
    hide Cyclic;
    forall p | 0 <= p < |inOrder|
      ensures Cyclic(m, inOrder[p])
    {
      var i := FoundAs(log, k, inOrder, p);
      FoundCyclic(m, log, i);
    }
  }

  /** Every polygon of the line has been found for the part. */
  lemma FoundAs(log: seq<Found>, k: nat, inOrder: seq<Poly>, p: nat) returns (i: nat)
    requires multiset(inOrder) == multiset(PolysOfPart(log, k)) && p < |inOrder|
    ensures i < |log| && log[i].part == k && log[i].poly == inOrder[p]
  {
    assert inOrder[p] in multiset(inOrder);
    i := FoundForPart(log, k, inOrder[p]);
  }

  // ------------------------------------------------------------------- edges and items

  /** The item is the half-edge h of the map. */
  predicate Shows(m: Tiles, item: Item, h: HalfEdge)
    requires Valid(m)
  {
    !item.link && Wrap(m, item.x, item.y) == h.loc && item.dx == DirX(h.dir) && item.dy == DirY(h.dir)
  }

  lemma ShowsOne(m: Tiles, item: Item, g: HalfEdge, h: HalfEdge)
    requires Valid(m) && Shows(m, item, g) && Shows(m, item, h)
    ensures g == h
  {
    hide Wrap;
    SameDirection(g.dir, h.dir);
  }

  lemma SameDirection(d: Dir, e: Dir)
    requires DirX(d) == DirX(e) && DirY(d) == DirY(e)
    ensures d == e
  {
  }

  /** A side in its place shows the half-edge that it draws. */
  lemma SideShows(m: Tiles, log: seq<Found>, j: nat, links: seq<Link>, inOrder: seq<Poly>, at: Placed)
    requires Valid(m) && Disjoint(m, log) && j < |log| && at.piece.Side? && Exists(links, inOrder, at.piece)
    requires inOrder[at.piece.p] == log[j].poly && InPlace(m, inOrder, at)
    ensures at.piece.i < |log[j].hs| && Shows(m, ItemOf(links, inOrder, at), log[j].hs[at.piece.i])
  {
    hide Orbit;
    hide Wrap;
    hide DirX;
    hide DirY;
    hide Follow;
    assert DrawsOrbit(m, log[j].poly, log[j].hs);
  }

  lemma OccursTwice<T>(s: seq<T>, i: nat, j: nat)
    requires i < j < |s| && s[i] == s[j]
    ensures multiset(s)[s[i]] >= 2
  {
    assert s == s[..j] + s[j..];
    assert s[..j][i] in multiset(s[..j]) && s[j..][0] in multiset(s[j..]);
  }

  /** Each side of each polygon is in the line exactly once. */
  lemma SideOnce(links: seq<Link>, inOrder: seq<Poly>, line: seq<Placed>, piece: Piece)
    requires IsTree(links, inOrder) && line == Tour(links, inOrder, 0, 0, inOrder[0][0].x, inOrder[0][0].y)
    ensures piece.Side? ==> multiset(Pieces(line))[piece] == if Exists(links, inOrder, piece) then 1 else 0
  {
    hide Tour;
    hide Pieces;
    hide AllSides;
    hide AllWays;
    TourHasAll(links, inOrder, 0, inOrder[0][0].x, inOrder[0][0].y);
    hide IsTree;
    AllSidesCount(links, inOrder, piece);
    AllWaysCount(|links|, piece);
    CountOfBoth(AllSides(inOrder), AllWays(|links|), piece);
  }

  /** A part of the wall is drawn by its line: the half-edges of its polygons, and nothing else but links. */
  lemma LineShowsPart(m: Tiles, log: seq<Found>, k: nat, items: seq<Item>, n: nat) returns (j: nat, i: nat)
    requires Valid(m) && Disjoint(m, log) && LineOf(m, PolysOfPart(log, k), items) && n < |items| && !items[n].link
    ensures j < |log| && log[j].part == k && i < |log[j].hs| && Shows(m, items[n], log[j].hs[i])
  {
    hide Disjoint;
    hide LineOf;
    hide Tour;
    hide IsTree;
    hide AllSides;
    hide Shows;
    var inOrder, links, line := LineDrawsPart(m, log, k, items);
    hide PolysOfPart;
    var piece := line[n].piece;
    SideOnce(links, inOrder, line, piece);
    assert Pieces(line)[n] in multiset(Pieces(line));
    hide Pieces;
    j := FoundAs(log, k, inOrder, piece.p);
    i := piece.i;
    assert InPlace(m, inOrder, line[n]);
    SideShows(m, log, j, links, inOrder, line[n]);
  }

  /** Every half-edge of a polygon of the part is an entry of the line. */
  lemma LineShowsEdge(m: Tiles, log: seq<Found>, items: seq<Item>, j: nat, i: nat) returns (n: nat)
    requires Valid(m) && Disjoint(m, log) && j < |log| && i < |log[j].hs|
    requires LineOf(m, PolysOfPart(log, log[j].part), items)
    ensures n < |items| && Shows(m, items[n], log[j].hs[i])
  {
    hide Disjoint;
    hide LineOf;
    hide Tour;
    hide IsTree;
    hide AllSides;
    hide Shows;
    var k := log[j].part;
    var inOrder, links, line := LineDrawsPart(m, log, k, items);
    FoundIsListed(log, j);
    assert log[j].poly in multiset(PolysOfPart(log, k));
    hide PolysOfPart;
    var p :| 0 <= p < |inOrder| && inOrder[p] == log[j].poly;
    SidesOf(m, log, j);
    SideOnce(links, inOrder, line, Side(p, i));
    assert Side(p, i) in multiset(Pieces(line));
    n :| 0 <= n < |line| && Pieces(line)[n] == Side(p, i);
    assert InPlace(m, inOrder, line[n]);
    SideShows(m, log, j, links, inOrder, line[n]);
  }

  lemma SidesOf(m: Tiles, log: seq<Found>, j: nat)
    requires Valid(m) && Disjoint(m, log) && j < |log|
    ensures |log[j].poly| == |log[j].hs|
  {
    hide Orbit;
    assert DrawsOrbit(m, log[j].poly, log[j].hs);
  }

  // ---------------------------------------------------------------------- exactly once

  lemma DifferentPolys(m: Tiles, log: seq<Found>, i: nat, j: nat)
    requires Valid(m) && Disjoint(m, log) && i < |log| && j < |log| && log[i].poly == log[j].poly
    ensures i == j
  {
    hide Orbit;
    hide Follow;
    assert DrawsOrbit(m, log[i].poly, log[i].hs) && DrawsOrbit(m, log[j].poly, log[j].hs);
    assert log[i].hs[0] == log[j].hs[0];
    OnOne(m, log, i, j, log[i].hs[0]);
  }

  /** No two polygons share a half-edge. */
  lemma OnOne(m: Tiles, log: seq<Found>, i: nat, j: nat, h: HalfEdge)
    requires Valid(m) && Disjoint(m, log) && i < |log| && j < |log| && h in log[i].hs && h in log[j].hs
    ensures i == j
  {
    hide DrawsOrbit;
    assert h in Elements(log[i].hs) && h in Elements(log[j].hs);
  }

  lemma FrontDisjoint(m: Tiles, log: seq<Found>)
    requires Valid(m) && Disjoint(m, log) && log != []
    ensures Disjoint(m, log[..|log| - 1])
  {
    hide DrawsOrbit;
  }

  lemma {:induction false} PolyOnce(m: Tiles, log: seq<Found>, k: nat, j: nat)
    requires Valid(m) && Disjoint(m, log) && j < |log|
    ensures multiset(PolysOfPart(log, k))[log[j].poly] <= 1
  {
    var front, last := log[..|log| - 1], log[|log| - 1];
    assert PolysOfPart(log, k) == PolysOfPart(front, k) + if last.part == k then [last.poly] else [];
    hide PolysOfPart;
    FrontDisjoint(m, log);
    hide Disjoint;
    if log[j].poly in PolysOfPart(front, k) {
      var i := FoundForPart(front, k, log[j].poly);
      DifferentPolys(m, log, i, j);
      PolyOnce(m, front, k, i);
      NotTheLast(m, log, i);
    }
  }

  lemma NotTheLast(m: Tiles, log: seq<Found>, i: nat)
    requires Valid(m) && Disjoint(m, log) && i < |log| - 1
    ensures log[i].poly != log[|log| - 1].poly
  {
    hide Disjoint;
    if log[i].poly == log[|log| - 1].poly {
      DifferentPolys(m, log, i, |log| - 1);
    }
  }

  lemma SideFound(m: Tiles, log: seq<Found>, k: nat, inOrder: seq<Poly>, links: seq<Link>, items: seq<Item>,
                  line: seq<Placed>, n: nat, h: HalfEdge)
    returns (j: nat, i: nat)
    requires Valid(m) && Disjoint(m, log) && DrawsPart(m, log, k, inOrder, links, items, line)
    requires n < |items| && Shows(m, items[n], h)
    ensures var piece := line[n].piece;
            && piece.Side? && piece.p < |inOrder| && j < |log| && log[j].poly == inOrder[piece.p]
            && i == piece.i < |log[j].hs| && log[j].hs[i] == h
  {
    hide Disjoint;
    hide Tour;
    hide IsTree;
    hide AllSides;
    hide PolysOfPart;
    hide Wrap;
    hide DirX;
    hide DirY;
    var piece := line[n].piece;
    SideOnce(links, inOrder, line, piece);
    assert Pieces(line)[n] in multiset(Pieces(line));
    hide Pieces;
    j := FoundAs(log, k, inOrder, piece.p);
    i := piece.i;
    assert InPlace(m, inOrder, line[n]);
    SideShows(m, log, j, links, inOrder, line[n]);
    ShowsOne(m, items[n], log[j].hs[i], h);
  }

  /** No half-edge is in a line twice. */
  lemma ShownOnce(m: Tiles, log: seq<Found>, k: nat, items: seq<Item>, n: nat, n': nat, h: HalfEdge)
    requires Valid(m) && Disjoint(m, log) && LineOf(m, PolysOfPart(log, k), items)
    requires n < |items| && n' < |items| && Shows(m, items[n], h) && Shows(m, items[n'], h)
    ensures n == n'
  {
    hide Disjoint;
    hide LineOf;
    hide Shows;
    hide Tour;
    hide IsTree;
    hide PolysOfPart;
    var inOrder, links, line := LineDrawsPart(m, log, k, items);
    var j, i := SideFound(m, log, k, inOrder, links, items, line, n, h);
    var j', i' := SideFound(m, log, k, inOrder, links, items, line, n', h);
    OnOne(m, log, j, j', h);
    PlaceOnOrbit(m, log, j, i, i');
    PolyOnce(m, log, k, j);
    SideOnce(links, inOrder, line, line[n].piece);
    SamePlace(inOrder, line[n].piece.p, line[n'].piece.p);
    if n != n' {
      OccursTwice(Pieces(line), if n < n' then n else n', if n < n' then n' else n);
    }
  }

  lemma SamePlace(inOrder: seq<Poly>, p: nat, p': nat)
    requires p < |inOrder| && p' < |inOrder| && inOrder[p] == inOrder[p'] && multiset(inOrder)[inOrder[p]] <= 1
    ensures p == p'
  {
    if p != p' {
      OccursTwice(inOrder, if p < p' then p else p', if p < p' then p' else p);
    }
  }

  lemma PlaceOnOrbit(m: Tiles, log: seq<Found>, j: nat, i: nat, i': nat)
    requires Valid(m) && Disjoint(m, log) && j < |log| && i < |log[j].hs| && i' < |log[j].hs|
    requires log[j].hs[i] == log[j].hs[i']
    ensures i == i'
  {
    hide Boundary;
    hide Next;
    hide Draws;
    assert DrawsOrbit(m, log[j].poly, log[j].hs);
  }

  /** Entry n of line k is the half-edge h. */
  predicate ShownAt(m: Tiles, allpolys: seq<seq<Item>>, k: nat, n: nat, h: HalfEdge)
    requires Valid(m)
  {
    k < |allpolys| && n < |allpolys[k]| && Shows(m, allpolys[k][n], h)
  }

  /** What makepolys computes, as its method says. */
  ghost predicate Converted(m: Tiles, v: P.Parts, seeds: seq<Cell>, log: seq<Found>, allpolys: seq<seq<Item>>) {
    && Valid(m) && P.Partitioned(m, v, seeds) && Disjoint(m, log) && AllCovered(m, log) && AllFiled(m, v, log)
    && |allpolys| == |seeds| && forall k :: 0 <= k < |seeds| ==> LineOf(m, PolysOfPart(log, k), allpolys[k])
  }

  /**
   * The lines of makepolys draw the wall: each half-edge with wall on its left and none on its right is exactly one
   * entry of one line, that of the part on its left, and all other entries are links.
   */
  lemma WallDrawnOnce(m: Tiles, v: P.Parts, seeds: seq<Cell>, log: seq<Found>, allpolys: seq<seq<Item>>, h: HalfEdge)
    requires Converted(m, v, seeds, log, allpolys)
    ensures Boundary(m, h) <==> exists k: nat, n: nat :: ShownAt(m, allpolys, k, n, h)
    ensures forall k: nat, n: nat, k': nat, n': nat ::
              ShownAt(m, allpolys, k, n, h) && ShownAt(m, allpolys, k', n', h) ==> k == k' && n == n'
    ensures forall k: nat, n: nat :: ShownAt(m, allpolys, k, n, h) ==> LeftTile(m, h) in v && v[LeftTile(m, h)].num == k
  {
    hide P.Partitioned;
    hide Disjoint;
    hide AllCovered;
    hide AllFiled;
    hide Boundary;
    hide LeftTile;
    hide LineOf;
    hide Shows;
    hide PolysOfPart;
    forall k: nat, n: nat | ShownAt(m, allpolys, k, n, h)
      ensures Boundary(m, h) && LeftTile(m, h) in v && v[LeftTile(m, h)].num == k
    {
      ShownIsWall(m, v, seeds, log, allpolys, k, n, h);
    }
    forall k: nat, n: nat, k': nat, n': nat | ShownAt(m, allpolys, k, n, h) && ShownAt(m, allpolys, k', n', h)
      ensures k == k' && n == n'
    {
      ShownOnce(m, log, k, allpolys[k], n, n', h);
    }
    if Boundary(m, h) {
      var j := DrawnExactlyOnce(m, log, h);
      var i :| 0 <= i < |log[j].hs| && log[j].hs[i] == h;
      PartInRange(m, v, seeds, log, j, i);
      var n := LineShowsEdge(m, log, allpolys[log[j].part], j, i);
      assert ShownAt(m, allpolys, log[j].part, n, h);
    }
  }

  lemma ShownIsWall(m: Tiles, v: P.Parts, seeds: seq<Cell>, log: seq<Found>, allpolys: seq<seq<Item>>, k: nat, n: nat,
                    h: HalfEdge)
    requires Converted(m, v, seeds, log, allpolys) && ShownAt(m, allpolys, k, n, h)
    ensures Boundary(m, h) && LeftTile(m, h) in v && v[LeftTile(m, h)].num == k
  {
    hide P.Partitioned;
    hide AllCovered;
    hide AllFiled;
    hide Boundary;
    hide LeftTile;
    hide LineOf;
    hide Shows;
    hide PolysOfPart;
    hide Disjoint;
    assert !allpolys[k][n].link by {
      NotALink(m, allpolys[k][n], h);
    }
    var j, i := LineShowsPart(m, log, k, allpolys[k], n);
    ShowsOne(m, allpolys[k][n], log[j].hs[i], h);
    PolygonStaysInPart(m, v, seeds, log, j, i);
    OnOrbitIsBoundary(m, log, j, i);
  }

  lemma NotALink(m: Tiles, item: Item, h: HalfEdge)
    requires Valid(m) && Shows(m, item, h)
    ensures !item.link
  {
  }

  lemma OnOrbitIsBoundary(m: Tiles, log: seq<Found>, j: nat, i: nat)
    requires Valid(m) && Disjoint(m, log) && j < |log| && i < |log[j].hs|
    ensures Boundary(m, log[j].hs[i])
  {
    hide Boundary;
    hide Next;
    hide Draws;
    assert DrawsOrbit(m, log[j].poly, log[j].hs);
  }

  lemma PartInRange(m: Tiles, v: P.Parts, seeds: seq<Cell>, log: seq<Found>, j: nat, i: nat)
    requires Valid(m) && P.Partitioned(m, v, seeds) && Disjoint(m, log) && AllFiled(m, v, log)
    requires j < |log| && i < |log[j].hs|
    ensures log[j].part < |seeds|
  {
    hide P.ClosedExcept;
    hide P.Sound;
    hide Disjoint;
    hide LeftTile;
    PolygonStaysInPart(m, v, seeds, log, j, i);
    P.SoundAt(m, v, seeds, LeftTile(m, log[j].hs[i]));
  }
}
