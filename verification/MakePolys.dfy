/** makepolys: from the tiles of a map to one line for each part of the wall. */
module MakePolys {
  import opened Seqs
  import opened TileMap
  import opened Tracing
  import opened FindMin
  import opened FindEdges
  import opened FlatEdges
  import opened Outlines
  import opened PolyLink
  import opened EulerTour
  import opened TourLaws
  import opened ClosedLine
  import opened Minwrap
  import opened WallExtent
  import opened Winding
  import P = Partition
  import T = SpanningTree

  // ------------------------------------------------------------------ how a part wraps

  /** A part that is bounded, one that goes around both ways, and one that goes around by (wx, wy). */
  datatype Kind = Bounded | BothWays | OneWay(wx: int, wy: int)

  function Turning(sign: int): Poly -> bool {
    (p: Poly) => if sign < 0 then Direction(p) < 0 else if sign > 0 then Direction(p) > 0 else Direction(p) == 0
  }

  /** What poly_link takes a part for; None stands for an assertion that fails. */
  function KindOf(polys: seq<Poly>): Option<Kind> {
    var poslist, zerolist := Filter(Turning(1), polys), Filter(Turning(0), polys);
    if zerolist == [] then
      if |poslist| > 1 then None else Some(if poslist != [] then Bounded else BothWays)
    else if poslist != [] || |zerolist| != 2 then None
    else if SumX(zerolist[0]) == 0 && SumY(zerolist[0]) == 0 then None
    else Some(OneWay(SumX(zerolist[0]), SumY(zerolist[0])))
  }

  ghost predicate Proper(kind: Kind) {
    kind.OneWay? ==> Norm2(kind.wx, kind.wy) > 0
  }

  function WrapOf(m: Tiles, kind: Kind): Vector -> Vector
    requires Valid(m) && Proper(kind)
  {
    match kind
    case Bounded => Plain
    case BothWays => Torus(m.width, m.height)
    case OneWay(wx, wy) => Strip(wx, wy)
  }

  ghost function ShiftsOf(m: Tiles, kind: Kind): Shifts
    requires Valid(m)
  {
    match kind
    case Bounded => NoShift
    case BothWays => TorusShift(m.width, m.height)
    case OneWay(wx, wy) => StripShift(wx, wy)
  }

  lemma KindIsProper(polys: seq<Poly>)
    requires KindOf(polys).Some?
    ensures Proper(KindOf(polys).value)
  {
    var kind := KindOf(polys).value;
    if kind.OneWay? {
      NotBothZero(kind.wx, kind.wy);
    }
  }

  lemma NotBothZero(x: int, y: int)
    requires x != 0 || y != 0
    ensures Norm2(x, y) > 0
  {
    assert x * x > 0 || y * y > 0;
  }

  /** A period of the torus on which the polygons lie. */
  function Around(m: Tiles): Period {
    Period(m.width, m.height)
  }

  // ----------------------------------------------------------------------- one part

  /** What poly_link relies on: the polygons of a map, and a square root that is good enough for the map. */
  ghost predicate Fit(m: Tiles, polys: seq<Poly>, root: nat -> real) {
    && Valid(m) && Measures(root, m) && AllNear(m, polys)
    && forall i :: 0 <= i < |polys| ==> polys[i] != [] && Gradual(polys[i]) && Closes(polys[i], Around(m))
  }

  lemma FitMeasurable(m: Tiles, polys: seq<Poly>, root: nat -> real, kind: Kind)
    requires Fit(m, polys, root) && Proper(kind)
    ensures Measurable(WrapOf(m, kind), ShiftsOf(m, kind), root, Widest(m), polys)
  {
    hide Measures;
    hide AllNear;
    hide Measurable;
    hide Gradual;
    hide Closes;
    hide Norm2;
    AllMeasurable(m, polys, root);
  }

  /** The polygons in the order in which poly_link puts them on its list. */
  function Listed(polys: seq<Poly>): seq<Poly> {
    Filter(Turning(-1), polys) + Filter(Turning(1), polys) + Filter(Turning(0), polys)
  }

  /**
   * items is the line that poly_link makes of the polygons, taken in order inOrder and linked by links; the last one
   * on the list comes first.
   */
  ghost predicate IsLine(shifts: Shifts, polys: seq<Poly>, inOrder: seq<Poly>, links: seq<Link>, items: seq<Item>) {
    && multiset(inOrder) == multiset(polys) && |inOrder| == |polys| == |Listed(polys)|
    && inOrder != [] && inOrder[0] == Listed(polys)[|polys| - 1]
    && LinksPolys(shifts, links, inOrder) && ShortestOut(shifts, links, inOrder) && IsTree(links, inOrder)
    && items == Items(links, inOrder, Tour(links, inOrder, 0, 0, inOrder[0][0].x, inOrder[0][0].y))
  }

  /** The sorting loop of poly_link. */
  method SortPolys(polys: seq<Poly>) returns (neglist: seq<Poly>, poslist: seq<Poly>, zerolist: seq<Poly>)
    requires forall i :: 0 <= i < |polys| ==> polys[i] != []
    ensures neglist == Filter(Turning(-1), polys) && poslist == Filter(Turning(1), polys) &&
            zerolist == Filter(Turning(0), polys)
    ensures multiset(neglist + poslist + zerolist) == multiset(polys)
  {
    hide Direction;
    neglist, poslist, zerolist := [], [], [];
    assert polys[..0] == [];
    for i := 0 to |polys|
      invariant neglist == Filter(Turning(-1), polys[..i]) && poslist == Filter(Turning(1), polys[..i])
      invariant zerolist == Filter(Turning(0), polys[..i])
    {
      hide Filter;
      SortStep(polys, i);
      var direction := Polydir(polys[i]);
      if direction > 0 {
        poslist := poslist + [polys[i]];
      } else if direction < 0 {
        neglist := neglist + [polys[i]];
      } else {
        zerolist := zerolist + [polys[i]];
      }
    }
    assert polys[..|polys|] == polys;
    SortedAll(polys);
  }

  lemma SortStep(polys: seq<Poly>, i: nat)
    requires i < |polys|
    ensures forall sign :: Filter(Turning(sign), polys[..i + 1])
                           == Filter(Turning(sign), polys[..i]) + if Turning(sign)(polys[i]) then [polys[i]] else []
  {
    hide Turning;
    hide Filter;
    assert polys[..i + 1] == polys[..i] + [polys[i]];
    SortSnoc(polys[..i], polys[i]);
  }

  lemma SortSnoc(polys: seq<Poly>, last: Poly)
    ensures forall sign :: Filter(Turning(sign), polys + [last])
                           == Filter(Turning(sign), polys) + if Turning(sign)(last) then [last] else []
  {
    hide Turning;
    hide Filter;
    forall sign
      ensures Filter(Turning(sign), polys + [last])
              == Filter(Turning(sign), polys) + if Turning(sign)(last) then [last] else []
    {
      FilterSnoc(Turning(sign), polys, last);
    }
  }

  lemma {:induction false} SortedAll(polys: seq<Poly>)
    ensures multiset(Filter(Turning(-1), polys) + Filter(Turning(1), polys) + Filter(Turning(0), polys))
            == multiset(polys)
  {
    if polys != [] {
      var front, last := polys[..|polys| - 1], polys[|polys| - 1];
      assert polys == front + [last];
      SortedAll(front);
      SortedSnoc(front, last);
    }
  }

  lemma SortedSnoc(front: seq<Poly>, last: Poly)
    requires multiset(Filter(Turning(-1), front) + Filter(Turning(1), front) + Filter(Turning(0), front))
             == multiset(front)
    ensures var polys := front + [last];
            multiset(Filter(Turning(-1), polys) + Filter(Turning(1), polys) + Filter(Turning(0), polys))
              == multiset(polys)
  {
    hide Filter;
    hide Direction;
    SortSnoc(front, last);
    OneMoreOf(Filter(Turning(-1), front), Filter(Turning(1), front), Filter(Turning(0), front), front, last,
              Turning(-1)(last), Turning(1)(last), Turning(0)(last));
  }

  /** Putting an entry on one of three lists. */
  lemma OneMoreOf(a: seq<Poly>, b: seq<Poly>, c: seq<Poly>, front: seq<Poly>, last: Poly, inA: bool, inB: bool,
                  inC: bool)
    requires multiset(a + b + c) == multiset(front) && (inA || inB || inC) && !(inA && inB) && !(inA && inC) &&
             !(inB && inC)
    ensures multiset((a + if inA then [last] else []) + (b + if inB then [last] else [])
                     + (c + if inC then [last] else []))
            == multiset(front + [last])
  {
  }

  /** The displacement of a polygon, added up side by side. */
  method Displacement(poly: Poly) returns (dx: int, dy: int)
    ensures dx == SumX(poly) && dy == SumY(poly)
  {
    dx, dy := 0, 0;
    assert poly[..0] == [];
    for i := 0 to |poly|
      invariant dx == SumX(poly[..i]) && dy == SumY(poly[..i])
    {
      assert poly[..i + 1][..i] == poly[..i];
      dx, dy := dx + DirX(poly[i].dir), dy + DirY(poly[i].dir);
    }
    assert poly[..|poly|] == poly;
  }

  /** The choice of the distance function. */
  method ChooseKind(poslist: seq<Poly>, zerolist: seq<Poly>, ghost m: Tiles, ghost polys: seq<Poly>)
    returns (kind: Option<Kind>)
    requires poslist == Filter(Turning(1), polys) && zerolist == Filter(Turning(0), polys)
    requires Valid(m) && forall i :: 0 <= i < |polys| ==> Closes(polys[i], Around(m))
    ensures kind == KindOf(polys)
  {
    hide Filter;
    hide Turning;
    if poslist != [] && zerolist == [] {
      if |poslist| > 1 {
        return None;
      }
      return Some(Bounded);
    }
    if zerolist == [] && poslist == [] {
      return Some(BothWays);
    }
    if poslist != [] || |zerolist| != 2 {
      return None;
    }
    var dx, dy := Displacement(zerolist[0]);
    if dx == 0 && dy == 0 {
      return None;
    }
    FilterMembers(Turning(0), polys, zerolist[0]);
    WholeTrips(m, zerolist[0]);
    assert dx % m.width == 0 && dy % m.height == 0;
    return Some(OneWay(dx, dy));
  }

  lemma WholeTrips(m: Tiles, poly: Poly)
    requires Valid(m) && Closes(poly, Around(m))
    ensures SumX(poly) % m.width == 0 && SumY(poly) % m.height == 0
  {
    hide SumX;
    hide SumY;
  }

  /** poly_link without its final rewrapping; None when one of its assertions fails or there is nothing to link. */
  method LinkPart(m: Tiles, polys: seq<Poly>, root: nat -> real)
    returns (result: Option<seq<Item>>, ghost inOrder: seq<Poly>, ghost links: seq<Link>)
    requires Fit(m, polys, root)
    ensures result.None? <==> KindOf(polys).None? || polys == []
    ensures result.Some? ==> IsLine(ShiftsOf(m, KindOf(polys).value), polys, inOrder, links, result.value)
  {
    hide Measures;
    hide AllNear;
    hide Gradual;
    hide Measurable;
    hide Closes;
    hide IsTree;
    hide Tour;
    hide LinksPolys;
    hide ShortestOut;
    inOrder, links := [], [];
    var neglist, poslist, zerolist := SortPolys(polys);
    var kind := ChooseKind(poslist, zerolist, m, polys);
    if kind == None || polys == [] {
      return None, inOrder, links;
    }
    KindIsProper(polys);
    hide KindOf;
    var all := neglist + poslist + zerolist;
    FitInAnyOrder(m, polys, all, root);
    FitMeasurable(m, all, root, kind.value);
    var list;
    list, inOrder, links := LinkAndTraverse(all, WrapOf(m, kind.value), root, ShiftsOf(m, kind.value), Widest(m));
    return Some(list.points), inOrder, links;
  }

  lemma FitInAnyOrder(m: Tiles, polys: seq<Poly>, others: seq<Poly>, root: nat -> real)
    requires Fit(m, polys, root) && multiset(others) == multiset(polys)
    ensures Fit(m, others, root) && |others| == |polys|
  {
    hide Measures;
    hide Near;
    hide Gradual;
    hide Closes;
    assert |others| == |multiset(others)| == |polys|;
    forall i | 0 <= i < |others|
      ensures others[i] in polys
    {
      assert others[i] in multiset(others);
    }
  }

  /** A line around the polygons meets itself on the torus, and each of its positions leads to the next. */
  lemma LineUnbroken(m: Tiles, polys: seq<Poly>, root: nat -> real, shifts: Shifts, inOrder: seq<Poly>,
                     links: seq<Link>, items: seq<Item>)
    requires Fit(m, polys, root) && polys != [] && IsLine(shifts, polys, inOrder, links, items)
    ensures inOrder != [] && inOrder[0] != []
    ensures var start := inOrder[0][0]; Unbroken(items, start.x, start.y, start.x, start.y, Around(m))
  {
    hide Measures;
    hide AllNear;
    hide Gradual;
    hide Closes;
    hide LinksPolys;
    hide ShortestOut;
    hide Unbroken;
    hide Tour;
    hide Listed;
    FitInAnyOrder(m, polys, inOrder, root);
    TreeOrdered(links, inOrder);
    hide IsTree;
    var x, y := inOrder[0][0].x, inOrder[0][0].y;
    TourUnbroken(links, inOrder, 0, 0, x, y, Around(m));
    BackAtStart(items, inOrder[0], x, y, Around(m));
  }

  /** The line has every side of the polygons once and every link both ways, and the links are shortest in sum. */
  lemma LineHasAll(m: Tiles, polys: seq<Poly>, kind: Kind, inOrder: seq<Poly>, links: seq<Link>, items: seq<Item>,
                   others: seq<T.Edge>)
    requires Valid(m) && Proper(kind) && polys != [] && IsLine(ShiftsOf(m, kind), polys, inOrder, links, items)
    ensures inOrder != [] && inOrder[0] != []
    ensures var line := Tour(links, inOrder, 0, 0, inOrder[0][0].x, inOrder[0][0].y);
            items == Items(links, inOrder, line)
            && multiset(Pieces(line)) == multiset(AllSides(inOrder) + AllWays(|links|))
    ensures T.Within(others, |inOrder|) && T.Joined(others, |inOrder|) ==>
              T.Joined(TreeOf(links), |inOrder|)
              && LinkSum(links) <= T.Total(GapWeights(ShiftsOf(m, kind), inOrder), others)
  {
    hide LinksPolys;
    hide ShortestOut;
    hide Tour;
    hide Listed;
    TourHasAll(links, inOrder, 0, inOrder[0][0].x, inOrder[0][0].y);
    hide IsTree;
    hide Pieces;
    hide AllSides;
    hide AllWays;
    hide Symmetric;
    hide T.Joined;
    hide T.Within;
    hide T.Total;
    ShiftsSymmetric(m, kind);
    if T.Within(others, |inOrder|) && T.Joined(others, |inOrder|) {
      LinksAreMinimal(ShiftsOf(m, kind), links, inOrder, others);
    }
  }

  lemma ShiftsSymmetric(m: Tiles, kind: Kind)
    requires Valid(m) && Proper(kind)
    ensures Symmetric(ShiftsOf(m, kind))
  {
    hide Shortest;
    hide Symmetric;
    PlainShortest();
    TorusShortest(m.width, m.height);
    if kind.OneWay? {
      StripShortest(kind.wx, kind.wy);
    }
  }

  // ------------------------------------------------------------------------ all parts

  lemma PartFit(m: Tiles, v: P.Parts, seeds: seq<Cell>, log: seq<Found>, k: nat, root: nat -> real)
    requires Valid(m) && P.Partitioned(m, v, seeds) && Disjoint(m, log) && AllFiled(m, v, log) && Measures(root, m)
    ensures Fit(m, PolysOfPart(log, k), root)
  {
    hide P.Partitioned;
    hide Disjoint;
    hide AllFiled;
    hide AllNear;
    hide Gradual;
    hide Measures;
    hide PolysOfPart;
    PartPolys(m, v, seeds, log, k);
    var polys := PolysOfPart(log, k);
    forall n | 0 <= n < |polys|
      ensures Closes(polys[n], Around(m))
    {
      var i := FoundForPart(log, k, polys[n]);
      PolygonsCloseUp(m, log, i);
      hide SumX;
      hide SumY;
    }
  }

  /** poly_link makes nothing of these polygons. */
  predicate Refused(polys: seq<Poly>) {
    KindOf(polys).None? || polys == []
  }

  ghost predicate LineOf(m: Tiles, polys: seq<Poly>, items: seq<Item>)
    requires Valid(m)
  {
    !Refused(polys) && exists inOrder, links :: IsLine(ShiftsOf(m, KindOf(polys).value), polys, inOrder, links, items)
  }

  /** makepolys, but for the rewrapping of parts that go around both ways; None when some part is refused. */
  method MakePolys(m: Tiles, root: nat -> real)
    returns (allpolys: Option<seq<seq<Item>>>, ghost log: seq<Found>, ghost v: P.Parts, ghost seeds: seq<Cell>)
    requires Valid(m) && Measures(root, m)
    ensures P.Partitioned(m, v, seeds) && Disjoint(m, log) && AllCovered(m, log) && AllFiled(m, v, log)
    ensures P.FirstCells(v, seeds) && InSearchOrder(m, log)
    ensures allpolys.None? <==> exists k :: 0 <= k < |seeds| && Refused(PolysOfPart(log, k))
    ensures allpolys.Some? ==>
              && |allpolys.value| == |seeds|
              && forall k :: 0 <= k < |seeds| ==> LineOf(m, PolysOfPart(log, k), allpolys.value[k])
  {
    hide P.Partitioned;
    hide Disjoint;
    hide AllCovered;
    hide AllFiled;
    hide Measures;
    hide IsLine;
    hide Fit;
    hide KindOf;
    hide P.FirstCells;
    hide InSearchOrder;
    var partpolys;
    partpolys, log, v, seeds := OutlineWalls(m);
    var lines: seq<seq<Item>> := [];
    for k := 0 to partpolys.Length
      invariant |lines| == k && HoldsPolys(partpolys, log)
      invariant forall i :: 0 <= i < k ==> LineOf(m, PolysOfPart(log, i), lines[i])
    {
      PartFit(m, v, seeds, log, k, root);
      assert partpolys[k] == PolysOfPart(log, k);
      var result;
      ghost var inOrder, links;
      result, inOrder, links := LinkPart(m, partpolys[k], root);
      if result == None {
        return None, log, v, seeds;
      }
      lines := lines + [result.value];
    }
    return Some(lines), log, v, seeds;
  }

  /** A part has polygons unless no boundary runs along it. */
  lemma PartHasPolygons(m: Tiles, v: P.Parts, seeds: seq<Cell>, log: seq<Found>, k: nat)
    requires Valid(m) && P.Partitioned(m, v, seeds) && Disjoint(m, log) && AllCovered(m, log) && AllFiled(m, v, log)
    ensures PolysOfPart(log, k) != [] <==> exists h :: AlongPart(m, v, k, h)
  {
    hide P.Partitioned;
    hide AllFiled;
    hide PolysOfPart;
    hide LeftTile;
    hide Boundary;
    hide Next;
    if PolysOfPart(log, k) != [] {
      var i := FoundForPart(log, k, PolysOfPart(log, k)[0]);
      assert DrawsOrbit(m, log[i].poly, log[i].hs);
      PolygonStaysInPart(m, v, seeds, log, i, 0);
      assert AlongPart(m, v, k, log[i].hs[0]);
    }
    if h :| AlongPart(m, v, k, h) {
      hide Disjoint;
      hide AllCovered;
      var i := DrawnExactlyOnce(m, log, h);
      var j :| 0 <= j < |log[i].hs| && log[i].hs[j] == h;
      PolygonStaysInPart(m, v, seeds, log, i, j);
      FoundIsListed(log, i);
    }
  }

  ghost predicate AlongPart(m: Tiles, v: P.Parts, k: nat, h: HalfEdge)
    requires Valid(m)
  {
    Boundary(m, h) && LeftTile(m, h) in v && v[LeftTile(m, h)].num == k
  }

  lemma {:induction false} FoundIsListed(log: seq<Found>, i: nat)
    requires i < |log|
    ensures log[i].poly in PolysOfPart(log, log[i].part)
  {
    if i < |log| - 1 {
      FoundIsListed(log[..|log| - 1], i);
    }
  }
}
