/** When the polygons close, the line around a part has no jumps; and what poly_link returns. */
module ClosedLine {
  import opened Arithmetic
  import opened TileMap
  import opened Tracing
  import opened FindMin
  import opened PolyLink
  import opened EulerTour

  // --------------------------------------------------------------------- around a polygon

  /** Displacement of the first c sides from corner start on. */
  function AroundX(poly: Poly, start: nat, c: nat): int
    requires start < |poly|
  {
    if c == 0 then 0 else AroundX(poly, start, c - 1) + DirX(poly[Corner(start, c - 1, |poly|)].dir)
  }

  function AroundY(poly: Poly, start: nat, c: nat): int
    requires start < |poly|
  {
    if c == 0 then 0 else AroundY(poly, start, c - 1) + DirY(poly[Corner(start, c - 1, |poly|)].dir)
  }

  lemma CornerIs(start: nat, c: nat, n: nat)
    requires start < n && c < n
    ensures Corner(start, c, n) == if start + c < n then start + c else start + c - n
  {
    if start + c < n {
      ModIs(start + c, 0, start + c, n);
    } else {
      ModIs(start + c, 1, start + c - n, n);
    }
  }

  lemma {:induction false} AroundUpTo(poly: Poly, start: nat, c: nat)
    requires start < |poly| && c <= |poly|
    ensures c <= |poly| - start ==> (AroundX(poly, start, c) == SumX(poly[..start + c]) - SumX(poly[..start])
                                     && AroundY(poly, start, c) == SumY(poly[..start + c]) - SumY(poly[..start]))
    ensures var b := start + c - |poly|;
            b >= 0 ==> (AroundX(poly, start, c) == SumX(poly) - SumX(poly[..start]) + SumX(poly[..b])
                        && AroundY(poly, start, c) == SumY(poly) - SumY(poly[..start]) + SumY(poly[..b]))
  {
    hide DirX;
    hide DirY;
    hide Corner;
    hide SumX;
    hide SumY;
    var n := |poly|;
    assert poly[..n] == poly && poly[..0] == [];
    if c == 0 {
      SumOfNone();
    } else {
      AroundUpTo(poly, start, c - 1);
      CornerIs(start, c - 1, n);
      SumsNext(poly, Corner(start, c - 1, n));
      SumOfNone();
    }
  }

  lemma SumOfNone()
    ensures SumX([]) == 0 && SumY([]) == 0
  {
  }

  lemma SumsNext(poly: Poly, i: nat)
    requires i < |poly|
    ensures SumX(poly[..i + 1]) == SumX(poly[..i]) + DirX(poly[i].dir)
    ensures SumY(poly[..i + 1]) == SumY(poly[..i]) + DirY(poly[i].dir)
  {
    assert poly[..i + 1][..i] == poly[..i];
  }

  /** Once around is the whole displacement, wherever one starts. */
  lemma OnceAround(poly: Poly, start: nat)
    requires start < |poly|
    ensures AroundX(poly, start, |poly|) == SumX(poly) && AroundY(poly, start, |poly|) == SumY(poly)
  {
    AroundUpTo(poly, start, |poly|);
    hide AroundX;
    hide AroundY;
    hide SumX;
    hide SumY;
  }

  // ------------------------------------------------------------------------- no jumps

  /** The plane repeats itself after x to the right and after y downward; 0 stands for never. */
  datatype Period = Period(x: nat, y: nat)

  const NEVER := Period(0, 0)

  /** Two coordinates that a repetition after n makes the same. */
  predicate Same(a: int, b: int, n: nat) {
    if n == 0 then a == b else (a - b) % n == 0
  }

  lemma SameChain(a: int, b: int, c: int, n: nat)
    requires Same(a, b, n) && Same(b, c, n)
    ensures Same(a, c, n)
  {
    if n > 0 {
      var q, r := (a - b) / n, (b - c) / n;
      assert a - c == (q + r) * n;
      ModIs(a - c, q + r, 0, n);
    }
  }

  lemma SameItself(a: int, n: nat)
    ensures Same(a, a, n)
  {
    if n > 0 {
      ModIs(0, 0, 0, n);
    }
  }

  lemma SameBack(a: int, b: int, n: nat)
    requires Same(a, b, n)
    ensures Same(b, a, n)
  {
    if n > 0 {
      var q := (a - b) / n;
      assert b - a == (-q) * n;
      ModIs(b - a, -q, 0, n);
    }
  }

  /** Each entry starts where the one before it leads, the first at (x, y), and the last leads to (endX, endY). */
  predicate Unbroken(items: seq<Item>, x: int, y: int, endX: int, endY: int, period: Period) {
    if items == [] then Same(x, endX, period.x) && Same(y, endY, period.y)
    else
      && Same(items[0].x, x, period.x) && Same(items[0].y, y, period.y)
      && Unbroken(items[1..], x + items[0].dx, y + items[0].dy, endX, endY, period)
  }

  lemma SameMoved(a: int, b: int, d: int, n: nat)
    requires Same(a, b, n)
    ensures Same(a + d, b + d, n)
  {
    assert (a + d) - (b + d) == a - b;
  }

  /** What only matters is where the line starts and ends in the repeated plane. */
  lemma {:induction false} UnbrokenMoved(items: seq<Item>, x: int, y: int, endX: int, endY: int,
                                         x': int, y': int, endX': int, endY': int, period: Period)
    requires Unbroken(items, x, y, endX, endY, period)
    requires Same(x, x', period.x) && Same(y, y', period.y) && Same(endX, endX', period.x) &&
             Same(endY, endY', period.y)
    ensures Unbroken(items, x', y', endX', endY', period)
  {
    hide Same;
    if items == [] {
      EndsMoved(x, endX, x', endX', period.x);
      EndsMoved(y, endY, y', endY', period.y);
    } else {
      SameChain(items[0].x, x, x', period.x);
      SameChain(items[0].y, y, y', period.y);
      SameMoved(x, x', items[0].dx, period.x);
      SameMoved(y, y', items[0].dy, period.y);
      UnbrokenMoved(items[1..], x + items[0].dx, y + items[0].dy, endX, endY,
                    x' + items[0].dx, y' + items[0].dy, endX', endY', period);
    }
  }

  lemma EndsMoved(a: int, b: int, a': int, b': int, n: nat)
    requires Same(a, b, n) && Same(a, a', n) && Same(b, b', n)
    ensures Same(a', b', n)
  {
    SameBack(a, a', n);
    SameChain(a', a, b, n);
    SameChain(a', b, b', n);
  }

  lemma {:induction false} UnbrokenConcat(a: seq<Item>, b: seq<Item>, x: int, y: int, midX: int, midY: int, endX: int,
                                          endY: int, period: Period)
    requires Unbroken(a, x, y, midX, midY, period) && Unbroken(b, midX, midY, endX, endY, period)
    ensures Unbroken(a + b, x, y, endX, endY, period)
  {
    hide Same;
    if a == [] {
      assert a + b == b;
      SameBack(x, midX, period.x);
      SameBack(y, midY, period.y);
      SameItself(endX, period.x);
      SameItself(endY, period.y);
      UnbrokenMoved(b, midX, midY, endX, endY, x, y, endX, endY, period);
    } else {
      assert (a + b)[1..] == a[1..] + b;
      UnbrokenConcat(a[1..], b, x + a[0].dx, y + a[0].dy, midX, midY, endX, endY, period);
    }
  }

  /** In an unbroken line each position plus offset is the next position, or what a repetition makes the same. */
  lemma {:induction false} NoJumps(items: seq<Item>, x: int, y: int, endX: int, endY: int, i: nat, period: Period)
    requires Unbroken(items, x, y, endX, endY, period) && i < |items|
    ensures i + 1 < |items| ==> Same(items[i].x + items[i].dx, items[i + 1].x, period.x)
                                && Same(items[i].y + items[i].dy, items[i + 1].y, period.y)
    ensures i + 1 == |items| ==> Same(items[i].x + items[i].dx, endX, period.x)
                                 && Same(items[i].y + items[i].dy, endY, period.y)
  {
    hide Same;
    if i > 0 {
      NoJumps(items[1..], x + items[0].dx, y + items[0].dy, endX, endY, i - 1, period);
    } else {
      SameMoved(items[0].x, x, items[0].dx, period.x);
      SameMoved(items[0].y, y, items[0].dy, period.y);
      if |items| == 1 {
        SameChain(items[0].x + items[0].dx, x + items[0].dx, endX, period.x);
        SameChain(items[0].y + items[0].dy, y + items[0].dy, endY, period.y);
      } else {
        NextSame(items[0].x + items[0].dx, x + items[0].dx, items[1].x, period.x);
        NextSame(items[0].y + items[0].dy, y + items[0].dy, items[1].y, period.y);
      }
    }
  }

  lemma NextSame(a: int, b: int, c: int, n: nat)
    requires Same(a, b, n) && Same(c, b, n)
    ensures Same(a, c, n)
  {
    SameBack(c, b, n);
    SameChain(a, b, c, n);
  }

  /** The displacements add up to whole repetitions. */
  predicate Closes(poly: Poly, period: Period) {
    Same(SumX(poly), 0, period.x) && Same(SumY(poly), 0, period.y)
  }

  /** All polygons after place p close. */
  predicate ClosesAfter(polys: seq<Poly>, p: nat, period: Period) {
    forall q :: p < q < |polys| ==> Closes(polys[q], period)
  }

  lemma OneItem(item: Item, period: Period)
    ensures Unbroken([item], item.x, item.y, item.x + item.dx, item.y + item.dy, period)
  {
    assert [item][1..] == [];
    SameItself(item.x, period.x);
    SameItself(item.y, period.y);
    SameItself(item.x + item.dx, period.x);
    SameItself(item.y + item.dy, period.y);
  }

  lemma {:induction false} BranchUnbroken(links: seq<Link>, polys: seq<Poly>, k: nat, x: int, y: int, period: Period)
    requires IsTree(links, polys) && Ordered(links) && k < |links| && ClosesAfter(polys, k, period)
    ensures Unbroken(Items(links, polys, Branch(links, polys, k, x, y)), x, y, x, y, period)
    decreases |polys| - k - 1, 4
  {
    hide Items;
    hide Unbroken;
    hide Tour;
    hide Branch;
    hide Same;
    var x', y' := x + links[k].dx, y + links[k].dy;
    TourUnbroken(links, polys, k + 1, links[k].target, x', y', period);
    BranchItems(links, polys, k, x, y);
    assert Closes(polys[k + 1], period);
    var around := Items(links, polys, Tour(links, polys, k + 1, links[k].target, x', y'));
    BackAtStart(around, polys[k + 1], x', y', period);
    ThereAndBack(around, x, y, links[k].dx, links[k].dy, period);
  }

  /** Along a link, around, and back along the link. */
  lemma ThereAndBack(around: seq<Item>, x: int, y: int, dx: int, dy: int, period: Period)
    requires Unbroken(around, x + dx, y + dy, x + dx, y + dy, period)
    ensures Unbroken([Item(x, y, dx, dy, true)] + around + [Item(x + dx, y + dy, -dx, -dy, true)], x, y, x, y, period)
  {
    hide Unbroken;
    var out, back := Item(x, y, dx, dy, true), Item(x + dx, y + dy, -dx, -dy, true);
    OneItem(out, period);
    OneItem(back, period);
    UnbrokenConcat([out], around, x, y, x + dx, y + dy, x + dx, y + dy, period);
    UnbrokenConcat([out] + around, [back], x, y, x + dx, y + dy, x, y, period);
  }

  /** A line around a closing polygon leads back to where it started. */
  lemma BackAtStart(items: seq<Item>, poly: Poly, x: int, y: int, period: Period)
    requires Unbroken(items, x, y, x + SumX(poly), y + SumY(poly), period) && Closes(poly, period)
    ensures Unbroken(items, x, y, x, y, period)
  {
    SameMoved(SumX(poly), 0, x, period.x);
    SameMoved(SumY(poly), 0, y, period.y);
    SameItself(x, period.x);
    SameItself(y, period.y);
    UnbrokenMoved(items, x, y, x + SumX(poly), y + SumY(poly), x, y, x, y, period);
  }

  lemma {:induction false} BranchesUnbroken(links: seq<Link>, polys: seq<Poly>, p: nat, ks: seq<nat>, x: int, y: int,
                                            period: Period)
    requires IsTree(links, polys) && Ordered(links) && p < |polys| && AreKids(links, p, ks) &&
             ClosesAfter(polys, p, period)
    ensures Unbroken(Items(links, polys, Branches(links, polys, p, ks, x, y)), x, y, x, y, period)
    decreases |polys| - p, 0, |ks|
  {
    hide Closes;
    if ks != [] {
      BranchesFirst(links, polys, p, ks[0], ks[1..], x, y);
      assert ks == [ks[0]] + ks[1..];
      BranchUnbroken(links, polys, ks[0], x, y, period);
      BranchesUnbroken(links, polys, p, ks[1..], x, y, period);
      hide Branch;
      hide Branches;
      ItemsConcat(links, polys, Branch(links, polys, ks[0], x, y), Branches(links, polys, p, ks[1..], x, y));
      hide Items;
      hide Unbroken;
      hide Same;
      UnbrokenConcat(Items(links, polys, Branch(links, polys, ks[0], x, y)),
                     Items(links, polys, Branches(links, polys, p, ks[1..], x, y)), x, y, x, y, x, y, period);
    }
  }

  lemma CornerUnbroken(links: seq<Link>, polys: seq<Poly>, p: nat, i: nat, x: int, y: int, period: Period)
    requires IsTree(links, polys) && Ordered(links) && p < |polys| && ClosesAfter(polys, p, period)
    ensures Unbroken(Items(links, polys, BranchesFrom(links, polys, p, KidsOf(links, p), i, x, y)), x, y, x, y, period)
    decreases |polys| - p, 1, 0
  {
    FromKids(links, p, KidsOf(links, p), i);
    BranchesUnbroken(links, polys, p, From(links, KidsOf(links, p), i), x, y, period);
    hide Branches;
    hide Unbroken;
    hide Same;
    hide Items;
    hide ClosesAfter;
  }

  /** Where the polygon's sides from the c-th on lead from x. */
  function RestX(poly: Poly, start: nat, c: nat, x: int): int
    requires start < |poly|
  {
    x + AroundX(poly, start, |poly|) - AroundX(poly, start, c)
  }

  function RestY(poly: Poly, start: nat, c: nat, y: int): int
    requires start < |poly|
  {
    y + AroundY(poly, start, |poly|) - AroundY(poly, start, c)
  }

  /** From the c-th side on the line leads to where the polygon's remaining sides lead. */
  lemma {:induction false} SidesUnbroken(links: seq<Link>, polys: seq<Poly>, p: nat, start: nat, c: nat, x: int, y: int,
                                         period: Period)
    requires IsTree(links, polys) && Ordered(links) && p < |polys| && start < |polys[p]| && c <= |polys[p]| &&
             ClosesAfter(polys, p, period)
    ensures Unbroken(Items(links, polys, Sides(links, polys, p, start, c, x, y)), x, y,
                     RestX(polys[p], start, c, x), RestY(polys[p], start, c, y), period)
    decreases |polys| - p, 2, |polys[p]| - c
  {
    if c == |polys[p]| {
      NoSideLeft(links, polys, p, start, x, y, period);
    } else {
      var i := Corner(start, c, |polys[p]|);
      var dx, dy := DirX(polys[p][i].dir), DirY(polys[p][i].dir);
      hide Sides;
      hide Items;
      hide Unbroken;
      hide Same;
      hide RestX;
      hide RestY;
      hide DirX;
      hide DirY;
      hide BranchesFrom;
      hide ClosesAfter;
      SidesUnbroken(links, polys, p, start, c + 1, x + dx, y + dy, period);
      CornerUnbroken(links, polys, p, i, x, y, period);
      OneSideUnbroken(links, polys, p, start, c, x, y, period);
    }
  }

  lemma NoSideLeft(links: seq<Link>, polys: seq<Poly>, p: nat, start: nat, x: int, y: int, period: Period)
    requires IsTree(links, polys) && p < |polys| && start < |polys[p]|
    ensures var c := |polys[p]|;
            Unbroken(Items(links, polys, Sides(links, polys, p, start, c, x, y)), x, y,
                     RestX(polys[p], start, c, x), RestY(polys[p], start, c, y), period)
  {
    SameItself(x, period.x);
    SameItself(y, period.y);
    hide Same;
    assert Items(links, polys, []) == [];
  }

  /** The links of the c-th corner, its side, and the rest, one after the other. */
  lemma OneSideUnbroken(links: seq<Link>, polys: seq<Poly>, p: nat, start: nat, c: nat, x: int, y: int, period: Period)
    requires IsTree(links, polys) && p < |polys| && start < |polys[p]| && c < |polys[p]|
    requires var i := Corner(start, c, |polys[p]|);
             Unbroken(Items(links, polys, BranchesFrom(links, polys, p, KidsOf(links, p), i, x, y)), x, y, x, y, period)
    requires var dir := polys[p][Corner(start, c, |polys[p]|)].dir;
             var x', y' := x + DirX(dir), y + DirY(dir);
             Unbroken(Items(links, polys, Sides(links, polys, p, start, c + 1, x', y')), x', y',
                      RestX(polys[p], start, c + 1, x'), RestY(polys[p], start, c + 1, y'), period)
    ensures Unbroken(Items(links, polys, Sides(links, polys, p, start, c, x, y)), x, y,
                     RestX(polys[p], start, c, x), RestY(polys[p], start, c, y), period)
  {
    hide Sides;
    hide BranchesFrom;
    hide Items;
    hide Unbroken;
    hide Same;
    hide KidsOf;
    hide IsTree;
    hide RestX;
    hide RestY;
    hide DirX;
    hide DirY;
    hide Corner;
    SidesParts(links, polys, p, start, c, x, y);
    AroundStep(polys[p], start, c, x, y);
    var i := Corner(start, c, |polys[p]|);
    var dx, dy := DirX(polys[p][i].dir), DirY(polys[p][i].dir);
    ThreeParts(Items(links, polys, BranchesFrom(links, polys, p, KidsOf(links, p), i, x, y)),
               Item(x, y, dx, dy, false),
               Items(links, polys, Sides(links, polys, p, start, c + 1, x + dx, y + dy)), x, y,
               RestX(polys[p], start, c, x), RestY(polys[p], start, c, y), period);
  }

  lemma SidesParts(links: seq<Link>, polys: seq<Poly>, p: nat, start: nat, c: nat, x: int, y: int)
    requires IsTree(links, polys) && p < |polys| && start < |polys[p]| && c < |polys[p]|
    ensures var i := Corner(start, c, |polys[p]|);
            var dx, dy := DirX(polys[p][i].dir), DirY(polys[p][i].dir);
            Items(links, polys, Sides(links, polys, p, start, c, x, y))
            == Items(links, polys, BranchesFrom(links, polys, p, KidsOf(links, p), i, x, y))
               + [Item(x, y, dx, dy, false)]
               + Items(links, polys, Sides(links, polys, p, start, c + 1, x + dx, y + dy))
  {
    AllToTake(links, p, start, |polys[p]|);
    LaterToTake(links, p, start, c, |polys[p]|);
    SideFirst(links, polys, p, start, c, KidsOf(links, p), x, y);
    hide Sides;
    hide Items;
    hide KidsOf;
    hide BranchesFrom;
  }

  lemma AroundStep(poly: Poly, start: nat, c: nat, x: int, y: int)
    requires start < |poly|
    ensures var i := Corner(start, c, |poly|);
            RestX(poly, start, c + 1, x + DirX(poly[i].dir)) == RestX(poly, start, c, x)
            && RestY(poly, start, c + 1, y + DirY(poly[i].dir)) == RestY(poly, start, c, y)
  {
  }

  lemma LaterToTake(links: seq<Link>, p: nat, start: nat, c: nat, n: nat)
    requires start < n && AreKids(links, p, KidsOf(links, p)) && StillToTake(links, p, KidsOf(links, p), start, 0, n)
    ensures StillToTake(links, p, KidsOf(links, p), start, c, n)
  {
    hide AllStillFrom;
    hide KidsOf;
  }

  lemma ThreeParts(a: seq<Item>, side: Item, rest: seq<Item>, x: int, y: int, endX: int, endY: int, period: Period)
    requires Unbroken(a, x, y, x, y, period) && side.x == x && side.y == y &&
             Unbroken(rest, x + side.dx, y + side.dy, endX, endY, period)
    ensures Unbroken(a + [side] + rest, x, y, endX, endY, period)
  {
    OneItem(side, period);
    UnbrokenConcat(a, [side], x, y, x, y, x + side.dx, y + side.dy, period);
    UnbrokenConcat(a + [side], rest, x, y, x + side.dx, y + side.dy, endX, endY, period);
    hide Unbroken;
    hide Same;
  }

  /** If all polygons after place p close, the tour from there has no jumps and ends a polygon's displacement away. */
  lemma {:induction false} TourUnbroken(links: seq<Link>, polys: seq<Poly>, p: nat, start: nat, x: int, y: int,
                                        period: Period)
    requires IsTree(links, polys) && Ordered(links) && p < |polys| && start < |polys[p]| &&
             ClosesAfter(polys, p, period)
    ensures Unbroken(Items(links, polys, Tour(links, polys, p, start, x, y)), x, y,
                     x + SumX(polys[p]), y + SumY(polys[p]), period)
    decreases |polys| - p, 3, 0
  {
    SidesUnbroken(links, polys, p, start, 0, x, y, period);
    OnceAround(polys[p], start);
    hide Sides;
    hide Items;
    hide Unbroken;
    hide Same;
    hide SumX;
    hide SumY;
  }

  // ---------------------------------------------------------------- the line of a part

  lemma LinksAreTree(shifts: Shifts, links: seq<Link>, polys: seq<Poly>)
    requires LinksPolys(shifts, links, polys) && polys[0] != []
    ensures IsTree(links, polys) && Ordered(links)
  {
    hide Norm2;
    hide Gap;
    forall k | 0 <= k < |links|
      ensures links[k].parent <= k && links[k].start < |polys[links[k].parent]| && links[k].target < |polys[k + 1]|
    {
      assert LinksTo(shifts, links[k], k, polys);
    }
  }

  ghost function AllKids(links: seq<Link>, n: nat): (lists: Lists)
    ensures |lists| == n && forall q :: 0 <= q < n ==> lists[q] == Kids(links, q)
  {
    seq(n, q requires 0 <= q < n => Kids(links, q))
  }

  lemma HoldsFromFirst(spots: seq<Polynode>, links: seq<Link>)
    requires HoldsLinks(spots, links) && Ordered(links)
    ensures HoldLists(spots, links, AllKids(links, |spots|)) && Full(links, AllKids(links, |spots|), Sub(links, 0))
  {
    hide HoldsKids;
    hide Sub;
    hide Kids;
  }

  lemma NoneEmpty(polys: seq<Poly>, others: seq<Poly>)
    requires multiset(polys) == multiset(others) && forall i :: 0 <= i < |others| ==> others[i] != []
    ensures forall i :: 0 <= i < |polys| ==> polys[i] != []
  {
    forall i | 0 <= i < |polys|
      ensures polys[i] != []
    {
      assert polys[i] in multiset(others);
    }
  }

  /** poly_link without its final rewrapping: one line along all polygons of a part and their links. */
  method LinkAndTraverse(polys: seq<Poly>, wrap: Vector -> Vector, root: nat -> real, ghost shifts: Shifts,
                         ghost limit: nat)
    returns (result: PointList, ghost inOrder: seq<Poly>, ghost links: seq<Link>)
    requires Measurable(wrap, shifts, root, limit, polys) && polys != []
    ensures fresh(result) && multiset(inOrder) == multiset(polys) && |inOrder| == |polys|
    ensures inOrder[0] == polys[|polys| - 1]
    ensures LinksPolys(shifts, links, inOrder) && ShortestOut(shifts, links, inOrder)
    ensures IsTree(links, inOrder)
    ensures result.points == Items(links, inOrder, Tour(links, inOrder, 0, 0, inOrder[0][0].x, inOrder[0][0].y))
  {
    var res;
    ghost var spots;
    res, spots, links := LinkPolys(polys, wrap, root, shifts, limit);
    inOrder := PolysOf(spots);
    assert |inOrder| == |polys| && res.poly == inOrder[0];
    NoneEmpty(inOrder, polys);
    hide Measurable;
    hide LinksPolys;
    hide ShortestOut;
    hide HoldsLinks;
    LinksAreTree(shifts, links, inOrder);
    HoldsFromFirst(spots, links);
    hide IsTree;
    hide Tour;
    hide Items;
    hide HoldLists;
    hide Full;
    hide Sub;
    hide AllKids;
    result := new PointList();
    ghost var left := Traverse(res, res.poly[0].x, res.poly[0].y, 0, result, spots, links, 0, AllKids(links, |spots|));
  }
}
