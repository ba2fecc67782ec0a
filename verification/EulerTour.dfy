/** Polynode.traverse: one closed line around all the polygons of a part and along their links. */
module EulerTour {
  import opened Arithmetic
  import opened TileMap
  import opened Tracing
  import opened PolyLink

  // ------------------------------------------------------------------- the line to draw

  /** A piece of the line: side i of the polygon in place p, or link k one way or the other. */
  datatype Piece = Side(p: nat, i: nat) | Out(k: nat) | Back(k: nat)

  /** A piece and the point that it starts from. */
  datatype Placed = Placed(x: int, y: int, piece: Piece)

  /** The links form a tree, each from a corner of an earlier polygon to a corner of the next one. */
  predicate IsTree(links: seq<Link>, polys: seq<Poly>) {
    && |links| + 1 == |polys| && polys[0] != []
    && forall k :: 0 <= k < |links| ==>
         links[k].parent <= k && links[k].start < |polys[links[k].parent]| && links[k].target < |polys[k + 1]|
  }

  /** The links among ks that start from corner i, in order. */
  function From(links: seq<Link>, ks: seq<nat>, i: nat): (r: seq<nat>)
    requires forall j :: 0 <= j < |ks| ==> ks[j] < |links|
    ensures forall j :: 0 <= j < |r| ==> r[j] in ks && links[r[j]].start == i
  {
    if ks == [] then []
    else (if links[ks[0]].start == i then [ks[0]] else []) + From(links, ks[1..], i)
  }

  predicate AreKids(links: seq<Link>, p: nat, ks: seq<nat>) {
    forall j :: 0 <= j < |ks| ==> ks[j] < |links| && links[ks[j]].parent == p
  }

  function KidsOf(links: seq<Link>, p: nat): (ks: seq<nat>)
    ensures AreKids(links, p, ks)
  {
    KidsAre(links, p);
    assert forall j :: 0 <= j < |Kids(links, p)| ==> Kids(links, p)[j] in Kids(links, p);
    Kids(links, p)
  }

  /** The d-th corner after start. */
  function Corner(start: nat, d: nat, n: nat): (i: nat)
    requires n > 0
    ensures i < n
  {
    (start + d) % n
  }

  /** Around the polygon in place p from corner start, with everything that hangs from it. */
  function Tour(links: seq<Link>, polys: seq<Poly>, p: nat, start: nat, x: int, y: int): seq<Placed>
    requires IsTree(links, polys) && p < |polys| && start < |polys[p]|
    decreases |polys| - p, 2, 0
  {
    Sides(links, polys, p, start, 0, x, y)
  }

  /** The sides from the c-th after start on, each after the links that start from its corner. */
  function Sides(links: seq<Link>, polys: seq<Poly>, p: nat, start: nat, c: nat, x: int, y: int): seq<Placed>
    requires IsTree(links, polys) && p < |polys| && start < |polys[p]| && c <= |polys[p]|
    decreases |polys| - p, 1, |polys[p]| - c
  {
    if c == |polys[p]| then [] else
      var i := Corner(start, c, |polys[p]|);
      var dir := polys[p][i].dir;
      Branches(links, polys, p, From(links, KidsOf(links, p), i), x, y) + [Placed(x, y, Side(p, i))]
      + Sides(links, polys, p, start, c + 1, x + DirX(dir), y + DirY(dir))
  }

  /** Along the links ks, which start from one corner, around what they lead to, and back. */
  function Branches(links: seq<Link>, polys: seq<Poly>, p: nat, ks: seq<nat>, x: int, y: int): seq<Placed>
    requires IsTree(links, polys) && p < |polys| && AreKids(links, p, ks)
    decreases |polys| - p, 0, |ks|
  {
    if ks == [] then [] else
      var k := ks[0];
      var x', y' := x + links[k].dx, y + links[k].dy;
      [Placed(x, y, Out(k))] + Tour(links, polys, k + 1, links[k].target, x', y') + [Placed(x', y', Back(k))]
      + Branches(links, polys, p, ks[1..], x, y)
  }

  // ------------------------------------------------------------------ what is written out

  /** An entry of the list: a point, the way to the next one, and whether that is a link. */
  datatype Item = Item(x: int, y: int, dx: int, dy: int, link: bool)

  predicate Exists(links: seq<Link>, polys: seq<Poly>, piece: Piece) {
    match piece
    case Side(p, i) => p < |polys| && i < |polys[p]|
    case Out(k) => k < |links|
    case Back(k) => k < |links|
  }

  function Way(links: seq<Link>, polys: seq<Poly>, piece: Piece): (int, int)
    requires Exists(links, polys, piece)
  {
    match piece
    case Side(p, i) => (DirX(polys[p][i].dir), DirY(polys[p][i].dir))
    case Out(k) => (links[k].dx, links[k].dy)
    case Back(k) => (-links[k].dx, -links[k].dy)
  }

  /** Totalized so that it can be mapped over any line. */
  function ItemOf(links: seq<Link>, polys: seq<Poly>, at: Placed): Item {
    var way := if Exists(links, polys, at.piece) then Way(links, polys, at.piece) else (0, 0);
    Item(at.x, at.y, way.0, way.1, !at.piece.Side?)
  }

  function Items(links: seq<Link>, polys: seq<Poly>, line: seq<Placed>): (items: seq<Item>)
    ensures |items| == |line| && forall i :: 0 <= i < |line| ==> items[i] == ItemOf(links, polys, line[i])
  {
    seq(|line|, i requires 0 <= i < |line| => ItemOf(links, polys, line[i]))
  }

  lemma ItemsConcat(links: seq<Link>, polys: seq<Poly>, a: seq<Placed>, b: seq<Placed>)
    ensures Items(links, polys, a + b) == Items(links, polys, a) + Items(links, polys, b)
  {
    hide ItemOf;
  }

  // ---------------------------------------------------------------------------- subtrees

  /** Each link's parent comes before its child. */
  predicate Ordered(links: seq<Link>) {
    forall k :: 0 <= k < |links| ==> links[k].parent <= k
  }

  /** The polygon in place q hangs from the one in place p, or is it. */
  predicate InSub(links: seq<Link>, p: nat, q: nat)
    requires Ordered(links)
    decreases q
  {
    q == p || (p < q <= |links| && InSub(links, p, links[q - 1].parent))
  }

  lemma {:induction false} KidInSub(links: seq<Link>, k: nat, q: nat)
    requires Ordered(links) && k < |links| && InSub(links, k + 1, q)
    ensures InSub(links, links[k].parent, q)
    decreases q
  {
    if q != k + 1 {
      KidInSub(links, k, links[q - 1].parent);
    }
  }

  lemma {:induction false} KidsApart(links: seq<Link>, k: nat, l: nat, q: nat)
    requires Ordered(links) && k < |links| && l < |links| && k != l
    requires links[k].parent == links[l].parent && InSub(links, k + 1, q)
    ensures !InSub(links, l + 1, q)
    decreases q
  {
    if q != k + 1 && q != l + 1 {
      KidsApart(links, k, l, links[q - 1].parent);
    }
  }

  ghost function Sub(links: seq<Link>, p: nat): set<nat>
    requires Ordered(links)
  {
    set q: nat | q <= |links| && InSub(links, p, q)
  }

  predicate UnderOneOf(links: seq<Link>, rest: seq<nat>, q: nat)
    requires Ordered(links)
  {
    exists j :: 0 <= j < |rest| && InSub(links, rest[j] + 1, q)
  }

  /** The places of all polygons that hang from the links rest. */
  ghost function Below(links: seq<Link>, rest: seq<nat>): set<nat>
    requires Ordered(links)
  {
    set q: nat | q <= |links| && UnderOneOf(links, rest, q)
  }

  /** For each place, the links that its node still has. */
  type Lists = seq<seq<nat>>

  /** The nodes hold the links in the lists. */
  ghost predicate HoldLists(spots: seq<Polynode>, links: seq<Link>, lists: Lists)
    reads spots`linkstarts, spots`linktargets
  {
    && |lists| == |spots|
    && forall q :: 0 <= q < |spots| ==> HoldsKids(spots[q], lists[q], spots, links)
  }

  /** The lists of these places have all their links. */
  predicate Full(links: seq<Link>, lists: Lists, places: set<nat>) {
    forall q :: q in places && q < |lists| ==> lists[q] == Kids(links, q)
  }

  /** Nothing has changed but in these places. */
  predicate SameBut(lists: Lists, newLists: Lists, places: set<nat>) {
    |lists| == |newLists| && forall q: nat :: q < |lists| && q !in places ==> newLists[q] == lists[q]
  }

  lemma SubOfKid(links: seq<Link>, k: nat)
    requires Ordered(links) && k < |links|
    ensures Sub(links, k + 1) <= Sub(links, links[k].parent)
    ensures links[k].parent !in Sub(links, k + 1) && links[k].parent in Sub(links, links[k].parent)
  {
    forall q | q in Sub(links, k + 1)
      ensures q in Sub(links, links[k].parent)
    {
      KidInSub(links, k, q);
    }
  }

  // ------------------------------------------------------------------------ the walk

  /** The list that the whole recursion appends to. */
  class PointList {
    var points: seq<Item>

    constructor ()
      ensures points == []
    {
      points := [];
    }

    method Append(item: Item)
      modifies this
      ensures points == old(points) + [item]
    {
      points := points + [item];
    }
  }

  predicate Increasing(ks: seq<nat>) {
    forall i, j :: 0 <= i < j < |ks| ==> ks[i] < ks[j]
  }

  lemma WithoutHead(ks: seq<nat>)
    requires ks != []
    ensures Without(ks, 0) == ks[1..]
  {
  }

  lemma WithoutTail(ks: seq<nat>, j: nat)
    requires 0 < j < |ks|
    ensures Without(ks, j) != [] && Without(ks, j)[0] == ks[0] && Without(ks, j)[1..] == Without(ks[1..], j - 1)
  {
  }

  lemma {:induction false} FromFirst(links: seq<Link>, ks: seq<nat>, j: nat, i: nat)
    requires (forall j :: 0 <= j < |ks| ==> ks[j] < |links|) && j < |ks| && links[ks[j]].start == i
    requires forall h :: 0 <= h < j ==> links[ks[h]].start != i
    ensures From(links, ks, i) == [ks[j]] + From(links, Without(ks, j), i)
  {
    hide Without;
    if j == 0 {
      WithoutHead(ks);
    } else {
      FromFirst(links, ks[1..], j - 1, i);
      WithoutTail(ks, j);
      assert links[ks[0]].start != i;
    }
  }

  lemma {:induction false} FromOthers(links: seq<Link>, ks: seq<nat>, j: nat, i: nat)
    requires (forall j :: 0 <= j < |ks| ==> ks[j] < |links|) && j < |ks| && links[ks[j]].start != i
    ensures From(links, ks, i) == From(links, Without(ks, j), i)
  {
    hide Without;
    if j == 0 {
      WithoutHead(ks);
    } else {
      FromOthers(links, ks[1..], j - 1, i);
      WithoutTail(ks, j);
    }
  }

  lemma FromNone(links: seq<Link>, ks: seq<nat>, i: nat)
    requires (forall j :: 0 <= j < |ks| ==> ks[j] < |links|) && forall j :: 0 <= j < |ks| ==> links[ks[j]].start != i
    ensures From(links, ks, i) == []
  {
    if ks != [] {
      FromNone(links, ks[1..], i);
    }
  }

  /** list.index, and whether the number is in the list at all. */
  method IndexOf(s: seq<nat>, i: nat) returns (found: bool, j: nat)
    ensures found ==> j < |s| && s[j] == i && forall h :: 0 <= h < j ==> s[h] != i
    ensures !found ==> forall h :: 0 <= h < |s| ==> s[h] != i
  {
    j := 0;
    while j < |s|
      invariant j <= |s| && forall h :: 0 <= h < j ==> s[h] != i
    {
      if s[j] == i {
        return true, j;
      }
      j := j + 1;
    }
    return false, 0;
  }

  /** Target number j of the node in place p. */
  method TargetAt(node: Polynode, j: nat, ghost spots: seq<Polynode>, ghost links: seq<Link>, ghost lists: Lists,
                  ghost p: nat)
    returns (lt: Target)
    requires HoldLists(spots, links, lists) && p < |spots| && node == spots[p] && j < |lists[p]|
    ensures lists[p][j] < |links| && lists[p][j] + 1 < |spots|
    ensures var k := lists[p][j]; lt == Target(spots[k + 1], links[k].target, links[k].dx, links[k].dy)
  {
    assert HoldsKids(node, lists[p], spots, links);
    lt := node.linktargets[j];
  }

  /** del linkstarts[j] and del linktargets[j] */
  method DeleteLink(node: Polynode, j: nat, ghost spots: seq<Polynode>, ghost links: seq<Link>, ghost lists: Lists,
                    ghost p: nat)
    requires HoldLists(spots, links, lists) && Distinct(spots) && p < |spots| && node == spots[p] && j < |lists[p]|
    modifies node`linkstarts, node`linktargets
    ensures HoldLists(spots, links, lists[p := Without(lists[p], j)])
  {
    assert HoldsKids(node, lists[p], spots, links);
    assert forall q :: 0 <= q < |spots| && q != p ==> spots[q] != node;
    Delete(node, j, lists[p], spots, links);
    hide HoldsKids;
  }

  method Delete(node: Polynode, j: nat, ghost rest: seq<nat>, ghost spots: seq<Polynode>, ghost links: seq<Link>)
    requires HoldsKids(node, rest, spots, links) && j < |rest|
    modifies node`linkstarts, node`linktargets
    ensures HoldsKids(node, Without(rest, j), spots, links)
  {
    node.linkstarts := node.linkstarts[..j] + node.linkstarts[j + 1..];
    node.linktargets := node.linktargets[..j] + node.linktargets[j + 1..];
  }

  /** What hangs from link j of the node is apart from what hangs from the others, and from the node itself. */
  lemma OthersApart(links: seq<Link>, p: nat, rest: seq<nat>, j: nat)
    requires Ordered(links) && AreKids(links, p, rest) && Increasing(rest) && j < |rest|
    ensures Sub(links, rest[j] + 1) !! Below(links, Without(rest, j)) && Sub(links, rest[j] + 1) <= Below(links, rest)
    ensures Below(links, Without(rest, j)) <= Below(links, rest)
    ensures Sub(links, rest[j] + 1) <= Sub(links, p) && p !in Sub(links, rest[j] + 1)
    ensures p in Sub(links, p) && p !in Below(links, rest)
    ensures AreKids(links, p, Without(rest, j)) && Increasing(Without(rest, j))
  {
    hide InSub;
    SubOfKid(links, rest[j]);
    forall h | 0 <= h < |rest|
      ensures !InSub(links, rest[h] + 1, p)
    {
      SubOfKid(links, rest[h]);
    }
    var less := Without(rest, j);
    assert forall h :: 0 <= h < |less| ==> less[h] == rest[if h < j then h else h + 1];
    forall q | q in Below(links, less)
      ensures q in Below(links, rest) && q !in Sub(links, rest[j] + 1)
    {
      var h :| 0 <= h < |less| && InSub(links, less[h] + 1, q);
      assert less[h] != rest[j];
      KidsApart(links, less[h], rest[j], q);
    }
  }

  /** The line along link k, around what it leads to, and back. */
  function Branch(links: seq<Link>, polys: seq<Poly>, k: nat, x: int, y: int): seq<Placed>
    requires IsTree(links, polys) && k < |links|
  {
    var x', y' := x + links[k].dx, y + links[k].dy;
    [Placed(x, y, Out(k))] + Tour(links, polys, k + 1, links[k].target, x', y') + [Placed(x', y', Back(k))]
  }

  /** What the walk of the node in place p finds, with the links rest still to take. */
  ghost predicate Walking(spots: seq<Polynode>, links: seq<Link>, lists: Lists, p: nat) {
    && IsTree(links, PolysOf(spots)) && Ordered(links) && Distinct(spots) && p < |spots| == |lists|
    && AreKids(links, p, lists[p]) && Increasing(lists[p]) && Full(links, lists, Below(links, lists[p]))
  }

  /** The lists without link number j and what hangs from it. */
  lemma WalksOn(spots: seq<Polynode>, links: seq<Link>, lists: Lists, p: nat, j: nat, after: Lists)
    requires Walking(spots, links, lists, p) && j < |lists[p]| && SameBut(lists, after, Sub(links, lists[p][j] + 1))
    ensures |after| == |spots| && after[p] == lists[p] && var newLists := after[p := Without(after[p], j)];
            Walking(spots, links, newLists, p) && SameBut(lists, newLists, Sub(links, p)) &&
              newLists[p] == Without(lists[p], j)
  {
    OthersApart(links, p, lists[p], j);
    hide Sub;
    hide Below;
    hide Without;
    hide IsTree;
    hide AreKids;
    hide Increasing;
    hide Kids;
  }

  lemma WalkInto(spots: seq<Polynode>, links: seq<Link>, lists: Lists, p: nat, j: nat)
    requires Walking(spots, links, lists, p) && j < |lists[p]|
    ensures Full(links, lists, Sub(links, lists[p][j] + 1))
  {
    OthersApart(links, p, lists[p], j);
    hide Sub;
    hide Below;
  }

  /** Takes the link number j of the node and removes it. */
  method TakeLink(node: Polynode, j: nat, x: int, y: int, reslist: PointList,
                  ghost spots: seq<Polynode>, ghost links: seq<Link>, ghost p: nat, ghost lists: Lists)
    returns (ghost newLists: Lists)
    requires Walking(spots, links, lists, p) && HoldLists(spots, links, lists) && node == spots[p] && j < |lists[p]|
    modifies reslist, spots`linkstarts, spots`linktargets
    ensures HoldLists(spots, links, newLists) && SameBut(lists, newLists, Sub(links, p))
    ensures Walking(spots, links, newLists, p) && newLists[p] == Without(lists[p], j)
    ensures lists[p][j] < |links|
    ensures reslist.points
            == old(reslist.points) + Items(links, PolysOf(spots), Branch(links, PolysOf(spots), lists[p][j], x, y))
    decreases |spots| - p, 0
  {
    hide HoldLists;
    hide Full;
    hide SameBut;
    hide Items;
    hide Tour;
    hide InSub;
    hide Without;
    hide Below;
    hide Increasing;
    var lt := TargetAt(node, j, spots, links, lists, p);
    ghost var k := lists[p][j];
    WalkInto(spots, links, lists, p, j);
    BranchItems(links, PolysOf(spots), k, x, y);
    hide Branch;
    reslist.Append(Item(x, y, lt.dx, lt.dy, true));
    ghost var after := Traverse(lt.targetnode, x + lt.dx, y + lt.dy, lt.targetindex, reslist, spots, links, k + 1,
                                lists);
    reslist.Append(Item(x + lt.dx, y + lt.dy, -lt.dx, -lt.dy, true));
    WalksOn(spots, links, lists, p, j, after);
    DeleteLink(node, j, spots, links, after, p);
    newLists := after[p := Without(after[p], j)];
  }

  lemma BranchItems(links: seq<Link>, polys: seq<Poly>, k: nat, x: int, y: int)
    requires IsTree(links, polys) && k < |links|
    ensures var x', y' := x + links[k].dx, y + links[k].dy;
            Items(links, polys, Branch(links, polys, k, x, y))
            == [Item(x, y, links[k].dx, links[k].dy, true)]
               + Items(links, polys, Tour(links, polys, k + 1, links[k].target, x', y'))
               + [Item(x', y', -links[k].dx, -links[k].dy, true)]
  {
    hide Tour;
  }

  lemma BranchesFirst(links: seq<Link>, polys: seq<Poly>, p: nat, k: nat, ks: seq<nat>, x: int, y: int)
    requires IsTree(links, polys) && p < |polys| && AreKids(links, p, [k] + ks)
    ensures k < |links| && AreKids(links, p, ks)
    ensures Branches(links, polys, p, [k] + ks, x, y)
            == Branch(links, polys, k, x, y) + Branches(links, polys, p, ks, x, y)
  {
    assert ([k] + ks)[0] == k && ([k] + ks)[1..] == ks;
    forall j | 0 <= j < |ks|
      ensures ks[j] < |links| && links[ks[j]].parent == p
    {
      assert ks[j] == ([k] + ks)[j + 1];
    }
    hide Tour;
  }

  lemma FromKids(links: seq<Link>, p: nat, ks: seq<nat>, i: nat)
    requires AreKids(links, p, ks)
    ensures AreKids(links, p, From(links, ks, i))
  {
    forall j | 0 <= j < |From(links, ks, i)|
      ensures From(links, ks, i)[j] < |links| && links[From(links, ks, i)[j]].parent == p
    {
      assert From(links, ks, i)[j] in ks;
    }
  }

  /** The piece of the line for the links among rest from corner i. */
  function BranchesFrom(links: seq<Link>, polys: seq<Poly>, p: nat, rest: seq<nat>, i: nat, x: int, y: int): seq<Placed>
    requires IsTree(links, polys) && p < |polys| && AreKids(links, p, rest)
  {
    FromKids(links, p, rest, i);
    Branches(links, polys, p, From(links, rest, i), x, y)
  }

  lemma TakenFirst(links: seq<Link>, polys: seq<Poly>, p: nat, rest: seq<nat>, j: nat, i: nat, x: int, y: int)
    requires IsTree(links, polys) && p < |polys| && AreKids(links, p, rest)
    requires j < |rest| && AreKids(links, p, Without(rest, j))
    requires links[rest[j]].start == i && forall h :: 0 <= h < j ==> links[rest[h]].start != i
    ensures Items(links, polys, BranchesFrom(links, polys, p, rest, i, x, y))
            == Items(links, polys, Branch(links, polys, rest[j], x, y))
               + Items(links, polys, BranchesFrom(links, polys, p, Without(rest, j), i, x, y))
    ensures forall h: nat :: h != i ==> From(links, Without(rest, j), h) == From(links, rest, h)
  {
    FromFirst(links, rest, j, i);
    FromKids(links, p, rest, i);
    BranchesFirst(links, polys, p, rest[j], From(links, Without(rest, j), i), x, y);
    hide Branches;
    hide Branch;
    ItemsConcat(links, polys, Branch(links, polys, rest[j], x, y),
                BranchesFrom(links, polys, p, Without(rest, j), i, x, y));
    forall h: nat | h != i
      ensures From(links, Without(rest, j), h) == From(links, rest, h)
    {
      FromOthers(links, rest, j, h);
    }
  }

  lemma StartsOf(spots: seq<Polynode>, links: seq<Link>, lists: Lists, p: nat)
    requires HoldLists(spots, links, lists) && p < |spots|
    ensures |spots[p].linkstarts| == |lists[p]|
    ensures forall h :: 0 <= h < |lists[p]| ==>
              lists[p][h] < |links| && spots[p].linkstarts[h] == links[lists[p][h]].start
  {
    assert HoldsKids(spots[p], lists[p], spots, links);
  }

  lemma NothingLeftFrom(links: seq<Link>, polys: seq<Poly>, p: nat, rest: seq<nat>, i: nat, x: int, y: int)
    requires IsTree(links, polys) && p < |polys| && AreKids(links, p, rest)
    requires forall h :: 0 <= h < |rest| ==> links[rest[h]].start != i
    ensures BranchesFrom(links, polys, p, rest, i, x, y) == []
  {
    FromNone(links, rest, i);
  }

  lemma SameButTwice(a: Lists, b: Lists, c: Lists, places: set<nat>)
    requires SameBut(a, b, places) && SameBut(b, c, places)
    ensures SameBut(a, c, places)
  {
  }

  /** The inner loop: takes all the links of the node that start from corner i. */
  method TakeLinks(node: Polynode, i: nat, x: int, y: int, reslist: PointList,
                   ghost spots: seq<Polynode>, ghost links: seq<Link>, ghost p: nat, ghost lists: Lists)
    returns (ghost left: Lists)
    requires Walking(spots, links, lists, p) && HoldLists(spots, links, lists) && node == spots[p]
    modifies reslist, spots`linkstarts, spots`linktargets
    ensures HoldLists(spots, links, left) && SameBut(lists, left, Sub(links, p)) && Walking(spots, links, left, p)
    ensures forall h: nat :: h != i ==> From(links, left[p], h) == From(links, lists[p], h)
    ensures reslist.points
            == old(reslist.points)
               + Items(links, PolysOf(spots), BranchesFrom(links, PolysOf(spots), p, lists[p], i, x, y))
    decreases |spots| - p, 1
  {
    hide HoldLists;
    hide Sub;
    hide Full;
    hide From;
    hide BranchesFrom;
    hide Branch;
    hide Without;
    hide Items;
    hide Increasing;
    ghost var polys := PolysOf(spots);
    ghost var goal := reslist.points + Items(links, polys, BranchesFrom(links, polys, p, lists[p], i, x, y));
    left := lists;
    while true
      invariant Walking(spots, links, left, p) && HoldLists(spots, links, left) && SameBut(lists, left, Sub(links, p))
      invariant forall h: nat :: h != i ==> From(links, left[p], h) == From(links, lists[p], h)
      invariant goal == reslist.points + Items(links, polys, BranchesFrom(links, polys, p, left[p], i, x, y))
      decreases |left[p]|
    {
      StartsOf(spots, links, left, p);
      var found, j := IndexOf(node.linkstarts, i);
      if !found {
        NothingLeftFrom(links, polys, p, left[p], i, x, y);
        NoItems(links, polys);
        return;
      }
      ghost var before := left;
      left := TakeLink(node, j, x, y, reslist, spots, links, p, before);
      TakenFirst(links, polys, p, before[p], j, i, x, y);
      WithoutShorter(before[p], j);
      SameButTwice(lists, before, left, Sub(links, p));
    }
  }

  lemma WithoutShorter(s: seq<nat>, j: nat)
    requires j < |s|
    ensures |Without(s, j)| < |s|
  {
  }

  /** The walk has come to the c-th corner after start, from where the lists were full. */
  ghost predicate OnTheWay(spots: seq<Polynode>, links: seq<Link>, lists: Lists, left: Lists, p: nat, start: nat,
                           c: nat) {
    && Walking(spots, links, left, p) && SameBut(lists, left, Sub(links, p))
    && start < |spots[p].poly| && StillToTake(links, p, left[p], start, c, |spots[p].poly|)
  }

  lemma OnTheWayStarts(spots: seq<Polynode>, links: seq<Link>, lists: Lists, p: nat, start: nat)
    requires IsTree(links, PolysOf(spots)) && Ordered(links) && Distinct(spots) && p < |spots| == |lists|
    requires Full(links, lists, Sub(links, p)) && start < |spots[p].poly|
    ensures OnTheWay(spots, links, lists, lists, p, start, 0)
  {
    StartWalk(spots, links, lists, p);
    AllToTake(links, p, start, |spots[p].poly|);
    hide Walking;
    hide StillToTake;
    hide Sub;
    hide KidsOf;
  }

  lemma OnTheWayOn(spots: seq<Polynode>, links: seq<Link>, lists: Lists, before: Lists, left: Lists, p: nat, start: nat,
                   c: nat)
    requires OnTheWay(spots, links, lists, before, p, start, c) && c < |spots[p].poly|
    requires Walking(spots, links, left, p) && SameBut(before, left, Sub(links, p))
    requires forall h: nat :: h != Corner(start, c, |spots[p].poly|) ==>
               From(links, left[p], h) == From(links, before[p], h)
    ensures OnTheWay(spots, links, lists, left, p, start, c + 1)
  {
    LessToTake(links, p, before[p], left[p], start, c, |spots[p].poly|);
    SameButTwice(lists, before, left, Sub(links, p));
    hide Sub;
    hide From;
    hide StillToTake;
    hide SameBut;
    hide IsTree;
    hide Full;
  }

  /** One turn of the outer loop: the links from corner i, then the side. */
  method TakeCorner(node: Polynode, i: nat, x: int, y: int, reslist: PointList, ghost start: nat, ghost c: nat,
                    ghost spots: seq<Polynode>, ghost links: seq<Link>, ghost p: nat, ghost lists: Lists,
                    ghost before: Lists)
    returns (newX: int, newY: int, ghost left: Lists)
    requires p < |spots| && node == spots[p] && OnTheWay(spots, links, lists, before, p, start, c)
    requires HoldLists(spots, links, before) && c < |node.poly| && i == Corner(start, c, |node.poly|)
    modifies reslist, spots`linkstarts, spots`linktargets
    ensures HoldLists(spots, links, left) && OnTheWay(spots, links, lists, left, p, start, c + 1)
    ensures IsTree(links, PolysOf(spots))
    ensures reslist.points + Items(links, PolysOf(spots), Sides(links, PolysOf(spots), p, start, c + 1, newX, newY))
            == old(reslist.points) + Items(links, PolysOf(spots), Sides(links, PolysOf(spots), p, start, c, x, y))
    decreases |spots| - p, 2
  {
    hide Corner;
    hide DirX;
    hide DirY;
    hide HoldLists;
    hide SameBut;
    hide Sub;
    hide Full;
    hide From;
    hide Items;
    hide KidsOf;
    hide Increasing;
    hide StillToTake;
    hide InSub;
    hide Below;
    hide Distinct;
    SideFirst(links, PolysOf(spots), p, start, c, before[p], x, y);
    hide Sides;
    hide BranchesFrom;
    hide IsTree;
    left := TakeLinks(node, i, x, y, reslist, spots, links, p, before);
    OnTheWayOn(spots, links, lists, before, left, p, start, c);
    var dx, dy := DirX(node.poly[i].dir), DirY(node.poly[i].dir);
    reslist.Append(Item(x, y, dx, dy, false));
    newX, newY := x + dx, y + dy;
    OneMoreItem(old(reslist.points),
                Items(links, PolysOf(spots), BranchesFrom(links, PolysOf(spots), p, before[p], i, x, y)),
                Item(x, y, dx, dy, false),
                Items(links, PolysOf(spots), Sides(links, PolysOf(spots), p, start, c + 1, newX, newY)));
  }

  lemma OneMoreItem(points: seq<Item>, links: seq<Item>, side: Item, rest: seq<Item>)
    ensures points + links + [side] + rest == points + (links + [side] + rest)
  {
  }

  /** traverse: appends the tour from corner start of the node's polygon, which is at (x0, y0). */
  method Traverse(node: Polynode, x0: int, y0: int, start: nat, reslist: PointList,
                  ghost spots: seq<Polynode>, ghost links: seq<Link>, ghost p: nat, ghost lists: Lists)
    returns (ghost left: Lists)
    requires IsTree(links, PolysOf(spots)) && Ordered(links) && Distinct(spots) && p < |spots| && node == spots[p] &&
             start < |node.poly|
    requires HoldLists(spots, links, lists) && Full(links, lists, Sub(links, p))
    modifies reslist, spots`linkstarts, spots`linktargets
    ensures HoldLists(spots, links, left) && SameBut(lists, left, Sub(links, p))
    ensures reslist.points
            == old(reslist.points) + Items(links, PolysOf(spots), Tour(links, PolysOf(spots), p, start, x0, y0))
    decreases |spots| - p, 3
  {
    hide Corner;
    hide Following;
    hide HoldLists;
    hide Sub;
    hide Full;
    hide Sides;
    hide Items;
    hide IsTree;
    hide Ordered;
    hide Distinct;
    hide OnTheWay;
    hide SameBut;
    SameLength(spots, links, lists);
    OnTheWayStarts(spots, links, lists, p, start);
    ghost var goal := reslist.points + Items(links, PolysOf(spots), Tour(links, PolysOf(spots), p, start, x0, y0));
    assert goal == reslist.points + Items(links, PolysOf(spots), Sides(links, PolysOf(spots), p, start, 0, x0, y0));
    hide Tour;
    var i, x, y := start, x0, y0;
    ghost var c := 0;
    left := lists;
    AtStart(start, |node.poly|);
    while true
      invariant c < |node.poly| && i == Corner(start, c, |node.poly|)
      invariant HoldLists(spots, links, left) && OnTheWay(spots, links, lists, left, p, start, c)
      invariant goal == reslist.points + Items(links, PolysOf(spots), Sides(links, PolysOf(spots), p, start, c, x, y))
      decreases |node.poly| - c
    {
      x, y, left := TakeCorner(node, i, x, y, reslist, start, c, spots, links, p, lists, left);
      NextCorner(start, c, |node.poly|);
      i := Following(i, |node.poly|);
      c := c + 1;
      if i == start {
        NoSidesLeft(links, PolysOf(spots), p, start, x, y);
        NoItems(links, PolysOf(spots));
        OnTheWayKeeps(spots, links, lists, left, p, start, c);
        return;
      }
    }
  }

  lemma OnTheWayKeeps(spots: seq<Polynode>, links: seq<Link>, lists: Lists, left: Lists, p: nat, start: nat, c: nat)
    requires p < |spots| && OnTheWay(spots, links, lists, left, p, start, c)
    ensures SameBut(lists, left, Sub(links, p))
  {
    hide Sub;
  }

  lemma SameLength(spots: seq<Polynode>, links: seq<Link>, lists: Lists)
    requires HoldLists(spots, links, lists)
    ensures |lists| == |spots|
  {
  }

  lemma NoItems(links: seq<Link>, polys: seq<Poly>)
    ensures Items(links, polys, []) == []
  {
  }

  /** The corner after corner i. */
  function Following(i: nat, n: nat): nat
    requires n > 0
  {
    (i + 1) % n
  }

  lemma AtStart(start: nat, n: nat)
    requires start < n
    ensures start == Corner(start, 0, n)
  {
  }

  lemma NextCorner(start: nat, c: nat, n: nat)
    requires start < n && c < n
    ensures Following(Corner(start, c, n), n) == Corner(start, c + 1, n)
    ensures Corner(start, c + 1, n) == start <==> c + 1 == n
  {
    ModAdd(start + c, 1, n);
    var t := start + c + 1;
    if t < n {
      ModIs(t, 0, t, n);
    } else {
      ModIs(t, 1, t - n, n);
    }
  }

  lemma NoSidesLeft(links: seq<Link>, polys: seq<Poly>, p: nat, start: nat, x: int, y: int)
    requires IsTree(links, polys) && p < |polys| && start < |polys[p]|
    ensures Sides(links, polys, p, start, |polys[p]|, x, y) == []
  {
  }

  ghost predicate AllStillFrom(links: seq<Link>, p: nat, rest: seq<nat>, i: nat)
    requires AreKids(links, p, rest)
  {
    From(links, rest, i) == From(links, KidsOf(links, p), i)
  }

  /** The corners that are still ahead have all their links. */
  ghost predicate StillToTake(links: seq<Link>, p: nat, rest: seq<nat>, start: nat, c: nat, n: nat)
    requires start < n && AreKids(links, p, rest)
  {
    forall d: nat :: c <= d < n ==> AllStillFrom(links, p, rest, Corner(start, d, n))
  }

  lemma LessToTake(links: seq<Link>, p: nat, rest: seq<nat>, left: seq<nat>, start: nat, c: nat, n: nat)
    requires start < n && c < n && AreKids(links, p, rest) && AreKids(links, p, left) &&
             StillToTake(links, p, rest, start, c, n)
    requires forall h: nat :: h != Corner(start, c, n) ==> From(links, left, h) == From(links, rest, h)
    ensures StillToTake(links, p, left, start, c + 1, n)
  {
    hide From;
    hide KidsOf;
    forall d: nat | c + 1 <= d < n
      ensures AllStillFrom(links, p, left, Corner(start, d, n))
    {
      DifferentCorners(start, c, d, n);
      assert AllStillFrom(links, p, rest, Corner(start, d, n));
    }
  }

  lemma DifferentCorners(start: nat, c: nat, d: nat, n: nat)
    requires start < n && c < d < n
    ensures Corner(start, c, n) != Corner(start, d, n)
  {
    if start + c < n {
      ModIs(start + c, 0, start + c, n);
    } else {
      ModIs(start + c, 1, start + c - n, n);
    }
    if start + d < n {
      ModIs(start + d, 0, start + d, n);
    } else {
      ModIs(start + d, 1, start + d - n, n);
    }
  }

  lemma SideFirst(links: seq<Link>, polys: seq<Poly>, p: nat, start: nat, c: nat, rest: seq<nat>, x: int, y: int)
    requires IsTree(links, polys) && p < |polys| && start < |polys[p]| && c < |polys[p]|
    requires AreKids(links, p, rest) && StillToTake(links, p, rest, start, c, |polys[p]|)
    ensures var i := Corner(start, c, |polys[p]|);
            var dx, dy := DirX(polys[p][i].dir), DirY(polys[p][i].dir);
            Items(links, polys, Sides(links, polys, p, start, c, x, y))
            == Items(links, polys, BranchesFrom(links, polys, p, rest, i, x, y)) + [Item(x, y, dx, dy, false)]
               + Items(links, polys, Sides(links, polys, p, start, c + 1, x + dx, y + dy))
  {
    var i := Corner(start, c, |polys[p]|);
    var dx, dy := DirX(polys[p][i].dir), DirY(polys[p][i].dir);
    hide From;
    hide KidsOf;
    assert AllStillFrom(links, p, rest, Corner(start, c, |polys[p]|));
    var a, b := BranchesFrom(links, polys, p, rest, i, x, y), Sides(links, polys, p, start, c + 1, x + dx, y + dy);
    assert Sides(links, polys, p, start, c, x, y) == a + [Placed(x, y, Side(p, i))] + b;
    hide Sides;
    hide Branches;
    ItemsConcat(links, polys, a + [Placed(x, y, Side(p, i))], b);
    ItemsConcat(links, polys, a, [Placed(x, y, Side(p, i))]);
    assert Items(links, polys, [Placed(x, y, Side(p, i))]) == [Item(x, y, dx, dy, false)];
  }

  lemma SubOfItself(links: seq<Link>, p: nat)
    requires Ordered(links)
    ensures InSub(links, p, p)
  {
  }

  lemma AllToTake(links: seq<Link>, p: nat, start: nat, n: nat)
    requires start < n && AreKids(links, p, KidsOf(links, p))
    ensures StillToTake(links, p, KidsOf(links, p), start, 0, n)
  {
    hide From;
    hide KidsOf;
  }

  lemma StartWalk(spots: seq<Polynode>, links: seq<Link>, lists: Lists, p: nat)
    requires IsTree(links, PolysOf(spots)) && Ordered(links) && Distinct(spots) && p < |spots| == |lists|
    requires Full(links, lists, Sub(links, p))
    ensures Walking(spots, links, lists, p) && lists[p] == KidsOf(links, p)
  {
    KidsAre(links, p);
    hide Kids;
    SubOfItself(links, p);
    var ks := KidsOf(links, p);
    hide InSub;
    hide IsTree;
    hide Distinct;
    assert p in Sub(links, p);
    forall q | q in Below(links, ks)
      ensures q in Sub(links, p)
    {
      var j :| 0 <= j < |ks| && InSub(links, ks[j] + 1, q);
      KidInSub(links, ks[j], q);
    }
  }
}
