/** poly_link: the polygons of a part are linked where they come closest, one polygon at a time. */
module PolyLink {
  import opened Tracing
  import opened FindMin
  import opened SpanningTree

  // ---------------------------------------------------- how far apart two polygons are

  ghost predicate JoinedAt(shifts: Shifts, a: Poly, b: Poly, n: nat) {
    exists r: Nearest :: r.d == n && Joins(shifts, a, b, r)
  }

  ghost function LeastFrom(shifts: Shifts, a: Poly, b: Poly, n: nat, top: nat): (least: nat)
    requires n <= top && JoinedAt(shifts, a, b, top)
    ensures n <= least <= top && JoinedAt(shifts, a, b, least)
    ensures forall i: nat :: n <= i < least ==> !JoinedAt(shifts, a, b, i)
    decreases top - n
  {
    if JoinedAt(shifts, a, b, n) then n else LeastFrom(shifts, a, b, n + 1, top)
  }

  /** The least squared length of a vector from a point of a to an image of a point of b. */
  ghost function Gap(shifts: Shifts, a: Poly, b: Poly): (n: nat)
    ensures forall i: nat :: JoinedAt(shifts, a, b, i) ==> n <= i && JoinedAt(shifts, a, b, n)
  {
    if top: nat :| JoinedAt(shifts, a, b, top) then
      LeastFrom(shifts, a, b, 0, top)
    else 0
  }

  lemma NoneCloserThan(shifts: Shifts, a: Poly, b: Poly, n: int, r: Nearest)
    requires NoneCloser(shifts, a, b, n) && Joins(shifts, a, b, r)
    ensures r.d >= n
  {
    hide Norm2;
    var x, y := b[r.l].x - a[r.k].x, b[r.l].y - a[r.k].y;
    assert NoImageBelow(shifts, x, y, n);
    assert shifts((r.dx - x, r.dy - y));
    assert x + (r.dx - x) == r.dx && y + (r.dy - y) == r.dy;
    assert Norm2(x + (r.dx - x), y + (r.dy - y)) >= n;
  }

  lemma GapIs(shifts: Shifts, a: Poly, b: Poly, r: Nearest)
    requires Joins(shifts, a, b, r) && NoneCloser(shifts, a, b, r.d)
    ensures Gap(shifts, a, b) == r.d
  {
    hide Joins;
    hide NoneCloser;
    assert JoinedAt(shifts, a, b, r.d);
    var least: Nearest :| least.d == Gap(shifts, a, b) && Joins(shifts, a, b, least);
    NoneCloserThan(shifts, a, b, r.d, least);
  }

  /** Some vector leads from a to b, and the gap is the length of one. */
  lemma GapJoins(wrap: Vector -> Vector, shifts: Shifts, a: Poly, b: Poly) returns (r: Nearest)
    requires Shortest(wrap, shifts) && a != [] && b != []
    ensures Joins(shifts, a, b, r) && r.d == Gap(shifts, a, b) <= Apart(wrap, a[0], b[0])
  {
    var v := wrap((b[0].x - a[0].x, b[0].y - a[0].y));
    var s := Nearest(Norm2(v.0, v.1), 0, 0, v.0, v.1);
    NamesJoins(wrap, shifts, a, b, s);
    assert JoinedAt(shifts, a, b, s.d);
    r :| r.d == Gap(shifts, a, b) && Joins(shifts, a, b, r);
  }

  lemma GapAtLeast(wrap: Vector -> Vector, shifts: Shifts, a: Poly, b: Poly, n: int)
    requires Shortest(wrap, shifts) && a != [] && b != [] && NoneCloser(shifts, a, b, n)
    ensures Gap(shifts, a, b) >= n
  {
    hide Shortest;
    hide Joins;
    hide NoneCloser;
    var r := GapJoins(wrap, shifts, a, b);
    NoneCloserThan(shifts, a, b, n, r);
  }

  lemma GapSymmetric(shifts: Shifts, a: Poly, b: Poly)
    requires Symmetric(shifts)
    ensures Gap(shifts, a, b) == Gap(shifts, b, a)
  {
    hide Joins;
    hide Symmetric;
    if n: nat :| JoinedAt(shifts, a, b, n) {
      GapNotLess(shifts, a, b);
    }
    if n: nat :| JoinedAt(shifts, b, a, n) {
      GapNotLess(shifts, b, a);
    }
  }

  lemma GapNotLess(shifts: Shifts, a: Poly, b: Poly)
    requires Symmetric(shifts) && JoinedAt(shifts, a, b, Gap(shifts, a, b))
    ensures Gap(shifts, b, a) <= Gap(shifts, a, b) && JoinedAt(shifts, b, a, Gap(shifts, a, b))
  {
    hide Joins;
    hide Symmetric;
    var r: Nearest :| r.d == Gap(shifts, a, b) && Joins(shifts, a, b, r);
    JoinsSwapped(shifts, a, b, r);
    assert JoinedAt(shifts, b, a, Swapped(r).d);
  }

  // ---------------------------------------------------------------------------- nodes

  /** A link: the point of the target's polygon that it leads to, and the way there. */
  datatype Target = Target(targetnode: Polynode, targetindex: nat, dx: int, dy: int)

  /** The closest linked polygon so far: squared distance, points, way, and the node. */
  datatype Closest = Closest(d: nat, k: nat, l: nat, dx: int, dy: int, from: Option<Polynode>)

  /** More than any distance. */
  const FARTHEST: nat :=
    1_0000000000_0000000000_0000000000_0000000000_0000000000_0000000000_0000000000_0000000000_0000000000_00000000

  class Polynode {
    const poly: Poly
    var linkstarts: seq<nat>
    var linktargets: seq<Target>
    var dist: Closest

    constructor (poly: Poly)
      ensures this.poly == poly && linkstarts == [] && linktargets == [] && dist == Closest(FARTHEST, 0, 0, 0, 0, None)
    {
      this.poly := poly;
      linkstarts, linktargets := [], [];
      dist := Closest(FARTHEST, 0, 0, 0, 0, None);
    }
  }

  /** t's closest linked polygon is right, given that the polygons of spots are linked. */
  ghost predicate Knows(shifts: Shifts, spots: seq<Polynode>, t: Polynode)
    reads t`dist
  {
    && (forall i :: 0 <= i < |spots| ==> t.dist.d <= Gap(shifts, spots[i].poly, t.poly))
    && (t.dist.from.None? ==> spots == [] && t.dist.d == FARTHEST)
    && (t.dist.from.Some? ==> t.dist.from.value in spots && IsClosest(shifts, t.dist.from.value.poly, t.poly, t.dist))
  }

  ghost predicate IsClosest(shifts: Shifts, a: Poly, b: Poly, c: Closest) {
    Joins(shifts, a, b, Nearest(c.d, c.k, c.l, c.dx, c.dy)) && c.d == Gap(shifts, a, b)
  }

  ghost predicate AllKnow(shifts: Shifts, spots: seq<Polynode>, totlist: seq<Polynode>)
    reads totlist`dist
  {
    forall j :: 0 <= j < |totlist| ==> Knows(shifts, spots, totlist[j])
  }

  /** What findmin asks of the polygons and the distance function. */
  ghost predicate Measurable(wrap: Vector -> Vector, shifts: Shifts, root: nat -> real, limit: nat, polys: seq<Poly>) {
    && Symmetric(shifts) && Shortest(wrap, shifts) && limit < FARTHEST
    && (forall i :: 0 <= i < |polys| ==> polys[i] != [] && Gradual(polys[i]))
    && forall i, j :: 0 <= i < |polys| && 0 <= j < |polys| ==> InRange(wrap, polys[i], polys[j], root, limit)
  }

  /** Two polygons that findmin can be asked about. */
  ghost predicate Comparable(wrap: Vector -> Vector, shifts: Shifts, root: nat -> real, limit: nat, a: Poly, b: Poly) {
    && Symmetric(shifts) && Shortest(wrap, shifts) && limit < FARTHEST && a != [] && b != [] && Gradual(a) && Gradual(b)
    && InRange(wrap, a, b, root, limit) && InRange(wrap, b, a, root, limit)
  }

  lemma AreComparable(wrap: Vector -> Vector, shifts: Shifts, root: nat -> real, limit: nat, polys: seq<Poly>, a: Poly,
                      b: Poly)
    requires Measurable(wrap, shifts, root, limit, polys) && a in polys && b in polys
    ensures Comparable(wrap, shifts, root, limit, a, b)
  {
    hide Symmetric;
    hide Shortest;
    hide InRange;
    hide Gradual;
  }

  lemma GapFits(wrap: Vector -> Vector, shifts: Shifts, root: nat -> real, limit: nat, a: Poly, b: Poly)
    requires Comparable(wrap, shifts, root, limit, a, b)
    ensures Gap(shifts, a, b) < FARTHEST
  {
    hide Symmetric;
    hide Shortest;
    hide Gradual;
    hide Apart;
    hide Joins;
    hide Accurate;
    var r := GapJoins(wrap, shifts, a, b);
    assert a[0] in a && b[0] in b;
  }

  /** Looks for a closer pair between the polygon linked last and that of t. */
  method Update(t: Polynode, last: Polynode, wrap: Vector -> Vector, root: nat -> real,
                ghost shifts: Shifts, ghost limit: nat, ghost front: seq<Polynode>)
    requires Comparable(wrap, shifts, root, limit, last.poly, t.poly) && Knows(shifts, front, t)
    modifies t`dist
    ensures Knows(shifts, front + [last], t)
  {
    hide Symmetric;
    hide Shortest;
    hide InRange;
    hide Gradual;
    hide Joins;
    hide NoneCloser;
    var result := FindMin.FindMin(last.poly, t.poly, t.dist.d, wrap, root, shifts, limit);
    GapFits(wrap, shifts, root, limit, last.poly, t.poly);
    if result.Some? {
      var r := result.value;
      GapIs(shifts, last.poly, t.poly, r);
      assert Nearest(r.d, r.k, r.l, r.dx, r.dy) == r;
      t.dist := Closest(r.d, r.k, r.l, r.dx, r.dy, Some(last));
    } else {
      GapAtLeast(wrap, shifts, last.poly, t.poly, t.dist.d);
    }
  }

  // ----------------------------------------------------------------------------- links

  /** The k-th link, from the polygon in place parent to the polygon in place k + 1. */
  datatype Link = Link(parent: nat, start: nat, target: nat, dx: int, dy: int, d: nat)

  ghost function PolysOf(nodes: seq<Polynode>): (polys: seq<Poly>)
    ensures |polys| == |nodes| && forall i :: 0 <= i < |nodes| ==> polys[i] == nodes[i].poly
  {
    seq(|nodes|, i requires 0 <= i < |nodes| => nodes[i].poly)
  }

  /** Link k leads from an earlier polygon to polygon k + 1, where these are closest. */
  ghost predicate LinksPolys(shifts: Shifts, links: seq<Link>, polys: seq<Poly>) {
    && |links| + 1 == |polys|
    && forall k :: 0 <= k < |links| ==> LinksTo(shifts, links[k], k, polys)
  }

  ghost predicate LinksTo(shifts: Shifts, link: Link, k: nat, polys: seq<Poly>)
    requires k + 1 < |polys|
  {
    && link.parent <= k
    && Joins(shifts, polys[link.parent], polys[k + 1], Nearest(link.d, link.start, link.target, link.dx, link.dy))
    && link.d == Gap(shifts, polys[link.parent], polys[k + 1])
  }

  /** No gap from one of the first k + 1 polygons to t is less than link k. */
  ghost predicate NotBeyond(shifts: Shifts, links: seq<Link>, k: nat, polys: seq<Poly>, t: Poly)
    requires k < |links| && k < |polys|
  {
    forall i :: 0 <= i <= k ==> links[k].d <= Gap(shifts, polys[i], t)
  }

  /** Each link was the shortest out of the polygons linked before it. */
  ghost predicate ShortestOut(shifts: Shifts, links: seq<Link>, polys: seq<Poly>)
    requires |links| + 1 == |polys|
  {
    forall k, j :: 0 <= k < |links| && k < j < |polys| ==> NotBeyond(shifts, links, k, polys, polys[j])
  }

  ghost predicate ShortestToRest(shifts: Shifts, links: seq<Link>, polys: seq<Poly>, totlist: seq<Polynode>)
    requires |links| + 1 == |polys|
  {
    forall k, j :: 0 <= k < |links| && 0 <= j < |totlist| ==> NotBeyond(shifts, links, k, polys, totlist[j].poly)
  }

  /** The numbers of the links from the polygon in place p. */
  function Kids(links: seq<Link>, p: nat): seq<nat> {
    if links == [] then []
    else Kids(links[..|links| - 1], p) + if links[|links| - 1].parent == p then [|links| - 1] else []
  }

  /** The node holds the links ks. */
  ghost predicate HoldsKids(node: Polynode, ks: seq<nat>, spots: seq<Polynode>, links: seq<Link>)
    reads node`linkstarts, node`linktargets
  {
    && |node.linkstarts| == |node.linktargets| == |ks|
    && forall j :: 0 <= j < |ks| ==>
         && ks[j] < |links| && ks[j] + 1 < |spots| && node.linkstarts[j] == links[ks[j]].start
         && node.linktargets[j] == Target(spots[ks[j] + 1], links[ks[j]].target, links[ks[j]].dx, links[ks[j]].dy)
  }

  ghost predicate HoldsLinks(spots: seq<Polynode>, links: seq<Link>)
    reads spots`linkstarts, spots`linktargets
  {
    forall p :: 0 <= p < |spots| ==> HoldsKids(spots[p], Kids(links, p), spots, links)
  }

  ghost predicate NoLinks(t: Polynode)
    reads t`linkstarts, t`linktargets
  {
    t.linkstarts == [] && t.linktargets == []
  }

  ghost predicate Distinct(nodes: seq<Polynode>) {
    forall i, j :: 0 <= i < j < |nodes| ==> nodes[i] != nodes[j]
  }

  /** The linked nodes and those that are left are all different, and have the given polygons between them. */
  ghost predicate Sorted(spots: seq<Polynode>, totlist: seq<Polynode>, polys: seq<Poly>) {
    && Distinct(spots + totlist)
    && multiset(PolysOf(spots + totlist)) == multiset(polys)
  }

  function Without<T>(s: seq<T>, m: nat): seq<T>
    requires m < |s|
  {
    s[..m] + s[m + 1..]
  }

  /** a with its entry c + m moved forward to place c. */
  function Forward<T>(a: seq<T>, c: nat, m: nat): (b: seq<T>)
    requires c + m < |a|
    ensures |b| == |a|
    ensures forall i :: 0 <= i < |a| ==> b[i] == a[ForwardFrom(c, m, i)]
  {
    a[..c] + [a[c + m]] + a[c..c + m] + a[c + m + 1..]
  }

  function ForwardFrom(c: nat, m: nat, i: nat): nat {
    if i == c then c + m else if c < i <= c + m then i - 1 else i
  }

  lemma ForwardKeepsElements<T>(a: seq<T>, c: nat, m: nat)
    requires c + m < |a|
    ensures multiset(Forward(a, c, m)) == multiset(a)
  {
    assert a == a[..c] + a[c..c + m] + [a[c + m]] + a[c + m + 1..];
  }

  lemma ForwardDistinct(a: seq<Polynode>, c: nat, m: nat)
    requires c + m < |a| && Distinct(a)
    ensures Distinct(Forward(a, c, m))
  {
    var b := Forward(a, c, m);
    forall i, j | 0 <= i < j < |b|
      ensures b[i] != b[j]
    {
      var i', j' := ForwardFrom(c, m, i), ForwardFrom(c, m, j);
      assert i' != j' && b[i] == a[i'] && b[j] == a[j'];
      assert i' < j' || j' < i';
    }
  }

  lemma MovedNode(spots: seq<Polynode>, totlist: seq<Polynode>, polys: seq<Poly>, m: nat)
    requires Sorted(spots, totlist, polys) && m < |totlist|
    ensures Sorted(spots + [totlist[m]], Without(totlist, m), polys)
  {
    var a, b, c := spots + totlist, spots + [totlist[m]] + Without(totlist, m), |spots|;
    MovedIsForward(spots, totlist, m);
    ForwardDistinct(a, c, m);
    ForwardKeepsElements(PolysOf(a), c, m);
    PolysForward(a, c, m);
    hide Forward;
    hide Distinct;
    hide PolysOf;
  }

  lemma MovedIsForward(spots: seq<Polynode>, totlist: seq<Polynode>, m: nat)
    requires m < |totlist|
    ensures spots + [totlist[m]] + Without(totlist, m) == Forward(spots + totlist, |spots|, m)
  {
    var a, c := spots + totlist, |spots|;
    assert a[..c] == spots && a[c..c + m] == totlist[..m] && a[c + m + 1..] == totlist[m + 1..];
  }

  lemma PolysForward(a: seq<Polynode>, c: nat, m: nat)
    requires c + m < |a|
    ensures PolysOf(Forward(a, c, m)) == Forward(PolysOf(a), c, m)
  {
  }

  // ------------------------------------------------------------------ the linking loop

  lemma {:induction false} KidsAre(links: seq<Link>, p: nat)
    ensures forall k :: k in Kids(links, p) <==> 0 <= k < |links| && links[k].parent == p
    ensures forall i, j :: 0 <= i < j < |Kids(links, p)| ==> Kids(links, p)[i] < Kids(links, p)[j]
  {
    if links != [] {
      var front := Kids(links[..|links| - 1], p);
      KidsAre(links[..|links| - 1], p);
      assert forall i :: 0 <= i < |front| ==> front[i] in front;
      assert forall i :: 0 <= i < |front| ==> Kids(links, p)[i] == front[i];
    }
  }

  lemma KidsSnoc(links: seq<Link>, link: Link, p: nat)
    ensures Kids(links + [link], p) == Kids(links, p) + if link.parent == p then [|links|] else []
  {
    assert (links + [link])[..|links|] == links;
  }

  method UpdateAll(totlist: seq<Polynode>, last: Polynode, wrap: Vector -> Vector, root: nat -> real,
                   ghost shifts: Shifts, ghost limit: nat, ghost front: seq<Polynode>)
    requires Distinct(totlist) && AllKnow(shifts, front, totlist)
    requires forall j :: 0 <= j < |totlist| ==> Comparable(wrap, shifts, root, limit, last.poly, totlist[j].poly)
    modifies totlist`dist
    ensures AllKnow(shifts, front + [last], totlist)
  {
    hide Comparable;
    hide Knows;
    for j := 0 to |totlist|
      invariant forall i :: 0 <= i < j ==> Knows(shifts, front + [last], totlist[i])
      invariant forall i :: j <= i < |totlist| ==> Knows(shifts, front, totlist[i])
    {
      Update(totlist[j], last, wrap, root, shifts, limit, front);
    }
  }

  /** The node that is closest to the linked ones; the first of them if there are several. */
  method Select(totlist: seq<Polynode>) returns (m: nat)
    requires totlist != [] && forall j :: 0 <= j < |totlist| ==> totlist[j].dist.d <= FARTHEST
    ensures m < |totlist| && forall j :: 0 <= j < |totlist| ==> totlist[m].dist.d <= totlist[j].dist.d
    ensures forall j :: 0 <= j < m ==> totlist[m].dist.d < totlist[j].dist.d
  {
    var mindist := 10 * FARTHEST;
    m := 0;
    for j := 0 to |totlist|
      invariant j > 0 ==> m < j && mindist == totlist[m].dist.d
      invariant j == 0 ==> mindist == 10 * FARTHEST
      invariant forall i :: 0 <= i < j ==> mindist <= totlist[i].dist.d
      invariant forall i :: 0 <= i < m && i < j ==> mindist < totlist[i].dist.d
    {
      if totlist[j].dist.d < mindist {
        m := j;
        mindist := totlist[j].dist.d;
      }
    }
  }

  /** The state of the loop, apart from what the nodes hold. */
  ghost predicate Linked(shifts: Shifts, links: seq<Link>, spots: seq<Polynode>, totlist: seq<Polynode>) {
    && LinksPolys(shifts, links, PolysOf(spots))
    && ShortestOut(shifts, links, PolysOf(spots)) && ShortestToRest(shifts, links, PolysOf(spots), totlist)
  }

  /** Linking the closest node keeps each link the shortest out of those before it. */
  lemma LinkedOneMore(shifts: Shifts, links: seq<Link>, spots: seq<Polynode>, totlist: seq<Polynode>, m: nat,
                      link: Link)
    requires Linked(shifts, links, spots, totlist) && m < |totlist|
    requires LinksTo(shifts, link, |links|, PolysOf(spots + [totlist[m]]))
    requires forall i, j :: 0 <= i < |spots| && 0 <= j < |totlist| ==>
               link.d <= Gap(shifts, spots[i].poly, totlist[j].poly)
    ensures Linked(shifts, links + [link], spots + [totlist[m]], Without(totlist, m))
  {
    LinksOneMore(shifts, links, spots, totlist[m], link);
    ShortestOutOneMore(shifts, links, spots, totlist, m, link);
    ShortestToRestOneMore(shifts, links, spots, totlist, m, link);
    hide LinksPolys;
    hide ShortestOut;
    hide ShortestToRest;
  }

  lemma ShortestOutOneMore(shifts: Shifts, links: seq<Link>, spots: seq<Polynode>, totlist: seq<Polynode>, m: nat,
                           link: Link)
    requires |links| + 1 == |spots| && m < |totlist|
    requires ShortestOut(shifts, links, PolysOf(spots)) && ShortestToRest(shifts, links, PolysOf(spots), totlist)
    requires forall i, j :: 0 <= i < |spots| && 0 <= j < |totlist| ==>
               link.d <= Gap(shifts, spots[i].poly, totlist[j].poly)
    ensures ShortestOut(shifts, links + [link], PolysOf(spots + [totlist[m]]))
  {
    hide NotBeyond;
    hide Gap;
    var links', spots' := links + [link], spots + [totlist[m]];
    forall k, j | 0 <= k < |links'| && k < j < |spots'|
      ensures NotBeyond(shifts, links', k, PolysOf(spots'), PolysOf(spots')[j])
    {
      if j < |spots| {
        assert NotBeyond(shifts, links, k, PolysOf(spots), PolysOf(spots)[j]);
        BeyondOneMore(shifts, links, spots, totlist[m], link, k, spots[j].poly);
      } else {
        NewNotBeyond(shifts, links, spots, totlist, m, link, k, m);
      }
    }
  }

  lemma ShortestToRestOneMore(shifts: Shifts, links: seq<Link>, spots: seq<Polynode>, totlist: seq<Polynode>, m: nat,
                              link: Link)
    requires |links| + 1 == |spots| && m < |totlist| && ShortestToRest(shifts, links, PolysOf(spots), totlist)
    requires forall i, j :: 0 <= i < |spots| && 0 <= j < |totlist| ==>
               link.d <= Gap(shifts, spots[i].poly, totlist[j].poly)
    ensures ShortestToRest(shifts, links + [link], PolysOf(spots + [totlist[m]]), Without(totlist, m))
  {
    hide NotBeyond;
    hide Gap;
    var links', spots', totlist' := links + [link], spots + [totlist[m]], Without(totlist, m);
    forall k, j | 0 <= k < |links'| && 0 <= j < |totlist'|
      ensures NotBeyond(shifts, links', k, PolysOf(spots'), totlist'[j].poly)
    {
      var j' := if j < m then j else j + 1;
      assert totlist'[j] == totlist[j'];
      NewNotBeyond(shifts, links, spots, totlist, m, link, k, j');
    }
  }

  lemma LinksOneMore(shifts: Shifts, links: seq<Link>, spots: seq<Polynode>, mink: Polynode, link: Link)
    requires LinksPolys(shifts, links, PolysOf(spots)) && LinksTo(shifts, link, |links|, PolysOf(spots + [mink]))
    ensures LinksPolys(shifts, links + [link], PolysOf(spots + [mink]))
  {
    hide Joins;
    hide Gap;
    var more := PolysOf(spots + [mink]);
    forall k | 0 <= k < |links| + 1
      ensures LinksTo(shifts, (links + [link])[k], k, more)
    {
      if k < |links| {
        assert LinksTo(shifts, links[k], k, PolysOf(spots));
      }
    }
  }

  lemma BeyondOneMore(shifts: Shifts, links: seq<Link>, spots: seq<Polynode>, mink: Polynode, link: Link, k: nat,
                      t: Poly)
    requires k < |links| && |links| + 1 == |spots| && NotBeyond(shifts, links, k, PolysOf(spots), t)
    ensures NotBeyond(shifts, links + [link], k, PolysOf(spots + [mink]), t)
  {
    hide Gap;
  }

  lemma NewNotBeyond(shifts: Shifts, links: seq<Link>, spots: seq<Polynode>, totlist: seq<Polynode>, m: nat, link: Link,
                     k: nat, j: nat)
    requires |links| + 1 == |spots| && m < |totlist| && j < |totlist| && k <= |links|
    requires ShortestToRest(shifts, links, PolysOf(spots), totlist)
    requires forall i :: 0 <= i < |spots| ==> link.d <= Gap(shifts, spots[i].poly, totlist[j].poly)
    ensures NotBeyond(shifts, links + [link], k, PolysOf(spots + [totlist[m]]), totlist[j].poly)
  {
    hide Gap;
    if k < |links| {
      BeyondOneMore(shifts, links, spots, totlist[m], link, k, totlist[j].poly);
    }
  }

  /** A node holds the same links when there is one more link and one more node. */
  lemma HoldsOneMore(spots: seq<Polynode>, mink: Polynode, links: seq<Link>, link: Link, node: Polynode, ks: seq<nat>)
    requires HoldsKids(node, ks, spots, links)
    ensures HoldsKids(node, ks, spots + [mink], links + [link])
  {
  }

  lemma NewestHasNoKids(links: seq<Link>, p: nat)
    requires (forall k :: 0 <= k < |links| ==> links[k].parent <= k) && p >= |links|
    ensures Kids(links, p) == []
  {
    KidsAre(links, p);
    if Kids(links, p) != [] {
      assert Kids(links, p)[0] in Kids(links, p);
    }
  }

  method Append(r: Polynode, mink: Polynode, ghost ks: seq<nat>, ghost spots: seq<Polynode>, ghost links: seq<Link>,
                ghost k: nat)
    requires HoldsKids(r, ks, spots, links) && k < |links| && k + 1 < |spots| && spots[k + 1] == mink
    requires mink.dist.k == links[k].start && mink.dist.l == links[k].target
    requires mink.dist.dx == links[k].dx && mink.dist.dy == links[k].dy
    modifies r`linkstarts, r`linktargets
    ensures HoldsKids(r, ks + [k], spots, links)
  {
    r.linkstarts := r.linkstarts + [mink.dist.k];
    r.linktargets := r.linktargets + [Target(mink, mink.dist.l, mink.dist.dx, mink.dist.dy)];
  }

  /** Records the link from r to mink; p is the place of r. */
  method AddLink(r: Polynode, mink: Polynode, ghost p: nat, ghost spots: seq<Polynode>, ghost links: seq<Link>,
                 ghost link: Link)
    requires Distinct(spots + [mink]) && p < |spots| && r == spots[p] && |links| + 1 == |spots| && link.parent == p
    requires HoldsLinks(spots, links) && NoLinks(mink) && forall k :: 0 <= k < |links| ==> links[k].parent <= k
    requires mink.dist.k == link.start && mink.dist.l == link.target && mink.dist.dx == link.dx &&
             mink.dist.dy == link.dy
    modifies r`linkstarts, r`linktargets
    ensures HoldsLinks(spots + [mink], links + [link])
  {
    ghost var spots', links' := spots + [mink], links + [link];
    HeldBefore(spots, mink, links, link);
    assert forall q :: 0 <= q < |spots'| && q != p ==> spots'[q] != spots'[p];
    hide HoldsKids;
    hide HoldsLinks;
    hide Distinct;
    hide Kids;
    Append(r, mink, Kids(links, p), spots', links', |links|);
    HeldAfter(spots', links, link);
  }

  /** Before the new link is added, the nodes hold the old links, the new node among them. */
  lemma HeldBefore(spots: seq<Polynode>, mink: Polynode, links: seq<Link>, link: Link)
    requires HoldsLinks(spots, links) && NoLinks(mink) && |links| + 1 == |spots|
    requires forall k :: 0 <= k < |links| ==> links[k].parent <= k
    ensures var spots', links' := spots + [mink], links + [link];
            forall q :: 0 <= q < |spots'| ==> HoldsKids(spots'[q], Kids(links, q), spots', links')
  {
    var spots', links' := spots + [mink], links + [link];
    hide Kids;
    hide HoldsKids;
    NewestHasNoKids(links, |spots|);
    NoneHeld(mink, spots', links');
    forall q | 0 <= q < |spots|
      ensures HoldsKids(spots'[q], Kids(links, q), spots', links')
    {
      assert HoldsKids(spots[q], Kids(links, q), spots, links);
      HoldsOneMore(spots, mink, links, link, spots[q], Kids(links, q));
    }
  }

  lemma NoneHeld(node: Polynode, spots: seq<Polynode>, links: seq<Link>)
    requires NoLinks(node)
    ensures HoldsKids(node, [], spots, links)
  {
  }

  /** Once the parent has the new link, the nodes hold all links. */
  lemma HeldAfter(spots: seq<Polynode>, links: seq<Link>, link: Link)
    requires forall q :: 0 <= q < |spots| ==>
               HoldsKids(spots[q], if q == link.parent then Kids(links, q) + [|links|] else Kids(links, q),
                         spots, links + [link])
    ensures HoldsLinks(spots, links + [link])
  {
    hide HoldsKids;
    hide Kids;
    forall q | 0 <= q < |spots|
      ensures HoldsKids(spots[q], Kids(links + [link], q), spots, links + [link])
    {
      KidsOneMore(links, link, q);
    }
  }

  lemma KidsOneMore(links: seq<Link>, link: Link, q: nat)
    ensures Kids(links + [link], q) == if link.parent == q then Kids(links, q) + [|links|] else Kids(links, q)
  {
    KidsSnoc(links, link, q);
    hide Kids;
    assert Kids(links, q) + [] == Kids(links, q);
  }

  /** The nodes of the polygons, in their order. */
  method MakeNodes(polys: seq<Poly>) returns (totlist: seq<Polynode>)
    ensures PolysOf(totlist) == polys && Distinct(totlist) && fresh(totlist)
    ensures forall j :: 0 <= j < |totlist| ==>
              NoLinks(totlist[j]) && totlist[j].dist.from.None? && totlist[j].dist.d == FARTHEST
  {
    totlist := [];
    for i := 0 to |polys|
      invariant |totlist| == i && fresh(totlist) && Distinct(totlist)
      invariant forall j :: 0 <= j < i ==> totlist[j].poly == polys[j]
      invariant forall j :: 0 <= j < i ==>
                  NoLinks(totlist[j]) && totlist[j].dist.from.None? && totlist[j].dist.d == FARTHEST
    {
      var node := new Polynode(polys[i]);
      totlist := totlist + [node];
    }
  }

  ghost predicate AllNoLinks(totlist: seq<Polynode>)
    reads totlist`linkstarts, totlist`linktargets
  {
    forall j :: 0 <= j < |totlist| ==> NoLinks(totlist[j])
  }

  lemma InSorted(spots: seq<Polynode>, totlist: seq<Polynode>, polys: seq<Poly>)
    requires Sorted(spots, totlist, polys)
    ensures forall i :: 0 <= i < |spots| ==> spots[i].poly in polys
    ensures forall i :: 0 <= i < |totlist| ==> totlist[i].poly in polys
    ensures Distinct(spots) && Distinct(totlist) && forall i, j :: 0 <= i < |spots| && 0 <= j < |totlist| ==>
              spots[i] != totlist[j]
  {
    var all := spots + totlist;
    assert forall i :: 0 <= i < |spots| ==> all[i] == spots[i];
    assert forall i :: 0 <= i < |totlist| ==> all[|spots| + i] == totlist[i];
    forall i | 0 <= i < |all|
      ensures all[i].poly in polys
    {
      assert PolysOf(all)[i] in multiset(PolysOf(all));
    }
  }

  lemma KnowsAbout(shifts: Shifts, spots: seq<Polynode>, totlist: seq<Polynode>, m: nat)
    requires AllKnow(shifts, spots, totlist) && m < |totlist| && spots != []
    requires forall j :: 0 <= j < |totlist| ==> totlist[m].dist.d <= totlist[j].dist.d
    ensures totlist[m].dist.from.Some? && totlist[m].dist.from.value in spots
    ensures IsClosest(shifts, totlist[m].dist.from.value.poly, totlist[m].poly, totlist[m].dist)
    ensures forall i, j :: 0 <= i < |spots| && 0 <= j < |totlist| ==>
              totlist[m].dist.d <= Gap(shifts, spots[i].poly, totlist[j].poly)
  {
    hide Gap;
    hide IsClosest;
    assert Knows(shifts, spots, totlist[m]);
    forall i, j | 0 <= i < |spots| && 0 <= j < |totlist|
      ensures totlist[m].dist.d <= Gap(shifts, spots[i].poly, totlist[j].poly)
    {
      assert Knows(shifts, spots, totlist[j]);
    }
  }

  lemma KnownDistances(shifts: Shifts, spots: seq<Polynode>, totlist: seq<Polynode>, wrap: Vector -> Vector,
                       root: nat -> real, limit: nat)
    requires AllKnow(shifts, spots, totlist) && spots != []
    requires forall j :: 0 <= j < |totlist| ==> Comparable(wrap, shifts, root, limit, spots[0].poly, totlist[j].poly)
    ensures forall j :: 0 <= j < |totlist| ==> totlist[j].dist.d <= FARTHEST
  {
    hide Gap;
    hide Comparable;
    hide IsClosest;
    forall j | 0 <= j < |totlist|
      ensures totlist[j].dist.d <= FARTHEST
    {
      assert Knows(shifts, spots, totlist[j]);
      GapFits(wrap, shifts, root, limit, spots[0].poly, totlist[j].poly);
    }
  }

  lemma AllComparable(wrap: Vector -> Vector, shifts: Shifts, root: nat -> real, limit: nat, polys: seq<Poly>,
                      a: Polynode, totlist: seq<Polynode>)
    requires Measurable(wrap, shifts, root, limit, polys) && a.poly in polys
    requires forall j :: 0 <= j < |totlist| ==> totlist[j].poly in polys
    ensures forall j :: 0 <= j < |totlist| ==> Comparable(wrap, shifts, root, limit, a.poly, totlist[j].poly)
  {
    hide Measurable;
    hide Comparable;
    forall j | 0 <= j < |totlist|
      ensures Comparable(wrap, shifts, root, limit, a.poly, totlist[j].poly)
    {
      AreComparable(wrap, shifts, root, limit, polys, a.poly, totlist[j].poly);
    }
  }

  /** The node to link next: of those that are left, the one that is closest to the linked ones. */
  method Choose(totlist: seq<Polynode>, last: Polynode, wrap: Vector -> Vector, root: nat -> real, ghost shifts: Shifts,
                ghost limit: nat, ghost polys: seq<Poly>, ghost spots: seq<Polynode>)
    returns (m: nat)
    requires Measurable(wrap, shifts, root, limit, polys) && Sorted(spots, totlist, polys)
    requires totlist != [] && spots != [] && last == spots[|spots| - 1] &&
             AllKnow(shifts, spots[..|spots| - 1], totlist)
    modifies totlist`dist
    ensures m < |totlist| && AllKnow(shifts, spots, totlist)
    ensures totlist[m].dist.from.Some? && totlist[m].dist.from.value in spots
    ensures IsClosest(shifts, totlist[m].dist.from.value.poly, totlist[m].poly, totlist[m].dist)
    ensures forall i, j :: 0 <= i < |spots| && 0 <= j < |totlist| ==>
              totlist[m].dist.d <= Gap(shifts, spots[i].poly, totlist[j].poly)
  {
    hide Measurable;
    hide Sorted;
    hide Comparable;
    hide IsClosest;
    hide Gap;
    InSorted(spots, totlist, polys);
    AllComparable(wrap, shifts, root, limit, polys, last, totlist);
    AllComparable(wrap, shifts, root, limit, polys, spots[0], totlist);
    hide AllKnow;
    UpdateAll(totlist, last, wrap, root, shifts, limit, spots[..|spots| - 1]);
    assert spots[..|spots| - 1] + [last] == spots;
    KnownDistances(shifts, spots, totlist, wrap, root, limit);
    m := Select(totlist);
    KnowsAbout(shifts, spots, totlist, m);
  }

  /** One turn of the loop: the closest of the nodes that are left is linked. */
  method LinkNext(totlist: seq<Polynode>, last: Polynode, wrap: Vector -> Vector, root: nat -> real,
                  ghost shifts: Shifts,
                  ghost limit: nat, ghost polys: seq<Poly>, ghost spots: seq<Polynode>, ghost links: seq<Link>)
    returns (m: nat, ghost link: Link)
    requires Measurable(wrap, shifts, root, limit, polys) && Sorted(spots, totlist, polys)
    requires totlist != [] && spots != [] && last == spots[|spots| - 1]
    requires AllKnow(shifts, spots[..|spots| - 1], totlist) && AllNoLinks(totlist) && HoldsLinks(spots, links)
    requires Linked(shifts, links, spots, totlist)
    modifies totlist`dist, spots`linkstarts, spots`linktargets
    ensures m < |totlist| && Sorted(spots + [totlist[m]], Without(totlist, m), polys)
    ensures AllKnow(shifts, spots, Without(totlist, m)) && AllNoLinks(Without(totlist, m))
    ensures HoldsLinks(spots + [totlist[m]], links + [link])
    ensures Linked(shifts, links + [link], spots + [totlist[m]], Without(totlist, m))
  {
    hide Measurable;
    hide Sorted;
    hide Knows;
    hide HoldsLinks;
    hide Linked;
    hide IsClosest;
    hide Gap;
    InSorted(spots, totlist, polys);
    m := Choose(totlist, last, wrap, root, shifts, limit, polys, spots);
    var mink := totlist[m];
    var r := mink.dist.from.value;
    ghost var p :| 0 <= p < |spots| && spots[p] == r;
    link := Link(p, mink.dist.k, mink.dist.l, mink.dist.dx, mink.dist.dy, mink.dist.d);
    MovedNode(spots, totlist, polys, m);
    InSorted(spots + [mink], Without(totlist, m), polys);
    ParentsBefore(shifts, links, spots, totlist);
    LinkIsGood(shifts, links, spots, mink, link, mink.dist);
    LinkedOneMore(shifts, links, spots, totlist, m, link);
    hide LinksTo;
    assert NoLinks(mink);
    AddLink(r, mink, p, spots, links, link);
    assert forall j :: 0 <= j < |Without(totlist, m)| ==> Without(totlist, m)[j] == totlist[if j < m then j else j + 1];
  }

  lemma ParentsBefore(shifts: Shifts, links: seq<Link>, spots: seq<Polynode>, totlist: seq<Polynode>)
    requires Linked(shifts, links, spots, totlist)
    ensures |links| + 1 == |spots| && forall k :: 0 <= k < |links| ==> links[k].parent <= k
  {
    hide Gap;
    hide Joins;
    assert forall k :: 0 <= k < |links| ==> LinksTo(shifts, links[k], k, PolysOf(spots));
  }

  lemma LinkIsGood(shifts: Shifts, links: seq<Link>, spots: seq<Polynode>, mink: Polynode, link: Link, c: Closest)
    requires link.parent < |spots| && |links| + 1 == |spots|
    requires link == Link(link.parent, c.k, c.l, c.dx, c.dy, c.d) &&
             IsClosest(shifts, spots[link.parent].poly, mink.poly, c)
    ensures LinksTo(shifts, link, |links|, PolysOf(spots + [mink]))
  {
    hide Joins;
    hide Gap;
  }

  /** The linking loop of poly_link: res is the first of spots, which link k leads on to its k + 1st. */
  method LinkPolys(polys: seq<Poly>, wrap: Vector -> Vector, root: nat -> real, ghost shifts: Shifts, ghost limit: nat)
    returns (res: Polynode, ghost spots: seq<Polynode>, ghost links: seq<Link>)
    requires Measurable(wrap, shifts, root, limit, polys) && polys != []
    ensures fresh(spots) && Distinct(spots) && |spots| == |polys| && res == spots[0]
    ensures res.poly == polys[|polys| - 1]
    ensures multiset(PolysOf(spots)) == multiset(polys) && HoldsLinks(spots, links)
    ensures LinksPolys(shifts, links, PolysOf(spots)) && ShortestOut(shifts, links, PolysOf(spots))
  {
    hide Measurable;
    hide Sorted;
    hide AllKnow;
    hide AllNoLinks;
    hide HoldsLinks;
    hide Linked;
    var totlist;
    totlist, res := StartNodes(polys, shifts);
    var last := res;
    spots, links := [res], [];
    assert spots[..0] == [];
    while totlist != []
      invariant fresh(totlist) && fresh(spots) && spots != [] && res == spots[0] && last == spots[|spots| - 1]
      invariant Sorted(spots, totlist, polys) && Linked(shifts, links, spots, totlist) && HoldsLinks(spots, links)
      invariant AllKnow(shifts, spots[..|spots| - 1], totlist) && AllNoLinks(totlist)
      decreases |totlist|
    {
      var m;
      ghost var link;
      m, link := LinkNext(totlist, last, wrap, root, shifts, limit, polys, spots, links);
      last := totlist[m];
      assert (spots + [last])[..|spots|] == spots;
      spots, links := spots + [last], links + [link];
      totlist := Without(totlist, m);
    }
    AllLinked(shifts, links, spots, polys);
  }

  /** The nodes, of which the last is linked to begin with. */
  method StartNodes(polys: seq<Poly>, ghost shifts: Shifts) returns (totlist: seq<Polynode>, res: Polynode)
    requires polys != []
    ensures fresh(totlist) && fresh(res) && Sorted([res], totlist, polys) && Linked(shifts, [], [res], totlist)
    ensures AllKnow(shifts, [], totlist) && HoldsLinks([res], []) && AllNoLinks(totlist)
    ensures res.poly == polys[|polys| - 1]
  {
    var all := MakeNodes(polys);
    res := all[|all| - 1];
    totlist := all[..|all| - 1];
    assert all == totlist + [res] && PolysOf(all)[|all| - 1] == res.poly;
    StartSorted(totlist, res, polys);
    hide Sorted;
    hide Distinct;
  }

  lemma StartSorted(front: seq<Polynode>, res: Polynode, polys: seq<Poly>)
    requires PolysOf(front + [res]) == polys && Distinct(front + [res])
    ensures Sorted([res], front, polys)
  {
    var a := front + [res];
    assert [res] + front == Forward(a, 0, |front|);
    ForwardDistinct(a, 0, |front|);
    PolysForward(a, 0, |front|);
    ForwardKeepsElements(PolysOf(a), 0, |front|);
    hide Forward;
    hide Distinct;
  }

  lemma AllLinked(shifts: Shifts, links: seq<Link>, spots: seq<Polynode>, polys: seq<Poly>)
    requires Sorted(spots, [], polys) && Linked(shifts, links, spots, [])
    ensures multiset(PolysOf(spots)) == multiset(polys) && Distinct(spots) && |spots| == |polys|
    ensures LinksPolys(shifts, links, PolysOf(spots)) && ShortestOut(shifts, links, PolysOf(spots))
  {
    assert spots + [] == spots;
    hide LinksPolys;
    hide ShortestOut;
    assert |multiset(PolysOf(spots))| == |multiset(polys)|;
  }

  // --------------------------------------------------------------------- the best links

  ghost function TreeOf(links: seq<Link>): (tree: seq<Edge>)
    ensures |tree| == |links| && forall k :: 0 <= k < |links| ==> tree[k] == Edge(links[k].parent, k + 1)
  {
    seq(|links|, k requires 0 <= k < |links| => Edge(links[k].parent, k + 1))
  }

  /** Each edge weighs the squared gap between its polygons. */
  ghost function GapWeights(shifts: Shifts, polys: seq<Poly>): Weights {
    (e: Edge) => if e.a < |polys| && e.b < |polys| then Gap(shifts, polys[e.a], polys[e.b]) else 0
  }

  function LinkSum(links: seq<Link>): nat {
    if links == [] then 0 else LinkSum(links[..|links| - 1]) + links[|links| - 1].d
  }

  lemma {:induction false} LinkSumIsTotal(w: Weights, links: seq<Link>)
    requires forall k :: 0 <= k < |links| ==> links[k].d == w(TreeOf(links)[k])
    ensures LinkSum(links) == Total(w, TreeOf(links))
  {
    if links != [] {
      var front := links[..|links| - 1];
      assert TreeOf(links)[..|links| - 1] == TreeOf(front);
      LinkSumIsTotal(w, front);
    }
  }

  /** No other way to connect the polygons of the part has a smaller sum of squared gaps than the links. */
  lemma LinksAreMinimal(shifts: Shifts, links: seq<Link>, polys: seq<Poly>, others: seq<Edge>)
    requires Symmetric(shifts) && LinksPolys(shifts, links, polys) && ShortestOut(shifts, links, polys)
    requires Within(others, |polys|) && Joined(others, |polys|)
    ensures Joined(TreeOf(links), |polys|) && LinkSum(links) <= Total(GapWeights(shifts, polys), others)
  {
    hide Joined;
    hide Total;
    hide Symmetric;
    var w, tree := GapWeights(shifts, polys), TreeOf(links);
    forall a: nat, b: nat
      ensures w(Edge(a, b)) == w(Edge(b, a))
    {
      if a < |polys| && b < |polys| {
        GapSymmetric(shifts, polys[a], polys[b]);
      }
    }
    TreeIsLightest(shifts, links, polys);
    hide Gap;
    PrimIsMinimal(w, tree, others);
    LinkSumIsTotal(w, links);
  }

  lemma TreeIsLightest(shifts: Shifts, links: seq<Link>, polys: seq<Poly>)
    requires LinksPolys(shifts, links, polys) && ShortestOut(shifts, links, polys)
    ensures Grown(TreeOf(links)) && Lightest(GapWeights(shifts, polys), TreeOf(links))
    ensures forall k :: 0 <= k < |links| ==> links[k].d == GapWeights(shifts, polys)(TreeOf(links)[k])
  {
    hide Gap;
    hide Joins;
    var w, tree := GapWeights(shifts, polys), TreeOf(links);
    assert forall k :: 0 <= k < |links| ==> LinksTo(shifts, links[k], k, polys);
    forall k, i: nat, j: nat | 0 <= k < |tree| && i <= k < j <= |tree|
      ensures w(tree[k]) <= w(Edge(i, j))
    {
      assert NotBeyond(shifts, links, k, polys, polys[j]);
    }
  }
}
