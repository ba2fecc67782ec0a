/** Laws of the line that traverse draws: each side and each link once, and no jumps. */
module TourLaws {
  import opened Arithmetic
  import opened TileMap
  import opened Tracing
  import opened PolyLink
  import opened EulerTour

  // -------------------------------------------------------------- everything just once

  /** How often a piece occurs in a line. */
  function Times(line: seq<Placed>, piece: Piece): nat {
    if line == [] then 0 else (if line[0].piece == piece then 1 else 0) + Times(line[1..], piece)
  }

  lemma {:induction false} TimesConcat(a: seq<Placed>, b: seq<Placed>, piece: Piece)
    ensures Times(a + b, piece) == Times(a, piece) + Times(b, piece)
  {
    if a == [] {
      assert a + b == b;
    } else {
      assert (a + b)[1..] == a[1..] + b;
      TimesConcat(a[1..], b, piece);
    }
  }

  /** The polygon that a piece belongs to; a link belongs to the one that it leads out to. */
  function Place(piece: Piece): nat {
    match piece
    case Side(p, i) => p
    case Out(k) => k + 1
    case Back(k) => k + 1
  }

  /** A piece of the tour around place p: the sides of all that hangs from it, and the links below it. */
  predicate Belongs(links: seq<Link>, polys: seq<Poly>, p: nat, piece: Piece)
    requires Ordered(links)
  {
    Exists(links, polys, piece) && InSub(links, p, Place(piece)) && (piece.Side? || Place(piece) != p)
  }

  predicate UnderLinks(links: seq<Link>, polys: seq<Poly>, ks: seq<nat>, piece: Piece)
    requires Ordered(links)
  {
    Exists(links, polys, piece) && UnderOneOf(links, ks, Place(piece))
  }

  /** What is drawn at corner i of the polygon in place p. */
  predicate AtCorner(links: seq<Link>, polys: seq<Poly>, p: nat, i: nat, piece: Piece)
    requires Ordered(links)
  {
    piece == Side(p, i) || UnderLinks(links, polys, From(links, KidsOf(links, p), i), piece)
  }

  predicate FromCorner(links: seq<Link>, polys: seq<Poly>, p: nat, start: nat, c: nat, piece: Piece)
    requires Ordered(links) && p < |polys| && start < |polys[p]|
  {
    exists d :: c <= d < |polys[p]| && AtCorner(links, polys, p, Corner(start, d, |polys[p]|), piece)
  }

  function Once(b: bool): nat {
    if b then 1 else 0
  }

  lemma TreeOrdered(links: seq<Link>, polys: seq<Poly>)
    requires IsTree(links, polys)
    ensures Ordered(links) && |links| + 1 == |polys|
  {
  }

  lemma {:induction false} BranchTimes(links: seq<Link>, polys: seq<Poly>, k: nat, x: int, y: int, piece: Piece)
    requires IsTree(links, polys) && Ordered(links) && k < |links|
    ensures Times(Branch(links, polys, k, x, y), piece)
            == Once(Exists(links, polys, piece) && InSub(links, k + 1, Place(piece)))
    decreases |polys| - k - 1, 4
  {
    var x', y' := x + links[k].dx, y + links[k].dy;
    var out, around, back := [Placed(x, y, Out(k))], Tour(links, polys, k + 1, links[k].target, x', y'),
                             [Placed(x', y', Back(k))];
    TourTimes(links, polys, k + 1, links[k].target, x', y', piece);
    TimesConcat(out + around, back, piece);
    TimesConcat(out, around, piece);
    SubOfItself(links, k + 1);
    assert Times(out, piece) == Once(piece == Out(k)) && Times(back, piece) == Once(piece == Back(k)) by {
      assert out[1..] == [] && back[1..] == [];
    }
    hide Tour;
    hide InSub;
    hide IsTree;
    hide Times;
  }

  lemma {:induction false} BranchesTimes(links: seq<Link>, polys: seq<Poly>, p: nat, ks: seq<nat>, x: int, y: int,
                                         piece: Piece)
    requires IsTree(links, polys) && Ordered(links) && p < |polys| && AreKids(links, p, ks) && Increasing(ks)
    ensures Times(Branches(links, polys, p, ks, x, y), piece) == Once(UnderLinks(links, polys, ks, piece))
    decreases |polys| - p, 0, |ks|
  {
    if ks != [] {
      BranchesFirst(links, polys, p, ks[0], ks[1..], x, y);
      assert ks == [ks[0]] + ks[1..];
      TimesConcat(Branch(links, polys, ks[0], x, y), Branches(links, polys, p, ks[1..], x, y), piece);
      BranchTimes(links, polys, ks[0], x, y, piece);
      BranchesTimes(links, polys, p, ks[1..], x, y, piece);
      UnderFirst(links, p, ks, Place(piece));
    }
    hide Times;
    hide IsTree;
    hide InSub;
    hide Branch;
  }

  lemma UnderFirst(links: seq<Link>, p: nat, ks: seq<nat>, q: nat)
    requires Ordered(links) && AreKids(links, p, ks) && Increasing(ks) && ks != []
    ensures UnderOneOf(links, ks, q) <==> InSub(links, ks[0] + 1, q) || UnderOneOf(links, ks[1..], q)
    ensures !(InSub(links, ks[0] + 1, q) && UnderOneOf(links, ks[1..], q))
  {
    hide InSub;
    if UnderOneOf(links, ks, q) {
      var j :| 0 <= j < |ks| && InSub(links, ks[j] + 1, q);
      assert j > 0 ==> ks[1..][j - 1] == ks[j];
    }
    if UnderOneOf(links, ks[1..], q) {
      var j :| 0 <= j < |ks[1..]| && InSub(links, ks[1..][j] + 1, q);
      assert ks[1..][j] == ks[j + 1];
      KidsApart(links, ks[j + 1], ks[0], q);
    }
  }

  lemma {:induction false} FromIncreasing(links: seq<Link>, ks: seq<nat>, i: nat)
    requires (forall j :: 0 <= j < |ks| ==> ks[j] < |links|) && Increasing(ks)
    ensures Increasing(From(links, ks, i))
  {
    if ks != [] {
      FromIncreasing(links, ks[1..], i);
      var r := From(links, ks[1..], i);
      forall j | 0 <= j < |r|
        ensures ks[0] < r[j]
      {
        assert r[j] in ks[1..];
      }
    }
  }

  /** Two corners of a polygon have nothing in common. */
  lemma CornersApart(links: seq<Link>, polys: seq<Poly>, p: nat, i: nat, h: nat, piece: Piece)
    requires Ordered(links) && i != h && AtCorner(links, polys, p, i, piece)
    ensures !AtCorner(links, polys, p, h, piece)
  {
    hide From;
    hide KidsOf;
    hide InSub;
    var ks := KidsOf(links, p);
    var a, b := From(links, ks, i), From(links, ks, h);
    FromKids(links, p, ks, i);
    FromKids(links, p, ks, h);
    NotUnderOwnKids(links, p, a);
    NotUnderOwnKids(links, p, b);
    if AtCorner(links, polys, p, h, piece) && piece != Side(p, i) && piece != Side(p, h) {
      var q := Place(piece);
      var j :| 0 <= j < |a| && InSub(links, a[j] + 1, q);
      var l :| 0 <= l < |b| && InSub(links, b[l] + 1, q);
      KidsApart(links, a[j], b[l], q);
    }
  }

  lemma NotUnderOwnKids(links: seq<Link>, p: nat, ks: seq<nat>)
    requires Ordered(links) && AreKids(links, p, ks)
    ensures !UnderOneOf(links, ks, p)
  {
    forall j | 0 <= j < |ks|
      ensures !InSub(links, ks[j] + 1, p)
    {
    }
  }

  /** The branches at corner i, as they come in a tour. */
  function CornerBranches(links: seq<Link>, polys: seq<Poly>, p: nat, i: nat, x: int, y: int): seq<Placed>
    requires IsTree(links, polys) && p < |polys|
  {
    FromKids(links, p, KidsOf(links, p), i);
    Branches(links, polys, p, From(links, KidsOf(links, p), i), x, y)
  }

  lemma SidesSplit(links: seq<Link>, polys: seq<Poly>, p: nat, start: nat, c: nat, x: int, y: int, piece: Piece)
    requires IsTree(links, polys) && p < |polys| && start < |polys[p]| && c < |polys[p]|
    ensures var i := Corner(start, c, |polys[p]|);
            var dir := polys[p][i].dir;
            Times(Sides(links, polys, p, start, c, x, y), piece)
            == Times(CornerBranches(links, polys, p, i, x, y), piece) + Once(piece == Side(p, i))
               + Times(Sides(links, polys, p, start, c + 1, x + DirX(dir), y + DirY(dir)), piece)
  {
    var i := Corner(start, c, |polys[p]|);
    var dir := polys[p][i].dir;
    var a, b := CornerBranches(links, polys, p, i, x, y), [Placed(x, y, Side(p, i))];
    var rest := Sides(links, polys, p, start, c + 1, x + DirX(dir), y + DirY(dir));
    assert Sides(links, polys, p, start, c, x, y) == a + b + rest;
    hide Sides;
    hide CornerBranches;
    TimesConcat(a + b, rest, piece);
    TimesConcat(a, b, piece);
    assert b[1..] == [];
  }

  lemma CornerBranchesTimes(links: seq<Link>, polys: seq<Poly>, p: nat, i: nat, x: int, y: int, piece: Piece)
    requires IsTree(links, polys) && Ordered(links) && p < |polys|
    ensures Times(CornerBranches(links, polys, p, i, x, y), piece)
            == Once(UnderLinks(links, polys, From(links, KidsOf(links, p), i), piece))
    decreases |polys| - p, 1, 0
  {
    FromKids(links, p, KidsOf(links, p), i);
    KidsAre(links, p);
    FromIncreasing(links, KidsOf(links, p), i);
    BranchesTimes(links, polys, p, From(links, KidsOf(links, p), i), x, y, piece);
    hide Branches;
    hide Times;
    hide UnderLinks;
  }

  lemma NothingAfterLast(links: seq<Link>, polys: seq<Poly>, p: nat, start: nat, x: int, y: int, piece: Piece)
    requires IsTree(links, polys) && Ordered(links) && p < |polys| && start < |polys[p]|
    ensures Times(Sides(links, polys, p, start, |polys[p]|, x, y), piece) == 0
            == Once(FromCorner(links, polys, p, start, |polys[p]|, piece))
  {
    hide Sides;
    hide IsTree;
    hide AtCorner;
    NoSidesLeft(links, polys, p, start, x, y);
  }

  lemma {:induction false} SidesTimes(links: seq<Link>, polys: seq<Poly>, p: nat, start: nat, c: nat, x: int, y: int,
                                      piece: Piece)
    requires IsTree(links, polys) && Ordered(links) && p < |polys| && start < |polys[p]| && c <= |polys[p]|
    ensures Times(Sides(links, polys, p, start, c, x, y), piece) == Once(FromCorner(links, polys, p, start, c, piece))
    decreases |polys| - p, 2, |polys[p]| - c
  {
    hide Corner;
    hide Sides;
    hide CornerBranches;
    hide Times;
    hide AtCorner;
    hide FromCorner;
    hide UnderLinks;
    hide From;
    hide KidsOf;
    hide IsTree;
    hide Ordered;
    hide DirX;
    hide DirY;
    if c == |polys[p]| {
      NothingAfterLast(links, polys, p, start, x, y, piece);
    } else {
      var i := Corner(start, c, |polys[p]|);
      var dir := polys[p][i].dir;
      SidesSplit(links, polys, p, start, c, x, y, piece);
      CornerBranchesTimes(links, polys, p, i, x, y, piece);
      SidesTimes(links, polys, p, start, c + 1, x + DirX(dir), y + DirY(dir), piece);
      CornerTimes(links, polys, p, i, piece);
      FromCornerStep(links, polys, p, start, c, piece);
    }
  }

  lemma CornerTimes(links: seq<Link>, polys: seq<Poly>, p: nat, i: nat, piece: Piece)
    requires Ordered(links)
    ensures Once(AtCorner(links, polys, p, i, piece))
            == Once(UnderLinks(links, polys, From(links, KidsOf(links, p), i), piece)) + Once(piece == Side(p, i))
  {
    FromKids(links, p, KidsOf(links, p), i);
    NotUnderOwnKids(links, p, From(links, KidsOf(links, p), i));
    hide UnderOneOf;
    hide From;
    hide KidsOf;
  }

  lemma FromCornerStep(links: seq<Link>, polys: seq<Poly>, p: nat, start: nat, c: nat, piece: Piece)
    requires Ordered(links) && p < |polys| && start < |polys[p]| && c < |polys[p]|
    ensures Once(FromCorner(links, polys, p, start, c, piece))
            == Once(AtCorner(links, polys, p, Corner(start, c, |polys[p]|), piece))
               + Once(FromCorner(links, polys, p, start, c + 1, piece))
  {
    hide AtCorner;
    var n := |polys[p]|;
    if AtCorner(links, polys, p, Corner(start, c, n), piece) && FromCorner(links, polys, p, start, c + 1, piece) {
      var d :| c + 1 <= d < n && AtCorner(links, polys, p, Corner(start, d, n), piece);
      DifferentCorners(start, c, d, n);
      CornersApart(links, polys, p, Corner(start, c, n), Corner(start, d, n), piece);
    }
    if FromCorner(links, polys, p, start, c, piece) {
      var d :| c <= d < n && AtCorner(links, polys, p, Corner(start, d, n), piece);
      assert d == c || c + 1 <= d;
    }
  }

  /** Going around, every corner comes up. */
  lemma CornerReached(start: nat, i: nat, n: nat) returns (d: nat)
    requires start < n && i < n
    ensures d < n && Corner(start, d, n) == i
  {
    d := if i >= start then i - start else i + n - start;
    if i >= start {
      ModIs(start + d, 0, i, n);
    } else {
      ModIs(start + d, 1, i, n);
    }
  }

  /** The link from place p that leads towards place q. */
  lemma {:induction false} LinkTowards(links: seq<Link>, p: nat, q: nat) returns (k: nat)
    requires Ordered(links) && InSub(links, p, q) && q != p
    ensures k < |links| && links[k].parent == p && InSub(links, k + 1, q)
    decreases q
  {
    if links[q - 1].parent == p {
      k := q - 1;
    } else {
      k := LinkTowards(links, p, links[q - 1].parent);
      LinkAfter(links, k, q);
    }
  }

  lemma LinkAfter(links: seq<Link>, k: nat, q: nat)
    requires Ordered(links) && 1 <= q <= |links| && InSub(links, k + 1, links[q - 1].parent)
    ensures InSub(links, k + 1, q)
  {
    SubIsAfter(links, k + 1, links[q - 1].parent);
  }

  lemma SubIsAfter(links: seq<Link>, p: nat, q: nat)
    requires Ordered(links) && InSub(links, p, q)
    ensures p <= q
  {
  }

  lemma {:induction false} FromHas(links: seq<Link>, ks: seq<nat>, j: nat)
    requires (forall j :: 0 <= j < |ks| ==> ks[j] < |links|) && j < |ks|
    ensures ks[j] in From(links, ks, links[ks[j]].start)
  {
    if j > 0 {
      FromHas(links, ks[1..], j - 1);
      assert ks[1..][j - 1] == ks[j];
    }
  }

  /** A piece of the tour is drawn at some corner, and only such pieces are. */
  lemma CornersHaveAll(links: seq<Link>, polys: seq<Poly>, p: nat, start: nat, piece: Piece)
    requires IsTree(links, polys) && Ordered(links) && p < |polys| && start < |polys[p]|
    ensures FromCorner(links, polys, p, start, 0, piece) <==> Belongs(links, polys, p, piece)
  {
    var n := |polys[p]|;
    if Belongs(links, polys, p, piece) {
      var i := CornerOf(links, polys, p, piece);
      var d := CornerReached(start, i, n);
      assert AtCorner(links, polys, p, Corner(start, d, n), piece);
    }
    if FromCorner(links, polys, p, start, 0, piece) {
      var d :| 0 <= d < n && AtCorner(links, polys, p, Corner(start, d, n), piece);
      CornerBelongs(links, polys, p, Corner(start, d, n), piece);
    }
    hide AtCorner;
  }

  lemma CornerOf(links: seq<Link>, polys: seq<Poly>, p: nat, piece: Piece) returns (i: nat)
    requires IsTree(links, polys) && Ordered(links) && p < |polys| && Belongs(links, polys, p, piece)
    ensures i < |polys[p]| && AtCorner(links, polys, p, i, piece)
  {
    if piece.Side? && piece.p == p {
      i := piece.i;
    } else {
      var k := LinkTowards(links, p, Place(piece));
      i := links[k].start;
      assert k + 1 < |polys|;
      KidFrom(links, p, k, Place(piece));
    }
    hide InSub;
    hide From;
    hide KidsOf;
  }

  lemma KidFrom(links: seq<Link>, p: nat, k: nat, q: nat)
    requires Ordered(links) && k < |links| && links[k].parent == p && InSub(links, k + 1, q)
    ensures UnderOneOf(links, From(links, KidsOf(links, p), links[k].start), q)
  {
    hide InSub;
    KidsAre(links, p);
    var ks := KidsOf(links, p);
    assert k in ks;
    var j :| 0 <= j < |ks| && ks[j] == k;
    FromHas(links, ks, j);
    hide From;
    hide KidsOf;
  }

  lemma CornerBelongs(links: seq<Link>, polys: seq<Poly>, p: nat, i: nat, piece: Piece)
    requires Ordered(links) && p < |polys| && i < |polys[p]| && AtCorner(links, polys, p, i, piece)
    ensures Belongs(links, polys, p, piece)
  {
    SubOfItself(links, p);
    var ks := KidsOf(links, p);
    var r := From(links, ks, i);
    FromKids(links, p, ks, i);
    NotUnderOwnKids(links, p, r);
    hide InSub;
    hide From;
    hide KidsOf;
    if piece != Side(p, i) {
      var j :| 0 <= j < |r| && InSub(links, r[j] + 1, Place(piece));
      KidInSub(links, r[j], Place(piece));
    }
  }

  /** The tour around place p has each side and each link below it exactly once, and nothing else. */
  lemma {:induction false} TourTimes(links: seq<Link>, polys: seq<Poly>, p: nat, start: nat, x: int, y: int,
                                     piece: Piece)
    requires IsTree(links, polys) && Ordered(links) && p < |polys| && start < |polys[p]|
    ensures Times(Tour(links, polys, p, start, x, y), piece) == Once(Belongs(links, polys, p, piece))
    decreases |polys| - p, 3, 0
  {
    SidesTimes(links, polys, p, start, 0, x, y, piece);
    CornersHaveAll(links, polys, p, start, piece);
  }

  // ------------------------------------------------------------ the whole line at once

  function Pieces(line: seq<Placed>): (ps: seq<Piece>)
    ensures |ps| == |line| && forall i :: 0 <= i < |line| ==> ps[i] == line[i].piece
  {
    seq(|line|, i requires 0 <= i < |line| => line[i].piece)
  }

  lemma {:induction false} TimesIsCount(line: seq<Placed>, piece: Piece)
    ensures Times(line, piece) == multiset(Pieces(line))[piece]
  {
    if line != [] {
      TimesIsCount(line[1..], piece);
      assert Pieces(line) == [line[0].piece] + Pieces(line[1..]);
    }
  }

  /** The sides of the polygon in place p, up to side n. */
  function SidesUpTo(p: nat, n: nat): seq<Piece> {
    if n == 0 then [] else SidesUpTo(p, n - 1) + [Side(p, n - 1)]
  }

  /** All sides of all polygons. */
  function AllSides(polys: seq<Poly>): seq<Piece> {
    if polys == [] then []
    else AllSides(polys[..|polys| - 1]) + SidesUpTo(|polys| - 1, |polys[|polys| - 1]|)
  }

  /** The first n links, each both ways. */
  function AllWays(n: nat): seq<Piece> {
    if n == 0 then [] else AllWays(n - 1) + BothWays(n - 1)
  }

  function BothWays(k: nat): seq<Piece> {
    [Out(k), Back(k)]
  }

  lemma {:induction false} SidesUpToCount(p: nat, n: nat, piece: Piece)
    ensures multiset(SidesUpTo(p, n))[piece] == Once(piece.Side? && piece.p == p && piece.i < n)
  {
    if n > 0 {
      SidesUpToCount(p, n - 1, piece);
    }
  }

  lemma {:induction false} AllSidesCount(links: seq<Link>, polys: seq<Poly>, piece: Piece)
    ensures multiset(AllSides(polys))[piece] == Once(piece.Side? && Exists(links, polys, piece))
  {
    if polys != [] {
      AllSidesCount(links, polys[..|polys| - 1], piece);
      SidesUpToCount(|polys| - 1, |polys[|polys| - 1]|, piece);
    }
  }

  lemma CountOfBoth(a: seq<Piece>, b: seq<Piece>, piece: Piece)
    ensures multiset(a + b)[piece] == multiset(a)[piece] + multiset(b)[piece]
  {
  }

  lemma OneLinkCount(k: nat, piece: Piece)
    ensures multiset(BothWays(k))[piece] == Once(!piece.Side? && Place(piece) == k + 1)
  {
  }

  lemma OneMoreLink(n: nat, piece: Piece)
    requires n > 0
    ensures multiset(AllWays(n))[piece] == multiset(AllWays(n - 1))[piece] + Once(!piece.Side? && Place(piece) == n)
  {
    AllWaysLast(n);
    hide AllWays;
    hide Once;
    hide Place;
    hide BothWays;
    CountOfBoth(AllWays(n - 1), BothWays(n - 1), piece);
    OneLinkCount(n - 1, piece);
  }

  lemma AllWaysLast(n: nat)
    requires n > 0
    ensures AllWays(n) == AllWays(n - 1) + BothWays(n - 1)
  {
  }

  lemma NoLinks(piece: Piece)
    ensures multiset(AllWays(0))[piece] == 0 && (!piece.Side? ==> Place(piece) > 0)
  {
  }

  lemma {:induction false} AllWaysCount(n: nat, piece: Piece)
    ensures multiset(AllWays(n))[piece] == Once(!piece.Side? && Place(piece) <= n)
  {
    hide AllWays;
    hide Place;
    if n == 0 {
      NoLinks(piece);
    } else {
      AllWaysCount(n - 1, piece);
      OneMoreLink(n, piece);
    }
  }

  lemma {:induction false} AllInSubOfFirst(links: seq<Link>, q: nat)
    requires Ordered(links) && q <= |links|
    ensures InSub(links, 0, q)
    decreases q
  {
    if q > 0 {
      AllInSubOfFirst(links, links[q - 1].parent);
    }
  }

  /** The line around a part has all sides of its polygons and all links both ways, each exactly once. */
  lemma TourHasAll(links: seq<Link>, polys: seq<Poly>, start: nat, x: int, y: int)
    requires IsTree(links, polys) && start < |polys[0]|
    ensures multiset(Pieces(Tour(links, polys, 0, start, x, y))) == multiset(AllSides(polys) + AllWays(|links|))
  {
    TreeOrdered(links, polys);
    hide Tour;
    forall piece: Piece
      ensures multiset(Pieces(Tour(links, polys, 0, start, x, y)))[piece]
              == multiset(AllSides(polys) + AllWays(|links|))[piece]
    {
      PieceCount(links, polys, start, x, y, piece);
    }
  }

  lemma PieceCount(links: seq<Link>, polys: seq<Poly>, start: nat, x: int, y: int, piece: Piece)
    requires IsTree(links, polys) && Ordered(links) && start < |polys[0]|
    ensures multiset(Pieces(Tour(links, polys, 0, start, x, y)))[piece]
            == multiset(AllSides(polys) + AllWays(|links|))[piece]
  {
    hide Tour;
    hide Times;
    hide Pieces;
    hide InSub;
    hide AllSides;
    hide AllWays;
    TimesIsCount(Tour(links, polys, 0, start, x, y), piece);
    TourTimes(links, polys, 0, start, x, y, piece);
    AllSidesCount(links, polys, piece);
    AllWaysCount(|links|, piece);
    CountOfBoth(AllSides(polys), AllWays(|links|), piece);
    if Exists(links, polys, piece) {
      AllInSubOfFirst(links, Place(piece));
    }
  }

  // ----------------------------------------------------------------------- displacement

  function SumOf(f: Piece -> int, ps: seq<Piece>): int {
    if ps == [] then 0 else f(ps[0]) + SumOf(f, ps[1..])
  }

  lemma {:induction false} SumOfConcat(f: Piece -> int, a: seq<Piece>, b: seq<Piece>)
    ensures SumOf(f, a + b) == SumOf(f, a) + SumOf(f, b)
  {
    if a == [] {
      assert a + b == b;
    } else {
      assert (a + b)[1..] == a[1..] + b;
      SumOfConcat(f, a[1..], b);
    }
  }

  /** The sum does not depend on the order. */
  lemma {:induction false} SumOfSame(f: Piece -> int, a: seq<Piece>, b: seq<Piece>)
    requires multiset(a) == multiset(b)
    ensures SumOf(f, a) == SumOf(f, b)
  {
    if a == [] {
      assert |multiset(a)| == |multiset(b)|;
    } else {
      assert a[0] in multiset(b);
      var j :| 0 <= j < |b| && b[j] == a[0];
      assert a == [a[0]] + a[1..];
      assert b == b[..j] + [b[j]] + b[j + 1..];
      RestSame(a[0], a[1..], b[..j], b[j + 1..]);
      SumOfSame(f, a[1..], b[..j] + b[j + 1..]);
      SumOfConcat(f, b[..j], b[j + 1..]);
      SumOfConcat(f, b[..j], [b[j]]);
      SumOfConcat(f, b[..j] + [b[j]], b[j + 1..]);
      assert [b[j]][1..] == [];
    }
  }

  lemma RestSame(u: Piece, a: seq<Piece>, b: seq<Piece>, c: seq<Piece>)
    requires multiset([u] + a) == multiset(b + [u] + c)
    ensures multiset(a) == multiset(b + c)
  {
    assert multiset(a) == multiset([u] + a) - multiset{u};
    assert multiset(b + c) == multiset(b + [u] + c) - multiset{u};
  }

  function WayX(links: seq<Link>, polys: seq<Poly>): Piece -> int {
    (piece: Piece) => if Exists(links, polys, piece) then Way(links, polys, piece).0 else 0
  }

  function WayY(links: seq<Link>, polys: seq<Poly>): Piece -> int {
    (piece: Piece) => if Exists(links, polys, piece) then Way(links, polys, piece).1 else 0
  }

  lemma TwoOf(f: Piece -> int, a: Piece, b: Piece)
    ensures SumOf(f, [a, b]) == f(a) + f(b)
  {
    assert [a, b] == [a] + [b];
    SumOfConcat(f, [a], [b]);
    assert [a][1..] == [] && [b][1..] == [];
  }

  lemma {:induction false} SumOfWays(links: seq<Link>, f: Piece -> int, n: nat)
    requires forall k: nat :: k < n ==> f(Out(k)) + f(Back(k)) == 0
    ensures SumOf(f, AllWays(n)) == 0
  {
    if n > 0 {
      SumOfWays(links, f, n - 1);
      SumOfConcat(f, AllWays(n - 1), BothWays(n - 1));
      TwoOf(f, Out(n - 1), Back(n - 1));
    }
  }

  /** Sums over the first n sides of the polygon in place p. */
  lemma {:induction false} SumOfSides(links: seq<Link>, polys: seq<Poly>, p: nat, n: nat)
    requires p < |polys| && n <= |polys[p]|
    ensures SumOf(WayX(links, polys), SidesUpTo(p, n)) == SumX(polys[p][..n])
    ensures SumOf(WayY(links, polys), SidesUpTo(p, n)) == SumY(polys[p][..n])
  {
    if n > 0 {
      SumOfSides(links, polys, p, n - 1);
      SumOfConcat(WayX(links, polys), SidesUpTo(p, n - 1), [Side(p, n - 1)]);
      SumOfConcat(WayY(links, polys), SidesUpTo(p, n - 1), [Side(p, n - 1)]);
      assert [Side(p, n - 1)][1..] == [];
      assert polys[p][..n][..n - 1] == polys[p][..n - 1];
    }
  }

  /** The sums of all polygons' displacements. */
  function TotalX(polys: seq<Poly>): int {
    if polys == [] then 0 else TotalX(polys[..|polys| - 1]) + SumX(polys[|polys| - 1])
  }

  function TotalY(polys: seq<Poly>): int {
    if polys == [] then 0 else TotalY(polys[..|polys| - 1]) + SumY(polys[|polys| - 1])
  }

  lemma {:induction false} SumOfAllSides(links: seq<Link>, polys: seq<Poly>, n: nat)
    requires n <= |polys|
    ensures SumOf(WayX(links, polys), AllSides(polys[..n])) == TotalX(polys[..n])
    ensures SumOf(WayY(links, polys), AllSides(polys[..n])) == TotalY(polys[..n])
  {
    hide WayX;
    hide WayY;
    if n > 0 {
      hide SumOf;
      hide SidesUpTo;
      hide SumX;
      hide SumY;
      SumOfAllSides(links, polys, n - 1);
      SumOfSides(links, polys, n - 1, |polys[n - 1]|);
      assert polys[n - 1][..|polys[n - 1]|] == polys[n - 1];
      assert polys[..n][..n - 1] == polys[..n - 1];
      SumOfConcat(WayX(links, polys), AllSides(polys[..n - 1]), SidesUpTo(n - 1, |polys[n - 1]|));
      SumOfConcat(WayY(links, polys), AllSides(polys[..n - 1]), SidesUpTo(n - 1, |polys[n - 1]|));
    }
  }

  /** Sums of the ways that are written out. */
  function ItemsX(items: seq<Item>): int {
    if items == [] then 0 else items[0].dx + ItemsX(items[1..])
  }

  function ItemsY(items: seq<Item>): int {
    if items == [] then 0 else items[0].dy + ItemsY(items[1..])
  }

  lemma {:induction false} ItemsSums(links: seq<Link>, polys: seq<Poly>, line: seq<Placed>)
    ensures ItemsX(Items(links, polys, line)) == SumOf(WayX(links, polys), Pieces(line))
    ensures ItemsY(Items(links, polys, line)) == SumOf(WayY(links, polys), Pieces(line))
  {
    if line != [] {
      ItemsSums(links, polys, line[1..]);
      assert Items(links, polys, line)[1..] == Items(links, polys, line[1..]);
      assert Pieces(line)[1..] == Pieces(line[1..]);
    }
  }

  /** The displacements written out add up to those of all polygons: the links cancel. */
  lemma TourConserves(links: seq<Link>, polys: seq<Poly>, start: nat, x: int, y: int)
    requires IsTree(links, polys) && start < |polys[0]|
    ensures var items := Items(links, polys, Tour(links, polys, 0, start, x, y));
            ItemsX(items) == TotalX(polys) && ItemsY(items) == TotalY(polys)
  {
    var line := Tour(links, polys, 0, start, x, y);
    TourHasAll(links, polys, start, x, y);
    hide Tour;
    hide IsTree;
    hide ItemsX;
    hide ItemsY;
    ItemsSums(links, polys, line);
    hide Items;
    AllPiecesSum(links, polys, Pieces(line));
  }

  lemma AllPiecesSum(links: seq<Link>, polys: seq<Poly>, ps: seq<Piece>)
    requires multiset(ps) == multiset(AllSides(polys) + AllWays(|links|))
    ensures SumOf(WayX(links, polys), ps) == TotalX(polys) && SumOf(WayY(links, polys), ps) == TotalY(polys)
  {
    hide AllSides;
    hide AllWays;
    hide SumOf;
    hide TotalX;
    hide TotalY;
    SumOfAllSides(links, polys, |polys|);
    assert polys[..|polys|] == polys;
    WaysCancel(links, polys, WayX(links, polys), ps);
    WaysCancel(links, polys, WayY(links, polys), ps);
  }

  lemma WaysCancel(links: seq<Link>, polys: seq<Poly>, f: Piece -> int, ps: seq<Piece>)
    requires multiset(ps) == multiset(AllSides(polys) + AllWays(|links|))
    requires forall k: nat :: k < |links| ==> f(Out(k)) + f(Back(k)) == 0
    ensures SumOf(f, ps) == SumOf(f, AllSides(polys))
  {
    hide AllSides;
    hide AllWays;
    hide SumOf;
    SumOfSame(f, ps, AllSides(polys) + AllWays(|links|));
    SumOfConcat(f, AllSides(polys), AllWays(|links|));
    SumOfWays(links, f, |links|);
  }
}
