/** How poly_link takes the parts of the wall, in terms of the directions of their polygons. */
module PartKinds {
  import opened Seqs
  import opened TileMap
  import opened Tracing
  import opened FindMin
  import opened PolyLink
  import opened EulerTour
  import opened Minwrap
  import opened Winding
  import opened MakePolys

  // -------------------------------------------------------- kinds of parts, by directions

  /** Polygon i turns to the left, and all others to the right. */
  ghost predicate LeftOnly(polys: seq<Poly>, i: nat) {
    && i < |polys| && Direction(polys[i]) > 0
    && forall j :: 0 <= j < |polys| && j != i ==> Direction(polys[j]) < 0
  }

  /** Polygons i and j lead around the map, and all others turn to the right. */
  ghost predicate AroundOnly(polys: seq<Poly>, i: nat, j: nat) {
    && i < j < |polys| && Direction(polys[i]) == 0 && Direction(polys[j]) == 0
    && forall k :: 0 <= k < |polys| && k != i && k != j ==> Direction(polys[k]) < 0
  }

  lemma {:induction false} NoneSelected(p: Poly -> bool, polys: seq<Poly>)
    ensures Filter(p, polys) == [] <==> forall i :: 0 <= i < |polys| ==> !p(polys[i])
  {
    if polys != [] {
      NoneSelected(p, polys[..|polys| - 1]);
    }
  }

  /** A sequence cut at position i. */
  lemma FilterAround(p: Poly -> bool, polys: seq<Poly>, i: nat)
    requires i < |polys| && p(polys[i])
    ensures Filter(p, polys) == Filter(p, polys[..i]) + [polys[i]] + Filter(p, polys[i + 1..])
  {
    FilterConcat(p, polys[..i], [polys[i]]);
    FilterConcat(p, polys[..i] + [polys[i]], polys[i + 1..]);
    FilterSnoc(p, [], polys[i]);
    SplitAt(polys, i);
    hide Filter;
  }

  /** Just one polygon is selected. */
  lemma OneSelected(p: Poly -> bool, polys: seq<Poly>, i: nat)
    requires i < |polys| && p(polys[i])
    ensures |Filter(p, polys)| == 1 <==> forall j :: 0 <= j < |polys| && j != i ==> !p(polys[j])
  {
    var a, b := polys[..i], polys[i + 1..];
    FilterAround(p, polys, i);
    NoneSelected(p, a);
    NoneSelected(p, b);
    hide Filter;
    if |Filter(p, polys)| == 1 {
      forall j | 0 <= j < |polys| && j != i
        ensures !p(polys[j])
      {
        assert if j < i then polys[j] == a[j] else polys[j] == b[j - i - 1];
      }
    } else if k :| 0 <= k < |a| && p(a[k]) {
      assert polys[k] == a[k];
    } else {
      var k :| 0 <= k < |b| && p(b[k]);
      assert polys[i + 1 + k] == b[k];
    }
  }

  /** Just two polygons are selected. */
  lemma TwoSelected(p: Poly -> bool, polys: seq<Poly>, i: nat)
    requires i < |polys| && p(polys[i]) && forall j :: 0 <= j < i ==> !p(polys[j])
    ensures |Filter(p, polys)| == 2 <==>
            exists j :: i < j < |polys| && OnlyOne(p, polys, i, j)
    ensures |Filter(p, polys)| >= 1 && Filter(p, polys)[0] == polys[i]
  {
    FilterAround(p, polys, i);
    NoneSelected(p, polys[..i]);
    hide Filter;
    if |Filter(p, polys)| == 2 {
      var j := OnlyAfter(p, polys, i);
    }
    if j :| i < j < |polys| && OnlyOne(p, polys, i, j) {
      OneAfter(p, polys, i, j);
    }
  }

  /** Behind position i only position j is selected. */
  predicate OnlyOne(p: Poly -> bool, polys: seq<Poly>, i: nat, j: nat)
    requires i < j < |polys|
  {
    p(polys[j]) && forall k :: i < k < |polys| && k != j ==> !p(polys[k])
  }

  lemma OnlyAfter(p: Poly -> bool, polys: seq<Poly>, i: nat) returns (j: nat)
    requires i < |polys| && |Filter(p, polys[i + 1..])| == 1
    ensures i < j < |polys| && OnlyOne(p, polys, i, j)
  {
    var rest := polys[i + 1..];
    NoneSelected(p, rest);
    hide Filter;
    var r :| 0 <= r < |rest| && p(rest[r]);
    OneSelected(p, rest, r);
    j := i + 1 + r;
    forall k | i < k < |polys| && k != j
      ensures !p(polys[k])
    {
      assert polys[k] == rest[k - i - 1];
    }
  }

  lemma OneAfter(p: Poly -> bool, polys: seq<Poly>, i: nat, j: nat)
    requires i < j < |polys| && OnlyOne(p, polys, i, j)
    ensures |Filter(p, polys[i + 1..])| == 1
  {
    var rest := polys[i + 1..];
    forall k | 0 <= k < |rest| && k != j - i - 1
      ensures !p(rest[k])
    {
      assert rest[k] == polys[i + 1 + k];
    }
    OneSelected(p, rest, j - i - 1);
  }

  /** A part is bounded just when a single polygon, its outline, turns to the left and all others to the right. */
  lemma BoundedMeans(polys: seq<Poly>)
    ensures KindOf(polys) == Some(Bounded) <==> exists i: nat :: LeftOnly(polys, i)
  {
    hide Direction;
    hide SumX;
    hide SumY;
    NoneSelected(Turning(0), polys);
    NoneSelected(Turning(1), polys);
    if |Filter(Turning(1), polys)| > 0 {
      var i :| 0 <= i < |polys| && Turning(1)(polys[i]);
      OneSelected(Turning(1), polys, i);
      hide Filter;
      if |Filter(Turning(1), polys)| == 1 && Filter(Turning(0), polys) == [] {
        assert LeftOnly(polys, i);
      }
      forall j: nat | LeftOnly(polys, j)
        ensures j == i && |Filter(Turning(1), polys)| == 1 && Filter(Turning(0), polys) == []
      {
      }
    }
  }

  /** A part goes around both ways just when all its polygons turn to the right. */
  lemma BothWaysMeans(polys: seq<Poly>)
    ensures KindOf(polys) == Some(BothWays) <==> forall i :: 0 <= i < |polys| ==> Direction(polys[i]) < 0
  {
    hide Direction;
    hide SumX;
    hide SumY;
    NoneSelected(Turning(0), polys);
    NoneSelected(Turning(1), polys);
    hide Filter;
  }

  /** A part goes around one way just when two polygons do, with that displacement, and all others turn to the right. */
  lemma OneWayMeans(polys: seq<Poly>, wx: int, wy: int)
    ensures KindOf(polys) == Some(OneWay(wx, wy)) <==>
            exists i: nat, j: nat ::
              AroundOnly(polys, i, j) && SumX(polys[i]) == wx && SumY(polys[i]) == wy && (wx != 0 || wy != 0)
  {
    hide Direction;
    hide SumX;
    hide SumY;
    NoneSelected(Turning(0), polys);
    NoneSelected(Turning(1), polys);
    if Filter(Turning(0), polys) != [] {
      var i := FirstOf(Turning(0), polys);
      TwoSelected(Turning(0), polys, i);
      hide Filter;
      if |Filter(Turning(0), polys)| == 2 && Filter(Turning(1), polys) == [] {
        var j :| i < j < |polys| && OnlyOne(Turning(0), polys, i, j);
        assert AroundOnly(polys, i, j);
      }
      forall i': nat, j: nat | AroundOnly(polys, i', j)
        ensures i' == i && |Filter(Turning(0), polys)| == 2 && Filter(Turning(1), polys) == []
      {
        assert OnlyOne(Turning(0), polys, i, j);
      }
    }
  }

  lemma FirstOf(p: Poly -> bool, polys: seq<Poly>) returns (i: nat)
    requires exists k :: 0 <= k < |polys| && p(polys[k])
    ensures i < |polys| && p(polys[i]) && forall j :: 0 <= j < i ==> !p(polys[j])
  {
    i := 0;
    while !p(polys[i])
      invariant i < |polys| && forall j :: 0 <= j < i ==> !p(polys[j])
      decreases |polys| - i
    {
      i := i + 1;
    }
  }

  // ------------------------------------------------------------- what links look like

  /** What a link adds to the plain difference of the two points that it joins. */
  ghost function Beyond(inOrder: seq<Poly>, k: nat, link: Link): (v: Vector)
    requires link.parent < |inOrder| && k + 1 < |inOrder|
    requires link.start < |inOrder[link.parent]| && link.target < |inOrder[k + 1]|
    ensures var p, q := inOrder[link.parent][link.start], inOrder[k + 1][link.target];
            p.x + link.dx == q.x + v.0 && p.y + link.dy == q.y + v.1
  {
    var p, q := inOrder[link.parent][link.start], inOrder[k + 1][link.target];
    (link.dx - (q.x - p.x), link.dy - (q.y - p.y))
  }

  /**
   * The moves that lead to images of a part: none in a bounded part; multiples of width and height in one that goes
   * around both ways; multiples of its way around in one that goes around one way.
   */
  ghost predicate Repeats(m: Tiles, polys: seq<Poly>, v: Vector)
    requires Valid(m)
  {
    && (forall i: nat :: LeftOnly(polys, i) ==> v == (0, 0))
    && ((forall i :: 0 <= i < |polys| ==> Direction(polys[i]) < 0) ==> v.0 % m.width == 0 && v.1 % m.height == 0)
    && (forall i: nat, j: nat :: AroundOnly(polys, i, j) && (SumX(polys[i]) != 0 || SumY(polys[i]) != 0) ==>
          exists t: int :: Times(v, t, SumX(polys[i]), SumY(polys[i])))
  }

  /** A link leads from its one point to its other, up to a move that repeats the part. */
  lemma LinkLeads(m: Tiles, polys: seq<Poly>, inOrder: seq<Poly>, links: seq<Link>, items: seq<Item>, k: nat)
    requires Valid(m) && KindOf(polys).Some? && k < |links|
    requires IsLine(ShiftsOf(m, KindOf(polys).value), polys, inOrder, links, items)
    ensures var l := links[k];
            && k + 1 < |inOrder| && l.parent <= k && l.start < |inOrder[l.parent]| && l.target < |inOrder[k + 1]|
            && l.d == l.dx * l.dx + l.dy * l.dy
            && Repeats(m, polys, Beyond(inOrder, k, l))
  {
    LinkShifts(m, polys, inOrder, links, items, k);
    ShiftMeans(m, polys, Beyond(inOrder, k, links[k]));
    hide IsLine;
    hide KindOf;
    hide Repeats;
    hide Beyond;
  }

  lemma LinkShifts(m: Tiles, polys: seq<Poly>, inOrder: seq<Poly>, links: seq<Link>, items: seq<Item>, k: nat)
    requires Valid(m) && KindOf(polys).Some? && k < |links|
    requires IsLine(ShiftsOf(m, KindOf(polys).value), polys, inOrder, links, items)
    ensures var l := links[k];
            && k + 1 < |inOrder| && l.parent <= k && l.start < |inOrder[l.parent]| && l.target < |inOrder[k + 1]|
            && l.d == l.dx * l.dx + l.dy * l.dy
            && ShiftsOf(m, KindOf(polys).value)(Beyond(inOrder, k, l))
  {
    hide ShortestOut;
    hide IsTree;
    hide Tour;
    hide KindOf;
    hide ShiftsOf;
    hide Gap;
    hide Listed;
    assert LinksTo(ShiftsOf(m, KindOf(polys).value), links[k], k, inOrder);
  }

  lemma ShiftMeans(m: Tiles, polys: seq<Poly>, v: Vector)
    requires Valid(m) && KindOf(polys).Some? && ShiftsOf(m, KindOf(polys).value)(v)
    ensures Repeats(m, polys, v)
  {
    hide KindOf;
    hide Direction;
    hide SumX;
    hide SumY;
    BoundedMeans(polys);
    BothWaysMeans(polys);
    hide LeftOnly;
    forall i: nat, j: nat | AroundOnly(polys, i, j) && (SumX(polys[i]) != 0 || SumY(polys[i]) != 0)
      ensures exists t: int :: Times(v, t, SumX(polys[i]), SumY(polys[i]))
    {
      OneWayMeans(polys, SumX(polys[i]), SumY(polys[i]));
    }
  }

  /** The line starts at the polygon that turns to the left, else at the last one around, else at the last one. */
  lemma LineStart(m: Tiles, polys: seq<Poly>, shifts: Shifts, inOrder: seq<Poly>, links: seq<Link>, items: seq<Item>)
    requires IsLine(shifts, polys, inOrder, links, items)
    ensures forall i: nat :: LeftOnly(polys, i) ==> inOrder[0] == polys[i]
    ensures forall i: nat, j: nat :: AroundOnly(polys, i, j) ==> inOrder[0] == polys[j]
    ensures (forall i :: 0 <= i < |polys| ==> Direction(polys[i]) < 0) ==> inOrder[0] == polys[|polys| - 1]
  {
    hide LinksPolys;
    hide ShortestOut;
    hide IsTree;
    hide Tour;
    hide Direction;
    NoneSelected(Turning(0), polys);
    NoneSelected(Turning(1), polys);
    if forall i :: 0 <= i < |polys| ==> Direction(polys[i]) < 0 {
      FilterAll(Turning(-1), polys);
    }
    hide Filter;
    forall i: nat | LeftOnly(polys, i)
      ensures inOrder[0] == polys[i]
    {
      OneSelected(Turning(1), polys, i);
      FilterMembers(Turning(1), polys, Filter(Turning(1), polys)[0]);
    }
    forall i: nat, j: nat | AroundOnly(polys, i, j)
      ensures inOrder[0] == polys[j]
    {
      LastSelected(Turning(0), polys, j);
    }
  }

  lemma LastSelected(p: Poly -> bool, polys: seq<Poly>, j: nat)
    requires j < |polys| && p(polys[j]) && forall k :: j < k < |polys| ==> !p(polys[k])
    ensures Filter(p, polys) != [] && Filter(p, polys)[|Filter(p, polys)| - 1] == polys[j]
  {
    FilterAround(p, polys, j);
    NoneSelected(p, polys[j + 1..]);
    hide Filter;
  }

  // ------------------------------------------------------------------------- examples

  /** A single filled tile is a bounded part. */
  lemma TileIsBounded(x: int, y: int)
    ensures KindOf([[Point(x, y, 6), Point(x, y + 1, 0), Point(x + 1, y + 1, 2), Point(x + 1, y, 4)]]) == Some(Bounded)
  {
    hide Direction;
    TileDirection(x, y);
    assert LeftOnly([[Point(x, y, 6), Point(x, y + 1, 0), Point(x + 1, y + 1, 2), Point(x + 1, y, 4)]], 0);
    BoundedMeans([[Point(x, y, 6), Point(x, y + 1, 0), Point(x + 1, y + 1, 2), Point(x + 1, y, 4)]]);
    hide KindOf;
  }

  /** Wall with a hole of a single tile, and no other edge, goes around both ways. */
  lemma HoleIsInTorus(x: int, y: int)
    ensures KindOf([[Point(x, y, 0), Point(x + 1, y, 6), Point(x + 1, y + 1, 4), Point(x, y + 1, 2)]]) == Some(BothWays)
  {
    hide Direction;
    HoleDirection(x, y);
    BothWaysMeans([[Point(x, y, 0), Point(x + 1, y, 6), Point(x + 1, y + 1, 4), Point(x, y + 1, 2)]]);
    hide KindOf;
  }
}
