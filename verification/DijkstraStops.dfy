/** dijkstraN: a lightest walk that goes through given stops in order, put together leg by leg. */
module DijkstraStops {
  import opened MapGraph
  import opened Walks
  import opened SearchTree
  import opened ZeroArrays
  import opened Dijkstra

  /** p is a walk from the first stop to the last that passes the stops in order. */
  ghost predicate Tour(g: Graph, p: seq<int>, stops: seq<int>)
    decreases |stops|
  {
    if |stops| <= 1 then stops == p && |p| == 1
    else exists k :: Splits(g, p, k, stops)
  }

  /** The last leg of p starts at position k. */
  ghost predicate Splits(g: Graph, p: seq<int>, k: int, stops: seq<int>)
    requires |stops| >= 2
    decreases |stops|, 0
  {
    && 0 <= k < |p|
    && Tour(g, p[..k + 1], stops[..|stops| - 1])
    && WalkBetween(g, p[k..], stops[|stops| - 2], stops[|stops| - 1])
  }

  lemma {:induction false} TourIsWalk(g: Graph, p: seq<int>, stops: seq<int>)
    requires Tour(g, p, stops)
    ensures stops != [] && WalkBetween(g, p, stops[0], stops[|stops| - 1])
    decreases |stops|
  {
    hide HasPair;
    if |stops| > 1 {
      var k :| Splits(g, p, k, stops);
      TourIsWalk(g, p[..k + 1], stops[..|stops| - 1]);
      assert p == p[..k + 1] + p[k..][1..];
      CostConcat(g, p[..k + 1], p[k..]);
    }
  }

  lemma TourSplits(g: Graph, p: seq<int>, stops: seq<int>) returns (k: int)
    requires Tour(g, p, stops) && |stops| >= 2
    ensures Splits(g, p, k, stops)
  {
    k :| Splits(g, p, k, stops);
  }

  /** Appending a leg to a tour. */
  lemma TourSnoc(g: Graph, p: seq<int>, stops: seq<int>, leg: seq<int>, stop: int)
    requires Tour(g, p, stops) && stops != [] && WalkBetween(g, leg, stops[|stops| - 1], stop)
    ensures Tour(g, p + leg[1..], stops + [stop])
    ensures Walk(g, p) && Walk(g, p + leg[1..]) && Cost(g, p + leg[1..]) == Cost(g, p) + Cost(g, leg)
  {
    hide HasPair;
    TourIsWalk(g, p, stops);
    CostConcat(g, p, leg);
    var q, more, k := p + leg[1..], stops + [stop], |p| - 1;
    assert q[..k + 1] == p && q[k..] == leg;
    assert more[..|more| - 1] == stops;
    assert Splits(g, q, k, more);
  }

  ghost predicate BestTour(g: Graph, p: seq<int>, stops: seq<int>) {
    && Tour(g, p, stops) && Walk(g, p)
    && forall q :: Walk(g, q) && Tour(g, q, stops) ==> Cost(g, p) <= Cost(g, q)
  }

  /** A best tour followed by a best leg is a best tour. */
  lemma BestTourSnoc(g: Graph, p: seq<int>, stops: seq<int>, leg: seq<int>, stop: int)
    requires BestTour(g, p, stops) && stops != [] && WalkBetween(g, leg, stops[|stops| - 1], stop)
    requires forall w :: WalkBetween(g, w, stops[|stops| - 1], stop) ==> Cost(g, leg) <= Cost(g, w)
    ensures BestTour(g, p + leg[1..], stops + [stop])
  {
    hide HasPair;
    TourSnoc(g, p, stops, leg, stop);
    var more := stops + [stop];
    forall q | Walk(g, q) && Tour(g, q, more)
      ensures Cost(g, p + leg[1..]) <= Cost(g, q)
    {
      var k := TourSplits(g, q, more);
      assert more[..|more| - 1] == stops;
      TourIsWalk(g, q[..k + 1], stops);
      CostConcat(g, q[..k + 1], q[k..]);
      assert q == q[..k + 1] + q[k..][1..];
    }
  }

  function Ids(vs: seq<Vertex>): seq<int> {
    seq(|vs|, i requires 0 <= i < |vs| => vs[i].id)
  }

  /** Consecutive stops are in the graph and reachable from one another. */
  ghost predicate LegsReachable(g: Graph, stops: seq<Vertex>) {
    && (forall i :: 0 <= i < |stops| ==> HasId(g, stops[i].id))
    && (forall i :: 0 <= i < |stops| - 1 ==> Reachable(g, stops[i].id, stops[i + 1].id))
  }

  /** Appends the leg from a to b, without its first vertex, to the tour of length index in path. */
  method AppendLeg(g: Graph, a: Vertex, b: Vertex, path: array<int>, index: nat, ghost p: seq<int>,
                   ghost stops: seq<int>)
    returns (newIndex: nat, ghost q: seq<int>)
    requires Searchable(g) && NoOverflow(g) && HasId(g, a.id) && HasId(g, b.id) && Reachable(g, a.id, b.id)
    requires index + |g.vertices| <= path.Length && path[..index] == p && Positive(p)
    requires BestTour(g, p, stops) && stops != [] && stops[|stops| - 1] == a.id
    modifies path
    ensures index <= newIndex <= path.Length && newIndex <= index + |g.vertices| && path[..newIndex] == q && Positive(q)
    ensures BestTour(g, q, stops + [b.id])
  {
    hide NoOverflow;
    var tempPath := new int[|g.vertices| + 2];
    var status := Dijkstra.Dijkstra(g, a, b, tempPath);
    ghost var leg := Stored(tempPath[..]);
    BestTourSnoc(g, p, stops, leg, b.id);
    WalkPositive(g, leg, a.id);
    newIndex, q := CopyLeg(tempPath, path, index, p, leg);
  }

  predicate Positive(p: seq<int>) {
    forall i :: 0 <= i < |p| ==> p[i] > 0
  }

  lemma WalkPositive(g: Graph, p: seq<int>, a: int)
    requires Searchable(g) && Walk(g, p) && p[0] == a && HasId(g, a)
    ensures Positive(p)
  {
    forall i | 0 <= i < |p|
      ensures p[i] > 0
    {
      if i > 0 {
        PairSymmetric(g, p[i - 1], p[i]);
      }
      assert HasId(g, p[i]);
    }
  }

  method CopyLeg(tempPath: array<int>, path: array<int>, index: nat, ghost p: seq<int>, ghost leg: seq<int>)
    returns (newIndex: nat, ghost q: seq<int>)
    requires path != tempPath && Stored(tempPath[..]) == leg && |leg| < tempPath.Length && leg != []
    requires index + |leg| - 1 <= path.Length && path[..index] == p && Positive(p) && Positive(leg)
    modifies path
    ensures q == p + leg[1..] && newIndex == |q| && newIndex <= path.Length && path[..newIndex] == q && Positive(q)
  {
    StoredPrefix(tempPath[..]);
    assert tempPath[..|leg|] == leg && tempPath[|leg|] == 0;
    assert forall i :: 0 <= i < |leg| ==> tempPath[..|leg|][i] == leg[i] > 0;
    newIndex := index;
    var j := 1;
    while tempPath[j] != 0
      invariant 1 <= j <= |leg| && newIndex == index + j - 1
      invariant path[..newIndex] == p + leg[1..j]
      decreases |leg| - j
    {
      assert tempPath[j] == leg[j];
      path[newIndex] := tempPath[j];
      assert leg[1..j + 1] == leg[1..j] + [leg[j]];
      newIndex, j := newIndex + 1, j + 1;
    }
    q := p + leg[1..];
    assert leg[1..j] == leg[1..];
  }

  lemma {:induction false} StoredPrefix(a: seq<int>)
    ensures |Stored(a)| <= |a| && a[..|Stored(a)|] == Stored(a)
    ensures |Stored(a)| < |a| ==> a[|Stored(a)|] == 0
  {
    if a != [] && a[0] != 0 {
      StoredPrefix(a[1..]);
    }
  }

  /** dijkstraN, with its variable arguments as a sequence. */
  method DijkstraN(g: Graph, start: Vertex, end: Vertex, path: array<int>, stops: seq<Vertex>)
    requires Searchable(g) && NoOverflow(g) && LegsReachable(g, [start] + stops + [end])
    requires path.Length > (|stops| + 1) * |g.vertices| + 1
    modifies path
    ensures BestTour(g, Stored(path[..]), Ids([start] + stops + [end]))
  {
    hide Searchable;
    hide NoOverflow;
    hide BestTour;
    var all := [start] + stops + [end];
    var index := 1;
    path[0] := start.id;
    ghost var p := [start.id];
    var v1, v2 := start, start;
    assert all[0] == start;
    FirstStop(g, start);
    assert Ids(all[..1]) == [start.id];
    for i := 0 to |stops|
      invariant v2 == all[i] && 1 <= index <= i * |g.vertices| + 1
      invariant path[..index] == p && Positive(p) && BestTour(g, p, Ids(all[..i + 1]))
    {
      LegRoom(i, |stops|, |g.vertices|);
      v1 := v2;
      v2 := stops[i];
      assert v2 == all[i + 1];
      assert Ids(all[..i + 2]) == Ids(all[..i + 1]) + [v2.id];
      index, p := AppendLeg(g, v1, v2, path, index, p, Ids(all[..i + 1]));
    }
    LegRoom(|stops|, |stops|, |g.vertices|);
    assert end == all[|stops| + 1];
    assert Ids(all) == Ids(all[..|stops| + 1]) + [end.id];
    index, p := AppendLeg(g, v2, end, path, index, p, Ids(all[..|stops| + 1]));
    path[index] := 0;
    assert path[..index] == p;
    StoredIs(path[..], p);
  }

  lemma FirstStop(g: Graph, start: Vertex)
    requires Searchable(g) && HasId(g, start.id)
    ensures BestTour(g, [start.id], [start.id]) && Positive([start.id])
  {
    WalkPositive(g, [start.id], start.id);
  }

  lemma LegRoom(i: nat, n: nat, v: nat)
    requires i <= n
    ensures i * v + 1 + v <= (n + 1) * v + 1 && (i + 1) * v == i * v + v
  {
  }
}
