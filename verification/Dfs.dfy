/** Depth-first search with a chain of cells for the current path and an array of visited ids. */
module Dfs {
  import opened Seqs
  import opened MapGraph
  import opened Walks
  import opened SearchTree
  import opened ZeroArrays

  // ------------------------------------------------------ chain and visited ids

  /** The chain is a simple path from the start, and it and the visited ids stay within the graph. */
  predicate Shape(g: Graph, chain: seq<int>, visited: seq<int>, startId: int) {
    && Walk(g, chain) && chain[0] == startId && Simple(chain) && Simple(visited)
    && (forall i :: 0 <= i < |chain| ==> chain[i] in visited)
    && (forall i :: 0 <= i < |visited| ==> HasId(g, visited[i]))
  }

  predicate NeighboursVisited(g: Graph, visited: seq<int>, id: int) {
    forall i :: 0 <= i < |g.edges| ==> !FreshEnd(g.edges[i], visited, id)
  }

  /** e leads from id to an id not yet visited. */
  predicate FreshEnd(e: Edge, visited: seq<int>, id: int) {
    (e.v1.id == id || e.v2.id == id) && FarEnd(e, id) !in visited
  }

  /** The end of e that the source looks at when e touches id. */
  function FarEnd(e: Edge, id: int): int {
    if e.v2.id == id then e.v1.id else e.v2.id
  }

  /** Every visited id off the chain has only visited neighbours. */
  predicate Exhausted(g: Graph, chain: seq<int>, visited: seq<int>) {
    forall i :: 0 <= i < |visited| && visited[i] !in chain ==> NeighboursVisited(g, visited, visited[i])
  }

  lemma NeighbourVisited(g: Graph, visited: seq<int>, id: int, b: int)
    requires Valid(g) && NeighboursVisited(g, visited, id) && HasPair(g, id, b)
    ensures b in visited
  {
    var i :| 0 <= i < |g.edges| && Joins(g.edges[i], id, b);
    assert GoodEdge(g, g.edges[i]);
    assert !FreshEnd(g.edges[i], visited, id);
  }

  lemma NeighboursStay(g: Graph, visited: seq<int>, more: seq<int>, id: int)
    requires NeighboursVisited(g, visited, id) && forall x :: x in visited ==> x in more
    ensures NeighboursVisited(g, more, id)
  {
    forall i | 0 <= i < |g.edges|
      ensures !FreshEnd(g.edges[i], more, id)
    {
      assert !FreshEnd(g.edges[i], visited, id);
    }
  }

  /** Going down one edge to a fresh vertex. */
  lemma PushKeeps(g: Graph, chain: seq<int>, visited: seq<int>, startId: int, n: nat)
    requires Valid(g) && Shape(g, chain, visited, startId) && Exhausted(g, chain, visited)
    requires n < |g.edges| && FreshEnd(g.edges[n], visited, chain[|chain| - 1])
    ensures var next := FarEnd(g.edges[n], chain[|chain| - 1]);
            && Shape(g, chain + [next], visited + [next], startId)
            && Exhausted(g, chain + [next], visited + [next])
  {
    var top := chain[|chain| - 1];
    var next := FarEnd(g.edges[n], top);
    var c, v := chain + [next], visited + [next];
    assert Joins(g.edges[n], top, next) && GoodEdge(g, g.edges[n]);
    assert HasPair(g, top, next) && HasId(g, next);
    CostSnoc(g, chain, next);
    PushExhausted(g, chain, visited, next);
    hide HasId;
    hide HasPair;
    assert forall i :: 0 <= i < |c| ==> c[i] in v;
  }

  lemma PushExhausted(g: Graph, chain: seq<int>, visited: seq<int>, next: int)
    requires Exhausted(g, chain, visited)
    ensures Exhausted(g, chain + [next], visited + [next])
  {
    hide NeighboursVisited;
    var c, v := chain + [next], visited + [next];
    forall i | 0 <= i < |v| && v[i] !in c
      ensures NeighboursVisited(g, v, v[i])
    {
      assert c[|chain|] == next;
      assert i < |visited| && visited[i] !in chain by {
        assert forall x :: x in chain ==> x in c;
      }
      NeighboursStay(g, visited, v, visited[i]);
    }
  }

  /** Stepping back from a vertex without fresh neighbours. */
  lemma PopKeeps(g: Graph, chain: seq<int>, visited: seq<int>, startId: int)
    requires Shape(g, chain, visited, startId) && Exhausted(g, chain, visited) && |chain| > 1
    requires NeighboursVisited(g, visited, chain[|chain| - 1])
    ensures Shape(g, chain[..|chain| - 1], visited, startId) && Exhausted(g, chain[..|chain| - 1], visited)
  {
    hide NeighboursVisited;
    hide HasId;
    hide HasPair;
    var c := chain[..|chain| - 1];
    forall i | 0 <= i < |visited| && visited[i] !in c
      ensures NeighboursVisited(g, visited, visited[i])
    {
      assert chain == c + [chain[|chain| - 1]];
    }
  }

  /** When the start itself has no fresh neighbour, everything reachable has been visited. */
  lemma {:induction false} AllVisited(g: Graph, visited: seq<int>, startId: int, p: seq<int>, n: nat)
    requires Valid(g) && Shape(g, [startId], visited, startId) && Exhausted(g, [startId], visited)
    requires NeighboursVisited(g, visited, startId)
    requires Walk(g, p) && p[0] == startId && n < |p|
    ensures p[n] in visited
  {
    if n == 0 {
      assert [startId][0] in visited;
    } else {
      AllVisited(g, visited, startId, p, n - 1);
      var i :| 0 <= i < |visited| && visited[i] == p[n - 1];
      assert NeighboursVisited(g, visited, p[n - 1]);
      NeighbourVisited(g, visited, p[n - 1], p[n]);
    }
  }

  lemma DeadEnd(g: Graph, chain: seq<int>, visited: seq<int>, startId: int, endId: int)
    requires Valid(g) && Shape(g, chain, visited, startId) && Exhausted(g, chain, visited)
    requires NeighboursVisited(g, visited, startId) && chain[|chain| - 1] == startId && endId !in visited
    ensures !Reachable(g, startId, endId)
  {
    assert chain == [startId];
    if Reachable(g, startId, endId) {
      var p :| WalkBetween(g, p, startId, endId);
      AllVisited(g, visited, startId, p, |p| - 1);
    }
  }

  /** As many visited ids as vertices means every vertex has been visited. */
  lemma FullyVisited(g: Graph, visited: seq<int>, id: int)
    requires Valid(g) && Simple(visited) && |visited| >= |g.vertices| && HasId(g, id)
    requires forall i :: 0 <= i < |visited| ==> HasId(g, visited[i])
    ensures id in visited
  {
    if id !in visited {
      VisitedFits(g, visited + [id]);
      assert false;
    }
  }

  lemma PlaceOf(g: Graph, id: int) returns (j: nat)
    requires HasId(g, id)
    ensures j < |g.vertices| && g.vertices[j].id == id
  {
    j :| 0 <= j < |g.vertices| && g.vertices[j].id == id;
  }

  lemma VisitedFits(g: Graph, visited: seq<int>)
    requires Simple(visited) && forall i :: 0 <= i < |visited| ==> HasId(g, visited[i])
    ensures |visited| <= |g.vertices|
  {
    var all := seq(|g.vertices|, i requires 0 <= i < |g.vertices| => g.vertices[i].id);
    forall i | 0 <= i < |visited|
      ensures visited[i] in all
    {
      var j := PlaceOf(g, visited[i]);
      assert all[j] == visited[i];
    }
    DistinctWithin(visited, all);
  }

  lemma ChainFits(g: Graph, chain: seq<int>, visited: seq<int>, startId: int)
    requires Shape(g, chain, visited, startId)
    ensures |chain| <= |visited| <= |g.vertices|
  {
    DistinctWithin(chain, visited);
    VisitedFits(g, visited);
  }

  // ----------------------------------------------------------- the visited array

  /** The array holds the visited ids and zeros behind them. */
  ghost predicate Records(a: seq<int>, visited: seq<int>) {
    && |visited| <= |a| && a[..|visited|] == visited
    && (forall i :: |visited| <= i < |a| ==> a[i] == 0)
    && (forall i :: 0 <= i < |visited| ==> visited[i] > 0)
  }

  lemma RecordsStored(a: seq<int>, visited: seq<int>)
    requires Records(a, visited) && |visited| < |a|
    ensures Stored(a) == visited
  {
    StoredIs(a, visited);
  }

  /** dfs_helper: the far end of the first edge that leads from id to a fresh vertex, or -1. */
  method DfsHelper(g: Graph, id: int, visVert: array<int>, ghost visited: seq<int>) returns (next: int, ghost n: nat)
    requires Valid(g) && PositiveIds(g) && Records(visVert[..], visited) && |visited| < visVert.Length
    ensures next == -1 <==> NeighboursVisited(g, visited, id)
    ensures next != -1 ==> n < |g.edges| && FreshEnd(g.edges[n], visited, id) && next == FarEnd(g.edges[n], id) > 0
  {
    hide Valid;
    hide PositiveIds;
    RecordsStored(visVert[..], visited);
    assert visVert[|visited|] == 0;
    n := 0;
    for i := 0 to |g.edges|
      invariant forall j :: 0 <= j < i ==> !FreshEnd(g.edges[j], visited, id)
    {
      next := -1;
      if g.edges[i].v1.id == id {
        next := g.edges[i].v2.id;
      }
      if g.edges[i].v2.id == id {
        next := g.edges[i].v1.id;
      }
      EndsPositive(g, i);
      if next != -1 {
        var found := FoundInArray(visVert, next);
        if !found {
          n := i;
          return;
        }
      }
    }
    next := -1;
  }

  // ------------------------------------------------------------------- the chain

  /** vertex_status_f */
  class VsF {
    var id: int
    var prevptr: VsF?
    var nextptr: VsF?

    constructor (id: int, prevptr: VsF?, nextptr: VsF?)
      ensures this.id == id && this.prevptr == prevptr && this.nextptr == nextptr
    {
      this.id, this.prevptr, this.nextptr := id, prevptr, nextptr;
    }
  }

  /** cells hold the chain; the last cell's nextptr may point to a cell that was dropped. */
  ghost predicate Holds(cells: seq<VsF>, chain: seq<int>)
    reads cells
  {
    && |cells| == |chain|
    && (forall i, j :: 0 <= i < j < |cells| ==> cells[i] != cells[j])
    && (forall i :: 0 <= i < |cells| ==> cells[i].id == chain[i])
    && (forall i :: 0 < i < |cells| ==> cells[i].prevptr == cells[i - 1])
    && (forall i :: 0 <= i < |cells| - 1 ==> cells[i].nextptr == cells[i + 1])
  }

  method Extend(curr: VsF, id: int, ghost cells: seq<VsF>, ghost chain: seq<int>) returns (next: VsF)
    requires Holds(cells, chain) && cells != [] && curr == cells[|cells| - 1]
    modifies curr`nextptr
    ensures fresh(next) && next.nextptr == null && next.id == id && Holds(cells + [next], chain + [id])
  {
    next := new VsF(id, curr, null);
    curr.nextptr := next;
  }

  method StepBack(curr: VsF, ghost cells: seq<VsF>, ghost chain: seq<int>) returns (prev: VsF)
    requires Holds(cells, chain) && |cells| > 1 && curr == cells[|cells| - 1]
    ensures prev == cells[|cells| - 2] && prev.id == chain[|chain| - 2]
    ensures Holds(cells[..|cells| - 1], chain[..|chain| - 1])
  {
    assert cells[|cells| - 1].prevptr == cells[|cells| - 2];
    prev := curr.prevptr;
  }

  method FirstCell(id: int) returns (begin: VsF)
    ensures fresh(begin) && begin.id == id && begin.nextptr == null && Holds([begin], [id])
  {
    begin := new VsF(id, null, null);
  }

  /** The last walk over the chain, which copies it to path. */
  method CopyChain(begin: VsF, ghost cells: seq<VsF>, ghost chain: seq<int>, path: array<int>)
    requires Holds(cells, chain) && cells != [] && begin == cells[0] && cells[|cells| - 1].nextptr == null
    requires |chain| < path.Length && forall i :: 0 <= i < |chain| ==> chain[i] > 0
    modifies path
    ensures Stored(path[..]) == chain
  {
    var curr: VsF? := begin;
    var i := 0;
    while curr != null
      invariant 0 <= i <= |cells| && curr == (if i < |cells| then cells[i] else null)
      invariant path[..i] == chain[..i]
      decreases |cells| - i
    {
      path[i] := curr.id;
      assert chain[..i + 1] == chain[..i] + [chain[i]];
      curr := curr.nextptr;
      i := i + 1;
    }
    path[i] := 0;
    assert path[..i] == chain;
    StoredIs(path[..], chain);
  }

  // ------------------------------------------------------------------------- dfs

  /** The chain, the visited ids and the cells agree, and the end is visited only at the tip of the chain. */
  ghost predicate Searching(g: Graph, chain: seq<int>, visited: seq<int>, startId: int, endId: int, found: bool) {
    && Shape(g, chain, visited, startId) && Exhausted(g, chain, visited)
    && (found <==> chain[|chain| - 1] == endId) && (!found ==> endId !in visited)
  }

  lemma SearchingPush(g: Graph, chain: seq<int>, visited: seq<int>, startId: int, endId: int, n: nat)
    requires Valid(g) && Searching(g, chain, visited, startId, endId, false)
    requires n < |g.edges| && FreshEnd(g.edges[n], visited, chain[|chain| - 1])
    ensures var next := FarEnd(g.edges[n], chain[|chain| - 1]);
            Searching(g, chain + [next], visited + [next], startId, endId, next == endId)
  {
    hide Valid;
    hide Shape;
    hide Exhausted;
    hide FreshEnd;
    PushKeeps(g, chain, visited, startId, n);
  }

  lemma SearchingPop(g: Graph, chain: seq<int>, visited: seq<int>, startId: int, endId: int)
    requires Searching(g, chain, visited, startId, endId, false) && |chain| > 1
    requires NeighboursVisited(g, visited, chain[|chain| - 1])
    ensures Searching(g, chain[..|chain| - 1], visited, startId, endId, false)
    ensures chain[|chain| - 2] != endId
  {
    hide HasId;
    hide HasPair;
    hide NeighboursVisited;
    hide Exhausted;
    PopKeeps(g, chain, visited, startId);
  }

  /** The search loop: the cells of a path to the end, or nothing. */
  method SearchChain(g: Graph, startId: int, endId: int)
    returns (begin: VsF, found: bool, ghost cells: seq<VsF>, ghost chain: seq<int>)
    requires Valid(g) && PositiveIds(g) && HasId(g, startId) && HasId(g, endId) && startId != endId
    ensures found <==> Reachable(g, startId, endId)
    ensures found ==> Holds(cells, chain) && cells != [] && begin == cells[0] && cells[|cells| - 1].nextptr == null
    ensures found ==> WalkBetween(g, chain, startId, endId) && Simple(chain) && |chain| <= |g.vertices|
    ensures found ==> forall i :: 0 <= i < |chain| ==> chain[i] > 0
  {
    hide Valid;
    hide PositiveIds;
    hide HasId;
    hide HasPair;
    hide Searching;
    hide Reachable;
    hide Holds;
    hide NeighboursVisited;
    hide FreshEnd;
    begin := FirstCell(startId);
    var curr := begin;
    var visitedVertices, numVv := FirstVisited(g, startId);
    ghost var visited := [startId];
    cells, chain, found := [begin], [startId], false;
    FirstSearching(g, startId, endId);
    while !found && numVv < |g.vertices|
      invariant Searching(g, chain, visited, startId, endId, found) && Records(visitedVertices[..], visited)
      invariant fresh(visitedVertices) && visitedVertices.Length == |g.vertices| && numVv == |visited|
      invariant Holds(cells, chain) && |cells| == |chain| > 0 && begin == cells[0] && curr == cells[|cells| - 1]
      invariant forall i :: 0 <= i < |cells| ==> fresh(cells[i])
      invariant curr.id == chain[|chain| - 1]
      invariant found ==> curr.nextptr == null
      decreases |g.vertices| - numVv, |chain|
    {
      ghost var n;
      var next;
      next, n := DfsHelper(g, curr.id, visitedVertices, visited);
      if next != -1 {
        SearchingPush(g, chain, visited, startId, endId, n);
        curr := Extend(curr, next, cells, chain);
        cells, chain := cells + [curr], chain + [next];
        RecordOne(visitedVertices[..], visited, next);
        visitedVertices[numVv] := next;
        numVv := numVv + 1;
        visited := visited + [next];
      } else {
        if curr.id == startId {
          NotFound(g, chain, visited, startId, endId);
          return;
        }
        LongerThanStart(g, chain, visited, startId, endId);
        SearchingPop(g, chain, visited, startId, endId);
        curr := StepBack(curr, cells, chain);
        cells, chain := cells[..|cells| - 1], chain[..|chain| - 1];
      }
      if curr.id == endId {
        found := true;
      }
    }
    Found(g, chain, visited, startId, endId, found);
    found := true;
  }

  method FirstVisited(g: Graph, startId: int) returns (a: array<int>, numVv: nat)
    requires HasId(g, startId) && PositiveIds(g)
    ensures fresh(a) && a.Length == |g.vertices| && numVv == 1 && Records(a[..], [startId])
  {
    a := new int[|g.vertices|];
    for i := 0 to a.Length
      invariant forall j :: 0 <= j < i ==> a[j] == 0
    {
      a[i] := 0;
    }
    a[0] := startId;
    numVv := 1;
  }

  lemma RecordOne(a: seq<int>, visited: seq<int>, next: int)
    requires Records(a, visited) && |visited| < |a| && next > 0
    ensures Records(a[|visited| := next], visited + [next])
  {
  }

  lemma FirstSearching(g: Graph, startId: int, endId: int)
    requires HasId(g, startId) && startId != endId
    ensures Searching(g, [startId], [startId], startId, endId, false)
  {
  }

  /** Away from the start the chain has a cell to step back to. */
  lemma LongerThanStart(g: Graph, chain: seq<int>, visited: seq<int>, startId: int, endId: int)
    requires Searching(g, chain, visited, startId, endId, false) && chain[|chain| - 1] != startId
    ensures |chain| > 1
  {
  }

  lemma NotFound(g: Graph, chain: seq<int>, visited: seq<int>, startId: int, endId: int)
    requires Valid(g) && Searching(g, chain, visited, startId, endId, false)
    requires NeighboursVisited(g, visited, startId) && chain[|chain| - 1] == startId
    ensures !Reachable(g, startId, endId)
  {
    DeadEnd(g, chain, visited, startId, endId);
  }

  /** The loop also stops when as many vertices are visited as there are; then the end is among them. */
  lemma Found(g: Graph, chain: seq<int>, visited: seq<int>, startId: int, endId: int, found: bool)
    requires Valid(g) && PositiveIds(g) && Searching(g, chain, visited, startId, endId, found)
    requires HasId(g, endId) && (found || |visited| >= |g.vertices|)
    ensures found && WalkBetween(g, chain, startId, endId) && Simple(chain) && |chain| <= |g.vertices|
    ensures forall i :: 0 <= i < |chain| ==> chain[i] > 0
    ensures Reachable(g, startId, endId)
  {
    ChainFits(g, chain, visited, startId);
    if !found {
      FullyVisited(g, visited, endId);
    }
    forall i | 0 <= i < |chain|
      ensures chain[i] > 0
    {
      var j :| 0 <= j < |visited| && visited[j] == chain[i];
      assert HasId(g, visited[j]);
    }
    assert WalkBetween(g, chain, startId, endId);
  }

  /** dfs: a simple walk when there is a walk at all, and the empty path when there is none. */
  method DepthFirst(g: Graph, start: Vertex, end: Vertex, path: array<int>)
    requires Valid(g) && PositiveIds(g) && start.id > 0 && path.Length > |g.vertices| + 1
    modifies path
    ensures start.id == end.id ==> Stored(path[..]) == [start.id]
    ensures start.id != end.id ==> (Stored(path[..]) != [] <==> Reachable(g, start.id, end.id))
    ensures start.id != end.id && Stored(path[..]) != [] ==>
              WalkBetween(g, Stored(path[..]), start.id, end.id) && Simple(Stored(path[..]))
  {
    if start.id == end.id {
      path[0] := start.id;
      path[1] := 0;
      StoredIs(path[..], [start.id]);
      return;
    }
    WalksStayInside(g, start.id, end.id);
    var foundStart := VertexInGraph(g, start);
    if !foundStart {
      path[0] := 0;
      return;
    }
    var foundEnd := VertexInGraph(g, end);
    if !foundEnd {
      path[0] := 0;
      return;
    }
    ghost var cells, chain;
    var begin, found;
    begin, found, cells, chain := SearchChain(g, start.id, end.id);
    if !found {
      path[0] := 0;
      return;
    }
    CopyChain(begin, cells, chain, path);
  }
}
