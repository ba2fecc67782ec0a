/** Breadth-first search over a linked list that is both its queue and its visited set. */
module Bfs {
  import opened Seqs
  import opened MapGraph
  import opened Walks
  import opened SearchTree
  import opened ZeroArrays

  // ------------------------------------------------------ the list as a sequence

  /** One list entry: its vertex id and the position of the entry it was found from, -1 for the first. */
  datatype Item = Item(id: int, prev: int)

  type Queue = seq<Item>

  predicate Listed(q: Queue, id: int) {
    exists i :: 0 <= i < |q| && q[i].id == id
  }

  /** Entries are distinct vertices, each found over an edge from one of the first b, in their order. */
  predicate Shape(g: Graph, q: Queue, b: nat, startId: int) {
    && q != [] && q[0] == Item(startId, -1) && HasId(g, startId)
    && (forall i :: 1 <= i < |q| ==> 0 <= q[i].prev < i && q[i].prev < b && HasPair(g, q[q[i].prev].id, q[i].id))
    && (forall i, j :: 0 <= i < j < |q| ==> q[i].id != q[j].id && q[i].prev <= q[j].prev)
  }

  /** b stands in the list, found no later than from entry i. */
  predicate FoundBy(q: Queue, i: nat, b: int) {
    exists j :: 0 <= j < |q| && q[j].id == b && q[j].prev <= i
  }

  /** The first k entries have had all their neighbours listed. */
  ghost predicate Processed(g: Graph, q: Queue, k: nat) {
    forall i, b :: 0 <= i < k && i < |q| && HasPair(g, q[i].id, b) ==> FoundBy(q, i, b)
  }

  /** Edges from the start along the entries' predecessors. */
  function Depth(q: Queue, i: nat): nat
    requires i < |q|
    decreases i
  {
    if 0 <= q[i].prev < i then Depth(q, q[i].prev) + 1 else 0
  }

  function BackIds(q: Queue, i: nat): (p: seq<int>)
    requires i < |q|
    ensures |p| == Depth(q, i) + 1 && p[|p| - 1] == q[i].id
    decreases i
  {
    (if 0 <= q[i].prev < i then BackIds(q, q[i].prev) else []) + [q[i].id]
  }

  /** The list is ordered by distance from the start. */
  lemma {:induction false} DepthOrdered(g: Graph, q: Queue, b: nat, startId: int, i: nat, j: nat)
    requires Shape(g, q, b, startId) && i <= j < |q|
    ensures Depth(q, i) <= Depth(q, j)
    decreases i
  {
    if 0 < i < j {
      assert q[i].prev <= q[j].prev;
      DepthOrdered(g, q, b, startId, q[i].prev, q[j].prev);
    }
  }

  /** The ids back from entry i are those of entries up to i. */
  lemma {:induction false} BackIdsListed(q: Queue, i: nat)
    requires i < |q|
    ensures forall k :: 0 <= k < |BackIds(q, i)| ==> exists j :: 0 <= j <= i && q[j].id == BackIds(q, i)[k]
    decreases i
  {
    if 0 <= q[i].prev < i {
      BackIdsListed(q, q[i].prev);
    }
    forall k | 0 <= k < |BackIds(q, i)|
      ensures exists j :: 0 <= j <= i && q[j].id == BackIds(q, i)[k]
    {
      if k == |BackIds(q, i)| - 1 {
        assert q[i].id == BackIds(q, i)[k];
      } else {
        var before := q[i].prev;
        assert BackIds(q, i)[k] == BackIds(q, before)[k];
        var j :| 0 <= j <= before && q[j].id == BackIds(q, before)[k];
      }
    }
  }

  lemma {:induction false} BackIdsWalk(g: Graph, q: Queue, b: nat, startId: int, i: nat)
    requires Shape(g, q, b, startId) && i < |q|
    ensures WalkBetween(g, BackIds(q, i), startId, q[i].id)
    ensures Simple(BackIds(q, i))
    decreases i
  {
    hide HasPair;
    hide HasId;
    if i > 0 {
      var j := q[i].prev;
      BackIdsWalk(g, q, b, startId, j);
      assert BackIds(q, i) == BackIds(q, j) + [q[i].id];
      WalkSnoc(g, BackIds(q, j), startId, q[j].id, q[i].id);
      NotBefore(g, q, b, startId, i);
      SimpleSnoc(BackIds(q, j), q[i].id);
    }
  }

  lemma WalkSnoc(g: Graph, p: seq<int>, a: int, b: int, c: int)
    requires WalkBetween(g, p, a, b) && HasPair(g, b, c)
    ensures WalkBetween(g, p + [c], a, c)
  {
    hide HasPair;
    CostSnoc(g, p, c);
  }

  lemma NotBefore(g: Graph, q: Queue, b: nat, startId: int, i: nat)
    requires Shape(g, q, b, startId) && 0 < i < |q|
    ensures q[i].prev >= 0 && q[i].id !in BackIds(q, q[i].prev)
  {
    hide HasPair;
    hide BackIds;
    var p := BackIds(q, q[i].prev);
    BackIdsListed(q, q[i].prev);
    forall k | 0 <= k < |p|
      ensures p[k] != q[i].id
    {
      var j :| 0 <= j <= q[i].prev && q[j].id == p[k];
    }
  }

  lemma SimpleSnoc(p: seq<int>, id: int)
    requires Simple(p) && id !in p
    ensures Simple(p + [id])
  {
  }

  lemma DepthOfFound(g: Graph, q: Queue, b: nat, startId: int, i: nat, j: nat)
    requires Shape(g, q, b, startId) && i < |q| && j < |q| && q[j].prev <= i
    ensures Depth(q, j) <= Depth(q, i) + 1
  {
    if j > 0 {
      DepthOrdered(g, q, b, startId, q[j].prev, i);
    }
  }

  /**
   * Following a walk from position n of it, whose vertex is entry i of at most n steps, either all of it
   * stays among the processed entries or it reaches an unprocessed one at least that early.
   */
  lemma {:induction false} Follow(g: Graph, q: Queue, k: nat, startId: int, p: seq<int>, n: nat, i: nat)
    returns (m: nat, j: nat)
    requires Shape(g, q, k, startId) && Processed(g, q, k) && Walk(g, p) && n < |p|
    requires i < |q| && q[i].id == p[n] && Depth(q, i) <= n
    ensures n <= m < |p| && j < |q| && q[j].id == p[m] && Depth(q, j) <= m
    ensures j >= k || m == |p| - 1
    decreases |p| - n
  {
    m, j := n, i;
    if i < k && n < |p| - 1 {
      assert HasPair(g, p[n], p[n + 1]);
      assert FoundBy(q, i, p[n + 1]);
      j :| 0 <= j < |q| && q[j].id == p[n + 1] && q[j].prev <= i;
      DepthOfFound(g, q, k, startId, i, j);
      m, j := Follow(g, q, k, startId, p, n + 1, j);
    }
  }

  /** The entry at hand is as near to the start as any walk to it says. */
  lemma NoShorterWalk(g: Graph, q: Queue, k: nat, startId: int, p: seq<int>)
    requires Shape(g, q, k, startId) && Processed(g, q, k) && k < |q|
    requires WalkBetween(g, p, startId, q[k].id)
    ensures |BackIds(q, k)| <= |p|
  {
    var m, j := Follow(g, q, k, startId, p, 0, 0);
    if j >= k {
      DepthOrdered(g, q, k, startId, k, j);
    }
  }

  /** Once every entry is processed, the list is everything reachable. */
  lemma ExhaustedIsReachable(g: Graph, q: Queue, startId: int, id: int)
    requires Shape(g, q, |q|, startId) && Processed(g, q, |q|)
    ensures Listed(q, id) <==> Reachable(g, startId, id)
  {
    if Reachable(g, startId, id) {
      var p :| WalkBetween(g, p, startId, id);
      var m, j := Follow(g, q, |q|, startId, p, 0, 0);
    }
    if Listed(q, id) {
      var i :| 0 <= i < |q| && q[i].id == id;
      BackIdsWalk(g, q, |q|, startId, i);
    }
  }

  // ------------------------------------------------------------------- one round

  /** What scanning one edge at entry k does to the list. */
  function ScanEdge(q: Queue, k: nat, e: Edge): Queue
    requires k < |q|
  {
    if e.v2.id == q[k].id then (if Listed(q, e.v1.id) then q else q + [Item(e.v1.id, k)])
    else if e.v1.id == q[k].id then (if Listed(q, e.v2.id) then q else q + [Item(e.v2.id, k)])
    else q
  }

  /** Neighbours of entry k over the first n edges are listed. */
  ghost predicate PartlyProcessed(g: Graph, q: Queue, k: nat, n: nat)
    requires k < |q| && n <= |g.edges|
  {
    forall m, b :: 0 <= m < n && Joins(g.edges[m], q[k].id, b) ==> FoundBy(q, k, b)
  }

  lemma FoundByGrows(q: Queue, r: Queue, i: nat, b: int)
    requires q <= r && FoundBy(q, i, b)
    ensures FoundBy(r, i, b)
  {
    var j :| 0 <= j < |q| && q[j].id == b && q[j].prev <= i;
    assert r[j] == q[j];
  }

  lemma ScanEdgeKeepsShape(g: Graph, q: Queue, k: nat, startId: int, n: nat)
    requires Valid(g) && Shape(g, q, k + 1, startId) && k < |q| && n < |g.edges|
    ensures Shape(g, ScanEdge(q, k, g.edges[n]), k + 1, startId)
  {
    hide Valid;
    hide HasId;
    var r := ScanEdge(q, k, g.edges[n]);
    if r != q {
      assert Joins(g.edges[n], q[k].id, r[|q|].id);
      assert HasPair(g, q[k].id, r[|q|].id);
      assert |r| == |q| + 1 && q == r[..|q|];
    }
  }

  lemma ScanEdgeKeepsProcessed(g: Graph, q: Queue, k: nat, startId: int, n: nat)
    requires Valid(g) && Shape(g, q, k + 1, startId) && k < |q| && n < |g.edges|
    requires Processed(g, q, k) && PartlyProcessed(g, q, k, n)
    ensures var r := ScanEdge(q, k, g.edges[n]);
            q <= r && Processed(g, r, k) && PartlyProcessed(g, r, k, n + 1)
  {
    hide HasPair;
    hide Shape;
    var e, r := g.edges[n], ScanEdge(q, k, g.edges[n]);
    assert GoodEdge(g, e);
    forall i, b | 0 <= i < k && i < |r| && HasPair(g, r[i].id, b)
      ensures FoundBy(r, i, b)
    {
      assert r[i] == q[i];
      FoundByGrows(q, r, i, b);
    }
    forall m, b | 0 <= m < n + 1 && Joins(g.edges[m], r[k].id, b)
      ensures FoundBy(r, k, b)
    {
      assert r[k] == q[k];
      if m < n {
        FoundByGrows(q, r, k, b);
      } else {
        EndFound(g, q, k, startId, n, b);
      }
    }
  }

  lemma EndFound(g: Graph, q: Queue, k: nat, startId: int, n: nat, b: int)
    requires Shape(g, q, k + 1, startId) && k < |q| && n < |g.edges| && g.edges[n].v1.id != g.edges[n].v2.id
    requires Joins(g.edges[n], q[k].id, b)
    ensures FoundBy(ScanEdge(q, k, g.edges[n]), k, b)
  {
    hide HasPair;
    var r := ScanEdge(q, k, g.edges[n]);
    if Listed(q, b) {
      var j :| 0 <= j < |q| && q[j].id == b;
      assert r[j].id == b && r[j].prev <= k;
    } else {
      assert r[|q|] == Item(b, k);
    }
  }

  lemma RoundDone(g: Graph, q: Queue, k: nat)
    requires k < |q| && Processed(g, q, k) && PartlyProcessed(g, q, k, |g.edges|)
    ensures Processed(g, q, k + 1)
  {
    forall i, b | 0 <= i < k + 1 && i < |q| && HasPair(g, q[i].id, b)
      ensures FoundBy(q, i, b)
    {
    }
  }

  /** Entries are distinct vertices of the graph, so there are no more of them than vertices. */
  lemma QueueFits(g: Graph, q: Queue, b: nat, startId: int)
    requires Valid(g) && Shape(g, q, b, startId)
    ensures |q| <= |g.vertices|
  {
    var ids := seq(|q|, i requires 0 <= i < |q| => q[i].id);
    var all := seq(|g.vertices|, i requires 0 <= i < |g.vertices| => g.vertices[i].id);
    forall i | 0 <= i < |ids|
      ensures ids[i] in all
    {
      if i > 0 {
        PairSymmetric(g, q[q[i].prev].id, q[i].id);
      }
      var j :| 0 <= j < |g.vertices| && g.vertices[j].id == q[i].id;
      assert all[j] == ids[i];
    }
    DistinctWithin(ids, all);
  }

  // -------------------------------------------------------------- the linked list

  /** vertex_status_b */
  class VsB {
    var id: int
    var nextptr: VsB?
    var prevptr: VsB?

    constructor (id: int, nextptr: VsB?, prevptr: VsB?)
      ensures this.id == id && this.nextptr == nextptr && this.prevptr == prevptr
    {
      this.id, this.nextptr, this.prevptr := id, nextptr, prevptr;
    }
  }

  /** nodes are the cells of a list, in order, that hold q. */
  ghost predicate Holds(nodes: seq<VsB>, q: Queue)
    reads nodes
  {
    && |nodes| == |q|
    && (forall i, j :: 0 <= i < j < |nodes| ==> nodes[i] != nodes[j])
    && (forall i :: 0 <= i < |nodes| ==> CellOf(nodes, q, i))
  }

  /** Cell i holds entry i and leads to the next cell and to the one that the entry was found from. */
  ghost predicate CellOf(nodes: seq<VsB>, q: Queue, i: nat)
    requires i < |nodes| == |q|
    reads nodes
  {
    && nodes[i].id == q[i].id
    && nodes[i].nextptr == (if i + 1 < |nodes| then nodes[i + 1] else null)
    && nodes[i].prevptr == PrevCell(nodes, q[i])
  }

  /** The cell from which an entry was found. */
  ghost function PrevCell(nodes: seq<VsB>, item: Item): VsB? {
    if 0 <= item.prev < |nodes| then nodes[item.prev] else null
  }

  /** found_in_list */
  method FoundInList(begin: VsB?, id: int, ghost nodes: seq<VsB>, ghost q: Queue) returns (found: bool)
    requires Holds(nodes, q) && nodes != [] && begin == nodes[0]
    ensures found == Listed(q, id)
  {
    hide Holds;
    var temp := begin;
    ghost var i := 0;
    CellHeld(nodes, q, 0);
    while temp != null
      invariant 0 <= i <= |nodes| && temp == (if i < |nodes| then nodes[i] else null)
      invariant forall j :: 0 <= j < i ==> q[j].id != id
      decreases |nodes| - i
    {
      CellHeld(nodes, q, i);
      if temp.id == id {
        return true;
      }
      temp := temp.nextptr;
      i := i + 1;
    }
    return false;
  }

  /** What the i-th cell holds, and where its nextptr leads. */
  lemma CellHeld(nodes: seq<VsB>, q: Queue, i: nat)
    requires Holds(nodes, q) && i < |nodes|
    ensures |nodes| == |q| && nodes[i].id == q[i].id
    ensures nodes[i].nextptr == if i + 1 < |nodes| then nodes[i + 1] else null
  {
    assert CellOf(nodes, q, i);
  }

  lemma HeldIds(nodes: seq<VsB>, q: Queue, k: nat)
    requires Holds(nodes, q) && k < |q|
    ensures |nodes| == |q| && nodes[k].id == q[k].id
  {
    assert CellOf(nodes, q, k);
  }

  /** Appends a cell for vertex id, found from curr, behind the last cell. */
  method Append(endptr: VsB, curr: VsB, id: int, ghost nodes: seq<VsB>, ghost q: Queue, ghost k: nat)
    returns (temp: VsB)
    requires Holds(nodes, q) && k < |nodes| && curr == nodes[k] && endptr == nodes[|nodes| - 1]
    requires forall i :: 0 <= i < |q| ==> q[i].prev < |q|
    modifies endptr`nextptr
    ensures fresh(temp) && Holds(nodes + [temp], q + [Item(id, k)])
  {
    temp := new VsB(id, null, curr);
    endptr.nextptr := temp;
    PrevCellsStay(nodes, temp, q);
    assert PrevCell(nodes + [temp], Item(id, k)) == curr;
    hide PrevCell;
    forall i | 0 <= i < |nodes|
      ensures CellOf(nodes + [temp], q + [Item(id, k)], i)
    {
      assert old(CellOf(nodes, q, i));
    }
    assert CellOf(nodes + [temp], q + [Item(id, k)], |nodes|);
    hide CellOf;
  }

  lemma PrevCellsStay(nodes: seq<VsB>, temp: VsB, q: Queue)
    requires |nodes| == |q| && forall i :: 0 <= i < |q| ==> q[i].prev < |q|
    ensures forall i :: 0 <= i < |q| ==> PrevCell(nodes + [temp], q[i]) == PrevCell(nodes, q[i])
  {
  }

  /** The body of the edge loop. */
  method ScanOne(e: Edge, begin: VsB, endptr: VsB, curr: VsB, ghost nodes: seq<VsB>, ghost q: Queue, ghost k: nat)
    returns (newEnd: VsB, ghost newNodes: seq<VsB>)
    requires k < |q| && e.v1.id > 0 && e.v2.id > 0 && forall i :: 0 <= i < |q| ==> q[i].prev < |q|
    requires Holds(nodes, q) && begin == nodes[0] && endptr == nodes[|nodes| - 1] && curr == nodes[k]
    modifies endptr`nextptr
    ensures Holds(newNodes, ScanEdge(q, k, e)) && |newNodes| == |ScanEdge(q, k, e)|
    ensures nodes <= newNodes && newEnd == newNodes[|newNodes| - 1]
    ensures newNodes == nodes || (newNodes == nodes + [newEnd] && fresh(newEnd))
  {
    hide Holds;
    hide Listed;
    HeldIds(nodes, q, k);
    newEnd, newNodes := endptr, nodes;
    var otherId := -1;
    if e.v1.id == curr.id {
      otherId := e.v2.id;
    }
    if e.v2.id == curr.id {
      otherId := e.v1.id;
    }
    var otherNotFound := false;
    if otherId != -1 {
      var found := FoundInList(begin, otherId, nodes, q);
      otherNotFound := !found;
    }
    if otherNotFound {
      newEnd := Append(endptr, curr, otherId, nodes, q, k);
      newNodes := nodes + [newEnd];
    }
  }

  /** Scans the edges of g at cell curr, entry k, and lists its new neighbours. */
  method ScanEdges(g: Graph, begin: VsB, endptr: VsB, curr: VsB, ghost nodes: seq<VsB>, ghost q: Queue,
                   ghost k: nat, ghost startId: int)
    returns (newEnd: VsB, ghost newNodes: seq<VsB>, ghost newQ: Queue)
    requires Valid(g) && PositiveIds(g) && k < |q| == |nodes| && Shape(g, q, k, startId) && Processed(g, q, k)
    requires Holds(nodes, q) && begin == nodes[0] && endptr == nodes[|nodes| - 1] && curr == nodes[k]
    modifies nodes
    ensures Shape(g, newQ, k + 1, startId) && Processed(g, newQ, k + 1) && q <= newQ
    ensures Holds(newNodes, newQ) && |newNodes| == |newQ| && nodes <= newNodes && newEnd == newNodes[|newNodes| - 1]
    ensures forall i :: |nodes| <= i < |newNodes| ==> fresh(newNodes[i])
  {
    hide Valid;
    hide PositiveIds;
    hide Processed;
    hide PartlyProcessed;
    hide ScanEdge;
    hide HasPair;
    hide HasId;
    hide Shape;
    hide Holds;
    newEnd, newNodes, newQ := endptr, nodes, q;
    NothingScanned(g, q, k);
    ShapeGrows(g, q, k, startId);
    for i := 0 to |g.edges|
      invariant Shape(g, newQ, k + 1, startId) && Processed(g, newQ, k) && q <= newQ
      invariant PartlyProcessed(g, newQ, k, i)
      invariant Holds(newNodes, newQ) && nodes <= newNodes && newEnd == newNodes[|newNodes| - 1]
      invariant |newNodes| == |newQ| && (newEnd in nodes || fresh(newEnd))
      invariant forall j :: |nodes| <= j < |newNodes| ==> fresh(newNodes[j])
    {
      var e := g.edges[i];
      ScanEdgeKeepsShape(g, newQ, k, startId, i);
      ScanEdgeKeepsProcessed(g, newQ, k, startId, i);
      EndsPositive(g, i);
      EntriesBack(g, newQ, k + 1, startId);
      newEnd, newNodes := ScanOne(e, begin, newEnd, curr, newNodes, newQ, k);
      newQ := ScanEdge(newQ, k, e);
    }
    RoundDone(g, newQ, k);
  }

  lemma ShapeGrows(g: Graph, q: Queue, b: nat, startId: int)
    requires Shape(g, q, b, startId)
    ensures Shape(g, q, b + 1, startId)
  {
  }

  lemma EntriesBack(g: Graph, q: Queue, b: nat, startId: int)
    requires Shape(g, q, b, startId)
    ensures forall i :: 0 <= i < |q| ==> q[i].prev < |q|
  {
  }

  lemma NothingScanned(g: Graph, q: Queue, k: nat)
    requires k < |q|
    ensures PartlyProcessed(g, q, k, 0)
  {
  }

  // ----------------------------------------------------------------------- bfs

  method Advance(curr: VsB, ghost nodes: seq<VsB>, ghost q: Queue, ghost k: nat) returns (next: VsB?)
    requires Holds(nodes, q) && k < |nodes| && curr == nodes[k]
    ensures next == if k + 1 < |nodes| then nodes[k + 1] else null
  {
    CellHeld(nodes, q, k);
    next := curr.nextptr;
  }

  method FirstCell(startId: int) returns (begin: VsB)
    ensures fresh(begin) && Holds([begin], [Item(startId, -1)]) && begin.id == startId
  {
    begin := new VsB(startId, null, null);
  }

  lemma FirstEntry(g: Graph, startId: int)
    requires HasId(g, startId)
    ensures Shape(g, [Item(startId, -1)], 0, startId) && Processed(g, [Item(startId, -1)], 0)
    ensures |g.vertices| >= 1
  {
  }

  /** The search loop: the cell of the end, or null once the list is exhausted. */
  method SearchList(g: Graph, startId: int, endId: int)
    returns (curr: VsB?, ghost nodes: seq<VsB>, ghost q: Queue, ghost k: nat)
    requires Valid(g) && PositiveIds(g) && HasId(g, startId)
    ensures Shape(g, q, k, startId) && Holds(nodes, q) && |q| <= |g.vertices|
    ensures curr == null <==> !Reachable(g, startId, endId)
    ensures curr != null ==> k < |q| && curr == nodes[k] && q[k].id == endId
    ensures curr != null ==> forall p :: WalkBetween(g, p, startId, endId) ==> |BackIds(q, k)| <= |p|
  {
    hide Valid;
    hide PositiveIds;
    hide HasPair;
    hide HasId;
    hide Processed;
    hide Shape;
    FirstEntry(g, startId);
    hide Holds;
    hide Reachable;
    var begin := FirstCell(startId);
    var endptr := begin;
    curr := begin;
    nodes, q, k := [begin], [Item(startId, -1)], 0;
    while curr != null && curr.id != endId
      invariant Shape(g, q, k, startId) && Processed(g, q, k) && Holds(nodes, q) && k <= |q| <= |g.vertices|
      invariant q != [] && |nodes| == |q| && begin == nodes[0] && endptr == nodes[|nodes| - 1]
      invariant curr == if k < |q| then nodes[k] else null
      invariant curr != null ==> curr.id == q[k].id
      invariant forall i :: 0 <= i < k ==> q[i].id != endId
      invariant forall i :: 0 <= i < |nodes| ==> fresh(nodes[i])
      decreases |g.vertices| - k
    {
      ghost var before := nodes;
      endptr, nodes, q := ScanEdges(g, begin, endptr, curr, nodes, q, k, startId);
      assert forall i :: 0 <= i < |before| ==> nodes[i] == before[i];
      QueueFits(g, q, k + 1, startId);
      curr := Advance(curr, nodes, q, k);
      k := k + 1;
      if k < |q| {
        HeldIds(nodes, q, k);
      }
    }
    SearchEnds(g, q, k, startId, endId);
  }

  /** What the list says when the search loop stops at entry k. */
  lemma SearchEnds(g: Graph, q: Queue, k: nat, startId: int, endId: int)
    requires Shape(g, q, k, startId) && Processed(g, q, k) && k <= |q|
    requires forall i :: 0 <= i < k ==> q[i].id != endId
    requires k < |q| ==> q[k].id == endId
    ensures k < |q| <==> Reachable(g, startId, endId)
    ensures k < |q| ==> forall p :: WalkBetween(g, p, startId, endId) ==> |BackIds(q, k)| <= |p|
  {
    hide HasPair;
    hide HasId;
    hide Processed;
    if k < |q| {
      BackIdsWalk(g, q, k, startId, k);
      forall p | WalkBetween(g, p, startId, endId)
        ensures |BackIds(q, k)| <= |p|
      {
        NoShorterWalk(g, q, k, startId, p);
      }
    } else {
      ExhaustedIsReachable(g, q, startId, endId);
    }
  }

  /** The walk back over prevptr into tempPath, and forward again into path. */
  method Unwind(last: VsB, ghost nodes: seq<VsB>, ghost q: Queue, ghost k: nat, bound: nat, path: array<int>)
    requires Holds(nodes, q) && k < |q| <= bound && last == nodes[k] && path.Length > bound
    requires forall i :: 1 <= i < |q| ==> 0 <= q[i].prev < i
    requires q[0].prev < 0 && forall i :: 0 <= i < |q| ==> q[i].id > 0
    modifies path
    ensures Stored(path[..]) == BackIds(q, k)
  {
    DepthBelow(q, k);
    BackIdsPositive(q, k);
    var tempPath := new int[bound + 1](_ => 0);
    assert PartlyBackwards(tempPath[..], BackIds(q, k), 0);
    hide Holds;
    hide PartlyBackwards;
    hide Backwards;
    var i := FillBack(last, nodes, q, k, tempPath);
    CopyForward(tempPath, i, path, BackIds(q, k));
  }

  /** The loop over prevptr. */
  method FillBack(last: VsB, ghost nodes: seq<VsB>, ghost q: Queue, ghost k: nat, tempPath: array<int>) returns (i: nat)
    requires Holds(nodes, q) && k < |q| && last == nodes[k] && PartlyBackwards(tempPath[..], BackIds(q, k), 0)
    requires forall i :: 1 <= i < |q| ==> 0 <= q[i].prev < i
    requires q[0].prev < 0 && forall i :: 0 <= i < |q| ==> q[i].id > 0
    modifies tempPath
    ensures i == |BackIds(q, k)| && Backwards(tempPath[..], BackIds(q, k))
  {
    hide BackIds;
    hide Holds;
    hide PartlyBackwards;
    hide Backwards;
    hide PrevCell;
    ghost var p := BackIds(q, k);
    ghost var c: nat := k;
    var curr: VsB := last;
    i := 0;
    assert p[..|p|] == p;
    EntryHeld(nodes, q, c);
    while curr.prevptr != null
      invariant 0 <= c < |q| == |nodes| && curr == nodes[c] && 0 <= i <= |p| && BackIds(q, c) == p[..|p| - i]
      invariant Holds(nodes, q) && PartlyBackwards(tempPath[..], p, i)
      decreases c
    {
      EntryHeld(nodes, q, c);
      EntryBack(q, c, p, i);
      PutEntry(tempPath, i, curr.id, p);
      i := i + 1;
      curr := curr.prevptr;
      c := q[c].prev;
    }
    EntryHeld(nodes, q, c);
    EntryBack(q, c, p, i);
    PutEntry(tempPath, i, curr.id, p);
    i := i + 1;
  }

  /** The cell of entry c and the cell that its prevptr leads to. */
  lemma EntryHeld(nodes: seq<VsB>, q: Queue, c: nat)
    requires Holds(nodes, q) && c < |q|
    ensures |nodes| == |q| && nodes[c].id == q[c].id
    ensures 0 <= q[c].prev < |q| ==> nodes[c].prevptr == nodes[q[c].prev]
    ensures nodes[c].prevptr == null <==> !(0 <= q[c].prev < |q|)
  {
    assert CellOf(nodes, q, c);
  }

  /** What is still to be written at entry c: its own id goes next, and those of its predecessors remain. */
  lemma EntryBack(q: Queue, c: nat, p: seq<int>, i: nat)
    requires c < |q| && i <= |p| && BackIds(q, c) == p[..|p| - i]
    ensures i < |p| && p[|p| - 1 - i] == q[c].id
    ensures 0 <= q[c].prev < c ==> BackIds(q, q[c].prev) == p[..|p| - (i + 1)]
    ensures q[c].prev < 0 ==> i + 1 == |p|
  {
    BackIdsLast(q, c);
    hide BackIds;
    hide Depth;
    var back := BackIds(q, c);
    UpTo(p, back[..|back| - 1], q[c].id, |p| - i);
  }

  /** The last of the ids back from entry c is its own, and the others are those of its predecessor. */
  lemma BackIdsLast(q: Queue, c: nat)
    requires c < |q|
    ensures var back := BackIds(q, c);
            && back != [] && back == back[..|back| - 1] + [q[c].id]
            && (0 <= q[c].prev < c ==> BackIds(q, q[c].prev) == back[..|back| - 1])
            && (q[c].prev < 0 ==> |back| == 1)
  {
  }

  lemma UpTo(p: seq<int>, front: seq<int>, last: int, n: nat)
    requires n <= |p| && p[..n] == front + [last]
    ensures n == |front| + 1 && p[n - 1] == last && p[..n - 1] == front
  {
    assert p[..n][..n - 1] == p[..n - 1];
    assert p[..n][n - 1] == p[n - 1];
  }

  method PutEntry(tempPath: array<int>, i: nat, id: int, ghost p: seq<int>)
    requires PartlyBackwards(tempPath[..], p, i) && i < |p| && id == p[|p| - 1 - i] > 0
    modifies tempPath
    ensures PartlyBackwards(tempPath[..], p, i + 1)
    ensures i + 1 == |p| ==> Backwards(tempPath[..], p)
  {
    PutBackwards(tempPath[..], p, i);
    tempPath[i] := id;
  }

  method CopyForward(tempPath: array<int>, length: nat, path: array<int>, ghost p: seq<int>)
    requires Backwards(tempPath[..], p) && length == |p| < path.Length && path != tempPath
    requires forall i :: 0 <= i < |p| ==> p[i] > 0
    modifies path
    ensures Stored(path[..]) == p
  {
    for j := 0 to length
      invariant path[..j] == p[..j]
    {
      assert tempPath[..][length - 1 - j] == p[j];
      path[j] := tempPath[length - 1 - j];
      assert p[..j + 1] == p[..j] + [p[j]];
    }
    path[length] := 0;
    assert path[..length] == p;
    StoredIs(path[..], p);
  }

  lemma {:induction false} DepthBelow(q: Queue, k: nat)
    requires k < |q|
    ensures Depth(q, k) <= k
    decreases k
  {
    if 0 <= q[k].prev < k {
      DepthBelow(q, q[k].prev);
    }
  }

  lemma {:induction false} BackIdsPositive(q: Queue, k: nat)
    requires k < |q| && forall i :: 0 <= i < |q| ==> q[i].id > 0
    ensures forall i :: 0 <= i < |BackIds(q, k)| ==> BackIds(q, k)[i] > 0
    decreases k
  {
    if 0 <= q[k].prev < k {
      BackIdsPositive(q, q[k].prev);
    }
  }

  /** bfs: a walk of fewest edges when there is a walk at all, and the empty path when there is none. */
  method BreadthFirst(g: Graph, start: Vertex, end: Vertex, path: array<int>)
    requires Valid(g) && PositiveIds(g) && start.id > 0 && path.Length > |g.vertices| + 1
    modifies path
    ensures start.id == end.id ==> Stored(path[..]) == [start.id]
    ensures start.id != end.id ==> (Stored(path[..]) != [] <==> Reachable(g, start.id, end.id))
    ensures start.id != end.id && Stored(path[..]) != [] ==>
              var p := Stored(path[..]);
              && WalkBetween(g, p, start.id, end.id) && Simple(p)
              && forall w :: WalkBetween(g, w, start.id, end.id) ==> |p| <= |w|
  {
    if start.id == end.id {
      path[0] := start.id;
      path[1] := 0;
      StoredIs(path[..], [start.id]);
      return;
    }
    WalksStayInside(g, start.id, end.id);
    var foundStart := VertexInGraph(g, start);
    if !foundStart {
      path[0] := 0;
      return;
    }
    var foundEnd := VertexInGraph(g, end);
    if !foundEnd {
      path[0] := 0;
      return;
    }
    ghost var nodes, q, k;
    var curr;
    curr, nodes, q, k := SearchList(g, start.id, end.id);
    if curr == null {
      path[0] := 0;
      return;
    }
    QueuePositive(g, q, k, start.id);
    BackIdsWalk(g, q, k, start.id, k);
    Unwind(curr, nodes, q, k, |g.vertices|, path);
  }

  lemma QueuePositive(g: Graph, q: Queue, b: nat, startId: int)
    requires Valid(g) && PositiveIds(g) && Shape(g, q, b, startId)
    ensures forall i :: 0 <= i < |q| ==> q[i].id > 0
  {
    forall i | 0 <= i < |q|
      ensures q[i].id > 0
    {
      if i > 0 {
        PairSymmetric(g, q[q[i].prev].id, q[i].id);
      }
    }
  }
}
