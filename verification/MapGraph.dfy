/** The map graph: two arrays that the operations copy, extend and shift. */
module MapGraph {
  import opened Distance
  import opened Seqs

  datatype Vertex = Vertex(id: int, x: int, y: int)

  datatype Edge = Edge(v1: Vertex, v2: Vertex, weight: int)

  /** num_v and num_e are the lengths of the two sequences. */
  datatype Graph = Graph(vertices: seq<Vertex>, edges: seq<Edge>)

  predicate HasId(g: Graph, id: int) {
    exists i :: 0 <= i < |g.vertices| && g.vertices[i].id == id
  }

  predicate Occupied(g: Graph, x: int, y: int) {
    exists i :: 0 <= i < |g.vertices| && g.vertices[i].x == x && g.vertices[i].y == y
  }

  /** e is an undirected edge between the ids a and b. */
  predicate Joins(e: Edge, a: int, b: int) {
    (e.v1.id == a && e.v2.id == b) || (e.v1.id == b && e.v2.id == a)
  }

  predicate Touches(e: Edge, id: int) {
    e.v1.id == id || e.v2.id == id
  }

  predicate HasPair(g: Graph, a: int, b: int) {
    exists i :: 0 <= i < |g.edges| && Joins(g.edges[i], a, b)
  }

  function NewEdge(v1: Vertex, v2: Vertex): Edge {
    Edge(v1, v2, DistanceFormula(v1.x, v1.y, v2.x, v2.y))
  }

  // ---------------------------------------------------------------- invariant

  predicate DistinctVertices(u: Vertex, v: Vertex) {
    u.id != v.id && (u.x, u.y) != (v.x, v.y)
  }

  predicate DistinctPairs(e: Edge, f: Edge) {
    !Joins(f, e.v1.id, e.v2.id)
  }

  predicate GoodEdge(g: Graph, e: Edge) {
    HasId(g, e.v1.id) && HasId(g, e.v2.id) && e.v1.id != e.v2.id
  }

  predicate TrueWeight(e: Edge) {
    e.weight == DistanceFormula(e.v1.x, e.v1.y, e.v2.x, e.v2.y)
  }

  /** What every operation keeps of the graph's shape. */
  predicate Valid(g: Graph) {
    && (forall i, j :: 0 <= i < j < |g.vertices| ==> DistinctVertices(g.vertices[i], g.vertices[j]))
    && (forall i :: 0 <= i < |g.edges| ==> GoodEdge(g, g.edges[i]))
    && (forall i, j :: 0 <= i < j < |g.edges| ==> DistinctPairs(g.edges[i], g.edges[j]))
  }

  /** Every weight is the truncated distance of the edge's ends. */
  predicate TrueWeights(g: Graph) {
    forall i :: 0 <= i < |g.edges| ==> TrueWeight(g.edges[i])
  }

  /** The vertex records stored in the edges are those of the vertex array. */
  predicate Exact(g: Graph) {
    forall i :: 0 <= i < |g.edges| ==> g.edges[i].v1 in g.vertices && g.edges[i].v2 in g.vertices
  }

  /** Coordinates at which two edges of an exact graph end are distinct, so no weight is zero. */
  lemma WeightsPositive(g: Graph, i: nat)
    requires Valid(g) && TrueWeights(g) && Exact(g) && i < |g.edges|
    ensures g.edges[i].weight >= 1
  {
    var e := g.edges[i];
    assert TrueWeight(e);
    assert GoodEdge(g, e);
    var j :| 0 <= j < |g.vertices| && g.vertices[j] == e.v1;
    var k :| 0 <= k < |g.vertices| && g.vertices[k] == e.v2;
    assert if j < k then DistinctVertices(e.v1, e.v2) else DistinctVertices(e.v2, e.v1);
    DistancePositive(e.v1.x, e.v1.y, e.v2.x, e.v2.y);
  }

  // ------------------------------------------------- what the operations compute

  function AddedVertex(g: Graph, v: Vertex): Graph {
    if HasId(g, v.id) || Occupied(g, v.x, v.y) then g else g.(vertices := g.vertices + [v])
  }

  function AddedEdge(g: Graph, v1: Vertex, v2: Vertex): Graph {
    if !HasId(g, v1.id) || !HasId(g, v2.id) || v1.id == v2.id || HasPair(g, v1.id, v2.id) then g
    else g.(edges := g.edges + [NewEdge(v1, v2)])
  }

  /** es without its last edge between a and b, if there is one. */
  function DropLastJoin(es: seq<Edge>, a: int, b: int): seq<Edge> {
    if es == [] then []
    else if Joins(es[|es| - 1], a, b) then es[..|es| - 1]
    else DropLastJoin(es[..|es| - 1], a, b) + [es[|es| - 1]]
  }

  function RemovedEdge(g: Graph, v1: Vertex, v2: Vertex): Graph {
    if !HasId(g, v1.id) || !HasId(g, v2.id) || v1.id == v2.id then g
    else g.(edges := DropLastJoin(g.edges, v1.id, v2.id))
  }

  function NotTouching(id: int): Edge -> bool {
    (e: Edge) => !Touches(e, id)
  }

  function NotJoining(a: int, b: int): Edge -> bool {
    (e: Edge) => !Joins(e, a, b)
  }

  /** vs without the first vertex of the id, or without the last one when no vertex has it. */
  function WithoutFirst(vs: seq<Vertex>, id: int): seq<Vertex>
    requires |vs| > 0
  {
    if vs[0].id == id || |vs| == 1 then vs[1..] else [vs[0]] + WithoutFirst(vs[1..], id)
  }

  /** remove_vertex always shortens the vertex array: an absent vertex costs the last one its place. */
  function RemovedVertex(g: Graph, v: Vertex): Graph
    requires |g.vertices| > 0
  {
    Graph(WithoutFirst(g.vertices, v.id), Filter(NotTouching(v.id), g.edges))
  }

  lemma {:induction false} WithoutFirstAt(vs: seq<Vertex>, id: int, k: nat)
    requires k < |vs| && (vs[k].id == id || k == |vs| - 1)
    requires forall j :: 0 <= j < k ==> vs[j].id != id
    ensures WithoutFirst(vs, id) == vs[..k] + vs[k + 1..]
  {
    if k > 0 {
      WithoutFirstAt(vs[1..], id, k - 1);
      TailWithout(vs, k);
    }
  }

  lemma TailWithout(vs: seq<Vertex>, k: nat)
    requires 0 < k < |vs|
    ensures [vs[0]] + (vs[1..][..k - 1] + vs[1..][k..]) == vs[..k] + vs[k + 1..]
  {
  }

  // ------------------------------------------------------------------ the loops

  method VertexInGraph(g: Graph, v: Vertex) returns (found: bool)
    ensures found == HasId(g, v.id)
  {
    for i := 0 to |g.vertices|
      invariant forall j :: 0 <= j < i ==> g.vertices[j].id != v.id
    {
      if g.vertices[i].id == v.id {
        return true;
      }
    }
    return false;
  }

  method AddVertex(g: Graph, v: Vertex) returns (r: Graph)
    ensures r == AddedVertex(g, v)
    ensures HasId(r, v.id) <==> HasId(g, v.id) || !Occupied(g, v.x, v.y)
    ensures r.edges == g.edges && r.vertices == if NewPlace(g, v) then g.vertices + [v] else g.vertices
  {
    AddedVertexIs(g, v);
    var found := VertexInGraph(g, v);
    if found {
      return g;
    }
    for i := 0 to |g.vertices|
      invariant forall j :: 0 <= j < i ==> !(g.vertices[j].x == v.x && g.vertices[j].y == v.y)
    {
      if g.vertices[i].x == v.x && g.vertices[i].y == v.y {
        return g;
      }
    }
    return g.(vertices := g.vertices + [v]);
  }

  method AddEdge(g: Graph, v1: Vertex, v2: Vertex) returns (r: Graph)
    ensures r == AddedEdge(g, v1, v2)
    ensures HasPair(r, v1.id, v2.id) <==>
            HasPair(g, v1.id, v2.id) || (HasId(g, v1.id) && HasId(g, v2.id) && v1.id != v2.id)
    ensures r.vertices == g.vertices && if NewPair(g, v1, v2) then OneMoreEdge(g.edges, r.edges, v1, v2) else r == g
  {
    AddedEdgeIs(g, v1, v2);
    var found1 := VertexInGraph(g, v1);
    var found2 := VertexInGraph(g, v2);
    if !found1 || !found2 || v1.id == v2.id {
      return g;
    }
    for i := 0 to |g.edges|
      invariant forall j :: 0 <= j < i ==> !Joins(g.edges[j], v1.id, v2.id)
    {
      var id1, id2 := g.edges[i].v1.id, g.edges[i].v2.id;
      if (id1 == v1.id && id2 == v2.id) || (id1 == v2.id && id2 == v1.id) {
        assert Joins(g.edges[i], v1.id, v2.id);
        return g;
      }
    }
    var w := DistanceFormula(v1.x, v1.y, v2.x, v2.y);
    return g.(edges := g.edges + [Edge(v1, v2, w)]);
  }

  method RemoveEdge(g: Graph, v1: Vertex, v2: Vertex) returns (r: Graph)
    ensures r == RemovedEdge(g, v1, v2)
  {
    var found1 := VertexInGraph(g, v1);
    var found2 := VertexInGraph(g, v2);
    if !found1 || !found2 || v1.id == v2.id {
      return g;
    }
    var index := -1;
    for i := 0 to |g.edges|
      invariant -1 <= index < i
      invariant index >= 0 ==> Joins(g.edges[index], v1.id, v2.id)
      invariant forall j :: index < j < i ==> !Joins(g.edges[j], v1.id, v2.id)
    {
      var id1, id2 := g.edges[i].v1.id, g.edges[i].v2.id;
      if (id1 == v1.id && id2 == v2.id) || (id1 == v2.id && id2 == v1.id) {
        index := i;
      }
    }
    DropLastJoinAt(g.edges, v1.id, v2.id, index);
    if index == -1 {
      return g;
    }
    var edges := ShiftLeft(g.edges, index);
    return g.(edges := edges);
  }

  /** The shifting loop of remove_edge. */
  method ShiftLeft(es: seq<Edge>, index: nat) returns (edges: seq<Edge>)
    requires index < |es|
    ensures edges == es[..index] + es[index + 1..]
  {
    edges := es;
    for i := index + 1 to |edges|
      invariant |edges| == |es|
      invariant forall j :: 0 <= j < index ==> edges[j] == es[j]
      invariant forall j :: index <= j < i - 1 ==> edges[j] == es[j + 1]
      invariant forall j :: i <= j < |es| ==> edges[j] == es[j]
    {
      edges := edges[i - 1 := edges[i]];
    }
    edges := edges[..|edges| - 1];
  }

  lemma {:induction false} DropLastJoinAt(es: seq<Edge>, a: int, b: int, index: int)
    requires -1 <= index < |es|
    requires index >= 0 ==> Joins(es[index], a, b)
    requires forall j :: index < j < |es| ==> !Joins(es[j], a, b)
    ensures DropLastJoin(es, a, b) == if index == -1 then es else es[..index] + es[index + 1..]
  {
    hide Joins;
    if es != [] && index < |es| - 1 {
      var front := es[..|es| - 1];
      DropLastJoinAt(front, a, b, index);
      if index >= 0 {
        WithoutAt(es, index);
      }
    }
  }

  /** Leaving out an entry before the last one leaves it out of the front. */
  lemma WithoutAt(es: seq<Edge>, index: nat)
    requires index < |es| - 1
    ensures var front := es[..|es| - 1];
            front[..index] + front[index + 1..] + [es[|es| - 1]] == es[..index] + es[index + 1..]
  {
  }

  /** Every edge joins two distinct ids of the graph. */
  predicate GoodEdges(g: Graph) {
    forall i :: 0 <= i < |g.edges| ==> GoodEdge(g, g.edges[i])
  }

  /** The edge loop of remove_vertex: it re-examines index i after a removal, so i does not advance. */
  method RemoveIncident(g: Graph, id: int) returns (t: Graph)
    requires GoodEdges(g)
    ensures t == g.(edges := Filter(NotTouching(id), g.edges))
  {
    t := g;
    var i := 0;
    while i < |t.edges|
      invariant t == g.(edges := t.edges) && GoodEdges(t) && i <= |t.edges|
      invariant forall j :: 0 <= j < i ==> !Touches(t.edges[j], id)
      invariant Filter(NotTouching(id), t.edges) == Filter(NotTouching(id), g.edges)
      decreases |t.edges| - i
    {
      if t.edges[i].v1.id == id || t.edges[i].v2.id == id {
        IncidentStep(t, id, i);
        t := RemoveEdge(t, t.edges[i].v1, t.edges[i].v2);
      } else {
        i := i + 1;
      }
    }
    FilterAll(NotTouching(id), t.edges);
  }

  /** Removing an edge at the vertex takes out one such edge, at or behind its place. */
  lemma IncidentStep(t: Graph, id: int, i: nat)
    requires GoodEdges(t) && i < |t.edges| && Touches(t.edges[i], id)
    requires forall j :: 0 <= j < i ==> !Touches(t.edges[j], id)
    ensures var r := RemovedEdge(t, t.edges[i].v1, t.edges[i].v2);
            && r == t.(edges := r.edges) && GoodEdges(r) && |r.edges| == |t.edges| - 1
            && (forall j :: 0 <= j < i ==> !Touches(r.edges[j], id))
            && Filter(NotTouching(id), r.edges) == Filter(NotTouching(id), t.edges)
  {
    var e := t.edges[i];
    assert GoodEdge(t, e);
    var k := LastJoin(t.edges, e.v1.id, e.v2.id, i);
    DropLastJoinAt(t.edges, e.v1.id, e.v2.id, k);
    var r := RemovedEdge(t, e.v1, e.v2);
    assert r.edges == t.edges[..k] + t.edges[k + 1..];
    FilterWithout(NotTouching(id), t.edges, k);
    forall j | 0 <= j < |r.edges|
      ensures GoodEdge(r, r.edges[j])
    {
      assert GoodEdge(t, t.edges[if j < k then j else j + 1]);
    }
  }

  /** The last edge between two ids that are joined at position i. */
  lemma LastJoin(es: seq<Edge>, a: int, b: int, i: nat) returns (k: nat)
    requires i < |es| && Joins(es[i], a, b)
    ensures i <= k < |es| && Joins(es[k], a, b) && forall j :: k < j < |es| ==> !Joins(es[j], a, b)
    decreases |es| - i
  {
    k := i;
    if j :| i < j < |es| && Joins(es[j], a, b) {
      k := LastJoin(es, a, b, j);
    }
  }

  /** The compaction loop of remove_vertex, which shifts every vertex behind the first match. */
  method ShiftOut(vs: seq<Vertex>, id: int) returns (r: seq<Vertex>)
    requires |vs| > 0
    ensures r == WithoutFirst(vs, id)
  {
    var vertices := vs;
    var index := |vs|;
    ghost var first := |vs|;
    for i := 0 to |vs| - 1
      invariant |vertices| == |vs| && 0 <= first <= index && (if first < |vs| then index < i else index == |vs|)
      invariant first < |vs| ==> vs[first].id == id
      invariant forall j :: 0 <= j < i && j < first ==> vertices[j] == vs[j] && vs[j].id != id
      invariant forall j :: first <= j < i ==> vertices[j] == vs[j + 1]
      invariant forall j :: i <= j < |vs| ==> vertices[j] == vs[j]
    {
      if vertices[i].id == id {
        index := i;
        first := if first < |vs| then first else i;
      }
      if i >= index {
        vertices := vertices[i := vertices[i + 1]];
      }
    }
    r := vertices[..|vs| - 1];
    first := if first < |vs| then first else |vs| - 1;
    WithoutFirstAt(vs, id, first);
    assert r == vs[..first] + vs[first + 1..];
  }

  method RemoveVertex(g: Graph, v: Vertex) returns (r: Graph)
    requires GoodEdges(g) && |g.vertices| > 0
    ensures r == RemovedVertex(g, v)
  {
    var t := RemoveIncident(g, v.id);
    var vertices := ShiftOut(t.vertices, v.id);
    return t.(vertices := vertices);
  }

  // ------------------------------------------------------------- what is added, and when

  /** Neither the id nor the place of v is taken. */
  ghost predicate NewPlace(g: Graph, v: Vertex) {
    forall u :: u in g.vertices ==> u.id != v.id && (u.x != v.x || u.y != v.y)
  }

  lemma AddedVertexIs(g: Graph, v: Vertex)
    ensures var r := AddedVertex(g, v);
            && r == (if NewPlace(g, v) then Graph(g.vertices + [v], g.edges) else g)
            && (HasId(r, v.id) <==> HasId(g, v.id) || !Occupied(g, v.x, v.y))
  {
    var r := AddedVertex(g, v);
    if r != g {
      assert r.vertices[|g.vertices|] == v;
    }
  }

  /** Both ends are vertices of the graph, and distinct, and no edge joins them either way. */
  ghost predicate NewPair(g: Graph, v1: Vertex, v2: Vertex) {
    && v1.id != v2.id
    && (exists u :: u in g.vertices && u.id == v1.id) && (exists u :: u in g.vertices && u.id == v2.id)
    && forall e :: e in g.edges ==> !(e.v1.id == v1.id && e.v2.id == v2.id) && !(e.v1.id == v2.id && e.v2.id == v1.id)
  }

  /** There is one more edge, from v1 to v2, which weighs as much as they are apart, without the fraction. */
  ghost predicate OneMoreEdge(before: seq<Edge>, edges: seq<Edge>, v1: Vertex, v2: Vertex) {
    && |edges| == |before| + 1 && edges[..|before|] == before
    && var e := edges[|before|];
       var d := (v2.x - v1.x) * (v2.x - v1.x) + (v2.y - v1.y) * (v2.y - v1.y);
       e.v1 == v1 && e.v2 == v2 && e.weight >= 0 && e.weight * e.weight <= d < (e.weight + 1) * (e.weight + 1)
  }

  lemma AddedEdgeIs(g: Graph, v1: Vertex, v2: Vertex)
    ensures var r := AddedEdge(g, v1, v2);
            && r.vertices == g.vertices
            && (if NewPair(g, v1, v2) then OneMoreEdge(g.edges, r.edges, v1, v2) else r == g)
            && (HasPair(r, v1.id, v2.id) <==>
                HasPair(g, v1.id, v2.id) || (HasId(g, v1.id) && HasId(g, v2.id) && v1.id != v2.id))
  {
    var r := AddedEdge(g, v1, v2);
    NewPairMeans(g, v1, v2);
    if NewPair(g, v1, v2) {
      hide NewPair;
      var e := NewEdge(v1, v2);
      DistanceIs(v1.x, v1.y, v2.x, v2.y, e.weight);
      hide DistanceFormula;
      assert r.edges[|g.edges|] == e && Joins(e, v1.id, v2.id);
    }
  }

  lemma NewPairMeans(g: Graph, v1: Vertex, v2: Vertex)
    ensures NewPair(g, v1, v2) <==>
            HasId(g, v1.id) && HasId(g, v2.id) && v1.id != v2.id && !HasPair(g, v1.id, v2.id)
  {
    HasIdMeans(g, v1.id);
    HasIdMeans(g, v2.id);
    hide HasId;
    if HasPair(g, v1.id, v2.id) {
      var i :| 0 <= i < |g.edges| && Joins(g.edges[i], v1.id, v2.id);
      assert g.edges[i] in g.edges;
    }
  }

  lemma HasIdMeans(g: Graph, id: int)
    ensures HasId(g, id) <==> exists u :: u in g.vertices && u.id == id
  {
    if HasId(g, id) {
      var i :| 0 <= i < |g.vertices| && g.vertices[i].id == id;
      assert g.vertices[i] in g.vertices;
    }
    if u :| u in g.vertices && u.id == id {
      var i :| 0 <= i < |g.vertices| && g.vertices[i] == u;
    }
  }

  // ------------------------------------------------------- what each operation keeps

  lemma AddedVertexKeeps(g: Graph, v: Vertex)
    requires Valid(g)
    ensures Valid(AddedVertex(g, v))
    ensures Exact(g) ==> Exact(AddedVertex(g, v))
  {
    var r := AddedVertex(g, v);
    assert forall id :: HasId(g, id) ==> HasId(r, id) by {
      forall id | HasId(g, id)
        ensures HasId(r, id)
      {
        var i :| 0 <= i < |g.vertices| && g.vertices[i].id == id;
        assert r.vertices[i].id == id;
      }
    }
    forall i | 0 <= i < |r.edges|
      ensures GoodEdge(r, r.edges[i])
    {
      assert GoodEdge(g, g.edges[i]);
    }
    assert forall i, j :: 0 <= i < j < |r.vertices| ==> DistinctVertices(r.vertices[i], r.vertices[j]);
  }

  /** AddEdge records whatever coordinates it is handed, so it keeps Exact just when they are the graph's own. */
  lemma AddedEdgeKeeps(g: Graph, v1: Vertex, v2: Vertex)
    requires Valid(g)
    ensures Valid(AddedEdge(g, v1, v2))
    ensures Exact(g) ==> (Exact(AddedEdge(g, v1, v2)) <==>
                          AddedEdge(g, v1, v2) == g || (v1 in g.vertices && v2 in g.vertices))
  {
    var r := AddedEdge(g, v1, v2);
    if r != g {
      var n := |g.edges|;
      assert forall i :: 0 <= i < n ==> r.edges[i] == g.edges[i];
      assert r.edges[n] == NewEdge(v1, v2);
      forall i | 0 <= i < |r.edges|
        ensures GoodEdge(r, r.edges[i])
      {
        assert HasId(g, v1.id) && HasId(g, v2.id);
        assert i < n ==> GoodEdge(g, g.edges[i]);
      }
      forall i, j | 0 <= i < j < |r.edges|
        ensures DistinctPairs(r.edges[i], r.edges[j])
      {
        assert j < n ==> DistinctPairs(g.edges[i], g.edges[j]);
        assert !Joins(g.edges[i], v1.id, v2.id);
      }
    }
  }

  /** Dropping edges keeps the invariant. */
  lemma FilteredEdgesKeep(g: Graph, p: Edge -> bool)
    requires Valid(g)
    ensures var r := g.(edges := Filter(p, g.edges)); Valid(r) && (Exact(g) ==> Exact(r))
  {
    var r := g.(edges := Filter(p, g.edges));
    FilteredPairsDistinct(g, p);
    forall i | 0 <= i < |r.edges|
      ensures GoodEdge(r, r.edges[i])
      ensures r.edges[i] in g.edges
    {
      FilterMembers(p, g.edges, r.edges[i]);
      var k :| 0 <= k < |g.edges| && g.edges[k] == r.edges[i];
      assert GoodEdge(g, g.edges[k]);
    }
  }

  lemma FilteredPairsDistinct(g: Graph, p: Edge -> bool)
    requires Valid(g)
    ensures var es := Filter(p, g.edges); forall i, j :: 0 <= i < j < |es| ==> DistinctPairs(es[i], es[j])
  {
    var es := Filter(p, g.edges);
    forall i, j | 0 <= i < j < |es|
      ensures DistinctPairs(es[i], es[j])
    {
      var k, l := FilterOrder(p, g.edges, i, j);
      assert DistinctPairs(g.edges[k], g.edges[l]);
    }
  }

  /** In a valid graph removing an edge removes exactly the edges between its two ends. */
  lemma RemovedEdgeExactly(g: Graph, v1: Vertex, v2: Vertex)
    requires Valid(g)
    ensures RemovedEdge(g, v1, v2) == g.(edges := Filter(NotJoining(v1.id, v2.id), g.edges))
  {
    forall i | 0 <= i < |g.edges| && Joins(g.edges[i], v1.id, v2.id)
      ensures HasId(g, v1.id) && HasId(g, v2.id) && v1.id != v2.id
    {
      assert GoodEdge(g, g.edges[i]);
    }
    var p := NotJoining(v1.id, v2.id);
    if HasPair(g, v1.id, v2.id) {
      var i :| 0 <= i < |g.edges| && Joins(g.edges[i], v1.id, v2.id);
      forall j | 0 <= j < |g.edges| && j != i
        ensures !Joins(g.edges[j], v1.id, v2.id)
      {
        assert if i < j then DistinctPairs(g.edges[i], g.edges[j]) else DistinctPairs(g.edges[j], g.edges[i]);
      }
      DropLastJoinAt(g.edges, v1.id, v2.id, i);
      FilterOutAt(p, g.edges, i);
    } else {
      FilterAll(p, g.edges);
      DropLastJoinAt(g.edges, v1.id, v2.id, -1);
    }
  }

  /** The edges that are left join other pairs of ids, in either direction. */
  lemma RemovedEdgeLeaves(g: Graph, v1: Vertex, v2: Vertex)
    requires Valid(g)
    ensures forall e :: e in RemovedEdge(g, v1, v2).edges <==>
                        && e in g.edges && !(e.v1.id == v1.id && e.v2.id == v2.id)
                        && !(e.v1.id == v2.id && e.v2.id == v1.id)
  {
    RemovedEdgeExactly(g, v1, v2);
    hide Valid;
    hide RemovedEdge;
    forall e: Edge
      ensures e in Filter(NotJoining(v1.id, v2.id), g.edges) <==> e in g.edges && !Joins(e, v1.id, v2.id)
    {
      FilterMembers(NotJoining(v1.id, v2.id), g.edges, e);
    }
  }

  lemma RemovedEdgeKeeps(g: Graph, v1: Vertex, v2: Vertex)
    requires Valid(g)
    ensures var r := RemovedEdge(g, v1, v2); Valid(r) && (Exact(g) ==> Exact(r)) && !HasPair(r, v1.id, v2.id)
  {
    RemovedEdgeExactly(g, v1, v2);
    FilteredEdgesKeep(g, NotJoining(v1.id, v2.id));
    var r := RemovedEdge(g, v1, v2);
    forall i | 0 <= i < |r.edges|
      ensures !Joins(r.edges[i], v1.id, v2.id)
    {
      FilterMembers(NotJoining(v1.id, v2.id), g.edges, r.edges[i]);
    }
  }

  /** Removing the edge just added gives the graph back. */
  lemma AddThenRemoveEdge(g: Graph, v1: Vertex, v2: Vertex)
    requires Valid(g) && !HasPair(g, v1.id, v2.id)
    ensures RemovedEdge(AddedEdge(g, v1, v2), v1, v2) == g
  {
    var r := AddedEdge(g, v1, v2);
    if r != g {
      assert r.edges[|g.edges|] == NewEdge(v1, v2);
      DropLastJoinAt(r.edges, v1.id, v2.id, |g.edges|);
    } else {
      DropLastJoinAt(g.edges, v1.id, v2.id, -1);
    }
  }

  /**
   * Removing a vertex keeps the invariant exactly when the vertex is present or the last vertex,
   * which an absent one evicts, has no edge.
   */
  lemma RemovedVertexKeeps(g: Graph, v: Vertex)
    requires Valid(g) && |g.vertices| > 0
    ensures Valid(RemovedVertex(g, v)) <==>
              (HasId(g, v.id) || forall e :: e in g.edges ==> !Touches(e, g.vertices[|g.vertices| - 1].id))
    ensures Valid(RemovedVertex(g, v)) && Exact(g) ==> Exact(RemovedVertex(g, v))
  {
    var r := RemovedVertex(g, v);
    RemainingVertices(g, v);
    RemainingEdges(g, v);
    if HasId(g, v.id) || forall e :: e in g.edges ==> !Touches(e, Evicted(g, v.id)) {
      RemovedVertexValid(g, v);
    } else {
      var i :| 0 <= i < |g.edges| && Touches(g.edges[i], Evicted(g, v.id));
      assert r.edges[i] in r.edges && !GoodEdge(r, r.edges[i]);
    }
    if Valid(r) && Exact(g) {
      RemovedVertexExact(g, v);
    }
  }

  /** The refusal that remove_vertex announces for an absent vertex never happens: it always changes the graph. */
  lemma AbsentNotRefused(g: Graph, v: Vertex)
    requires |g.vertices| > 0
    ensures RemovedVertex(g, v) != g
    ensures !HasId(g, v.id) ==> RemovedVertex(g, v).vertices == g.vertices[..|g.vertices| - 1]
  {
    WithoutFirstShorter(g.vertices, v.id);
    if !HasId(g, v.id) {
      WithoutFirstAt(g.vertices, v.id, |g.vertices| - 1);
    }
  }

  lemma WithoutFirstShorter(vs: seq<Vertex>, id: int)
    requires |vs| > 0
    ensures |WithoutFirst(vs, id)| == |vs| - 1
  {
  }

  /** Two joined vertices: removing an absent id leaves an edge whose end is gone. */
  lemma AbsentCanCorrupt()
    ensures var u, w := Vertex(1, 0, 0), Vertex(2, 3, 4);
            var g := Graph([u, w], [NewEdge(u, w)]);
            Valid(g) && !HasId(g, 3) && !Valid(RemovedVertex(g, Vertex(3, 0, 0)))
  {
    var u, w := Vertex(1, 0, 0), Vertex(2, 3, 4);
    var g := Graph([u, w], [NewEdge(u, w)]);
    assert g.vertices[0].id == 1 && g.vertices[1].id == 2;
    assert GoodEdge(g, g.edges[0]);
    assert NewEdge(u, w) in g.edges;
    RemovedVertexKeeps(g, Vertex(3, 0, 0));
  }

  lemma RemovedVertexValid(g: Graph, v: Vertex)
    requires Valid(g) && |g.vertices| > 0
    requires forall e :: e in g.edges && !Touches(e, v.id) ==> !Touches(e, Evicted(g, v.id))
    ensures Valid(RemovedVertex(g, v))
  {
    var r := RemovedVertex(g, v);
    RemainingDistinct(g, v);
    FilteredPairsDistinct(g, NotTouching(v.id));
    forall i | 0 <= i < |r.edges|
      ensures GoodEdge(r, r.edges[i])
    {
      RemainingEdges(g, v);
      assert r.edges[i] in r.edges;
    }
    assert r.edges == Filter(NotTouching(v.id), g.edges);
    assert forall i, j :: 0 <= i < j < |r.edges| ==> DistinctPairs(r.edges[i], r.edges[j]);
    assert forall i, j :: 0 <= i < j < |r.vertices| ==> DistinctVertices(r.vertices[i], r.vertices[j]);
  }

  lemma RemovedVertexExact(g: Graph, v: Vertex)
    requires Valid(g) && Exact(g) && |g.vertices| > 0 && Valid(RemovedVertex(g, v))
    ensures Exact(RemovedVertex(g, v))
  {
    var r := RemovedVertex(g, v);
    RemainingVertices(g, v);
    RemainingEdges(g, v);
    forall i | 0 <= i < |r.edges|
      ensures r.edges[i].v1 in r.vertices && r.edges[i].v2 in r.vertices
    {
      assert GoodEdge(r, r.edges[i]) && r.edges[i] in r.edges;
    }
  }

  /** The id that remove_vertex takes out of the vertex array. */
  function Evicted(g: Graph, id: int): int
    requires |g.vertices| > 0
  {
    if HasId(g, id) then id else g.vertices[|g.vertices| - 1].id
  }

  lemma RemainingEdges(g: Graph, v: Vertex)
    requires Valid(g) && |g.vertices| > 0
    ensures var r := RemovedVertex(g, v);
            && (forall e :: e in r.edges <==> e in g.edges && !Touches(e, v.id))
            && (forall e :: e in r.edges ==> (GoodEdge(r, e) <==> !Touches(e, Evicted(g, v.id))))
            && (!HasId(g, v.id) ==> r.edges == g.edges)
  {
    var r := RemovedVertex(g, v);
    RemainingVertices(g, v);
    IdsRemaining(g, r, Evicted(g, v.id));
    forall e: Edge
      ensures e in r.edges <==> e in g.edges && !Touches(e, v.id)
    {
      FilterMembers(NotTouching(v.id), g.edges, e);
    }
    forall e | e in g.edges
      ensures GoodEdge(g, e)
    {
      var i :| 0 <= i < |g.edges| && g.edges[i] == e;
      assert GoodEdge(g, g.edges[i]);
    }
    if !HasId(g, v.id) {
      FilterAll(NotTouching(v.id), g.edges);
    }
  }

  lemma RemainingVertices(g: Graph, v: Vertex)
    requires Valid(g) && |g.vertices| > 0
    ensures forall u :: u in RemovedVertex(g, v).vertices <==> u in g.vertices && u.id != Evicted(g, v.id)
  {
    var vs := g.vertices;
    var k := EvictedIndex(g, v);
    var r := RemovedVertex(g, v).vertices;
    assert r == vs[..k] + vs[k + 1..];
    hide Evicted;
    hide RemovedVertex;
    forall u
      ensures u in r <==> u in vs && u.id != vs[k].id
    {
      OthersRemain(g, k, u);
    }
  }

  /** Without the vertex at place k, the vertices with other ids remain. */
  lemma OthersRemain(g: Graph, k: nat, u: Vertex)
    requires Valid(g) && k < |g.vertices|
    ensures var vs := g.vertices; u in vs[..k] + vs[k + 1..] <==> u in vs && u.id != vs[k].id
  {
    var vs := g.vertices;
    assert vs == vs[..k] + [vs[k]] + vs[k + 1..];
    OthersDiffer(g, k);
    hide Valid;
    if u in vs[k + 1..] {
      var i :| 0 <= i < |vs[k + 1..]| && vs[k + 1..][i] == u;
      assert vs[k + 1 + i] == u;
    }
  }

  lemma RemainingDistinct(g: Graph, v: Vertex)
    requires Valid(g) && |g.vertices| > 0
    ensures var vs := RemovedVertex(g, v).vertices;
            forall i, j :: 0 <= i < j < |vs| ==> DistinctVertices(vs[i], vs[j])
  {
    var vs := RemovedVertex(g, v).vertices;
    var k := EvictedIndex(g, v);
    forall i, j | 0 <= i < j < |vs|
      ensures DistinctVertices(vs[i], vs[j])
    {
      assert DistinctVertices(g.vertices[if i < k then i else i + 1], g.vertices[if j < k then j else j + 1]);
    }
  }

  /** The position that remove_vertex takes out of the vertex array. */
  lemma EvictedIndex(g: Graph, v: Vertex) returns (k: nat)
    requires Valid(g) && |g.vertices| > 0
    ensures k < |g.vertices| && g.vertices[k].id == Evicted(g, v.id)
    ensures RemovedVertex(g, v).vertices == g.vertices[..k] + g.vertices[k + 1..]
  {
    k := |g.vertices| - 1;
    if HasId(g, v.id) {
      k :| 0 <= k < |g.vertices| && g.vertices[k].id == v.id;
      OthersDiffer(g, k);
    }
    hide Valid;
    hide WithoutFirst;
    WithoutFirstAt(g.vertices, v.id, k);
  }

  lemma OthersDiffer(g: Graph, k: nat)
    requires Valid(g) && k < |g.vertices|
    ensures forall i :: 0 <= i < |g.vertices| && i != k ==> g.vertices[i].id != g.vertices[k].id
  {
    var vs := g.vertices;
    forall i | 0 <= i < |vs| && i != k
      ensures vs[i].id != vs[k].id
    {
      assert if i < k then DistinctVertices(vs[i], vs[k]) else DistinctVertices(vs[k], vs[i]);
    }
  }

  lemma IdsRemaining(g: Graph, r: Graph, gone: int)
    requires forall u :: u in r.vertices <==> u in g.vertices && u.id != gone
    ensures forall id :: HasId(r, id) <==> HasId(g, id) && id != gone
  {
    forall id
      ensures HasId(r, id) <==> HasId(g, id) && id != gone
    {
      if HasId(r, id) {
        var i :| 0 <= i < |r.vertices| && r.vertices[i].id == id;
        assert r.vertices[i] in r.vertices;
      }
      if HasId(g, id) && id != gone {
        var i :| 0 <= i < |g.vertices| && g.vertices[i].id == id;
        assert g.vertices[i] in r.vertices;
      }
    }
  }

  /** A present vertex leaves with its incident edges and nothing else, and the rest keeps its order. */
  lemma RemovedVertexExactly(g: Graph, v: Vertex)
    requires Valid(g) && HasId(g, v.id)
    ensures var r := RemovedVertex(g, v);
            && !HasId(r, v.id)
            && (exists k :: 0 <= k < |g.vertices| && g.vertices[k].id == v.id
                            && r.vertices == g.vertices[..k] + g.vertices[k + 1..])
            && (forall e :: e in r.edges <==> e in g.edges && e.v1.id != v.id && e.v2.id != v.id)
  {
    var k := EvictedIndex(g, v);
    RemainingVertices(g, v);
    IdsRemaining(g, RemovedVertex(g, v), v.id);
    RemainingEdges(g, v);
  }

  // ---------------------------------------------------------- runs of operations

  datatype Op = AddV(v: Vertex) | AddE(v1: Vertex, v2: Vertex) | RemE(v1: Vertex, v2: Vertex) | RemV(v: Vertex)

  /**
   * Vertices handed to AddE are records of the graph. Those handed to RemV are present, or the last vertex, which
   * an absent one evicts, has no edge.
   */
  predicate Proper(g: Graph, op: Op) {
    match op
    case AddE(v1, v2) => v1 in g.vertices && v2 in g.vertices
    case RemV(v) =>
      |g.vertices| > 0
      && (HasId(g, v.id) || forall i :: 0 <= i < |g.edges| ==> !Touches(g.edges[i], g.vertices[|g.vertices| - 1].id))
    case _ => true
  }

  function Apply(g: Graph, op: Op): Graph
    requires Proper(g, op)
  {
    match op
    case AddV(v) => AddedVertex(g, v)
    case AddE(v1, v2) => AddedEdge(g, v1, v2)
    case RemE(v1, v2) => RemovedEdge(g, v1, v2)
    case RemV(v) => RemovedVertex(g, v)
  }

  predicate ProperRun(g: Graph, ops: seq<Op>)
    decreases |ops|
  {
    ops == [] || (Proper(g, ops[0]) && ProperRun(Apply(g, ops[0]), ops[1..]))
  }

  function ApplyAll(g: Graph, ops: seq<Op>): Graph
    requires ProperRun(g, ops)
    decreases |ops|
  {
    if ops == [] then g else ApplyAll(Apply(g, ops[0]), ops[1..])
  }

  /** Every graph reachable by operations keeps the invariant, so all its weights are positive distances. */
  lemma {:induction false} RunKeepsInvariant(g: Graph, ops: seq<Op>)
    requires Valid(g) && TrueWeights(g) && Exact(g) && ProperRun(g, ops)
    ensures var r := ApplyAll(g, ops);
            && Valid(r) && TrueWeights(r) && Exact(r)
            && forall i :: 0 <= i < |r.edges| ==> r.edges[i].weight >= 1
    decreases |ops|
  {
    if ops == [] {
      forall i | 0 <= i < |g.edges|
        ensures g.edges[i].weight >= 1
      {
        WeightsPositive(g, i);
      }
    } else {
      match ops[0] {
        case AddV(v) => AddedVertexKeeps(g, v);
        case AddE(v1, v2) => AddedEdgeKeeps(g, v1, v2);
        case RemE(v1, v2) => RemovedEdgeKeeps(g, v1, v2);
        case RemV(v) => RemovedVertexKeeps(g, v);
      }
      WeightsStayTrue(g, ops[0]);
      RunKeepsInvariant(Apply(g, ops[0]), ops[1..]);
    }
  }

  lemma WeightsStayTrue(g: Graph, op: Op)
    requires Valid(g) && TrueWeights(g) && Proper(g, op)
    ensures TrueWeights(Apply(g, op))
  {
    var r := Apply(g, op);
    forall i | 0 <= i < |r.edges|
      ensures TrueWeight(r.edges[i])
    {
      if op.RemE? {
        RemovedEdgeExactly(g, op.v1, op.v2);
        FilterMembers(NotJoining(op.v1.id, op.v2.id), g.edges, r.edges[i]);
      } else if op.RemV? {
        FilterMembers(NotTouching(op.v.id), g.edges, r.edges[i]);
      }
    }
  }
}
