/** The table of vertex statuses that Dijkstra and A* relax, and what both searches know about it. */
module StatusTable {
  import opened MapGraph
  import opened Walks

  const INT_MAX := 0x7fff_ffff

  /** vertex_status_d; the A* record holds these fields and two more. */
  datatype VsD = VsD(id: int, predId: int, tWeight: int, done: bool)

  type Table = seq<VsD>

  /** Position of the entry with the given id, or -1. */
  function Find(t: Table, id: int): (k: int)
    ensures -1 <= k < |t|
    ensures k >= 0 ==> t[k].id == id
    ensures k == -1 ==> forall i :: 0 <= i < |t| ==> t[i].id != id
  {
    if t == [] then -1
    else if t[|t| - 1].id == id then |t| - 1
    else Find(t[..|t| - 1], id)
  }

  predicate SortedIds(t: Table) {
    forall i, j :: 0 <= i < j < |t| ==> t[i].id < t[j].id
  }

  /** The table lists the vertices of g in g's order, which is by id. */
  predicate Lists(g: Graph, t: Table) {
    && |t| == |g.vertices| && SortedIds(t)
    && forall i :: 0 <= i < |t| ==> t[i].id == g.vertices[i].id
  }

  lemma FindListed(g: Graph, t: Table, id: int)
    requires Lists(g, t) && HasId(g, id)
    ensures Find(t, id) >= 0
  {
    var i :| 0 <= i < |g.vertices| && g.vertices[i].id == id;
    assert t[i].id == id;
  }

  lemma FindUnique(t: Table, i: nat)
    requires SortedIds(t) && i < |t|
    ensures Find(t, t[i].id) == i
  {
    SameIdSamePlace(t, i, Find(t, t[i].id));
  }

  lemma SameIdSamePlace(t: Table, i: nat, k: nat)
    requires SortedIds(t) && i < |t| && k < |t| && t[i].id == t[k].id
    ensures i == k
  {
  }

  // ------------------------------------------------------------------- relaxing

  /** The far end of e seen from entry c, or -1. */
  function OtherEnd(t: Table, c: nat, e: Edge): (k: int)
    requires c < |t|
    ensures -1 <= k < |t|
  {
    if t[c].id == e.v2.id then Find(t, e.v1.id)
    else if t[c].id == e.v1.id then Find(t, e.v2.id)
    else -1
  }

  function RelaxEdge(t: Table, c: nat, e: Edge): (r: Table)
    requires c < |t|
    ensures |r| == |t| && forall i :: 0 <= i < |t| ==> r[i].id == t[i].id
  {
    var k := OtherEnd(t, c, e);
    if k != -1 && t[k].tWeight > t[c].tWeight + e.weight
    then t[k := t[k].(tWeight := t[c].tWeight + e.weight, predId := t[c].id)]
    else t
  }

  /** The table after the first n edges have been relaxed at c. */
  function RelaxTo(t: Table, c: nat, es: seq<Edge>, n: nat): (r: Table)
    requires c < |t| && n <= |es|
    ensures |r| == |t| && forall i :: 0 <= i < |t| ==> r[i].id == t[i].id
  {
    if n == 0 then t else RelaxEdge(RelaxTo(t, c, es, n - 1), c, es[n - 1])
  }

  /** Entry j of r is that of t, or it now hangs on c at a lower weight. */
  ghost predicate Lowered(g: Graph, t: Table, c: nat, r: Table, j: nat)
    requires c < |t| && j < |t| && |r| == |t|
  {
    r[j] == t[j] ||
    (&& HasPair(g, t[c].id, t[j].id)
     && r[j] == t[j].(tWeight := t[c].tWeight + Weight(g, t[c].id, t[j].id), predId := t[c].id)
     && r[j].tWeight < t[j].tWeight)
  }

  ghost predicate PartlyRelaxed(g: Graph, t: Table, c: nat, n: nat, r: Table) {
    && c < |t| == |r| && n <= |g.edges| && r[c] == t[c]
    && (forall j :: 0 <= j < |t| ==> Lowered(g, t, c, r, j))
    && (forall j, m :: 0 <= j < |t| && 0 <= m < n && Joins(g.edges[m], t[c].id, t[j].id) ==>
          r[j].tWeight <= t[c].tWeight + g.edges[m].weight)
  }

  /** All edges at c have been relaxed. */
  ghost predicate Relaxed(g: Graph, t: Table, c: nat, r: Table) {
    && c < |t| == |r| && r[c] == t[c]
    && (forall j :: 0 <= j < |t| ==> Lowered(g, t, c, r, j))
    && (forall j :: 0 <= j < |t| && HasPair(g, t[c].id, t[j].id) ==>
          r[j].tWeight <= t[c].tWeight + Weight(g, t[c].id, t[j].id))
  }

  lemma SameIds(g: Graph, t: Table, c: nat, r: Table)
    requires c < |t| == |r| && forall j :: 0 <= j < |t| ==> Lowered(g, t, c, r, j)
    ensures forall j :: 0 <= j < |t| ==> r[j].id == t[j].id && r[j].done == t[j].done
                                         && r[j].tWeight <= t[j].tWeight
  {
    forall j | 0 <= j < |t|
      ensures r[j].id == t[j].id && r[j].done == t[j].done && r[j].tWeight <= t[j].tWeight
    {
      assert Lowered(g, t, c, r, j);
    }
  }

  /** Where one edge acts: nowhere, or at the single entry k that it joins to c. */
  lemma OtherEndOf(g: Graph, t: Table, c: nat, n: nat)
    requires Valid(g) && SortedIds(t) && c < |t| && n < |g.edges|
    ensures var e, k := g.edges[n], OtherEnd(t, c, g.edges[n]);
            && (k != -1 ==> k != c && Joins(e, t[c].id, t[k].id) && HasPair(g, t[c].id, t[k].id)
                            && Weight(g, t[c].id, t[k].id) == e.weight)
            && (forall j :: 0 <= j < |t| && Joins(e, t[c].id, t[j].id) ==> j == k)
  {
    var e, k := g.edges[n], OtherEnd(t, c, g.edges[n]);
    assert GoodEdge(g, e);
    if k != -1 {
      WeightOfEdge(g, n, t[c].id, t[k].id);
    }
    forall j | 0 <= j < |t| && Joins(e, t[c].id, t[j].id)
      ensures j == k
    {
      FindUnique(t, j);
    }
  }

  lemma RelaxEdgeStep(g: Graph, t: Table, c: nat, n: nat, r: Table)
    requires Valid(g) && SortedIds(t) && n < |g.edges| && PartlyRelaxed(g, t, c, n, r)
    ensures PartlyRelaxed(g, t, c, n + 1, RelaxEdge(r, c, g.edges[n]))
  {
    var e, q := g.edges[n], RelaxEdge(r, c, g.edges[n]);
    SameIds(g, t, c, r);
    OtherEndOf(g, r, c, n);
    forall j | 0 <= j < |t|
      ensures Lowered(g, t, c, q, j)
      ensures q[j].tWeight <= r[j].tWeight
      ensures Joins(e, t[c].id, t[j].id) ==> q[j].tWeight <= t[c].tWeight + e.weight
    {
      assert Lowered(g, t, c, r, j);
      assert t[j].id == r[j].id;
    }
  }

  lemma {:induction false} RelaxToEffect(g: Graph, t: Table, c: nat, n: nat)
    requires Valid(g) && Lists(g, t) && c < |t| && n <= |g.edges|
    ensures PartlyRelaxed(g, t, c, n, RelaxTo(t, c, g.edges, n))
  {
    hide Valid;
    hide HasPair;
    if n > 0 {
      hide PartlyRelaxed;
      hide RelaxEdge;
      RelaxToEffect(g, t, c, n - 1);
      RelaxEdgeStep(g, t, c, n - 1, RelaxTo(t, c, g.edges, n - 1));
    }
  }

  function RelaxAll(g: Graph, t: Table, c: nat): (r: Table)
    requires c < |t|
    ensures |r| == |t| && forall i :: 0 <= i < |t| ==> r[i].id == t[i].id
  {
    RelaxTo(t, c, g.edges, |g.edges|)
  }

  lemma RelaxAllEffect(g: Graph, t: Table, c: nat)
    requires Valid(g) && Lists(g, t) && c < |t|
    ensures Relaxed(g, t, c, RelaxAll(g, t, c))
  {
    RelaxToEffect(g, t, c, |g.edges|);
    var r := RelaxAll(g, t, c);
    forall j | 0 <= j < |t| && HasPair(g, t[c].id, t[j].id)
      ensures r[j].tWeight <= t[c].tWeight + Weight(g, t[c].id, t[j].id)
    {
      var m :| 0 <= m < |g.edges| && Joins(g.edges[m], t[c].id, t[j].id);
      WeightOfEdge(g, m, t[c].id, t[j].id);
    }
  }
}
