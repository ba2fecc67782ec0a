/** The predecessor tree kept in a status table, and the path that is read back from it. */
module SearchTree {
  import opened Seqs
  import opened MapGraph
  import opened Walks
  import opened StatusTable
  import opened ZeroArrays

  /** Entry i hangs on the entry its predId names, over an edge its weight pays for. */
  ghost predicate Hung(g: Graph, t: Table, i: nat)
    requires i < |t|
  {
    var j := Find(t, t[i].predId);
    j >= 0 && HasPair(g, t[j].id, t[i].id) && t[j].tWeight + Weight(g, t[j].id, t[i].id) <= t[i].tWeight
  }

  /** s is the root, and every other entry with a finite weight hangs on some entry. */
  ghost predicate Tree(g: Graph, t: Table, s: nat) {
    && s < |t| && t[s].tWeight == 0 && t[s].predId == -1
    && (forall i :: 0 <= i < |t| ==> 0 <= t[i].tWeight <= INT_MAX)
    && (forall i :: 0 <= i < |t| && i != s && t[i].tWeight < INT_MAX ==> Hung(g, t, i))
  }

  predicate PositiveIds(g: Graph) {
    forall i :: 0 <= i < |g.vertices| ==> g.vertices[i].id > 0
  }

  /** What the searches need of a map: its invariant, positive weights and ids, vertices in id order. */
  predicate Searchable(g: Graph) {
    && Valid(g) && WeightsAtLeastOne(g) && PositiveIds(g)
    && (forall i, j :: 0 <= i < j < |g.vertices| ==> g.vertices[i].id < g.vertices[j].id)
  }

  lemma EndsPositive(g: Graph, i: nat)
    requires Valid(g) && PositiveIds(g) && i < |g.edges|
    ensures g.edges[i].v1.id > 0 && g.edges[i].v2.id > 0
  {
    assert GoodEdge(g, g.edges[i]);
  }

  lemma RelaxKeepsTree(g: Graph, t: Table, s: nat, c: nat, r: Table)
    requires Valid(g) && WeightsAtLeastOne(g) && SortedIds(t) && Tree(g, t, s) && Relaxed(g, t, c, r)
    ensures Tree(g, r, s)
  {
    SameIds(g, t, c, r);
    forall i | 0 <= i < |t|
      ensures 0 <= r[i].tWeight <= INT_MAX
      ensures i != s && r[i].tWeight < INT_MAX ==> Hung(g, r, i)
      ensures i == s ==> r[i] == t[i]
    {
      assert Lowered(g, t, c, r, i);
      if r[i] != t[i] {
        FindUnique(r, c);
        assert Weight(g, t[c].id, t[i].id) >= 1;
      } else if i != s && t[i].tWeight < INT_MAX {
        assert Hung(g, t, i);
        FindUnique(r, Find(t, t[i].predId));
      }
    }
  }

  function MarkDone(t: Table, c: nat): (r: Table)
    requires c < |t|
    ensures |r| == |t|
  {
    t[c := t[c].(done := true)]
  }

  lemma MarkKeepsTree(g: Graph, t: Table, s: nat, c: nat)
    requires SortedIds(t) && Tree(g, t, s) && c < |t|
    ensures Tree(g, MarkDone(t, c), s)
  {
    var r := MarkDone(t, c);
    forall i | 0 <= i < |t| && i != s && t[i].tWeight < INT_MAX
      ensures Hung(g, r, i)
    {
      assert Hung(g, t, i);
      FindUnique(r, Find(t, t[i].predId));
    }
  }

  // ---------------------------------------------------------- counting done entries

  function DoneCount(t: Table): (n: nat)
    ensures n <= |t|
  {
    if t == [] then 0 else DoneCount(t[..|t| - 1]) + (if t[|t| - 1].done then 1 else 0)
  }

  lemma {:induction false} DoneCountSame(t: Table, r: Table)
    requires |t| == |r| && forall i :: 0 <= i < |t| ==> t[i].done == r[i].done
    ensures DoneCount(t) == DoneCount(r)
  {
    if t != [] {
      DoneCountSame(t[..|t| - 1], r[..|r| - 1]);
    }
  }

  lemma {:induction false} DoneCountMark(t: Table, c: nat)
    requires c < |t| && !t[c].done
    ensures DoneCount(MarkDone(t, c)) == DoneCount(t) + 1
  {
    var front, r := t[..|t| - 1], MarkDone(t, c);
    if c == |t| - 1 {
      assert r[..|t| - 1] == front;
    } else {
      DoneCountMark(front, c);
      assert r[..|t| - 1] == MarkDone(front, c);
    }
  }

  // ------------------------------------------------------------------ the path back

  ghost function BackTrace(g: Graph, t: Table, s: nat, i: nat): seq<int>
    requires WeightsAtLeastOne(g) && Tree(g, t, s) && i < |t| && t[i].tWeight < INT_MAX
    decreases t[i].tWeight
  {
    if i == s then [t[i].id]
    else
      assert Hung(g, t, i);
      var j := Find(t, t[i].predId);
      WeightAtLeastOne(g, t[j].id, t[i].id);
      BackTrace(g, t, s, j) + [t[i].id]
  }

  /** The path back is a walk from the root that costs no more than the entry's weight. */
  lemma {:induction false} BackTraceWalk(g: Graph, t: Table, s: nat, i: nat)
    requires WeightsAtLeastOne(g) && Tree(g, t, s) && i < |t| && t[i].tWeight < INT_MAX
    ensures var p := BackTrace(g, t, s, i);
            WalkBetween(g, p, t[s].id, t[i].id) && Cost(g, p) <= t[i].tWeight
    decreases t[i].tWeight
  {
    if i != s {
      assert Hung(g, t, i);
      var j := Find(t, t[i].predId);
      WeightAtLeastOne(g, t[j].id, t[i].id);
      BackTraceWalk(g, t, s, j);
      CostSnoc(g, BackTrace(g, t, s, j), t[i].id);
    }
  }

  /** Weights strictly increase along the path back, so it visits no vertex twice. */
  lemma {:induction false} BackTraceSimple(g: Graph, t: Table, s: nat, i: nat)
    requires WeightsAtLeastOne(g) && SortedIds(t) && Tree(g, t, s) && i < |t| && t[i].tWeight < INT_MAX
    ensures var p := BackTrace(g, t, s, i);
            && Simple(p)
            && forall k :: 0 <= k < |p| ==> Find(t, p[k]) >= 0 && t[Find(t, p[k])].tWeight <= t[i].tWeight
    decreases t[i].tWeight
  {
    FindUnique(t, i);
    if i != s {
      assert Hung(g, t, i);
      var j := Find(t, t[i].predId);
      WeightAtLeastOne(g, t[j].id, t[i].id);
      BackTraceSimple(g, t, s, j);
    }
  }

  function Ids(t: Table): seq<int> {
    seq(|t|, i requires 0 <= i < |t| => t[i].id)
  }

  lemma BackTraceFits(g: Graph, t: Table, s: nat, i: nat)
    requires WeightsAtLeastOne(g) && SortedIds(t) && Tree(g, t, s) && i < |t| && t[i].tWeight < INT_MAX
    ensures |BackTrace(g, t, s, i)| <= |t|
    ensures forall k :: 0 <= k < |BackTrace(g, t, s, i)| ==> BackTrace(g, t, s, i)[k] in Ids(t)
  {
    var p := BackTrace(g, t, s, i);
    BackTraceSimple(g, t, s, i);
    forall k | 0 <= k < |p|
      ensures p[k] in Ids(t)
    {
      assert Ids(t)[Find(t, p[k])] == p[k];
    }
    DistinctWithin(p, Ids(t));
  }

  /** The predecessors lead from entry v back along p to an entry that is marked as the first. */
  ghost predicate Chain(t: Table, v: nat, p: seq<int>)
    decreases |p|
  {
    && v < |t| && p != [] && p[|p| - 1] == t[v].id
    && if |p| == 1 then t[v].predId == -1
       else t[v].predId != -1 && Find(t, t[v].predId) >= 0 && Chain(t, Find(t, t[v].predId), p[..|p| - 1])
  }

  lemma {:induction false} BackTraceChain(g: Graph, t: Table, s: nat, v: nat)
    requires WeightsAtLeastOne(g) && Tree(g, t, s) && v < |t| && t[v].tWeight < INT_MAX
    requires forall i :: 0 <= i < |t| ==> t[i].id > 0
    ensures Chain(t, v, BackTrace(g, t, s, v))
    decreases t[v].tWeight
  {
    if v != s {
      assert Hung(g, t, v);
      var j := Find(t, t[v].predId);
      WeightAtLeastOne(g, t[j].id, t[v].id);
      BackTraceChain(g, t, s, j);
      hide Tree;
      var p := BackTrace(g, t, s, j);
      assert (p + [t[v].id])[..|p|] == p;
    }
  }

  /** The predecessor walk of both searches: into a backwards array first, then forward into path. */
  method Retrace(t: Table, e: nat, ghost p: seq<int>, path: array<int>)
    requires SortedIds(t) && e < |t| && Chain(t, e, p) && |p| <= |t| < path.Length
    requires forall i :: 0 <= i < |t| ==> t[i].id > 0
    modifies path
    ensures Stored(path[..]) == p
  {
    var backwards := TraceBackwards(t, e, p);
    StoreForward(backwards, path, p);
  }

  method TraceBackwards(t: Table, e: nat, ghost p: seq<int>) returns (backwards: array<int>)
    requires SortedIds(t) && e < |t| && Chain(t, e, p) && |p| <= |t|
    requires forall i :: 0 <= i < |t| ==> t[i].id > 0
    ensures fresh(backwards) && backwards.Length == |t| + 1
    ensures Backwards(backwards[..], p)
  {
    backwards := new int[|t| + 1](_ => 0);
    var i, v := 0, e;
    assert p[..|p|] == p;
    assert PartlyBackwards(backwards[..], p, 0);
    hide PartlyBackwards;
    hide Backwards;
    hide Find;
    while t[v].predId != -1
      invariant 0 <= v < |t| && 0 <= i < |p| && Chain(t, v, p[..|p| - i])
      invariant PartlyBackwards(backwards[..], p, i)
      decreases |p| - i
    {
      ChainStep(t, v, p, i);
      var j := Lookup(t, t[v].predId);
      PutBackwards(backwards[..], p, i);
      backwards[i] := t[v].id;
      i, v := i + 1, j;
    }
    ChainStep(t, v, p, i);
    PutBackwards(backwards[..], p, i);
    backwards[i] := t[v].id;
  }

  /** What entry v adds to the backwards array, and where its predecessor leads. */
  lemma ChainStep(t: Table, v: nat, p: seq<int>, i: nat)
    requires v < |t| && i < |p| && Chain(t, v, p[..|p| - i])
    ensures p[|p| - 1 - i] == t[v].id
    ensures t[v].predId == -1 <==> i + 1 == |p|
    ensures t[v].predId != -1 ==> Find(t, t[v].predId) >= 0 && Chain(t, Find(t, t[v].predId), p[..|p| - (i + 1)])
  {
    var q := p[..|p| - i];
    assert q[|q| - 1] == p[|p| - 1 - i];
    assert q[..|q| - 1] == p[..|p| - (i + 1)];
  }

  /** b holds the last i entries of p in reverse, and zeros behind them. */
  ghost predicate PartlyBackwards(b: seq<int>, p: seq<int>, i: nat) {
    && i <= |p| < |b|
    && (forall k :: 0 <= k < i ==> b[k] == p[|p| - 1 - k] && b[k] > 0)
    && (forall k :: i <= k < |b| ==> b[k] == 0)
  }

  lemma PutBackwards(b: seq<int>, p: seq<int>, i: nat)
    requires PartlyBackwards(b, p, i) && i < |p| && p[|p| - 1 - i] > 0
    ensures PartlyBackwards(b[i := p[|p| - 1 - i]], p, i + 1)
    ensures i + 1 == |p| ==> Backwards(b[i := p[|p| - 1 - i]], p)
  {
  }

  /** b holds p in reverse, then a zero. */
  ghost predicate Backwards(b: seq<int>, p: seq<int>) {
    && |p| < |b| && b[|p|] == 0
    && forall k :: 0 <= k < |p| ==> b[k] == p[|p| - 1 - k] && b[k] > 0
  }

  method StoreForward(backwards: array<int>, path: array<int>, ghost p: seq<int>)
    requires Backwards(backwards[..], p) && path.Length > |p| && path != backwards
    modifies path
    ensures Stored(path[..]) == p
  {
    assert backwards[|p|] == 0;
    var length := Length(backwards);
    assert length == |p|;
    for i := 0 to length
      invariant path[..i] == p[..i]
    {
      assert backwards[..][length - i - 1] == p[i];
      path[i] := backwards[length - i - 1];
      assert p[..i + 1] == p[..i] + [p[i]];
    }
    path[length] := 0;
    assert path[..length] == p;
    forall i | 0 <= i < |p|
      ensures p[i] != 0
    {
      assert backwards[..][|p| - 1 - i] == p[i];
    }
    StoredIs(path[..], p);
  }

  // ------------------------------------------------------------------ binary search

  /** The binary search that the source writes out for A*, for Dijkstra and for the map's vertices. */
  method BinarySearch<T>(a: seq<T>, key: T -> int, id: int) returns (k: int)
    requires forall i, j :: 0 <= i < j < |a| ==> key(a[i]) < key(a[j])
    ensures -1 <= k < |a|
    ensures k >= 0 ==> key(a[k]) == id
    ensures k == -1 ==> forall i :: 0 <= i < |a| ==> key(a[i]) != id
  {
    var l, r := 0, |a| - 1;
    while l <= r
      invariant 0 <= l <= r + 1 <= |a|
      invariant forall i :: 0 <= i < l ==> key(a[i]) < id
      invariant forall i :: r < i < |a| ==> key(a[i]) > id
      decreases r - l + 1
    {
      var m := l + (r - l) / 2;
      if key(a[m]) == id {
        return m;
      }
      if key(a[m]) < id {
        l := m + 1;
      } else {
        r := m - 1;
      }
    }
    return -1;
  }

  /** get_vs_index_d */
  method Lookup(t: Table, id: int) returns (k: int)
    requires SortedIds(t)
    ensures k == Find(t, id)
  {
    k := BinarySearch(t, (v: VsD) => v.id, id);
    if k >= 0 {
      FindUnique(t, k);
    }
  }
}
