/** Dijkstra's search: the table it keeps, the order it settles vertices in, and the path it returns. */
module Dijkstra {
  import opened MapGraph
  import opened Walks
  import opened StatusTable
  import opened SearchTree
  import opened ZeroArrays

  const EXIT_SUCCESS := 0
  const EXIT_FAILURE := 1

  function MaxWeight(es: seq<Edge>): (w: nat)
    ensures forall i :: 0 <= i < |es| ==> es[i].weight <= w
  {
    if es == [] then 0 else
      var w := MaxWeight(es[..|es| - 1]);
      if es[|es| - 1].weight > w then es[|es| - 1].weight else w
  }

  /** No sum of weights that a search forms reaches INT_MAX. */
  predicate NoOverflow(g: Graph) {
    MaxWeight(g.edges) * |g.vertices| < 0x7fff_ffff
  }

  // ------------------------------------------------------------------- invariant

  /** No edge out of a done entry can still lower anything. */
  ghost predicate Settled(g: Graph, t: Table) {
    forall i, j :: 0 <= i < |t| && 0 <= j < |t| && t[i].done && HasPair(g, t[i].id, t[j].id) ==>
      t[j].tWeight <= t[i].tWeight + Weight(g, t[i].id, t[j].id)
  }

  predicate Ordered(t: Table) {
    forall i, j :: 0 <= i < |t| && 0 <= j < |t| && t[i].done && !t[j].done ==> t[i].tWeight <= t[j].tWeight
  }

  /** Finite weights are sums of at most as many edge weights as there are done entries. */
  predicate Small(g: Graph, t: Table) {
    forall i :: 0 <= i < |t| && t[i].tWeight < INT_MAX ==> t[i].tWeight <= MaxWeight(g.edges) * DoneCount(t)
  }

  predicate DoneReached(t: Table) {
    forall i :: 0 <= i < |t| && t[i].done ==> t[i].tWeight < INT_MAX
  }

  ghost predicate Inv(g: Graph, t: Table, s: nat) {
    Lists(g, t) && Tree(g, t, s) && Settled(g, t) && Ordered(t) && Small(g, t) && DoneReached(t)
  }

  /** c is a vertex to settle next: open, reached, and no open vertex is nearer. */
  predicate Nearest(t: Table, c: nat) {
    && c < |t| && !t[c].done && t[c].tWeight < INT_MAX
    && forall j :: 0 <= j < |t| && !t[j].done ==> t[c].tWeight <= t[j].tWeight
  }

  /** One round of the search loop. */
  function Settle(g: Graph, t: Table, c: nat): (r: Table)
    requires c < |t|
    ensures |r| == |t|
  {
    MarkDone(RelaxAll(g, t, c), c)
  }

  lemma DoneUnchanged(g: Graph, t: Table, c: nat, r: Table)
    requires WeightsAtLeastOne(g) && Ordered(t) && Nearest(t, c) && Relaxed(g, t, c, r)
    ensures forall i :: 0 <= i < |t| && t[i].done ==> r[i] == t[i]
    ensures forall i :: 0 <= i < |t| && !t[i].done ==> t[c].tWeight <= r[i].tWeight
  {
    forall i | 0 <= i < |t|
      ensures if t[i].done then r[i] == t[i] else t[c].tWeight <= r[i].tWeight
    {
      assert Lowered(g, t, c, r, i);
      if r[i] != t[i] {
        WeightAtLeastOne(g, t[c].id, t[i].id);
      }
    }
  }

  lemma SettleKeepsSettled(g: Graph, t: Table, c: nat, r: Table)
    requires WeightsAtLeastOne(g) && Settled(g, t) && Ordered(t) && Nearest(t, c) && Relaxed(g, t, c, r)
    ensures Settled(g, MarkDone(r, c))
  {
    var q := MarkDone(r, c);
    DoneUnchanged(g, t, c, r);
    SameIds(g, t, c, r);
    forall i, j | 0 <= i < |q| && 0 <= j < |q| && q[i].done && HasPair(g, q[i].id, q[j].id)
      ensures q[j].tWeight <= q[i].tWeight + Weight(g, q[i].id, q[j].id)
    {
      assert q[i].id == t[i].id && q[j].id == t[j].id && q[j].tWeight <= t[j].tWeight;
      if i != c {
        assert q[i] == t[i];
      }
    }
  }

  lemma SettleKeepsOrdered(g: Graph, t: Table, c: nat, r: Table)
    requires WeightsAtLeastOne(g) && Ordered(t) && Nearest(t, c) && Relaxed(g, t, c, r)
    ensures Ordered(MarkDone(r, c))
  {
    DoneUnchanged(g, t, c, r);
    SameIds(g, t, c, r);
  }

  lemma MulStep(w: nat, d: nat)
    ensures w * (d + 1) == w * d + w
  {
  }

  lemma SettleKeepsSmall(g: Graph, t: Table, c: nat, r: Table)
    requires Small(g, t) && Relaxed(g, t, c, r) && !t[c].done && t[c].tWeight < INT_MAX
    ensures DoneCount(MarkDone(r, c)) == DoneCount(t) + 1
    ensures Small(g, MarkDone(r, c))
    ensures DoneReached(t) ==> DoneReached(MarkDone(r, c))
  {
    SameIds(g, t, c, r);
    DoneCountSame(t, r);
    DoneCountMark(r, c);
    MulStep(MaxWeight(g.edges), DoneCount(t));
    forall i | 0 <= i < |t|
      ensures r[i].tWeight < INT_MAX ==> r[i].tWeight <= MaxWeight(g.edges) * DoneCount(t) + MaxWeight(g.edges)
    {
      assert Lowered(g, t, c, r, i);
      if r[i] != t[i] {
        WeightAtMost(g, t[c].id, t[i].id);
      }
    }
  }

  lemma WeightAtMost(g: Graph, a: int, b: int)
    requires HasPair(g, a, b)
    ensures Weight(g, a, b) <= MaxWeight(g.edges)
  {
  }

  lemma SameIdsLists(g: Graph, t: Table, q: Table)
    requires Lists(g, t) && |q| == |t| && forall i :: 0 <= i < |t| ==> q[i].id == t[i].id
    ensures Lists(g, q)
  {
  }

  lemma SettleKeeps(g: Graph, t: Table, s: nat, c: nat)
    requires Searchable(g) && Inv(g, t, s) && Nearest(t, c)
    ensures Inv(g, Settle(g, t, c), s) && DoneCount(Settle(g, t, c)) == DoneCount(t) + 1
  {
    hide Valid;
    hide WeightsAtLeastOne;
    hide Tree;
    hide Settled;
    hide Ordered;
    hide Small;
    var r := RelaxAll(g, t, c);
    RelaxAllEffect(g, t, c);
    RelaxKeepsTree(g, t, s, c, r);
    MarkKeepsTree(g, r, s, c);
    SettleKeepsSettled(g, t, c, r);
    SettleKeepsOrdered(g, t, c, r);
    SettleKeepsSmall(g, t, c, r);
    SameIds(g, t, c, r);
    SameIdsLists(g, t, MarkDone(r, c));
  }

  /**
   * A walk from a done entry to an open one leaves the done entries somewhere, and the first open vertex
   * on it already has a weight no greater than the walk up to there.
   */
  lemma {:induction false} Frontier(g: Graph, t: Table, p: seq<int>, k: nat, i: nat, n: nat) returns (m: nat, j: nat)
    requires Valid(g) && NoOverflow(g) && Lists(g, t) && Settled(g, t) && Small(g, t) && DoneReached(t)
    requires Walk(g, p) && k < n < |p| && Find(t, p[n]) >= 0 && !t[Find(t, p[n])].done
    requires i < |t| && t[i].id == p[k] && t[i].done && t[i].tWeight <= CostTo(g, p, k)
    ensures m <= n && j < |t| && p[m] == t[j].id && !t[j].done
    ensures t[j].tWeight <= CostTo(g, p, m) && t[j].tWeight < INT_MAX
    decreases n - k
  {
    hide Valid;
    hide NoOverflow;
    hide Settled;
    hide Small;
    hide DoneReached;
    hide HasPair;
    hide HasId;
    hide SortedIds;
    PairSymmetric(g, p[k], p[k + 1]);
    FindListed(g, t, p[k + 1]);
    m, j := k + 1, Find(t, p[k + 1]);
    SettledNext(g, t, i, j);
    if t[j].done {
      m, j := Frontier(g, t, p, m, j, n);
    } else {
      OpenBelowMax(g, t, i, j);
    }
  }

  lemma SettledNext(g: Graph, t: Table, i: nat, j: nat)
    requires Settled(g, t) && i < |t| && j < |t| && t[i].done && HasPair(g, t[i].id, t[j].id)
    ensures t[j].tWeight <= t[i].tWeight + Weight(g, t[i].id, t[j].id)
  {
    hide HasPair;
  }

  lemma OpenBelowMax(g: Graph, t: Table, i: nat, j: nat)
    requires NoOverflow(g) && Small(g, t) && DoneReached(t) && |t| == |g.vertices| && i < |t| && j < |t| && t[i].done &&
             !t[j].done
    requires HasPair(g, t[i].id, t[j].id) && t[j].tWeight <= t[i].tWeight + Weight(g, t[i].id, t[j].id)
    ensures t[j].tWeight < INT_MAX
  {
    DoneCountMark(t, j);
    MulStep(MaxWeight(g.edges), DoneCount(t));
    MulUpTo(MaxWeight(g.edges), DoneCount(t) + 1, |g.vertices|);
  }

  lemma MulUpTo(w: nat, a: nat, b: nat)
    requires a <= b
    ensures w * a <= w * b
  {
  }

  /** When a vertex comes up for settling, its weight is at most that of any walk to it. */
  lemma NearestIsOptimal(g: Graph, t: Table, s: nat, c: nat, p: seq<int>)
    requires Searchable(g) && NoOverflow(g) && Inv(g, t, s) && Nearest(t, c)
    requires t[s].done || c == s
    requires WalkBetween(g, p, t[s].id, t[c].id)
    ensures t[c].tWeight <= Cost(g, p)
  {
    if c == s {
      CostToMonotone(g, p, 0, |p| - 1);
    } else {
      FindUnique(t, c);
      assert t[s].id != t[c].id;
      var m, j := Frontier(g, t, p, 0, s, |p| - 1);
      CostToMonotone(g, p, m, |p| - 1);
    }
  }

  // -------------------------------------------------------------------- the loops

  function InitialEntry(v: Vertex, startId: int): VsD {
    if v.id == startId then VsD(v.id, -1, 0, false) else VsD(v.id, -2, INT_MAX, false)
  }

  lemma InitialInv(g: Graph, t: Table, s: nat)
    requires Searchable(g) && |t| == |g.vertices| && s < |t|
    requires forall i :: 0 <= i < |t| ==> t[i] == InitialEntry(g.vertices[i], g.vertices[s].id)
    ensures Inv(g, t, s) && Nearest(t, s) && Untouched(t)
  {
    hide Valid;
    hide WeightsAtLeastOne;
    hide PositiveIds;
    forall i | 0 <= i < |t| && i != s
      ensures t[i].tWeight == INT_MAX
    {
      assert if i < s then g.vertices[i].id < g.vertices[s].id else g.vertices[s].id < g.vertices[i].id;
    }
  }

  /** Relaxes, in place, every edge of g at entry c. */
  method RelaxEdges(g: Graph, vsptr: array<VsD>, c: nat)
    requires c < vsptr.Length && SortedIds(vsptr[..])
    modifies vsptr
    ensures vsptr[..] == RelaxAll(g, old(vsptr[..]), c)
  {
    ghost var t := vsptr[..];
    for i := 0 to |g.edges|
      invariant vsptr[..] == RelaxTo(t, c, g.edges, i)
    {
      RelaxOne(vsptr, c, g.edges[i]);
    }
  }

  method RelaxOne(vsptr: array<VsD>, c: nat, e: Edge)
    requires c < vsptr.Length && SortedIds(vsptr[..])
    modifies vsptr
    ensures vsptr[..] == RelaxEdge(old(vsptr[..]), c, e)
  {
    var other := -1;
    if vsptr[c].id == e.v1.id {
      other := Lookup(vsptr[..], e.v2.id);
    }
    if vsptr[c].id == e.v2.id {
      other := Lookup(vsptr[..], e.v1.id);
    }
    if other != -1 && vsptr[other].tWeight > vsptr[c].tWeight + e.weight {
      vsptr[other] := vsptr[other].(tWeight := vsptr[c].tWeight + e.weight, predId := vsptr[c].id);
    }
  }

  /** The scan: the first entry from i on that is open or still at INT_MAX. */
  function FirstLeft(t: Table, i: nat): (m: nat)
    requires i <= |t|
    ensures i <= m <= |t| && (m < |t| ==> !t[m].done || t[m].tWeight == INT_MAX)
    ensures forall k :: i <= k < m ==> t[k].done && t[k].tWeight != INT_MAX
    decreases |t| - i
  {
    if i < |t| && t[i].done && t[i].tWeight != INT_MAX then FirstLeft(t, i + 1) else i
  }

  /** The search for the lightest open entry from i on, m being the lightest so far. */
  function Lightest(t: Table, i: nat, m: nat): (r: nat)
    requires i <= |t| && m < |t|
    ensures r < |t| && t[r].tWeight <= t[m].tWeight
    ensures r == m || (!t[r].done && t[r].tWeight < t[m].tWeight)
    ensures forall k :: i <= k < |t| && !t[k].done ==> t[r].tWeight <= t[k].tWeight
    decreases |t| - i
  {
    if i == |t| then m
    else Lightest(t, i + 1, if !t[i].done && t[i].tWeight < t[m].tWeight then i else m)
  }

  /** The entry to go on with; |t| when there is none. */
  function Pick(t: Table): (m: nat)
    ensures m <= |t|
  {
    var m := FirstLeft(t, 0);
    if m == |t| then m else Lightest(t, 0, m)
  }

  method SelectNext(t: Table) returns (m: nat)
    ensures m == Pick(t)
  {
    m := 0;
    while m < |t| && t[m].done && t[m].tWeight != INT_MAX
      invariant m <= |t| && FirstLeft(t, m) == FirstLeft(t, 0)
    {
      m := m + 1;
    }
    if m == |t| {
      return;
    }
    for i := 0 to |t|
      invariant 0 <= m < |t| && Lightest(t, i, m) == Pick(t)
    {
      if !t[i].done && t[i].tWeight < t[m].tWeight {
        m := i;
      }
    }
  }

  /** Some open entry has been reached. */
  predicate ReachedOpen(t: Table) {
    exists j :: 0 <= j < |t| && !t[j].done && t[j].tWeight < INT_MAX
  }

  lemma PickReached(t: Table)
    requires ReachedOpen(t) && forall i :: 0 <= i < |t| ==> t[i].tWeight <= INT_MAX
    ensures Pick(t) < |t| && Nearest(t, Pick(t))
  {
    var j :| 0 <= j < |t| && !t[j].done && t[j].tWeight < INT_MAX;
    var m := FirstLeft(t, 0);
  }

  /** When nothing reached is open, the loop goes on with the first entry at INT_MAX, even a done one. */
  lemma PickLost(t: Table, u: nat)
    requires !ReachedOpen(t) && (forall i :: 0 <= i < |t| ==> t[i].tWeight <= INT_MAX)
    requires u < |t| && t[u].tWeight == INT_MAX && forall i :: 0 <= i < u ==> t[i].tWeight != INT_MAX
    ensures Pick(t) == u
  {
    var m := FirstLeft(t, 0);
    assert m == u;
  }

  /** The vertex has no edges. */
  ghost predicate Lonely(g: Graph, id: int) {
    forall b :: !HasPair(g, id, b)
  }

  /** Every vertex before the end, in the order of the map, can be reached. */
  ghost predicate FirstLost(g: Graph, startId: int, endId: int) {
    forall i, k :: 0 <= i < k < |g.vertices| && g.vertices[k].id == endId ==> Reachable(g, startId, g.vertices[i].id)
  }

  /** dijkstra comes to an answer. */
  ghost predicate Answers(g: Graph, startId: int, endId: int) {
    Reachable(g, startId, endId) || (Lonely(g, endId) && FirstLost(g, startId, endId))
  }

  /**
   * With both ends present, dijkstra writes a simple walk from start to end that is no heavier than any other,
   * or reports that there is none.
   */
  method Dijkstra(g: Graph, start: Vertex, end: Vertex, path: array<int>) returns (status: int)
    requires Searchable(g) && NoOverflow(g)
    requires path.Length > |g.vertices| + 1
    requires HasId(g, start.id) && HasId(g, end.id) ==> Answers(g, start.id, end.id)
    modifies path
    ensures status == 0 || status == 1
    ensures status == 0 <==> HasId(g, start.id) && HasId(g, end.id) && Reachable(g, start.id, end.id)
    ensures status == 1 ==> Stored(path[..]) == []
    ensures status == 0 ==>
              var p := Stored(path[..]);
              && WalkBetween(g, p, start.id, end.id) && Simple(p) && |p| <= |g.vertices|
              && forall q :: WalkBetween(g, q, start.id, end.id) ==> Cost(g, p) <= Cost(g, q)
  {
    hide Valid;
    hide WeightsAtLeastOne;
    hide Settled;
    hide Ordered;
    hide Small;
    hide NoOverflow;
    hide HasId;
    hide Reachable;
    hide Lonely;
    hide FirstLost;
    var foundStart := VertexInGraph(g, start);
    if !foundStart {
      path[0] := 0;
      return EXIT_FAILURE;
    }
    var foundEnd := VertexInGraph(g, end);
    if !foundEnd {
      path[0] := 0;
      return EXIT_FAILURE;
    }
    if start.id == end.id {
      path[0] := start.id;
      path[1] := 0;
      TrivialWalk(g, start.id, path[..]);
      WalkReaches(g, [start.id], start.id, end.id);
      return EXIT_SUCCESS;
    }
    var vsptr, s := InitTable(g, start.id);
    InitialInv(g, vsptr[..], s);
    var e := SearchLoop(g, vsptr, s, end.id);
    if vsptr[e].predId == -2 {
      path[0] := 0;
      return EXIT_FAILURE;
    }
    BackTraceWalk(g, vsptr[..], s, e);
    BackTraceSimple(g, vsptr[..], s, e);
    BackTraceFits(g, vsptr[..], s, e);
    BackTraceChain(g, vsptr[..], s, e);
    Retrace(vsptr[..], e, BackTrace(g, vsptr[..], s, e), path);
    return EXIT_SUCCESS;
  }

  lemma WalkReaches(g: Graph, p: seq<int>, a: int, b: int)
    requires WalkBetween(g, p, a, b)
    ensures Reachable(g, a, b)
  {
  }

  /** The state at the top of the search loop while the end is still open. */
  ghost predicate Searching(g: Graph, t: Table, s: nat, c: nat, endId: int) {
    && Inv(g, t, s) && Nearest(t, c) && (t[s].done || c == s) && Untouched(t)
    && forall i :: 0 <= i < |t| && t[i].done ==> t[i].id != endId
  }

  /** Entries that have not been reached still carry their first mark. */
  predicate Untouched(t: Table) {
    forall i :: 0 <= i < |t| && t[i].tWeight == INT_MAX ==> t[i].predId == -2
  }

  /** Entry e carries the least cost of a walk to it. */
  ghost predicate Optimal(g: Graph, t: Table, s: nat, e: nat) {
    && s < |t| && e < |t| && t[e].tWeight < INT_MAX && t[e].predId != -2
    && forall q :: WalkBetween(g, q, t[s].id, t[e].id) ==> t[e].tWeight <= Cost(g, q)
  }

  lemma SettledEnd(g: Graph, t: Table, s: nat, c: nat, endId: int)
    requires Searchable(g) && NoOverflow(g) && Searching(g, t, s, c, endId)
    requires t[s].id != t[c].id == endId
    ensures Optimal(g, Settle(g, t, c), s, c)
  {
    var r := Settle(g, t, c);
    SettledEntry(g, t, s, c);
    assert Hung(g, t, c);
    forall q | WalkBetween(g, q, r[s].id, r[c].id)
      ensures r[c].tWeight <= Cost(g, q)
    {
      NearestIsOptimal(g, t, s, c, q);
    }
  }

  /** A round settles the end at its least cost, goes on with a reached entry, or has reached all there is to reach. */
  lemma Round(g: Graph, t: Table, s: nat, c: nat, endId: int)
    requires Searchable(g) && NoOverflow(g) && Searching(g, t, s, c, endId) && t[s].id != endId
    ensures var r := Settle(g, t, c);
            && Inv(g, r, s) && Untouched(r) && DoneCount(r) == DoneCount(t) + 1 && r[s].done && r[s].id == t[s].id
            && r[c].id == t[c].id
            && (t[c].id == endId ==> Optimal(g, r, s, c))
            && (t[c].id != endId ==> forall i :: 0 <= i < |r| && r[i].done ==> r[i].id != endId)
            && (t[c].id != endId && ReachedOpen(r) ==> Searching(g, r, s, Pick(r), endId))
    ensures Reachable(g, t[s].id, t[c].id)
  {
    hide Searchable;
    hide NoOverflow;
    hide Settled;
    hide Ordered;
    hide Small;
    hide SortedIds;
    hide Reachable;
    var r := Settle(g, t, c);
    SettleKeeps(g, t, s, c);
    SettledEntry(g, t, s, c);
    SettleKeepsUntouched(g, t, s, c);
    ReachedIsReachable(g, t, s, c);
    if t[c].id == endId {
      SettledEnd(g, t, s, c, endId);
    } else if ReachedOpen(r) {
      PickReached(r);
    }
  }

  lemma SettleKeepsUntouched(g: Graph, t: Table, s: nat, c: nat)
    requires Searchable(g) && Inv(g, t, s) && Nearest(t, c) && Untouched(t)
    ensures Untouched(Settle(g, t, c))
  {
    var q := RelaxAll(g, t, c);
    RelaxAllEffect(g, t, c);
    forall i | 0 <= i < |t| && q[i].tWeight == INT_MAX
      ensures q[i].predId == -2
    {
      assert Lowered(g, t, c, q, i);
    }
  }

  lemma ReachedIsReachable(g: Graph, t: Table, s: nat, i: nat)
    requires Searchable(g) && Inv(g, t, s) && i < |t| && t[i].tWeight < INT_MAX
    ensures Reachable(g, t[s].id, t[i].id)
  {
    hide WeightsAtLeastOne;
    hide Valid;
    BackTraceWalk(g, t, s, i);
    WalkReaches(g, BackTrace(g, t, s, i), t[s].id, t[i].id);
  }

  /** When nothing reached is open any more, the reached entries are those that can be reached. */
  lemma AllReached(g: Graph, t: Table, s: nat, i: nat)
    requires Searchable(g) && NoOverflow(g) && Inv(g, t, s) && t[s].done && !ReachedOpen(t) && i < |t|
    ensures t[i].tWeight < INT_MAX <==> Reachable(g, t[s].id, t[i].id)
  {
    hide NoOverflow;
    hide Reachable;
    if t[i].tWeight < INT_MAX {
      ReachedIsReachable(g, t, s, i);
    } else if Reachable(g, t[s].id, t[i].id) {
      assert g.vertices[i].id == t[i].id;
      var j := OpenReached(g, t, s, t[i].id);
    }
  }

  /** The loop is about to look at an end without edges that it has not reached. */
  ghost predicate LastRound(g: Graph, t: Table, c: nat, endId: int) {
    c < |t| && t[c].id == endId && !t[c].done && t[c].predId == -2 && Lonely(g, endId)
  }

  /** If an end that cannot be reached is answered for, it is the first entry at INT_MAX. */
  lemma LastPick(g: Graph, t: Table, s: nat, endId: int)
    requires Searchable(g) && NoOverflow(g) && Inv(g, t, s) && Untouched(t) && t[s].done && !ReachedOpen(t)
    requires HasId(g, endId) && Answers(g, t[s].id, endId)
    requires forall i :: 0 <= i < |t| && t[i].done ==> t[i].id != endId
    ensures !Reachable(g, t[s].id, endId) && LastRound(g, t, Pick(t), endId)
  {
    hide Reachable;
    hide NoOverflow;
    hide Searchable;
    FindListed(g, t, endId);
    var e := Find(t, endId);
    AllReached(g, t, s, e);
    forall i | 0 <= i < e
      ensures t[i].tWeight != INT_MAX
    {
      assert Reachable(g, t[s].id, g.vertices[i].id);
      AllReached(g, t, s, i);
    }
    PickLost(t, e);
  }

  /** A round at a vertex without edges only marks it. */
  lemma SettleLonely(g: Graph, t: Table, c: nat)
    requires Valid(g) && Lists(g, t) && c < |t| && Lonely(g, t[c].id)
    ensures Settle(g, t, c) == MarkDone(t, c)
  {
    var r := RelaxAll(g, t, c);
    RelaxAllEffect(g, t, c);
    forall j | 0 <= j < |t|
      ensures r[j] == t[j]
    {
      assert Lowered(g, t, c, r, j);
    }
    assert r == t;
  }

  /** What the loop leaves at entry e of the end. */
  ghost predicate Found(g: Graph, t: Table, s: nat, e: nat, endId: int) {
    && e < |t| && s < |t| && t[e].id == endId && Lists(g, t)
    && (if Reachable(g, t[s].id, endId) then Inv(g, t, s) && Optimal(g, t, s, e) else t[e].predId == -2)
  }

  /** The loop goes on, and with which entry. */
  ghost predicate GoesOn(g: Graph, t: Table, s: nat, c: nat, endId: int) {
    && Inv(g, t, s)
    && (Searching(g, t, s, c, endId) || (!Reachable(g, t[s].id, endId) && LastRound(g, t, c, endId)))
  }

  /** One turn of the loop. */
  lemma Turn(g: Graph, t: Table, s: nat, c: nat, endId: int)
    requires Searchable(g) && NoOverflow(g) && GoesOn(g, t, s, c, endId)
    requires t[s].id != endId && HasId(g, endId) && Answers(g, t[s].id, endId)
    ensures var r := Settle(g, t, c);
            && Lists(g, r) && DoneCount(r) == DoneCount(t) + 1 && r[s].id == t[s].id && r[c].id == t[c].id
            && (t[c].id == endId ==> Found(g, r, s, c, endId))
            && (t[c].id != endId ==> Pick(r) < |r| && GoesOn(g, r, s, Pick(r), endId))
  {
    hide Reachable;
    hide NoOverflow;
    hide Searchable;
    hide Inv;
    hide Searching;
    hide LastRound;
    hide Settle;
    hide Found;
    hide Answers;
    if Searching(g, t, s, c, endId) {
      TurnSearching(g, t, s, c, endId);
    } else {
      TurnLast(g, t, s, c, endId);
    }
  }

  lemma TurnSearching(g: Graph, t: Table, s: nat, c: nat, endId: int)
    requires Searchable(g) && NoOverflow(g) && Searching(g, t, s, c, endId)
    requires t[s].id != endId && HasId(g, endId) && Answers(g, t[s].id, endId)
    ensures var r := Settle(g, t, c);
            && Lists(g, r) && DoneCount(r) == DoneCount(t) + 1 && r[s].id == t[s].id && r[c].id == t[c].id
            && (t[c].id == endId ==> Found(g, r, s, c, endId))
            && (t[c].id != endId ==> Pick(r) < |r| && GoesOn(g, r, s, Pick(r), endId))
  {
    hide Reachable;
    hide NoOverflow;
    hide Searchable;
    hide Settled;
    hide Ordered;
    hide Small;
    hide Tree;
    hide Answers;
    hide Settle;
    hide Lonely;
    Round(g, t, s, c, endId);
    var r := Settle(g, t, c);
    if t[c].id != endId && !ReachedOpen(r) {
      LastPick(g, r, s, endId);
    }
  }

  lemma TurnLast(g: Graph, t: Table, s: nat, c: nat, endId: int)
    requires Searchable(g) && Inv(g, t, s) && !Reachable(g, t[s].id, endId) && LastRound(g, t, c, endId)
    ensures var r := Settle(g, t, c);
            && Lists(g, r) && DoneCount(r) == DoneCount(t) + 1 && r[s].id == t[s].id && r[c].id == t[c].id
            && t[c].id == endId && Found(g, r, s, c, endId)
  {
    hide Reachable;
    hide Lonely;
    hide Settled;
    hide Ordered;
    hide Small;
    hide Valid;
    hide Hung;
    hide WeightsAtLeastOne;
    hide PositiveIds;
    hide Settle;
    hide Optimal;
    SettleLonely(g, t, c);
    DoneCountMark(t, c);
    SameIdsLists(g, t, MarkDone(t, c));
    hide Lists;
  }

  method SearchLoop(g: Graph, vsptr: array<VsD>, s: nat, endId: int) returns (e: nat)
    requires Searchable(g) && NoOverflow(g) && s < vsptr.Length && Lists(g, vsptr[..]) &&
             GoesOn(g, vsptr[..], s, s, endId)
    requires vsptr[s].id != endId && HasId(g, endId) && Answers(g, vsptr[s].id, endId)
    modifies vsptr
    ensures s < vsptr.Length && vsptr[s].id == old(vsptr[s].id) && Found(g, vsptr[..], s, e, endId)
  {
    hide Searchable;
    hide NoOverflow;
    hide Inv;
    hide Searching;
    hide Reachable;
    hide Answers;
    hide Optimal;
    var c := s;
    var pathFound := false;
    while !pathFound
      invariant 0 <= c < vsptr.Length && Lists(g, vsptr[..]) && vsptr[s].id == old(vsptr[s].id)
      invariant !pathFound ==> GoesOn(g, vsptr[..], s, c, endId)
      invariant pathFound ==> Found(g, vsptr[..], s, c, endId)
      decreases vsptr.Length - DoneCount(vsptr[..]), !pathFound
    {
      ghost var t := vsptr[..];
      Turn(g, t, s, c, endId);
      RelaxEdges(g, vsptr, c);
      vsptr[c] := vsptr[c].(done := true);
      assert vsptr[..] == Settle(g, t, c);
      if vsptr[c].id == endId {
        pathFound := true;
      } else {
        var m := SelectNext(vsptr[..]);
        if m == vsptr.Length {
          pathFound := true;
        }
        c := m;
      }
    }
    e := Lookup(vsptr[..], endId);
    FindUnique(vsptr[..], c);
  }

  /** The entry settled last only gains its mark. */
  lemma SettledEntry(g: Graph, t: Table, s: nat, c: nat)
    requires Searchable(g) && Inv(g, t, s) && Nearest(t, c)
    ensures var r := Settle(g, t, c);
            && r[c] == t[c].(done := true)
            && forall i :: 0 <= i < |t| ==> r[i].id == t[i].id && (i != c ==> r[i].done == t[i].done)
  {
    RelaxAllEffect(g, t, c);
    SameIds(g, t, c, RelaxAll(g, t, c));
  }

  /** While the end is open and reachable, some open entry has a finite weight. */
  lemma OpenReached(g: Graph, t: Table, s: nat, endId: int) returns (j: nat)
    requires Searchable(g) && NoOverflow(g) && Inv(g, t, s) && t[s].done
    requires Reachable(g, t[s].id, endId) && HasId(g, endId)
    requires forall i :: 0 <= i < |t| && t[i].done ==> t[i].id != endId
    ensures j < |t| && !t[j].done && t[j].tWeight < INT_MAX
  {
    var p :| WalkBetween(g, p, t[s].id, endId);
    FindListed(g, t, endId);
    var m;
    m, j := Frontier(g, t, p, 0, s, |p| - 1);
  }

  lemma TrivialWalk(g: Graph, id: int, a: seq<int>)
    requires Searchable(g) && HasId(g, id) && |a| >= 2 && a[0] == id && a[1] == 0
    ensures Stored(a) == [id] && WalkBetween(g, [id], id, id) && |g.vertices| >= 1
    ensures forall q :: WalkBetween(g, q, id, id) ==> Cost(g, [id]) <= Cost(g, q)
  {
    var i :| 0 <= i < |g.vertices| && g.vertices[i].id == id;
    StoredIs(a, [id]);
    forall q | WalkBetween(g, q, id, id)
      ensures Cost(g, [id]) <= Cost(g, q)
    {
      CostToMonotone(g, q, 0, |q| - 1);
    }
  }

  /** Fills the status table; the qsort that follows in the source finds it sorted already. */
  method InitTable(g: Graph, startId: int) returns (vsptr: array<VsD>, s: nat)
    requires Searchable(g) && HasId(g, startId)
    ensures fresh(vsptr) && vsptr.Length == |g.vertices|
    ensures s < |g.vertices| && g.vertices[s].id == startId
    ensures forall i :: 0 <= i < |g.vertices| ==> vsptr[i] == InitialEntry(g.vertices[i], startId)
  {
    var n := |g.vertices|;
    vsptr := new VsD[n](_ => VsD(0, 0, 0, false));
    s := n;
    for i := 0 to n
      invariant forall k :: 0 <= k < i ==> vsptr[k] == InitialEntry(g.vertices[k], startId)
      invariant if s < n then s < i && g.vertices[s].id == startId
                else s == n && forall k :: 0 <= k < i ==> g.vertices[k].id != startId
    {
      if g.vertices[i].id == startId {
        vsptr[i] := VsD(g.vertices[i].id, -1, 0, false);
        s := i;
      } else {
        vsptr[i] := VsD(g.vertices[i].id, -2, INT_MAX, false);
      }
    }
  }
}
