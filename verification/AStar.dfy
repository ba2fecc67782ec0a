/** The A* search: its table, its run as a function of the map, and what the returned path costs. */
module AStar {
  import opened Distance
  import opened MapGraph
  import opened Walks
  import opened StatusTable
  import opened SearchTree
  import opened ZeroArrays
  import opened Dijkstra

  /** vertex_status_a */
  datatype VsA = VsA(v: Vertex, predId: int, f: int, g: int, h: int, done: bool)

  type TableA = seq<VsA>

  /** The part of the table that Dijkstra's search keeps too. */
  function Forget(t: TableA): (r: Table)
    ensures |r| == |t|
    ensures forall i :: 0 <= i < |t| ==> r[i] == VsD(t[i].v.id, t[i].predId, t[i].g, t[i].done)
  {
    seq(|t|, i requires 0 <= i < |t| => VsD(t[i].v.id, t[i].predId, t[i].g, t[i].done))
  }

  // --------------------------------------------------------------- one run, as a function

  function Heuristic(v: Vertex, end: Vertex): nat {
    DistanceFormula(v.x, v.y, end.x, end.y)
  }

  function InitialEntryA(v: Vertex, startId: int, end: Vertex): VsA {
    var dist := Heuristic(v, end);
    if v.id == startId then VsA(v, -1, dist, 0, dist, false) else VsA(v, startId, INT_MAX, INT_MAX, dist, false)
  }

  function InitialTable(g: Graph, startId: int, end: Vertex): TableA {
    seq(|g.vertices|, i requires 0 <= i < |g.vertices| => InitialEntryA(g.vertices[i], startId, end))
  }

  function RelaxEdgeA(t: TableA, c: nat, e: Edge): (r: TableA)
    requires c < |t|
    ensures |r| == |t| && forall i :: 0 <= i < |t| ==> r[i].v == t[i].v && r[i].h == t[i].h
  {
    var k := OtherEnd(Forget(t), c, e);
    if k != -1 && t[k].g > t[c].g + e.weight then
      var cost := t[c].g + e.weight;
      t[k := t[k].(predId := t[c].v.id, g := cost, f := cost + t[k].h)]
    else t
  }

  function RelaxToA(t: TableA, c: nat, es: seq<Edge>, n: nat): (r: TableA)
    requires c < |t| && n <= |es|
    ensures |r| == |t| && forall i :: 0 <= i < |t| ==> r[i].v == t[i].v && r[i].h == t[i].h
  {
    if n == 0 then t else RelaxEdgeA(RelaxToA(t, c, es, n - 1), c, es[n - 1])
  }

  /** One round: relax every edge at c and close c. */
  function Expand(g: Graph, t: TableA, c: nat): (r: TableA)
    requires c < |t|
    ensures |r| == |t| && forall i :: 0 <= i < |t| ==> r[i].v == t[i].v && r[i].h == t[i].h
  {
    var r := RelaxToA(t, c, g.edges, |g.edges|);
    r[c := r[c].(done := true)]
  }

  /** The first open entry at or after i, or |t|. */
  function FirstOpen(t: TableA, i: nat): (k: nat)
    requires i <= |t|
    ensures i <= k <= |t|
    ensures k < |t| ==> !t[k].done
    ensures forall j :: i <= j < k ==> t[j].done
    decreases |t| - i
  {
    if i == |t| || !t[i].done then i else FirstOpen(t, i + 1)
  }

  /** The open entry of least f among m and those at or after i; the earliest wins a tie. */
  function LeastF(t: TableA, i: nat, m: nat): (k: nat)
    requires i <= |t| && m < |t| && !t[m].done
    ensures k < |t| && !t[k].done && t[k].f <= t[m].f
    ensures forall j :: i <= j < |t| && !t[j].done ==> t[k].f <= t[j].f
    decreases |t| - i
  {
    if i == |t| then m
    else LeastF(t, i + 1, if !t[i].done && t[i].f < t[m].f then i else m)
  }

  /** The entry to look at next, or |t| when all are closed. */
  function Select(t: TableA): (k: nat)
    ensures k <= |t|
    ensures k < |t| ==> !t[k].done && forall j :: 0 <= j < |t| && !t[j].done ==> t[k].f <= t[j].f
    ensures k == |t| ==> forall j :: 0 <= j < |t| ==> t[j].done
  {
    var m := FirstOpen(t, 0);
    if m == |t| then m else LeastF(t, 0, m)
  }

  /** Of the open entries with the least f it is the first. */
  lemma SelectIsFirst(t: TableA)
    ensures var k := Select(t); forall j :: 0 <= j < k && !t[j].done ==> k < |t| && t[k].f < t[j].f
  {
    var m := FirstOpen(t, 0);
    if m < |t| {
      LeastFIsFirst(t, 0, m);
    }
  }

  lemma {:induction false} LeastFIsFirst(t: TableA, i: nat, m: nat)
    requires i <= |t| && m < |t| && !t[m].done
    ensures var r := LeastF(t, i, m);
            r != m ==> t[r].f < t[m].f && forall j :: i <= j < r && !t[j].done ==> t[r].f < t[j].f
    decreases |t| - i
  {
    if i < |t| {
      LeastFIsFirst(t, i + 1, if !t[i].done && t[i].f < t[m].f then i else m);
    }
  }

  /** The table when the search loop stops. */
  function Run(g: Graph, t: TableA, c: nat, endId: int): (r: TableA)
    requires c < |t| && !t[c].done
    ensures |r| == |t|
    decreases |t| - DoneCount(Forget(t))
  {
    var r := Expand(g, t, c);
    ExpandCloses(g, t, c);
    if r[c].v.id == endId || Select(r) == |r| then r else Run(g, r, Select(r), endId)
  }

  lemma RunTurn(g: Graph, t: TableA, c: nat, endId: int)
    requires c < |t| && !t[c].done
    ensures var r := Expand(g, t, c);
            Run(g, t, c, endId) == if r[c].v.id == endId || Select(r) == |r| then r else Run(g, r, Select(r), endId)
  {
    hide Expand;
    hide Select;
  }

  lemma {:induction false} ForgetRelax(t: TableA, c: nat, es: seq<Edge>, n: nat)
    requires c < |t| && n <= |es|
    ensures Forget(RelaxToA(t, c, es, n)) == RelaxTo(Forget(t), c, es, n)
  {
    hide RelaxEdgeA;
    hide RelaxEdge;
    hide Forget;
    if n > 0 {
      ForgetRelax(t, c, es, n - 1);
      ForgetRelaxEdge(RelaxToA(t, c, es, n - 1), c, es[n - 1]);
    }
  }

  lemma ForgetRelaxEdge(t: TableA, c: nat, e: Edge)
    requires c < |t|
    ensures Forget(RelaxEdgeA(t, c, e)) == RelaxEdge(Forget(t), c, e)
  {
    hide OtherEnd;
  }

  lemma ForgetExpand(g: Graph, t: TableA, c: nat)
    requires c < |t|
    ensures Forget(Expand(g, t, c)) == Settle(g, Forget(t), c)
  {
    ForgetRelax(t, c, g.edges, |g.edges|);
  }

  lemma {:induction false} RelaxKeepsDone(t: Table, c: nat, es: seq<Edge>, n: nat)
    requires c < |t| && n <= |es|
    ensures forall i :: 0 <= i < |t| ==> RelaxTo(t, c, es, n)[i].done == t[i].done
  {
    if n > 0 {
      RelaxKeepsDone(t, c, es, n - 1);
    }
  }

  lemma ExpandCloses(g: Graph, t: TableA, c: nat)
    requires c < |t| && !t[c].done
    ensures DoneCount(Forget(Expand(g, t, c))) == DoneCount(Forget(t)) + 1
  {
    var d := Forget(t);
    var r := RelaxAll(g, d, c);
    ForgetExpand(g, t, c);
    RelaxKeepsDone(d, c, g.edges, |g.edges|);
    DoneCountSame(d, r);
    DoneCountMark(r, c);
  }

  // ---------------------------------------------------------- heuristic along a walk

  /** The vertex of g with the given id. */
  ghost function At(g: Graph, id: int): Vertex
    requires HasId(g, id)
  {
    var i :| 0 <= i < |g.vertices| && g.vertices[i].id == id;
    g.vertices[i]
  }

  lemma AtUnique(g: Graph, i: nat)
    requires Valid(g) && i < |g.vertices|
    ensures HasId(g, g.vertices[i].id) && At(g, g.vertices[i].id) == g.vertices[i]
  {
    forall j | 0 <= j < |g.vertices| && g.vertices[j].id == g.vertices[i].id
      ensures j == i
    {
      assert j < i ==> DistinctVertices(g.vertices[j], g.vertices[i]);
      assert i < j ==> DistinctVertices(g.vertices[i], g.vertices[j]);
    }
  }

  /** How far the heuristic overestimates across the edge from a to b: truncation makes it 0 or 1. */
  ghost function Slack(g: Graph, end: Vertex, a: int, b: int): (s: nat)
    requires HasPair(g, a, b) && HasId(g, a) && HasId(g, b)
  {
    var excess := Heuristic(At(g, a), end) - Heuristic(At(g, b), end) - Weight(g, a, b);
    if excess > 0 then excess else 0
  }

  lemma SlackAtMostOne(g: Graph, end: Vertex, a: int, b: int)
    requires Valid(g) && TrueWeights(g) && Exact(g) && HasPair(g, a, b)
    ensures HasId(g, a) && HasId(g, b) && Slack(g, end, a, b) <= 1
  {
    hide DistanceFormula;
    hide Valid;
    PairSymmetric(g, a, b);
    WeightIsDistance(g, a, b);
    var u, w := At(g, a), At(g, b);
    TruncatedTriangle(u.x, u.y, w.x, w.y, end.x, end.y);
  }

  lemma WeightIsDistance(g: Graph, a: int, b: int)
    requires Valid(g) && TrueWeights(g) && Exact(g) && HasPair(g, a, b)
    ensures HasId(g, a) && HasId(g, b)
    ensures Weight(g, a, b) == Heuristic(At(g, a), At(g, b))
  {
    hide DistanceFormula;
    hide Valid;
    var i :| 0 <= i < |g.edges| && Joins(g.edges[i], a, b);
    var e := g.edges[i];
    PairSymmetric(g, a, b);
    WeightOfEdge(g, i, a, b);
    var j :| 0 <= j < |g.vertices| && g.vertices[j] == e.v1;
    var k :| 0 <= k < |g.vertices| && g.vertices[k] == e.v2;
    AtUnique(g, j);
    AtUnique(g, k);
    assert TrueWeight(e);
    DistanceSymmetric(e.v1.x, e.v1.y, e.v2.x, e.v2.y);
  }

  /** Overestimates on the first k edges of p, the first edge excepted. */
  ghost function SlackTo(g: Graph, end: Vertex, p: seq<int>, k: nat): nat
    requires Valid(g) && Walk(g, p) && k < |p|
  {
    if k <= 1 then 0 else
      PairSymmetric(g, p[k - 1], p[k]);
      SlackTo(g, end, p, k - 1) + Slack(g, end, p[k - 1], p[k])
  }

  /** All overestimates on p that can cost the search anything. */
  ghost function WalkSlack(g: Graph, end: Vertex, p: seq<int>): nat
    requires Valid(g) && Walk(g, p)
  {
    SlackTo(g, end, p, |p| - 1)
  }

  lemma {:induction false} SlackToBound(g: Graph, end: Vertex, p: seq<int>, k: nat)
    requires Valid(g) && TrueWeights(g) && Exact(g) && Walk(g, p) && k < |p|
    ensures SlackTo(g, end, p, k) <= if k <= 1 then 0 else k - 1
  {
    if k > 1 {
      SlackAtMostOne(g, end, p[k - 1], p[k]);
      SlackToBound(g, end, p, k - 1);
    }
  }

  lemma {:induction false} SlackToPrefix(g: Graph, end: Vertex, p: seq<int>, q: seq<int>, k: nat)
    requires Valid(g) && Walk(g, p) && Walk(g, q) && k < |p| && k < |q| && p[..k + 1] == q[..k + 1]
    ensures SlackTo(g, end, p, k) == SlackTo(g, end, q, k)
  {
    if k > 1 {
      assert p[k] == p[..k + 1][k] == q[k];
      assert p[k - 1] == p[..k + 1][k - 1] == q[k - 1];
      assert p[..k] == p[..k + 1][..k] == q[..k];
      SlackToPrefix(g, end, p, q, k - 1);
    }
  }

  /** Walking from position m to position k, the heuristic drops by at most cost plus slack. */
  lemma {:induction false} HeuristicAlong(g: Graph, end: Vertex, p: seq<int>, m: nat, k: nat)
    requires Valid(g) && Walk(g, p) && 1 <= m <= k < |p| && HasId(g, p[m]) && HasId(g, p[k])
    ensures Heuristic(At(g, p[m]), end) + CostTo(g, p, m) + SlackTo(g, end, p, m)
         <= Heuristic(At(g, p[k]), end) + CostTo(g, p, k) + SlackTo(g, end, p, k)
    decreases k
  {
    hide Heuristic;
    hide Valid;
    hide HasId;
    if m < k {
      PairSymmetric(g, p[k - 1], p[k]);
      HeuristicAlong(g, end, p, m, k - 1);
    }
  }

  // ------------------------------------------------------------------- invariant

  /** The A* columns: records and heuristic of the map's vertices, and f = g + h once g is finite. */
  predicate Costed(g: Graph, t: TableA, end: Vertex) {
    && |t| == |g.vertices|
    && forall i :: 0 <= i < |t| ==>
         && t[i].v == g.vertices[i] && t[i].h == Heuristic(t[i].v, end)
         && t[i].f == if t[i].g == INT_MAX then INT_MAX else t[i].g + t[i].h
  }

  /** closed[i] is the cost at which entry i was closed; its neighbours were relaxed with it. */
  ghost predicate Closed(g: Graph, t: Table, closed: seq<int>) {
    && |closed| == |t|
    && (forall i :: 0 <= i < |t| && t[i].done ==>
          t[i].tWeight <= closed[i] <= MaxWeight(g.edges) * DoneCount(t) && t[i].tWeight < INT_MAX)
    && (forall i, j :: 0 <= i < |t| && 0 <= j < |t| && t[i].done && HasPair(g, t[i].id, t[j].id) ==>
          t[j].tWeight <= closed[i] + Weight(g, t[i].id, t[j].id))
  }

  /** Every walk from the start to a closed entry costs, with its slack, at least the closing cost. */
  ghost predicate ClosedWell(g: Graph, t: Table, s: nat, closed: seq<int>, end: Vertex)
    requires Valid(g) && |closed| == |t|
  {
    forall p, i :: s < |t| && 0 <= i < |t| && t[i].done && WalkBetween(g, p, t[s].id, t[i].id) ==>
      closed[i] <= Cost(g, p) + WalkSlack(g, end, p)
  }

  ghost predicate InvA(g: Graph, t: TableA, s: nat, closed: seq<int>, end: Vertex) {
    var d := Forget(t);
    && Valid(g) && Lists(g, d) && Tree(g, d, s) && Small(g, d) && Costed(g, t, end)
    && Closed(g, d, closed) && ClosedWell(g, d, s, closed, end)
  }

  /** c is open and reached, and no open entry has a smaller f. */
  predicate Best(t: TableA, c: nat) {
    && c < |t| && !t[c].done && t[c].g < INT_MAX
    && forall j :: 0 <= j < |t| && !t[j].done ==> t[c].f <= t[j].f
  }

  /** No cost estimate that the search forms reaches INT_MAX. */
  predicate NoOverflowA(g: Graph, end: Vertex) {
    forall i :: 0 <= i < |g.vertices| ==>
      MaxWeight(g.edges) * |g.vertices| + Heuristic(g.vertices[i], end) < 0x7fff_ffff
  }

  // ------------------------------------------------------------ what a round keeps

  predicate FSums(t: TableA) {
    forall i :: 0 <= i < |t| ==> t[i].g <= INT_MAX && t[i].f == if t[i].g == INT_MAX then INT_MAX else t[i].g + t[i].h
  }

  lemma {:induction false} RelaxKeepsFSums(t: TableA, c: nat, es: seq<Edge>, n: nat)
    requires c < |t| && n <= |es| && FSums(t)
    ensures FSums(RelaxToA(t, c, es, n))
  {
    if n > 0 {
      RelaxKeepsFSums(t, c, es, n - 1);
    }
  }

  lemma ExpandKeepsCosted(g: Graph, t: TableA, s: nat, c: nat, end: Vertex)
    requires Costed(g, t, end) && Tree(g, Forget(t), s) && c < |t|
    ensures Costed(g, Expand(g, t, c), end)
  {
    assert forall i :: 0 <= i < |t| ==> Forget(t)[i].tWeight == t[i].g;
    RelaxKeepsFSums(t, c, g.edges, |g.edges|);
  }

  lemma ExpandKeepsClosed(g: Graph, t: Table, c: nat, r: Table, closed: seq<int>)
    requires Closed(g, t, closed) && Small(g, t) && Relaxed(g, t, c, r) && !t[c].done && t[c].tWeight < INT_MAX
    ensures Closed(g, MarkDone(r, c), closed[c := t[c].tWeight])
  {
    var q, after := MarkDone(r, c), closed[c := t[c].tWeight];
    SettleKeepsSmall(g, t, c, r);
    SameIds(g, t, c, r);
    MulStep(MaxWeight(g.edges), DoneCount(t));
    forall i, j | 0 <= i < |q| && 0 <= j < |q| && q[i].done && HasPair(g, q[i].id, q[j].id)
      ensures q[j].tWeight <= after[i] + Weight(g, q[i].id, q[j].id)
    {
      assert q[i].id == t[i].id && q[j].id == t[j].id && q[j].tWeight <= t[j].tWeight;
    }
  }

  /** The first open entry on a walk that starts closed, and what its g is bounded by. */
  lemma {:induction false} FrontierA(g: Graph, t: Table, s: nat, closed: seq<int>, end: Vertex,
                                     p: seq<int>, k: nat, i: nat) returns (m: nat, j: nat)
    requires Valid(g) && Lists(g, t) && Closed(g, t, closed) && ClosedWell(g, t, s, closed, end)
    requires s < |t| && Walk(g, p) && p[0] == t[s].id && k < |p| - 1 && i < |t| && t[i].id == p[k] && t[i].done
    requires Find(t, p[|p| - 1]) >= 0 && !t[Find(t, p[|p| - 1])].done
    ensures 1 <= m < |p| && j < |t| && p[m] == t[j].id && !t[j].done
    ensures t[j].tWeight <= CostTo(g, p, m) + SlackTo(g, end, p, m)
    ensures t[j].tWeight <= MaxWeight(g.edges) * (DoneCount(t) + 1)
    decreases |p| - k
  {
    hide Valid;
    hide ClosedWell;
    hide HasPair;
    hide HasId;
    PairSymmetric(g, p[k], p[k + 1]);
    FindListed(g, t, p[k + 1]);
    m, j := k + 1, Find(t, p[k + 1]);
    if t[j].done {
      m, j := FrontierA(g, t, s, closed, end, p, m, j);
    } else {
      ClosedPrefix(g, t, s, closed, end, p, k, i);
      WeightAtMost(g, t[i].id, t[j].id);
      MulStep(MaxWeight(g.edges), DoneCount(t));
    }
  }

  lemma ClosedPrefix(g: Graph, t: Table, s: nat, closed: seq<int>, end: Vertex, p: seq<int>, k: nat, i: nat)
    requires Valid(g) && |closed| == |t| && ClosedWell(g, t, s, closed, end)
    requires s < |t| && Walk(g, p) && p[0] == t[s].id && k < |p| && i < |t| && t[i].id == p[k] && t[i].done
    ensures closed[i] <= CostTo(g, p, k) + SlackTo(g, end, p, k)
  {
    hide Valid;
    hide HasPair;
    var q := p[..k + 1];
    WalkPrefix(g, p, k);
    SlackToPrefix(g, end, p, q, k);
    assert WalkBetween(g, q, t[s].id, t[i].id);
  }

  /** The cost at which c is closed is at most that of any walk to it, plus the walk's slack. */
  lemma PopBound(g: Graph, t: TableA, s: nat, c: nat, closed: seq<int>, end: Vertex, p: seq<int>)
    requires WeightsAtLeastOne(g) && NoOverflowA(g, end) && InvA(g, t, s, closed, end) && Best(t, c)
    requires t[s].done || c == s
    requires WalkBetween(g, p, t[s].v.id, t[c].v.id)
    ensures t[c].g <= Cost(g, p) + WalkSlack(g, end, p)
  {
    hide Heuristic;
    hide NoOverflowA;
    hide Valid;
    hide WeightsAtLeastOne;
    hide Closed;
    hide ClosedWell;
    var d := Forget(t);
    if c == s {
      CostToMonotone(g, p, 0, |p| - 1);
    } else {
      FindUnique(d, c);
      assert d[s].id != d[c].id;
      var m, j := FrontierA(g, d, s, closed, end, p, 0, s);
      FindUnique(d, j);
      AtUnique(g, j);
      AtUnique(g, c);
      HeuristicAlong(g, end, p, m, |p| - 1);
      FrontierFinite(g, d, j, end);
    }
  }

  lemma FrontierFinite(g: Graph, t: Table, j: nat, end: Vertex)
    requires NoOverflowA(g, end) && |t| == |g.vertices| && j < |t| && !t[j].done
    requires t[j].tWeight <= MaxWeight(g.edges) * (DoneCount(t) + 1)
    ensures t[j].tWeight + Heuristic(g.vertices[j], end) < INT_MAX
  {
    hide Heuristic;
    DoneCountMark(t, j);
    MulUpTo(MaxWeight(g.edges), DoneCount(t) + 1, |t|);
  }

  lemma ExpandKeepsClosedWell(g: Graph, t: TableA, s: nat, c: nat, closed: seq<int>, end: Vertex, q: Table)
    requires WeightsAtLeastOne(g) && NoOverflowA(g, end) && InvA(g, t, s, closed, end) && Best(t, c)
    requires t[s].done || c == s
    requires |q| == |t| == |closed| && forall i :: 0 <= i < |t| ==>
               q[i].id == t[i].v.id && (q[i].done <==> t[i].done || i == c)
    ensures ClosedWell(g, q, s, closed[c := t[c].g], end)
  {
    hide Heuristic;
    hide NoOverflowA;
    hide Valid;
    hide WeightsAtLeastOne;
    hide Closed;
    hide Tree;
    var d, after := Forget(t), closed[c := t[c].g];
    forall p, i | s < |q| && 0 <= i < |q| && q[i].done && WalkBetween(g, p, q[s].id, q[i].id)
      ensures after[i] <= Cost(g, p) + WalkSlack(g, end, p)
    {
      if i == c {
        PopBound(g, t, s, c, closed, end, p);
      } else {
        assert d[i].done && WalkBetween(g, p, d[s].id, d[i].id);
      }
    }
  }

  lemma ExpandKeeps(g: Graph, t: TableA, s: nat, c: nat, closed: seq<int>, end: Vertex)
    requires WeightsAtLeastOne(g) && NoOverflowA(g, end) && InvA(g, t, s, closed, end) && Best(t, c)
    requires t[s].done || c == s
    ensures InvA(g, Expand(g, t, c), s, closed[c := t[c].g], end)
    ensures Expand(g, t, c)[c] == t[c].(done := true)
    ensures forall i :: 0 <= i < |t| && i != c ==> Expand(g, t, c)[i].done == t[i].done
  {
    ExpandDone(g, t, c);
    ExpandKeepsInv(g, t, s, c, closed, end);
    ExpandEntry(g, t, c, end);
    hide Heuristic;
    hide NoOverflowA;
    hide Valid;
    hide WeightsAtLeastOne;
    hide ClosedWell;
    hide Small;
    hide Tree;
    hide Costed;
  }

  /** Only the expanded entry becomes done. */
  lemma ExpandDone(g: Graph, t: TableA, c: nat)
    requires c < |t| && Valid(g) && Lists(g, Forget(t))
    ensures |Expand(g, t, c)| == |t|
    ensures forall i :: 0 <= i < |t| ==>
              Expand(g, t, c)[i].v.id == t[i].v.id && (Expand(g, t, c)[i].done <==> t[i].done || i == c)
  {
    hide Valid;
    var d := Forget(t);
    ForgetExpand(g, t, c);
    RelaxAllEffect(g, d, c);
    SameIds(g, d, c, RelaxAll(g, d, c));
    var q := Expand(g, t, c);
    assert forall i :: 0 <= i < |t| ==> Forget(q)[i].id == d[i].id && (Forget(q)[i].done <==> d[i].done || i == c);
  }

  /** What expanding keeps of the table that Dijkstra's search would have. */
  lemma SettledTable(g: Graph, d: Table, s: nat, c: nat, closed: seq<int>)
    requires Valid(g) && WeightsAtLeastOne(g) && Lists(g, d) && Tree(g, d, s) && Small(g, d) && Closed(g, d, closed)
    requires c < |d| && !d[c].done && d[c].tWeight < INT_MAX
    ensures var q := Settle(g, d, c);
            Lists(g, q) && Tree(g, q, s) && Small(g, q) && Closed(g, q, closed[c := d[c].tWeight])
  {
    hide Valid;
    hide WeightsAtLeastOne;
    hide Small;
    hide Tree;
    var r := RelaxAll(g, d, c);
    RelaxAllEffect(g, d, c);
    SameIds(g, d, c, r);
    RelaxKeepsTree(g, d, s, c, r);
    MarkKeepsTree(g, r, s, c);
    SettleKeepsSmall(g, d, c, r);
    ExpandKeepsClosed(g, d, c, r, closed);
    SameIdsLists(g, d, MarkDone(r, c));
  }

  lemma ExpandKeepsInv(g: Graph, t: TableA, s: nat, c: nat, closed: seq<int>, end: Vertex)
    requires WeightsAtLeastOne(g) && NoOverflowA(g, end) && InvA(g, t, s, closed, end) && Best(t, c)
    requires t[s].done || c == s
    ensures InvA(g, Expand(g, t, c), s, closed[c := t[c].g], end)
  {
    hide Heuristic;
    hide NoOverflowA;
    hide Valid;
    hide WeightsAtLeastOne;
    hide ClosedWell;
    hide Small;
    hide Tree;
    hide Costed;
    hide Lists;
    hide Settle;
    hide Expand;
    assert |closed| == |t|;
    hide Closed;
    ForgetExpand(g, t, c);
    SettledTable(g, Forget(t), s, c, closed);
    ExpandKeepsCosted(g, t, s, c, end);
    ExpandDone(g, t, c);
    assert forall i :: 0 <= i < |t| ==> Forget(Expand(g, t, c))[i].id == Expand(g, t, c)[i].v.id;
    ExpandKeepsClosedWell(g, t, s, c, closed, end, Settle(g, Forget(t), c));
  }

  lemma ExpandEntry(g: Graph, t: TableA, c: nat, end: Vertex)
    requires c < |t| && Valid(g) && Lists(g, Forget(t)) && Costed(g, t, end) && Costed(g, Expand(g, t, c), end)
    ensures Expand(g, t, c)[c] == t[c].(done := true)
  {
    hide Heuristic;
    hide Valid;
    ForgetExpand(g, t, c);
    RelaxAllEffect(g, Forget(t), c);
    assert Forget(Expand(g, t, c))[c] == Forget(t)[c].(done := true);
  }

  // ------------------------------------------------------------------- whole runs

  /** What the table says when the search stops: the end's cost is near that of every walk to it. */
  ghost predicate Finished(g: Graph, r: TableA, s: nat, end: Vertex) {
    var d, e := Forget(r), Find(Forget(r), end.id);
    && Valid(g) && Lists(g, d) && Tree(g, d, s) && e >= 0 && r[e].g < INT_MAX
    && forall p :: WalkBetween(g, p, d[s].id, end.id) ==> r[e].g <= Cost(g, p) + WalkSlack(g, end, p)
  }

  /** The state at the top of the search loop while the end is open and entry c is next. */
  ghost predicate OpenA(g: Graph, t: TableA, s: nat, c: nat, closed: seq<int>, end: Vertex) {
    && WeightsAtLeastOne(g) && NoOverflowA(g, end) && InvA(g, t, s, closed, end) && Best(t, c)
    && s < |t| == |closed| && (t[s].done || c == s)
    && (forall i :: 0 <= i < |t| && t[i].done ==> t[i].v.id != end.id)
    && HasId(g, end.id)
  }

  ghost predicate SearchingA(g: Graph, t: TableA, s: nat, c: nat, closed: seq<int>, end: Vertex) {
    OpenA(g, t, s, c, closed, end) && Reachable(g, t[s].v.id, end.id)
  }

  /** While the end is open and reachable, the entry selected next is reached. */
  lemma SelectReached(g: Graph, t: TableA, s: nat, closed: seq<int>, end: Vertex)
    requires NoOverflowA(g, end) && InvA(g, t, s, closed, end) && t[s].done
    requires forall i :: 0 <= i < |t| && t[i].done ==> t[i].v.id != end.id
    requires HasId(g, end.id) && Reachable(g, t[s].v.id, end.id)
    ensures Select(t) < |t| && Best(t, Select(t))
  {
    hide Valid;
    hide Heuristic;
    hide NoOverflowA;
    hide ClosedWell;
    hide Closed;
    hide HasId;
    var d := Forget(t);
    var p :| WalkBetween(g, p, t[s].v.id, end.id);
    FindListed(g, d, end.id);
    var m, j := FrontierA(g, d, s, closed, end, p, 0, s);
    FrontierFinite(g, d, j, end);
  }

  /** Closing the end stops the search with the bound. */
  lemma EndClosed(g: Graph, t: TableA, s: nat, c: nat, closed: seq<int>, end: Vertex)
    requires SearchingA(g, t, s, c, closed, end) && t[c].v.id == end.id
    ensures Finished(g, Expand(g, t, c), s, end)
  {
    hide Valid;
    hide Heuristic;
    hide NoOverflowA;
    hide WeightsAtLeastOne;
    hide ClosedWell;
    hide Closed;
    hide HasId;
    hide SortedIds;
    var r := Expand(g, t, c);
    ExpandKeeps(g, t, s, c, closed, end);
    FindUnique(Forget(r), c);
    forall p | WalkBetween(g, p, Forget(r)[s].id, end.id)
      ensures r[c].g <= Cost(g, p) + WalkSlack(g, end, p)
    {
      PopBound(g, t, s, c, closed, end, p);
    }
  }

  lemma {:induction false} RunBound(g: Graph, t: TableA, s: nat, c: nat, closed: seq<int>, end: Vertex)
    requires SearchingA(g, t, s, c, closed, end)
    ensures Finished(g, Run(g, t, c, end.id), s, end)
    decreases |t| - DoneCount(Forget(t))
  {
    hide InvA;
    hide NoOverflowA;
    hide WeightsAtLeastOne;
    hide HasId;
    hide Reachable;
    hide Finished;
    hide Expand;
    hide Select;
    var r := Expand(g, t, c);
    ExpandCloses(g, t, c);
    ExpandKeeps(g, t, s, c, closed, end);
    if t[c].v.id == end.id {
      EndClosed(g, t, s, c, closed, end);
    } else {
      var after := closed[c := t[c].g];
      SelectReached(g, r, s, after, end);
      RunBound(g, r, s, Select(r), after, end);
    }
  }

  /** What astar needs of its map and target. */
  predicate SearchableA(g: Graph, end: Vertex) {
    Searchable(g) && NoOverflowA(g, end)
  }

  function StartIndex(g: Graph, start: Vertex, end: Vertex): int {
    Find(Forget(InitialTable(g, start.id, end)), start.id)
  }

  lemma InitialInvA(g: Graph, start: Vertex, end: Vertex)
    requires SearchableA(g, end) && HasId(g, start.id) && HasId(g, end.id)
    ensures var s := StartIndex(g, start, end);
            s >= 0 && OpenA(g, InitialTable(g, start.id, end), s, s, seq(|g.vertices|, _ => 0), end)
            && InitialTable(g, start.id, end)[s].v.id == start.id
  {
    hide Heuristic;
    hide Valid;
    hide WeightsAtLeastOne;
    hide HasId;
    var t := InitialTable(g, start.id, end);
    var d := Forget(t);
    assert Lists(g, d);
    FindListed(g, d, start.id);
    var s := Find(d, start.id);
    InitialUnreached(g, start, end, s);
    assert d[s] == VsD(start.id, -1, 0, false);
    assert Tree(g, d, s);
    assert Costed(g, t, end);
    NothingClosed(g, t, s, seq(|g.vertices|, _ => 0), end);
  }

  lemma NothingClosed(g: Graph, t: TableA, s: nat, closed: seq<int>, end: Vertex)
    requires Valid(g) && Lists(g, Forget(t)) && Tree(g, Forget(t), s) && Costed(g, t, end) && |closed| == |t|
    requires forall i :: 0 <= i < |t| ==> !t[i].done && (i != s ==> t[i].g == INT_MAX)
    ensures InvA(g, t, s, closed, end)
  {
    hide Heuristic;
    hide Valid;
    hide Tree;
    hide Costed;
    hide Lists;
    assert forall i :: 0 <= i < |t| ==> !Forget(t)[i].done;
    RootAtZero(g, Forget(t), s);
  }

  lemma RootAtZero(g: Graph, t: Table, s: nat)
    requires Tree(g, t, s) && forall i :: 0 <= i < |t| && i != s ==> t[i].tWeight == INT_MAX
    ensures Small(g, t)
  {
    MulUpTo(MaxWeight(g.edges), 0, DoneCount(t));
  }

  /** Initially only the start is reached, so it is looked at first. */
  lemma InitialUnreached(g: Graph, start: Vertex, end: Vertex, s: nat)
    requires NoOverflowA(g, end) && Lists(g, Forget(InitialTable(g, start.id, end)))
    requires s < |g.vertices| && g.vertices[s].id == start.id
    ensures var t := InitialTable(g, start.id, end);
            Best(t, s) && forall i :: 0 <= i < |t| && i != s ==> t[i].g == INT_MAX
  {
    hide Heuristic;
    var t := InitialTable(g, start.id, end);
    var d := Forget(t);
    forall i | 0 <= i < |t| && i != s
      ensures t[i].g == INT_MAX && t[i].f == INT_MAX
    {
      assert if i < s then d[i].id < d[s].id else d[s].id < d[i].id;
    }
    MulUpTo(MaxWeight(g.edges), 0, |g.vertices|);
    assert MaxWeight(g.edges) * |g.vertices| + Heuristic(g.vertices[s], end) < INT_MAX;
  }

  lemma {:induction false} RunKeepsIds(g: Graph, t: TableA, c: nat, endId: int)
    requires c < |t| && !t[c].done
    ensures forall i :: 0 <= i < |t| ==> Run(g, t, c, endId)[i].v == t[i].v
    decreases |t| - DoneCount(Forget(t))
  {
    var r := Expand(g, t, c);
    ExpandCloses(g, t, c);
    if r[c].v.id != endId && Select(r) < |r| {
      RunKeepsIds(g, r, Select(r), endId);
    }
  }

  /** The path that astar hands back: a simple walk from start to end. */
  ghost function Result(g: Graph, start: Vertex, end: Vertex): (p: seq<int>)
    requires SearchableA(g, end) && HasId(g, start.id) && HasId(g, end.id) && Reachable(g, start.id, end.id)
    ensures WalkBetween(g, p, start.id, end.id)
  {
    if start.id == end.id then [start.id] else
      SearchedTree(g, start, end);
      var r := Forget(Searched(g, start, end));
      BackTrace(g, r, StartIndex(g, start, end), Find(r, end.id))
  }

  /** The table in which the search for end stops. */
  ghost function Searched(g: Graph, start: Vertex, end: Vertex): TableA
    requires SearchableA(g, end) && HasId(g, start.id) && HasId(g, end.id) && Reachable(g, start.id, end.id)
  {
    InitialInvA(g, start, end);
    Run(g, InitialTable(g, start.id, end), StartIndex(g, start, end), end.id)
  }

  lemma SearchedTree(g: Graph, start: Vertex, end: Vertex)
    requires SearchableA(g, end) && HasId(g, start.id) && HasId(g, end.id) && Reachable(g, start.id, end.id)
    ensures var s, r := StartIndex(g, start, end), Searched(g, start, end);
            && s >= 0 && Finished(g, r, s, end) && WeightsAtLeastOne(g) && s < |r| && Forget(r)[s].id == start.id
            && var p := BackTrace(g, Forget(r), s, Find(Forget(r), end.id));
               && WalkBetween(g, p, start.id, end.id) && Simple(p) && |p| <= |g.vertices|
               && Cost(g, p) <= r[Find(Forget(r), end.id)].g
  {
    hide SearchableA;
    hide Heuristic;
    hide NoOverflowA;
    hide HasId;
    hide Reachable;
    hide InvA;
    hide Best;
    hide Valid;
    InitialInvA(g, start, end);
    var t, s := InitialTable(g, start.id, end), StartIndex(g, start, end);
    RunBound(g, t, s, s, seq(|g.vertices|, _ => 0), end);
    RunKeepsIds(g, t, s, end.id);
    var r := Forget(Run(g, t, s, end.id));
    var e := Find(r, end.id);
    BackTraceWalk(g, r, s, e);
    BackTraceSimple(g, r, s, e);
    BackTraceFits(g, r, s, e);
  }

  /** The returned path is simple, and no walk beats it by more than its own slack. */
  lemma ResultBound(g: Graph, start: Vertex, end: Vertex)
    requires SearchableA(g, end) && HasId(g, start.id) && HasId(g, end.id) && Reachable(g, start.id, end.id)
    ensures var p := Result(g, start, end);
            && Simple(p) && |p| <= |g.vertices|
            && forall q :: WalkBetween(g, q, start.id, end.id) ==> Cost(g, p) <= Cost(g, q) + WalkSlack(g, end, q)
  {
    hide Heuristic;
    hide NoOverflowA;
    hide HasId;
    hide Valid;
    if start.id == end.id {
      TrivialWalk(g, start.id, [start.id, 0]);
    } else {
      SearchedTree(g, start, end);
    }
  }

  /** A map whose weights are the truncated distances of its own vertices. */
  predicate TrueMap(g: Graph) {
    Valid(g) && TrueWeights(g) && Exact(g)
  }

  /** On such a map the path costs at most what any walk q costs plus one per edge of q after the first. */
  lemma AStarBound(g: Graph, start: Vertex, end: Vertex, q: seq<int>)
    requires SearchableA(g, end) && TrueMap(g) && HasId(g, start.id) && HasId(g, end.id)
    requires WalkBetween(g, q, start.id, end.id)
    ensures Reachable(g, start.id, end.id)
    ensures Cost(g, Result(g, start, end)) <= Cost(g, q) + (if |q| <= 2 then 0 else |q| - 2)
  {
    hide Searchable;
    hide HasId;
    hide Heuristic;
    hide CostTo;
    hide Valid;
    hide Result;
    hide NoOverflowA;
    ResultBound(g, start, end);
    SlackToBound(g, end, q, |q| - 1);
  }

  /** One cheapest walk without slack is enough for the returned path to be a shortest one. */
  lemma OptimalWithoutSlack(g: Graph, start: Vertex, end: Vertex, q: seq<int>)
    requires SearchableA(g, end) && HasId(g, start.id) && HasId(g, end.id)
    requires WalkBetween(g, q, start.id, end.id) && WalkSlack(g, end, q) == 0
    requires forall w :: WalkBetween(g, w, start.id, end.id) ==> Cost(g, q) <= Cost(g, w)
    ensures Reachable(g, start.id, end.id)
    ensures var p := Result(g, start, end);
            && WalkBetween(g, p, start.id, end.id)
            && forall w :: WalkBetween(g, w, start.id, end.id) ==> Cost(g, p) <= Cost(g, w)
  {
    hide HasId;
    hide CostTo;
    hide NoOverflowA;
    hide Heuristic;
    hide Result;
    hide WalkSlack;
    ResultBound(g, start, end);
  }

  /** The heuristic never drops by more than an edge's weight, in either direction along it. */
  predicate Consistent(g: Graph, end: Vertex) {
    forall i, u, w :: 0 <= i < |g.edges| && u in g.vertices && w in g.vertices && Joins(g.edges[i], u.id, w.id) ==>
      Heuristic(u, end) <= g.edges[i].weight + Heuristic(w, end)
  }

  /** Where truncation leaves the heuristic consistent, the returned path is a shortest one. */
  lemma OptimalWhenConsistent(g: Graph, start: Vertex, end: Vertex, q: seq<int>)
    requires SearchableA(g, end) && Consistent(g, end) && HasId(g, start.id) && HasId(g, end.id)
    requires WalkBetween(g, q, start.id, end.id)
    ensures Reachable(g, start.id, end.id)
    ensures Cost(g, Result(g, start, end)) <= Cost(g, q)
  {
    hide HasId;
    hide CostTo;
    hide Consistent;
    hide NoOverflowA;
    hide Heuristic;
    hide Result;
    ResultBound(g, start, end);
    NoSlack(g, end, q, |q| - 1);
  }

  lemma {:induction false} NoSlack(g: Graph, end: Vertex, p: seq<int>, k: nat)
    requires Valid(g) && Consistent(g, end) && Walk(g, p) && k < |p|
    ensures SlackTo(g, end, p, k) == 0
  {
    hide Heuristic;
    hide Valid;
    hide Consistent;
    hide HasPair;
    hide HasId;
    if k > 1 {
      NoSlack(g, end, p, k - 1);
      PairSymmetric(g, p[k - 1], p[k]);
      EdgeHasNoSlack(g, end, p[k - 1], p[k]);
      hide Slack;
    }
  }

  lemma EdgeHasNoSlack(g: Graph, end: Vertex, a: int, b: int)
    requires Valid(g) && Consistent(g, end) && HasPair(g, a, b)
    ensures HasId(g, a) && HasId(g, b) && Slack(g, end, a, b) == 0
  {
    hide Heuristic;
    hide Valid;
    PairSymmetric(g, a, b);
    var i :| 0 <= i < |g.edges| && Joins(g.edges[i], a, b);
    WeightOfEdge(g, i, a, b);
    var j :| 0 <= j < |g.vertices| && g.vertices[j].id == a;
    var l :| 0 <= l < |g.vertices| && g.vertices[l].id == b;
    AtUnique(g, j);
    AtUnique(g, l);
    assert g.vertices[j] in g.vertices && g.vertices[l] in g.vertices;
  }

  // ------------------------------------------------------ an end that cannot be reached

  /** Entries that have not been reached still name the start as their predecessor. */
  predicate UntouchedA(t: TableA, startId: int) {
    forall i :: 0 <= i < |t| && t[i].g == INT_MAX ==> t[i].predId == startId
  }

  /** No vertex that cannot be reached has an edge, up to the end in the order of the map. */
  ghost predicate LostWithoutEdges(g: Graph, startId: int, endId: int) {
    forall i, k ::
      0 <= i <= k < |g.vertices| && g.vertices[k].id == endId && !Reachable(g, startId, g.vertices[i].id) ==>
        Lonely(g, g.vertices[i].id)
  }

  lemma {:induction false} RelaxLonely(g: Graph, t: TableA, c: nat, n: nat)
    requires c < |t| && n <= |g.edges| && Lonely(g, t[c].v.id)
    ensures RelaxToA(t, c, g.edges, n) == t
  {
    if n > 0 {
      RelaxLonely(g, t, c, n - 1);
      var e := g.edges[n - 1];
      assert !HasPair(g, t[c].v.id, e.v1.id) && !HasPair(g, t[c].v.id, e.v2.id);
      assert !Joins(e, t[c].v.id, e.v1.id) && !Joins(e, t[c].v.id, e.v2.id);
    }
  }

  /** Expanding a vertex without edges only closes it. */
  lemma ExpandLonely(g: Graph, t: TableA, c: nat)
    requires c < |t| && Lonely(g, t[c].v.id)
    ensures Expand(g, t, c) == t[c := t[c].(done := true)]
  {
    RelaxLonely(g, t, c, |g.edges|);
  }

  lemma {:induction false} LeastFStays(t: TableA, i: nat, m: nat)
    requires i <= |t| && m < |t| && !t[m].done && forall j :: i <= j < |t| && !t[j].done ==> t[j].f >= t[m].f
    ensures LeastF(t, i, m) == m
    decreases |t| - i
  {
    if i < |t| {
      LeastFStays(t, i + 1, m);
    }
  }

  /** Nothing that is open has been reached. */
  predicate Quiet(t: TableA) {
    forall i :: 0 <= i < |t| && !t[i].done ==> t[i].f == INT_MAX
  }

  lemma SelectQuiet(t: TableA, e: nat)
    requires Quiet(t) && e < |t| && !t[e].done
    ensures Select(t) == FirstOpen(t, 0) <= e
  {
    LeastFStays(t, 0, FirstOpen(t, 0));
  }

  /** The open entries are closed one after the other, until it is the end's turn. */
  lemma {:induction false} QuietRun(g: Graph, t: TableA, e: nat)
    requires SortedIds(Forget(t)) && Quiet(t) && e < |t| && !t[e].done
    requires forall i :: 0 <= i <= e && !t[i].done ==> Lonely(g, t[i].v.id)
    ensures var r := Run(g, t, FirstOpen(t, 0), t[e].v.id);
            forall i :: 0 <= i < |t| ==> r[i].v == t[i].v && r[i].predId == t[i].predId
    decreases |t| - DoneCount(Forget(t))
  {
    hide Lonely;
    hide FirstOpen;
    hide Select;
    hide Expand;
    SelectQuiet(t, e);
    var c := FirstOpen(t, 0);
    ExpandLonely(g, t, c);
    ExpandCloses(g, t, c);
    var r := Expand(g, t, c);
    if c != e {
      IdsApart(t, c, e);
      SelectQuiet(r, e);
      QuietRun(g, r, e);
    }
  }

  lemma IdsApart(t: TableA, c: nat, e: nat)
    requires SortedIds(Forget(t)) && c < |t| && e < |t| && c != e
    ensures t[c].v.id != t[e].v.id
  {
    SortedApart(Forget(t), c, e);
  }

  lemma SortedApart(t: Table, c: nat, e: nat)
    requires SortedIds(t) && c < |t| && e < |t| && c != e
    ensures t[c].id != t[e].id
  {
  }

  lemma ExpandKeepsUntouched(g: Graph, t: TableA, c: nat, startId: int)
    requires Valid(g) && Lists(g, Forget(t)) && c < |t| && UntouchedA(t, startId) &&
             forall i :: 0 <= i < |t| ==> t[i].g <= INT_MAX
    ensures UntouchedA(Expand(g, t, c), startId)
  {
    hide Valid;
    hide HasPair;
    var d, q := Forget(t), RelaxAll(g, Forget(t), c);
    ForgetExpand(g, t, c);
    RelaxAllEffect(g, d, c);
    var r := Expand(g, t, c);
    hide Expand;
    forall i | 0 <= i < |t| && r[i].g == INT_MAX
      ensures r[i].predId == startId
    {
      assert Lowered(g, d, c, q, i);
      assert Forget(r)[i].tWeight == q[i].tWeight;
    }
  }

  /** If an open vertex can be reached, the search has reached an open vertex. */
  lemma SomeReached(g: Graph, t: TableA, s: nat, closed: seq<int>, end: Vertex, i: nat)
    requires NoOverflowA(g, end) && InvA(g, t, s, closed, end) && t[s].done
    requires i < |t| && !t[i].done && Reachable(g, t[s].v.id, t[i].v.id)
    ensures !Quiet(t)
  {
    hide Valid;
    hide Heuristic;
    hide NoOverflowA;
    hide ClosedWell;
    hide Closed;
    hide HasId;
    var d := Forget(t);
    var p :| WalkBetween(g, p, t[s].v.id, t[i].v.id);
    FindUnique(d, i);
    FindUnique(d, s);
    var m, j := FrontierA(g, d, s, closed, end, p, 0, s);
    FrontierFinite(g, d, j, end);
    assert t[j].f < INT_MAX;
  }

  /** The estimate of an open vertex that has been reached is finite. */
  lemma OpenFinite(g: Graph, t: TableA, s: nat, closed: seq<int>, end: Vertex, j: nat)
    requires NoOverflowA(g, end) && InvA(g, t, s, closed, end) && j < |t| && !t[j].done
    ensures t[j].g < INT_MAX ==> t[j].f < INT_MAX
  {
    hide Valid;
    hide ClosedWell;
    hide Closed;
    hide Tree;
    hide Heuristic;
    var d := Forget(t);
    MulStep(MaxWeight(g.edges), DoneCount(d));
    if t[j].g < INT_MAX {
      assert d[j].tWeight <= MaxWeight(g.edges) * DoneCount(d);
      FrontierFinite(g, d, j, end);
    }
  }

  /** A reached open vertex is selected if there is one. */
  lemma SelectOpenReached(g: Graph, t: TableA, s: nat, closed: seq<int>, end: Vertex)
    requires NoOverflowA(g, end) && InvA(g, t, s, closed, end) && !Quiet(t)
    ensures Select(t) < |t| && Best(t, Select(t))
  {
    hide NoOverflowA;
    hide InvA;
    InvParts(g, t, s, closed, end);
    var i :| 0 <= i < |t| && !t[i].done && t[i].f != INT_MAX;
    OpenFinite(g, t, s, closed, end, i);
  }

  /** One round of the search for an end that cannot be reached. */
  lemma LostTurn(g: Graph, t: TableA, s: nat, c: nat, closed: seq<int>, end: Vertex, e: nat)
    requires OpenA(g, t, s, c, closed, end) && UntouchedA(t, t[s].v.id) && e < |t| && t[e].v.id == end.id
    requires !Reachable(g, t[s].v.id, end.id)
    ensures var r, after := Expand(g, t, c), closed[c := t[c].g];
            && InvA(g, r, s, after, end) && UntouchedA(r, t[s].v.id) && r[s].done && !r[e].done && r[c].v.id != end.id
            && (forall i :: 0 <= i < |t| && r[i].done ==> r[i].v.id != end.id)
            && (!Quiet(r) ==> OpenA(g, r, s, Select(r), after, end))
  {
    hide NoOverflowA;
    hide WeightsAtLeastOne;
    hide HasId;
    hide Reachable;
    hide Expand;
    hide Select;
    hide InvA;
    hide Quiet;
    var r, after := Expand(g, t, c), closed[c := t[c].g];
    BestIsReachable(g, t, s, c, closed, end);
    ExpandKeeps(g, t, s, c, closed, end);
    InvParts(g, t, s, closed, end);
    ExpandKeepsUntouched(g, t, c, t[s].v.id);
    if !Quiet(r) {
      SelectOpenReached(g, r, s, after, end);
    }
  }

  lemma InvParts(g: Graph, t: TableA, s: nat, closed: seq<int>, end: Vertex)
    requires InvA(g, t, s, closed, end)
    ensures Valid(g) && Lists(g, Forget(t)) && SortedIds(Forget(t)) && s < |t| && t[s].predId == -1
    ensures forall i :: 0 <= i < |t| ==>
              t[i].g <= INT_MAX && t[i].v == g.vertices[i] && (t[i].f == INT_MAX <== t[i].g == INT_MAX)
  {
    hide Valid;
    hide Heuristic;
    hide ClosedWell;
    hide Closed;
    hide Small;
    hide Hung;
    var d := Forget(t);
    assert d[s].predId == -1;
    forall i | 0 <= i < |t|
      ensures t[i].g <= INT_MAX
    {
      assert d[i].tWeight <= INT_MAX;
    }
  }

  lemma BestIsReachable(g: Graph, t: TableA, s: nat, c: nat, closed: seq<int>, end: Vertex)
    requires WeightsAtLeastOne(g) && InvA(g, t, s, closed, end) && Best(t, c)
    ensures s < |t| && Reachable(g, t[s].v.id, t[c].v.id)
  {
    hide Valid;
    hide Heuristic;
    hide ClosedWell;
    hide Closed;
    hide Small;
    hide WeightsAtLeastOne;
    hide Hung;
    BackTraceWalk(g, Forget(t), s, c);
    WalkReaches(g, BackTrace(g, Forget(t), s, c), t[s].v.id, t[c].v.id);
  }

  /** In a quiet table the open vertices cannot be reached. */
  lemma QuietIsLost(g: Graph, t: TableA, s: nat, closed: seq<int>, end: Vertex, e: nat)
    requires NoOverflowA(g, end) && InvA(g, t, s, closed, end) && s < |t| && t[s].done && Quiet(t)
    requires e < |t| && t[e].v.id == end.id && LostWithoutEdges(g, t[s].v.id, end.id)
    ensures forall i :: 0 <= i <= e && !t[i].done ==> Lonely(g, t[i].v.id)
  {
    hide NoOverflowA;
    hide InvA;
    hide Lonely;
    hide Quiet;
    hide Reachable;
    InvParts(g, t, s, closed, end);
    forall i | 0 <= i <= e && !t[i].done
      ensures Lonely(g, t[i].v.id)
    {
      if Reachable(g, t[s].v.id, t[i].v.id) {
        SomeReached(g, t, s, closed, end, i);
      }
    }
  }

  lemma QuietUntouched(g: Graph, t: TableA, s: nat, closed: seq<int>, end: Vertex, e: nat)
    requires NoOverflowA(g, end) && InvA(g, t, s, closed, end) && s < |t| && t[s].done && Quiet(t)
    requires UntouchedA(t, t[s].v.id) && e < |t| && !t[e].done
    ensures t[e].predId == t[s].v.id
  {
    hide NoOverflowA;
    hide InvA;
    InvParts(g, t, s, closed, end);
    OpenFinite(g, t, s, closed, end, e);
  }

  /** The run for an end that cannot be reached leaves its first predecessor, the start. */
  lemma {:induction false} LostRun(g: Graph, t: TableA, s: nat, c: nat, closed: seq<int>, end: Vertex, e: nat)
    requires OpenA(g, t, s, c, closed, end) && UntouchedA(t, t[s].v.id) && e < |t| && t[e].v.id == end.id
    requires !Reachable(g, t[s].v.id, end.id) && LostWithoutEdges(g, t[s].v.id, end.id)
    ensures var r := Run(g, t, c, end.id);
            && (forall i :: 0 <= i < |t| ==> r[i].v == t[i].v) && r[e].predId == t[s].v.id && r[s].predId == -1
    decreases |t| - DoneCount(Forget(t))
  {
    hide NoOverflowA;
    hide WeightsAtLeastOne;
    hide HasId;
    hide Reachable;
    hide Expand;
    hide Select;
    hide Run;
    hide InvA;
    hide Quiet;
    hide UntouchedA;
    hide LostWithoutEdges;
    var r, after := Expand(g, t, c), closed[c := t[c].g];
    LostTurn(g, t, s, c, closed, end, e);
    ExpandCloses(g, t, c);
    RunTurn(g, t, c, end.id);
    if Quiet(r) {
      LostEnd(g, r, s, after, end, e);
    } else {
      LostRun(g, r, s, Select(r), after, end, e);
    }
  }

  /** The run from a quiet table on. */
  lemma LostEnd(g: Graph, t: TableA, s: nat, closed: seq<int>, end: Vertex, e: nat)
    requires NoOverflowA(g, end) && InvA(g, t, s, closed, end) && s < |t| && t[s].done && Quiet(t)
    requires UntouchedA(t, t[s].v.id) && e < |t| && !t[e].done && t[e].v.id == end.id
    requires LostWithoutEdges(g, t[s].v.id, end.id)
    ensures Select(t) < |t| && !t[Select(t)].done
    ensures var r := Run(g, t, Select(t), end.id);
            && (forall i :: 0 <= i < |t| ==> r[i].v == t[i].v) && r[e].predId == t[s].v.id && r[s].predId == -1
  {
    hide NoOverflowA;
    hide InvA;
    hide Quiet;
    hide UntouchedA;
    hide LostWithoutEdges;
    hide Run;
    hide Select;
    hide Lonely;
    InvParts(g, t, s, closed, end);
    QuietIsLost(g, t, s, closed, end, e);
    QuietUntouched(g, t, s, closed, end, e);
    SelectQuiet(t, e);
    QuietRun(g, t, e);
  }

  // -------------------------------------------------------------------- the loops

  method InitTableA(g: Graph, startId: int, end: Vertex) returns (vsptr: array<VsA>, s: nat)
    requires Searchable(g) && HasId(g, startId)
    ensures fresh(vsptr) && vsptr[..] == InitialTable(g, startId, end)
    ensures s < |g.vertices| && g.vertices[s].id == startId
  {
    hide Heuristic;
    var n := |g.vertices|;
    vsptr := new VsA[n](_ => VsA(end, 0, 0, 0, 0, false));
    s := n;
    for i := 0 to n
      invariant forall k :: 0 <= k < i ==> vsptr[k] == InitialEntryA(g.vertices[k], startId, end)
      invariant if s < n then s < i && g.vertices[s].id == startId
                else s == n && forall k :: 0 <= k < i ==> g.vertices[k].id != startId
    {
      var dist := Heuristic(g.vertices[i], end);
      if g.vertices[i].id == startId {
        vsptr[i] := VsA(g.vertices[i], -1, dist, 0, dist, false);
        s := i;
      } else {
        vsptr[i] := VsA(g.vertices[i], startId, INT_MAX, INT_MAX, dist, false);
      }
    }
  }

  method ExpandVertex(g: Graph, vsptr: array<VsA>, c: nat)
    requires c < vsptr.Length && SortedIds(Forget(vsptr[..]))
    modifies vsptr
    ensures vsptr[..] == Expand(g, old(vsptr[..]), c)
  {
    hide RelaxEdgeA;
    hide SortedIds;
    ghost var t := vsptr[..];
    for i := 0 to |g.edges|
      invariant vsptr[..] == RelaxToA(t, c, g.edges, i) && SortedIds(Forget(vsptr[..]))
    {
      SameOrder(vsptr[..], RelaxEdgeA(vsptr[..], c, g.edges[i]));
      RelaxOne(vsptr, c, g.edges[i]);
    }
    vsptr[c] := vsptr[c].(done := true);
  }

  lemma SameOrder(r: TableA, q: TableA)
    requires SortedIds(Forget(r)) && |q| == |r| && forall i :: 0 <= i < |r| ==> q[i].v == r[i].v
    ensures SortedIds(Forget(q))
  {
    var d, e := Forget(r), Forget(q);
    assert forall i :: 0 <= i < |d| ==> e[i].id == d[i].id;
  }

  method RelaxOne(vsptr: array<VsA>, c: nat, e: Edge)
    requires c < vsptr.Length && SortedIds(Forget(vsptr[..]))
    modifies vsptr
    ensures vsptr[..] == RelaxEdgeA(old(vsptr[..]), c, e)
  {
    var other := -1;
    if vsptr[c].v.id == e.v1.id {
      other := Lookup(Forget(vsptr[..]), e.v2.id);
    }
    if vsptr[c].v.id == e.v2.id {
      other := Lookup(Forget(vsptr[..]), e.v1.id);
    }
    if other != -1 && vsptr[other].g > vsptr[c].g + e.weight {
      var cost := vsptr[c].g + e.weight;
      vsptr[other] := vsptr[other].(predId := vsptr[c].v.id, g := cost, f := cost + vsptr[other].h);
    }
  }

  /** The scan for an open entry, and the search for the one of least f; |t| when all are closed. */
  method SelectOpen(t: TableA) returns (m: nat)
    ensures m == Select(t)
    ensures m <= |t| && forall j :: 0 <= j < m && !t[j].done ==> m < |t| && t[m].f < t[j].f
  {
    SelectIsFirst(t);
    m := 0;
    while m < |t| && t[m].done
      invariant m <= |t| && FirstOpen(t, 0) == FirstOpen(t, m)
    {
      m := m + 1;
    }
    if m < |t| {
      for i := 0 to |t|
        invariant m < |t| && !t[m].done && LeastF(t, i, m) == Select(t)
      {
        if !t[i].done && t[i].f < t[m].f {
          m := i;
        }
      }
    }
  }

  /** The search loop; the source leaves it when the end is closed or nothing is open. */
  method SearchLoopA(g: Graph, vsptr: array<VsA>, s: nat, endId: int)
    requires Searchable(g) && s < vsptr.Length && !vsptr[s].done && SortedIds(Forget(vsptr[..]))
    modifies vsptr
    ensures vsptr[..] == Run(g, old(vsptr[..]), s, endId)
  {
    hide Searchable;
    hide Expand;
    hide Select;
    hide Run;
    var c := s;
    var pathFound := false;
    ghost var result := Run(g, vsptr[..], s, endId);
    while !pathFound
      invariant SortedIds(Forget(vsptr[..]))
      invariant !pathFound ==> 0 <= c < vsptr.Length && !vsptr[c].done && Run(g, vsptr[..], c, endId) == result
      invariant pathFound ==> vsptr[..] == result
      decreases vsptr.Length - DoneCount(Forget(vsptr[..])), !pathFound
    {
      ghost var t := vsptr[..];
      RunTurn(g, t, c, endId);
      ExpandVertex(g, vsptr, c);
      ExpandCloses(g, t, c);
      if vsptr[c].v.id == endId {
        pathFound := true;
      }
      var m := SelectOpen(vsptr[..]);
      if m == vsptr.Length {
        pathFound := true;
      }
      c := m;
    }
  }

  lemma SameStart(g: Graph, start: Vertex, end: Vertex, s: nat)
    requires SearchableA(g, end) && s < |g.vertices| && g.vertices[s].id == start.id
    ensures var d := Forget(InitialTable(g, start.id, end));
            Lists(g, d) && Find(d, start.id) == s
  {
    hide Heuristic;
    hide Valid;
    hide NoOverflowA;
    var d := Forget(InitialTable(g, start.id, end));
    assert Lists(g, d);
    FindUnique(d, s);
  }

  /** What astar hands back: for an end that cannot be reached, the start and the end. */
  ghost function Answer(g: Graph, start: Vertex, end: Vertex): seq<int>
    requires SearchableA(g, end) && HasId(g, start.id) && HasId(g, end.id)
  {
    if Reachable(g, start.id, end.id) then Result(g, start, end) else [start.id, end.id]
  }

  /** The two ids handed back for an end that cannot be reached are no walk. */
  lemma AnswerIsWalk(g: Graph, start: Vertex, end: Vertex)
    requires SearchableA(g, end) && HasId(g, start.id) && HasId(g, end.id)
    ensures WalkBetween(g, Answer(g, start, end), start.id, end.id) <==> Reachable(g, start.id, end.id)
  {
    hide SearchableA;
    hide Result;
    if WalkBetween(g, Answer(g, start, end), start.id, end.id) {
      WalkReaches(g, Answer(g, start, end), start.id, end.id);
    }
  }

  lemma InitialUntouched(g: Graph, start: Vertex, end: Vertex)
    ensures UntouchedA(InitialTable(g, start.id, end), start.id)
  {
    hide Heuristic;
  }

  lemma LostAnswer(g: Graph, start: Vertex, end: Vertex)
    requires SearchableA(g, end) && HasId(g, start.id) && HasId(g, end.id) && start.id != end.id
    requires !Reachable(g, start.id, end.id) && LostWithoutEdges(g, start.id, end.id)
    ensures var s, t := StartIndex(g, start, end), InitialTable(g, start.id, end);
            && 0 <= s < |t| && !t[s].done
            && var d := Forget(Run(g, t, s, end.id));
               && SortedIds(d) && Find(d, end.id) >= 0 && Chain(d, Find(d, end.id), [start.id, end.id]) && |d| >= 2
  {
    hide NoOverflowA;
    hide Heuristic;
    hide Valid;
    hide WeightsAtLeastOne;
    hide InvA;
    hide Run;
    hide UntouchedA;
    hide LostWithoutEdges;
    hide Reachable;
    hide HasId;
    var s, t := StartIndex(g, start, end), InitialTable(g, start.id, end);
    InitialInvA(g, start, end);
    InitialUntouched(g, start, end);
    InvParts(g, t, s, seq(|g.vertices|, _ => 0), end);
    FindListed(g, Forget(t), end.id);
    var e := Find(Forget(t), end.id);
    LostRun(g, t, s, s, seq(|g.vertices|, _ => 0), end, e);
    LostChain(Forget(t), Forget(Run(g, t, s, end.id)), s, e);
  }

  lemma LostChain(t: Table, r: Table, s: nat, e: nat)
    requires |t| == |r| && SortedIds(t) && s < |t| && e < |t| && s != e &&
             forall i :: 0 <= i < |t| ==> r[i].id == t[i].id
    requires r[e].predId == t[s].id != -1 && r[s].predId == -1
    ensures SortedIds(r) && Find(r, t[e].id) == e && Chain(r, e, [t[s].id, t[e].id]) && |t| >= 2
  {
    FindUnique(r, s);
    FindUnique(r, e);
    var p := [t[s].id, t[e].id];
    assert p[..1] == [t[s].id];
    assert Chain(r, s, p[..1]);
  }

  /** The predecessors in the table at the end of the search spell the answer. */
  lemma AnswerChain(g: Graph, start: Vertex, end: Vertex)
    requires SearchableA(g, end) && HasId(g, start.id) && HasId(g, end.id) && start.id != end.id
    requires Reachable(g, start.id, end.id) || LostWithoutEdges(g, start.id, end.id)
    ensures var s, t := StartIndex(g, start, end), InitialTable(g, start.id, end);
            && 0 <= s < |t| && !t[s].done
            && var d := Forget(Run(g, t, s, end.id));
               && |d| == |g.vertices| && SortedIds(d) && (forall i :: 0 <= i < |d| ==> d[i].id > 0)
               && Find(d, end.id) >= 0 && Chain(d, Find(d, end.id), Answer(g, start, end))
               && |Answer(g, start, end)| <= |d|
  {
    hide Heuristic;
    hide NoOverflowA;
    hide Valid;
    hide WeightsAtLeastOne;
    hide HasId;
    hide Reachable;
    hide LostWithoutEdges;
    hide InvA;
    var s, t := StartIndex(g, start, end), InitialTable(g, start.id, end);
    InitialInvA(g, start, end);
    RunIds(g, t, s, end.id);
    hide InitialTable;
    if Reachable(g, start.id, end.id) {
      FoundAnswer(g, start, end);
    } else {
      LostAnswer(g, start, end);
    }
  }

  lemma RunIds(g: Graph, t: TableA, s: nat, endId: int)
    requires Searchable(g) && |t| == |g.vertices| && s < |t| && !t[s].done
    requires forall i :: 0 <= i < |t| ==> t[i].v == g.vertices[i]
    ensures var d := Forget(Run(g, t, s, endId)); |d| == |t| && SortedIds(d) && forall i :: 0 <= i < |d| ==> d[i].id > 0
  {
    hide Run;
    RunKeepsIds(g, t, s, endId);
  }

  lemma FoundAnswer(g: Graph, start: Vertex, end: Vertex)
    requires SearchableA(g, end) && HasId(g, start.id) && HasId(g, end.id) && start.id != end.id
    requires Reachable(g, start.id, end.id)
    ensures var s, t := StartIndex(g, start, end), InitialTable(g, start.id, end);
            && 0 <= s < |t| && !t[s].done
            && var d := Forget(Run(g, t, s, end.id));
               && Find(d, end.id) >= 0 && Chain(d, Find(d, end.id), Answer(g, start, end))
               && |Answer(g, start, end)| <= |d|
  {
    hide Heuristic;
    hide NoOverflowA;
    hide Valid;
    hide WeightsAtLeastOne;
    hide HasId;
    hide InvA;
    var s, t := StartIndex(g, start, end), InitialTable(g, start.id, end);
    InitialInvA(g, start, end);
    RunIds(g, t, s, end.id);
    hide Run;
    hide InitialTable;
    hide PositiveIds;
    SearchedTree(g, start, end);
    BackTraceChain(g, Forget(Run(g, t, s, end.id)), s, Find(Forget(Run(g, t, s, end.id)), end.id));
  }

  /** astar; for an end that cannot be reached, where it forms no sum with INT_MAX. */
  method Astar(g: Graph, start: Vertex, end: Vertex, path: array<int>) returns (status: int)
    requires SearchableA(g, end)
    requires path.Length > |g.vertices| + 1
    requires HasId(g, start.id) && HasId(g, end.id) ==>
               Reachable(g, start.id, end.id) || LostWithoutEdges(g, start.id, end.id)
    modifies path
    ensures status == (if HasId(g, start.id) && HasId(g, end.id) then 0 else 1)
    ensures Stored(path[..]) == if status == 0 then Answer(g, start, end) else []
  {
    hide Valid;
    hide InvA;
    hide Run;
    hide InitialTable;
    hide HasId;
    hide NoOverflowA;
    hide Heuristic;
    var foundStart := VertexInGraph(g, start);
    if !foundStart {
      path[0] := 0;
      return EXIT_FAILURE;
    }
    var foundEnd := VertexInGraph(g, end);
    if !foundEnd {
      path[0] := 0;
      return EXIT_FAILURE;
    }
    if start.id == end.id {
      path[0] := start.id;
      path[1] := 0;
      TrivialWalk(g, start.id, path[..]);
      return EXIT_SUCCESS;
    }
    var vsptr, s := InitTableA(g, start.id, end);
    InitialInvA(g, start, end);
    ghost var t := vsptr[..];
    SameStart(g, start, end, s);
    AnswerChain(g, start, end);
    SearchLoopA(g, vsptr, s, end.id);
    var e := Lookup(Forget(vsptr[..]), end.id);
    Retrace(Forget(vsptr[..]), e, Answer(g, start, end), path);
    return EXIT_SUCCESS;
  }
}
