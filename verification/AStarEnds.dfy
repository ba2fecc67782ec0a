/** When the A* search forms no sum with INT_MAX, and what it answers when there is no way to the end. */
module AStarEnds {
  import opened Distance
  import opened MapGraph
  import opened Walks
  import opened StatusTable
  import opened SearchTree
  import opened Dijkstra
  import opened DijkstraEnds
  import opened AStar

  /** Expanding entry c forms no sum with INT_MAX, which an int could not hold. */
  ghost predicate SafeA(g: Graph, t: TableA, c: nat)
    requires c < |t|
  {
    t[c].g < INT_MAX || Lonely(g, t[c].v.id)
  }

  /** No round of the search from entry c on forms a sum with INT_MAX. */
  ghost predicate SafeRun(g: Graph, t: TableA, c: nat, endId: int)
    requires c < |t| && !t[c].done
    decreases |t| - DoneCount(Forget(t))
  {
    && SafeA(g, t, c)
    && var r := Expand(g, t, c);
       ExpandCloses(g, t, c);
       r[c].v.id == endId || Select(r) == |r| || SafeRun(g, r, Select(r), endId)
  }

  /** With the end within reach only reached vertices are expanded. */
  lemma {:induction false} ReachableIsSafe(g: Graph, t: TableA, s: nat, c: nat, closed: seq<int>, end: Vertex)
    requires SearchingA(g, t, s, c, closed, end)
    ensures SafeRun(g, t, c, end.id)
    decreases |t| - DoneCount(Forget(t))
  {
    hide InvA;
    hide NoOverflowA;
    hide WeightsAtLeastOne;
    hide HasId;
    hide Reachable;
    hide Expand;
    hide Select;
    hide Lonely;
    var r := Expand(g, t, c);
    ExpandCloses(g, t, c);
    ExpandKeeps(g, t, s, c, closed, end);
    if t[c].v.id != end.id {
      var after := closed[c := t[c].g];
      SelectReached(g, r, s, after, end);
      ReachableIsSafe(g, r, s, Select(r), after, end);
    }
  }

  // ------------------------------------------------------ an end that cannot be reached

  /** All open entries are at INT_MAX. */
  predicate AllLost(t: TableA) {
    forall i :: 0 <= i < |t| && !t[i].done ==> t[i].g == INT_MAX && t[i].f == INT_MAX
  }

  /** From such a table the open entries up to the end are expanded one after the other. */
  lemma {:induction false} LostIsSafe(g: Graph, t: TableA, e: nat)
    requires SortedIds(Forget(t)) && AllLost(t) && e < |t| && !t[e].done
    ensures FirstOpen(t, 0) <= e
    ensures SafeRun(g, t, FirstOpen(t, 0), t[e].v.id) <==> forall i :: 0 <= i <= e && !t[i].done ==>
              Lonely(g, t[i].v.id)
    decreases |t| - DoneCount(Forget(t))
  {
    hide Lonely;
    hide FirstOpen;
    hide Select;
    hide Expand;
    SelectQuiet(t, e);
    var c := FirstOpen(t, 0);
    if Lonely(g, t[c].v.id) {
      ExpandLonely(g, t, c);
      ExpandCloses(g, t, c);
      var r := Expand(g, t, c);
      if c != e {
        IdsApart(t, c, e);
        SelectQuiet(r, e);
        LostIsSafe(g, r, e);
        OneMoreLonely(g, t, r, c, e);
      }
    }
  }

  lemma OneMoreLonely(g: Graph, t: TableA, r: TableA, c: nat, e: nat)
    requires c <= e < |t| && !t[c].done && r == t[c := t[c].(done := true)] && Lonely(g, t[c].v.id)
    ensures (forall i :: 0 <= i <= e && !r[i].done ==> Lonely(g, r[i].v.id))
       <==> (forall i :: 0 <= i <= e && !t[i].done ==> Lonely(g, t[i].v.id))
  {
    hide Lonely;
    if forall i :: 0 <= i <= e && !r[i].done ==> Lonely(g, r[i].v.id) {
      forall i | 0 <= i <= e && !t[i].done
        ensures Lonely(g, t[i].v.id)
      {
        assert i == c || r[i] == t[i];
      }
    }
  }

  /** In a quiet table the condition on the map is one on the open entries up to the end. */
  lemma LonelyUpTo(g: Graph, t: TableA, s: nat, closed: seq<int>, end: Vertex, e: nat)
    requires WeightsAtLeastOne(g) && NoOverflowA(g, end) && InvA(g, t, s, closed, end) && s < |t| && t[s].done &&
             Quiet(t)
    requires e < |t| && t[e].v.id == end.id
    ensures AllLost(t)
    ensures LostWithoutEdges(g, t[s].v.id, end.id) <==> forall i :: 0 <= i <= e && !t[i].done ==> Lonely(g, t[i].v.id)
  {
    hide NoOverflowA;
    hide WeightsAtLeastOne;
    hide InvA;
    hide Lonely;
    hide Reachable;
    InvParts(g, t, s, closed, end);
    forall i | 0 <= i < |t| && !t[i].done
      ensures t[i].g == INT_MAX
    {
      OpenFinite(g, t, s, closed, end, i);
    }
    if LostWithoutEdges(g, t[s].v.id, end.id) {
      QuietIsLost(g, t, s, closed, end, e);
    }
    if forall i :: 0 <= i <= e && !t[i].done ==> Lonely(g, t[i].v.id) {
      forall i, k | 0 <= i <= k < |g.vertices| && g.vertices[k].id == end.id &&
        !Reachable(g, t[s].v.id, g.vertices[i].id)
        ensures Lonely(g, g.vertices[i].id)
      {
        SameIdSamePlace(Forget(t), k, e);
        DoneIsReachable(g, t, s, closed, end, i);
      }
    }
  }

  lemma DoneIsReachable(g: Graph, t: TableA, s: nat, closed: seq<int>, end: Vertex, i: nat)
    requires WeightsAtLeastOne(g) && InvA(g, t, s, closed, end) && s < |t| && i < |t|
    ensures t[i].done ==> Reachable(g, t[s].v.id, t[i].v.id)
  {
    hide WeightsAtLeastOne;
    hide Valid;
    hide Heuristic;
    hide ClosedWell;
    hide Small;
    hide Hung;
    hide Reachable;
    var d := Forget(t);
    if t[i].done {
      assert d[i].tWeight < INT_MAX;
      BackTraceWalk(g, d, s, i);
      WalkReaches(g, BackTrace(g, d, s, i), d[s].id, d[i].id);
    }
  }

  /** The search for an end that cannot be reached is safe if and only if no lost vertex up to the end has an edge. */
  lemma {:induction false} UnreachableIsSafe(g: Graph, t: TableA, s: nat, c: nat, closed: seq<int>, end: Vertex, e: nat)
    requires OpenA(g, t, s, c, closed, end) && UntouchedA(t, t[s].v.id) && e < |t| && t[e].v.id == end.id
    requires !Reachable(g, t[s].v.id, end.id)
    ensures SafeRun(g, t, c, end.id) <==> LostWithoutEdges(g, t[s].v.id, end.id)
    decreases |t| - DoneCount(Forget(t))
  {
    hide NoOverflowA;
    hide WeightsAtLeastOne;
    hide HasId;
    hide Reachable;
    hide Expand;
    hide Select;
    hide InvA;
    hide Quiet;
    hide UntouchedA;
    hide LostWithoutEdges;
    hide Lonely;
    var r, after := Expand(g, t, c), closed[c := t[c].g];
    LostTurn(g, t, s, c, closed, end, e);
    ExpandCloses(g, t, c);
    if Quiet(r) {
      LonelyUpTo(g, r, s, after, end, e);
      InvParts(g, r, s, after, end);
      SelectQuiet(r, e);
      LostIsSafe(g, r, e);
    } else {
      UnreachableIsSafe(g, r, s, Select(r), after, end, e);
    }
  }

  // --------------------------------------------------------------------- main results

  /** The search forms no sum with INT_MAX exactly where astar is asked to work. */
  lemma SafeExactly(g: Graph, start: Vertex, end: Vertex)
    requires SearchableA(g, end) && HasId(g, start.id) && HasId(g, end.id) && start.id != end.id
    ensures var s, t := StartIndex(g, start, end), InitialTable(g, start.id, end);
            && 0 <= s < |t| && !t[s].done
            && (SafeRun(g, t, s, end.id) <==>
                Reachable(g, start.id, end.id) || LostWithoutEdges(g, start.id, end.id))
  {
    hide NoOverflowA;
    hide Heuristic;
    hide Valid;
    hide WeightsAtLeastOne;
    hide InvA;
    hide SafeRun;
    hide UntouchedA;
    hide LostWithoutEdges;
    hide Reachable;
    hide HasId;
    var s, t := StartIndex(g, start, end), InitialTable(g, start.id, end);
    var closed := seq(|g.vertices|, _ => 0);
    InitialInvA(g, start, end);
    if Reachable(g, start.id, end.id) {
      ReachableIsSafe(g, t, s, s, closed, end);
    } else {
      InitialUntouched(g, start, end);
      InvParts(g, t, s, closed, end);
      FindListed(g, Forget(t), end.id);
      UnreachableIsSafe(g, t, s, s, closed, end, Find(Forget(t), end.id));
    }
  }

  /** Between two vertices without an edge astar answers with both, as if there were one. */
  lemma NoWalkAnswered()
    ensures var g, start, end := Graph([Vertex(1, 0, 0), Vertex(2, 3, 4)], []), Vertex(1, 0, 0), Vertex(2, 3, 4);
            && SearchableA(g, end) && HasId(g, start.id) && HasId(g, end.id)
            && !Reachable(g, start.id, end.id) && LostWithoutEdges(g, start.id, end.id)
            && Answer(g, start, end) == [1, 2] && !WalkBetween(g, Answer(g, start, end), start.id, end.id)
            && var s := StartIndex(g, start, end);
               && 0 <= s < 2 && !InitialTable(g, 1, end)[s].done
               && var d := Forget(Run(g, InitialTable(g, 1, end), s, 2));
                  |d| == 2 && Find(d, 2) >= 0 && Chain(d, Find(d, 2), [1, 2])
  {
    var start, end := Vertex(1, 0, 0), Vertex(2, 3, 4);
    var g := Graph([start, end], []);
    NoEdgesNoWalk(g, 1, 2);
    TwoVertices();
    hide SearchableA;
    hide Run;
    hide InitialTable;
    hide WalkBetween;
    hide Chain;
    hide Find;
    hide Reachable;
    hide HasId;
    AnswerIsWalk(g, start, end);
    AnswerChain(g, start, end);
  }

  lemma TwoVertices()
    ensures var g, end := Graph([Vertex(1, 0, 0), Vertex(2, 3, 4)], []), Vertex(2, 3, 4);
            SearchableA(g, end) && HasId(g, 1) && HasId(g, 2)
  {
    var g, end := Graph([Vertex(1, 0, 0), Vertex(2, 3, 4)], []), Vertex(2, 3, 4);
    TwoEstimates();
    TwoSearchable();
    hide Heuristic;
    hide Searchable;
    assert MaxWeight(g.edges) == 0;
    assert g.vertices[0].id == 1 && g.vertices[1].id == 2;
  }

  lemma TwoEstimates()
    ensures Heuristic(Vertex(1, 0, 0), Vertex(2, 3, 4)) == 5 && Heuristic(Vertex(2, 3, 4), Vertex(2, 3, 4)) == 0
  {
    IsqrtUnique(25, 5);
    IsqrtUnique(0, 0);
    hide Isqrt;
  }

  lemma TwoSearchable()
    ensures Searchable(Graph([Vertex(1, 0, 0), Vertex(2, 3, 4)], []))
  {
    var g := Graph([Vertex(1, 0, 0), Vertex(2, 3, 4)], []);
    assert g.vertices[0].id == 1 && g.vertices[1].id == 2;
    assert DistinctVertices(g.vertices[0], g.vertices[1]);
  }
}
