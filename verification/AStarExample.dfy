/** A map on which truncated distances lead A* to a path that is not a shortest one. */
module AStarExample {
  import opened Distance
  import opened MapGraph
  import opened Walks
  import opened StatusTable
  import opened SearchTree
  import opened Dijkstra
  import opened AStar

  const GOAL := Vertex(1, 5, 4)
  const START := Vertex(2, 0, 0)
  const NEAR := Vertex(3, 1, 0)
  const MIDDLE := Vertex(4, 3, 2)

  /** Going straight costs 6; the detour over NEAR and MIDDLE costs 1 + 2 + 2, but NEAR estimates 5 for the rest. */
  const DETOUR := Graph([GOAL, START, NEAR, MIDDLE],
                        [Edge(START, GOAL, 6), Edge(START, NEAR, 1), Edge(NEAR, MIDDLE, 2), Edge(MIDDLE, GOAL, 2)])

  lemma Distances()
    ensures DistanceFormula(0, 0, 5, 4) == 6 && DistanceFormula(0, 0, 1, 0) == 1
    ensures DistanceFormula(1, 0, 3, 2) == 2 && DistanceFormula(3, 2, 5, 4) == 2
    ensures DistanceFormula(1, 0, 5, 4) == 5 && DistanceFormula(5, 4, 5, 4) == 0
  {
    IsqrtUnique(41, 6);
    IsqrtUnique(1, 1);
    IsqrtUnique(8, 2);
    IsqrtUnique(32, 5);
    IsqrtUnique(0, 0);
  }

  lemma {:induction false} MaxWeightBound(es: seq<Edge>, w: nat)
    requires forall i :: 0 <= i < |es| ==> es[i].weight <= w
    ensures MaxWeight(es) <= w
  {
    if es != [] {
      MaxWeightBound(es[..|es| - 1], w);
    }
  }

  lemma DetourIsTrueMap()
    ensures TrueMap(DETOUR) && SearchableA(DETOUR, GOAL)
    ensures HasId(DETOUR, 1) && HasId(DETOUR, 2)
  {
    Distances();
    var g := DETOUR;
    hide DistanceFormula;
    MaxWeightBound(g.edges, 6);
    MulUpTo(|g.vertices|, MaxWeight(g.edges), 6);
    assert g.vertices[0].id == 1 && g.vertices[1].id == 2 && g.vertices[2].id == 3 && g.vertices[3].id == 4;
    assert HasId(g, 1) && HasId(g, 2) && HasId(g, 3) && HasId(g, 4);
  }

  function Entry(v: Vertex, predId: int, g: int, h: int, done: bool): VsA {
    VsA(v, predId, if g == INT_MAX then INT_MAX else g + h, g, h, done)
  }

  /** The tables before, after one and after two rounds. */
  const T0 := [Entry(GOAL, 2, INT_MAX, 0, false), Entry(START, -1, 0, 6, false),
               Entry(NEAR, 2, INT_MAX, 5, false), Entry(MIDDLE, 2, INT_MAX, 2, false)]
  const T1 := [Entry(GOAL, 2, 6, 0, false), Entry(START, -1, 0, 6, true),
               Entry(NEAR, 2, 1, 5, false), Entry(MIDDLE, 2, INT_MAX, 2, false)]
  const T2 := [Entry(GOAL, 2, 6, 0, true), Entry(START, -1, 0, 6, true),
               Entry(NEAR, 2, 1, 5, false), Entry(MIDDLE, 1, 8, 2, false)]

  lemma FindHere(t: TableA, i: nat)
    requires |t| == 4 && i < 4 && t[0].v.id == 1 && t[1].v.id == 2 && t[2].v.id == 3 && t[3].v.id == 4
    ensures Find(Forget(t), i + 1) == i
  {
    FindUnique(Forget(t), i);
  }

  lemma FourRelaxations(t: TableA, c: nat, es: seq<Edge>)
    requires c < |t| && |es| == 4
    ensures RelaxToA(t, c, es, 4)
         == RelaxEdgeA(RelaxEdgeA(RelaxEdgeA(RelaxEdgeA(t, c, es[0]), c, es[1]), c, es[2]), c, es[3])
  {
    hide RelaxEdgeA;
    assert RelaxToA(t, c, es, 0) == t;
    assert RelaxToA(t, c, es, 1) == RelaxEdgeA(t, c, es[0]);
    assert RelaxToA(t, c, es, 2) == RelaxEdgeA(RelaxToA(t, c, es, 1), c, es[1]);
    assert RelaxToA(t, c, es, 3) == RelaxEdgeA(RelaxToA(t, c, es, 2), c, es[2]);
  }

  lemma FirstRound()
    ensures Expand(DETOUR, T0, 1) == T1
  {
    hide Find;
    var es := DETOUR.edges;
    FourRelaxations(T0, 1, es);
    FindHere(T0, 0);
    var a := T0[0 := Entry(GOAL, 2, 6, 0, false)];
    assert RelaxEdgeA(T0, 1, es[0]) == a;
    FindHere(a, 2);
    var b := a[2 := Entry(NEAR, 2, 1, 5, false)];
    assert RelaxEdgeA(a, 1, es[1]) == b;
    assert RelaxEdgeA(b, 1, es[2]) == b;
    assert RelaxEdgeA(b, 1, es[3]) == b;
  }

  lemma SecondRound()
    ensures Expand(DETOUR, T1, 0) == T2
  {
    hide Find;
    var es := DETOUR.edges;
    FourRelaxations(T1, 0, es);
    FindHere(T1, 1);
    FindHere(T1, 3);
    assert RelaxEdgeA(T1, 0, es[0]) == T1;
    assert RelaxEdgeA(T1, 0, es[1]) == T1;
    assert RelaxEdgeA(T1, 0, es[2]) == T1;
    assert RelaxEdgeA(T1, 0, es[3]) == T1[3 := Entry(MIDDLE, 1, 8, 2, false)];
  }

  lemma GoalSelected()
    ensures Select(T1) == 0
  {
    assert FirstOpen(T1, 0) == 0;
    assert LeastF(T1, 4, 0) == 0;
    assert LeastF(T1, 3, 0) == 0;
    assert LeastF(T1, 2, 0) == 0;
    assert LeastF(T1, 1, 0) == 0;
  }

  lemma WholeRun()
    ensures Run(DETOUR, T0, 1, 1) == T2
  {
    hide Expand;
    hide Select;
    FirstRound();
    GoalSelected();
    SecondRound();
    assert Run(DETOUR, T1, 0, 1) == T2;
  }

  /** astar answers the direct edge, which costs 6, although a walk of cost 5 exists. */
  lemma NotAlwaysShortest()
    ensures TrueMap(DETOUR) && SearchableA(DETOUR, GOAL) && HasId(DETOUR, START.id) && HasId(DETOUR, GOAL.id)
    ensures WalkBetween(DETOUR, [2, 3, 4, 1], START.id, GOAL.id) && Cost(DETOUR, [2, 3, 4, 1]) == 5
    ensures Reachable(DETOUR, START.id, GOAL.id)
    ensures Result(DETOUR, START, GOAL) == [2, 1] && Cost(DETOUR, [2, 1]) == 6
  {
    DetourIsTrueMap();
    DetourCosts();
    DetourResult();
  }

  lemma DetourResult()
    requires TrueMap(DETOUR) && SearchableA(DETOUR, GOAL) && HasId(DETOUR, 1) && HasId(DETOUR, 2)
    requires Reachable(DETOUR, 2, 1)
    ensures Result(DETOUR, START, GOAL) == [2, 1]
  {
    InitialIsT0();
    hide TrueMap;
    hide SearchableA;
    hide HasId;
    hide Reachable;
    hide InitialTable;
    hide Run;
    hide Cost;
    FindHere(T0, 1);
    WholeRun();
    FindHere(T2, 0);
    FindHere(T2, 1);
    SearchedTree(DETOUR, START, GOAL);
    assert Hung(DETOUR, Forget(T2), 0);
  }

  lemma InitialIsT0()
    ensures InitialTable(DETOUR, 2, GOAL) == T0
  {
    Distances();
    hide DistanceFormula;
  }

  lemma DetourWeights()
    ensures HasPair(DETOUR, 2, 1) && Weight(DETOUR, 2, 1) == 6
    ensures HasPair(DETOUR, 2, 3) && Weight(DETOUR, 2, 3) == 1
    ensures HasPair(DETOUR, 3, 4) && Weight(DETOUR, 3, 4) == 2
    ensures HasPair(DETOUR, 4, 1) && Weight(DETOUR, 4, 1) == 2
  {
    DetourIsTrueMap();
    hide SearchableA;
    hide Valid;
    hide Exact;
    hide TrueWeights;
    WeightOfEdge(DETOUR, 0, 2, 1);
    WeightOfEdge(DETOUR, 1, 2, 3);
    WeightOfEdge(DETOUR, 2, 3, 4);
    WeightOfEdge(DETOUR, 3, 4, 1);
  }

  lemma DetourCosts()
    ensures WalkBetween(DETOUR, [2, 3, 4, 1], 2, 1) && Cost(DETOUR, [2, 3, 4, 1]) == 5
    ensures WalkBetween(DETOUR, [2, 1], 2, 1) && Cost(DETOUR, [2, 1]) == 6
    ensures Reachable(DETOUR, 2, 1)
  {
    DetourWeights();
    hide HasPair;
    hide Weight;
    var g, p := DETOUR, [2, 3, 4, 1];
    assert Walk(g, p) && Walk(g, [2, 1]);
    assert CostTo(g, p, 1) == 1;
    assert CostTo(g, p, 2) == 3;
    assert CostTo(g, [2, 1], 1) == 6;
    assert WalkBetween(DETOUR, [2, 1], 2, 1);
  }

  /** On the same map, inconsistent as it is, a search from MIDDLE is answered with a shortest path. */
  lemma InconsistentYetShortest()
    ensures TrueMap(DETOUR) && SearchableA(DETOUR, GOAL) && !Consistent(DETOUR, GOAL)
    ensures HasId(DETOUR, MIDDLE.id) && HasId(DETOUR, GOAL.id) && Reachable(DETOUR, MIDDLE.id, GOAL.id)
    ensures forall w :: WalkBetween(DETOUR, w, MIDDLE.id, GOAL.id) ==>
              Cost(DETOUR, Result(DETOUR, MIDDLE, GOAL)) <= Cost(DETOUR, w)
  {
    DetourIsTrueMap();
    Inconsistent();
    DirectFromMiddle();
    hide Valid;
    hide HasId;
    hide HasPair;
    hide TrueMap;
    hide SearchableA;
    hide Consistent;
    hide WalkBetween;
    hide WalkSlack;
    hide Cost;
    hide Result;
    OptimalWithoutSlack(DETOUR, MIDDLE, GOAL, [4, 1]);
  }

  /** From MIDDLE the edge to GOAL is a cheapest walk and has no slack. */
  lemma DirectFromMiddle()
    ensures Valid(DETOUR) && HasId(DETOUR, 4)
    ensures WalkBetween(DETOUR, [4, 1], 4, 1) && WalkSlack(DETOUR, GOAL, [4, 1]) == 0
    ensures forall w :: WalkBetween(DETOUR, w, 4, 1) ==> Cost(DETOUR, [4, 1]) <= Cost(DETOUR, w)
  {
    DetourIsTrueMap();
    DirectWalk();
    assert DETOUR.vertices[3].id == 4;
    hide HasPair;
    hide Valid;
    hide Cost;
    hide WalkBetween;
    hide SearchableA;
    forall w | WalkBetween(DETOUR, w, 4, 1)
      ensures Cost(DETOUR, [4, 1]) <= Cost(DETOUR, w)
    {
      CostFromMiddle(w);
    }
  }

  lemma DirectWalk()
    requires Valid(DETOUR)
    ensures WalkBetween(DETOUR, [4, 1], 4, 1) && Cost(DETOUR, [4, 1]) == 2 && WalkSlack(DETOUR, GOAL, [4, 1]) == 0
  {
    DetourWeights();
    hide HasPair;
    hide Weight;
    hide Valid;
    var q := [4, 1];
    assert Walk(DETOUR, q) && q[0] == 4 && q[1] == 1;
    assert CostTo(DETOUR, q, 0) == 0;
    assert CostTo(DETOUR, q, 1) == 2;
  }

  /** NEAR is estimated at 5, but the edge to MIDDLE weighs 2 and MIDDLE is estimated at 2. */
  lemma Inconsistent()
    ensures !Consistent(DETOUR, GOAL)
  {
    Distances();
    hide DistanceFormula;
    assert DETOUR.vertices[2] == NEAR && DETOUR.vertices[3] == MIDDLE;
    assert Joins(DETOUR.edges[2], NEAR.id, MIDDLE.id);
  }

  /** Every edge at MIDDLE weighs 2. */
  lemma CostFromMiddle(w: seq<int>)
    requires Valid(DETOUR) && WalkBetween(DETOUR, w, 4, 1)
    ensures Cost(DETOUR, w) >= 2
  {
    assert HasPair(DETOUR, w[0], w[1]);
    assert Weight(DETOUR, w[0], w[1]) == 2;
    assert CostTo(DETOUR, w, 1) == 2;
    assert WeightsAtLeastOne(DETOUR);
    hide HasPair;
    CostToMonotone(DETOUR, w, 1, |w| - 1);
  }
}
