/** When dijkstra ends: for an end that can be reached, or that is the first vertex that cannot and has no edges. */
module DijkstraEnds {
  import opened MapGraph
  import opened Walks
  import opened StatusTable
  import opened SearchTree
  import opened Dijkstra

  /** Relaxing at entry c forms no sum with INT_MAX, which an int could not hold. */
  ghost predicate Safe(g: Graph, t: Table, c: nat)
    requires c < |t|
  {
    t[c].tWeight < INT_MAX || Lonely(g, t[c].id)
  }

  /** From entry c on, the loop ends within n safe rounds. */
  ghost predicate Ends(g: Graph, t: Table, c: nat, endId: int, n: nat)
    decreases n
  {
    && n > 0 && c < |t| && Safe(g, t, c)
    && var r := Settle(g, t, c);
       t[c].id == endId || Pick(r) == |r| || Ends(g, r, Pick(r), endId, n - 1)
  }

  lemma {:induction false} EndsWhenAnswered(g: Graph, t: Table, s: nat, c: nat, endId: int)
    requires Searchable(g) && NoOverflow(g) && GoesOn(g, t, s, c, endId)
    requires t[s].id != endId && HasId(g, endId) && Answers(g, t[s].id, endId)
    ensures Ends(g, t, c, endId, |t| - DoneCount(t))
    decreases |t| - DoneCount(t)
  {
    hide Searchable;
    hide NoOverflow;
    hide Answers;
    hide Found;
    hide Inv;
    hide Settle;
    hide Pick;
    hide Reachable;
    Turn(g, t, s, c, endId);
    var r := Settle(g, t, c);
    hide GoesOn;
    CanGoOn(g, t, s, c, endId);
    if t[c].id != endId {
      EndsWhenAnswered(g, r, s, Pick(r), endId);
    }
  }

  lemma CanGoOn(g: Graph, t: Table, s: nat, c: nat, endId: int)
    requires GoesOn(g, t, s, c, endId)
    ensures c < |t| && Safe(g, t, c)
  {
    hide Inv;
    hide Lonely;
    hide Reachable;
  }

  // ----------------------------------------------------------------- running for ever

  lemma FirstAtMax(t: Table, e: nat) returns (u: nat)
    requires e < |t| && t[e].tWeight == INT_MAX
    ensures u <= e && t[u].tWeight == INT_MAX && forall i :: 0 <= i < u ==> t[i].tWeight != INT_MAX
  {
    u := 0;
    while t[u].tWeight != INT_MAX
      invariant u <= e && forall i :: 0 <= i < u ==> t[i].tWeight != INT_MAX
      decreases e - u
    {
      u := u + 1;
    }
  }

  /** Nothing reached is open, and u is the first entry at INT_MAX. */
  predicate Lost(t: Table, u: nat) {
    && !ReachedOpen(t) && (forall i :: 0 <= i < |t| ==> t[i].tWeight <= INT_MAX)
    && u < |t| && t[u].tWeight == INT_MAX && forall i :: 0 <= i < u ==> t[i].tWeight != INT_MAX
  }

  /** Once an entry at INT_MAX is done, the loop looks at it again and again. */
  lemma {:induction false} StuckNeverEnds(g: Graph, t: Table, u: nat, endId: int, n: nat)
    requires Valid(g) && Lists(g, t) && Lost(t, u) && t[u].done && t[u].id != endId
    ensures !Ends(g, t, u, endId, n)
    decreases n
  {
    hide Valid;
    hide Settle;
    hide Pick;
    if n > 0 && Lonely(g, t[u].id) {
      SettleLonely(g, t, u);
      assert MarkDone(t, u) == t;
      PickLost(t, u);
      StuckNeverEnds(g, t, u, endId, n - 1);
    }
  }

  lemma {:induction false} LostNeverEnds(g: Graph, t: Table, s: nat, u: nat, endId: int, n: nat)
    requires Searchable(g) && NoOverflow(g) && Inv(g, t, s) && t[s].done && Lost(t, u) && !Answers(g, t[s].id, endId)
    ensures !Ends(g, t, u, endId, n)
  {
    hide NoOverflow;
    hide Answers;
    hide Lonely;
    hide Tree;
    hide Settled;
    hide Ordered;
    hide Small;
    hide Settle;
    hide Pick;
    hide Valid;
    hide WeightsAtLeastOne;
    hide PositiveIds;
    if n > 0 && Lonely(g, t[u].id) {
      NotTheEnd(g, t, s, u, endId);
      SettleLonely(g, t, u);
      MarkedLost(t, u);
      PickLost(MarkDone(t, u), u);
      SameIdsLists(g, t, MarkDone(t, u));
      StuckNeverEnds(g, MarkDone(t, u), u, endId, n - 1);
    }
  }

  lemma MarkedLost(t: Table, u: nat)
    requires Lost(t, u)
    ensures Lost(MarkDone(t, u), u) && MarkDone(t, u)[u].done && MarkDone(t, u)[u].id == t[u].id
  {
    var q := MarkDone(t, u);
    forall j | 0 <= j < |q| && !q[j].done
      ensures q[j].tWeight >= INT_MAX
    {
      assert !t[j].done;
    }
  }

  /** The first lost vertex, if it has no edges, is not an end that is left unanswered. */
  lemma NotTheEnd(g: Graph, t: Table, s: nat, u: nat, endId: int)
    requires Searchable(g) && NoOverflow(g) && Inv(g, t, s) && t[s].done && Lost(t, u)
    requires !Answers(g, t[s].id, endId) && Lonely(g, t[u].id)
    ensures t[u].id != endId
  {
    hide NoOverflow;
    hide Reachable;
    hide Valid;
    hide Lonely;
    hide Settled;
    hide Ordered;
    hide Small;
    if t[u].id == endId {
      forall i, k | 0 <= i < k < |g.vertices| && g.vertices[k].id == endId
        ensures Reachable(g, t[s].id, g.vertices[i].id)
      {
        SameIdSamePlace(t, k, u);
        AllReached(g, t, s, i);
      }
    }
  }

  /** When all that can be reached is done and the end is not, the loop is lost. */
  lemma LostAfterRound(g: Graph, t: Table, s: nat, endId: int)
    requires Searchable(g) && NoOverflow(g) && Inv(g, t, s) && t[s].done && !ReachedOpen(t)
    requires HasId(g, endId) && !Reachable(g, t[s].id, endId)
    ensures Lost(t, Pick(t))
  {
    hide NoOverflow;
    hide Reachable;
    hide Valid;
    FindListed(g, t, endId);
    AllReached(g, t, s, Find(t, endId));
    var u := FirstAtMax(t, Find(t, endId));
    PickLost(t, u);
  }

  lemma {:induction false} NeverEnds(g: Graph, t: Table, s: nat, c: nat, endId: int, n: nat)
    requires Searchable(g) && NoOverflow(g) && Searching(g, t, s, c, endId) && t[s].id != endId
    requires HasId(g, endId) && !Answers(g, t[s].id, endId)
    ensures !Ends(g, t, c, endId, n)
    decreases n
  {
    hide Searchable;
    hide NoOverflow;
    hide Reachable;
    hide Settled;
    hide Ordered;
    hide Small;
    hide Settle;
    hide Pick;
    hide Lonely;
    hide FirstLost;
    if n > 0 {
      Round(g, t, s, c, endId);
      var r := Settle(g, t, c);
      if ReachedOpen(r) {
        NeverEnds(g, r, s, Pick(r), endId, n - 1);
      } else {
        hide Searching;
        LostAfterRound(g, r, s, endId);
        LostNeverEnds(g, r, s, Pick(r), endId, n - 1);
      }
    }
  }

  /** From the initial table, the loop ends without overflow exactly when dijkstra can answer. */
  lemma {:induction false} EndsExactly(g: Graph, t: Table, s: nat, endId: int)
    requires Searchable(g) && NoOverflow(g) && |t| == |g.vertices| && s < |t|
    requires forall i :: 0 <= i < |t| ==> t[i] == InitialEntry(g.vertices[i], g.vertices[s].id)
    requires HasId(g, endId) && g.vertices[s].id != endId
    ensures (exists n :: Ends(g, t, s, endId, n)) <==> Answers(g, g.vertices[s].id, endId)
  {
    hide NoOverflow;
    hide Answers;
    hide Ends;
    InitialInv(g, t, s);
    StartsSearching(g, t, s, endId);
    hide InitialEntry;
    if Answers(g, g.vertices[s].id, endId) {
      EndsWhenAnswered(g, t, s, s, endId);
    } else {
      forall n
        ensures !Ends(g, t, s, endId, n)
      {
        NeverEnds(g, t, s, s, endId, n);
      }
    }
  }

  lemma StartsSearching(g: Graph, t: Table, s: nat, endId: int)
    requires Searchable(g) && |t| == |g.vertices| && s < |t|
    requires forall i :: 0 <= i < |t| ==> t[i] == InitialEntry(g.vertices[i], g.vertices[s].id)
    requires Inv(g, t, s) && Nearest(t, s) && Untouched(t)
    ensures Searching(g, t, s, s, endId) && t[s].id == g.vertices[s].id
  {
    hide Inv;
    hide Searchable;
  }

  // ------------------------------------------------------------------------- an example

  /** On three vertices without edges the search from the first for the third never ends. */
  lemma SearchesForEver()
    ensures var g := Graph([Vertex(1, 0, 0), Vertex(2, 3, 4), Vertex(3, 6, 8)], []);
            && Searchable(g) && NoOverflow(g) && HasId(g, 1) && HasId(g, 3)
            && var t := [VsD(1, -1, 0, false), VsD(2, -2, INT_MAX, false), VsD(3, -2, INT_MAX, false)];
               (forall i :: 0 <= i < |t| ==> t[i] == InitialEntry(g.vertices[i], 1))
               && forall n :: !Ends(g, t, 0, 3, n)
  {
    var g := Graph([Vertex(1, 0, 0), Vertex(2, 3, 4), Vertex(3, 6, 8)], []);
    var t := [VsD(1, -1, 0, false), VsD(2, -2, INT_MAX, false), VsD(3, -2, INT_MAX, false)];
    assert g.vertices[0].id == 1 && g.vertices[1].id == 2 && g.vertices[2].id == 3;
    NoEdgesNoWalk(g, 1, 2);
    NoEdgesNoWalk(g, 1, 3);
    hide Ends;
    EndsExactly(g, t, 0, 3);
  }

  lemma NoEdgesNoWalk(g: Graph, a: int, b: int)
    requires g.edges == [] && a != b
    ensures !Reachable(g, a, b)
  {
    forall p
      ensures !WalkBetween(g, p, a, b)
    {
      if |p| >= 2 {
        assert !HasPair(g, p[0], p[1]);
      }
    }
  }
}
