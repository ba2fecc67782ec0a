/** Walks through a map graph, as sequences of vertex ids, and what they cost. */
module Walks {
  import opened MapGraph

  /** The weight of the edge between a and b; a valid graph has only one. */
  ghost function Weight(g: Graph, a: int, b: int): int
    requires HasPair(g, a, b)
  {
    var i :| 0 <= i < |g.edges| && Joins(g.edges[i], a, b);
    g.edges[i].weight
  }

  lemma WeightOfEdge(g: Graph, i: nat, a: int, b: int)
    requires Valid(g) && i < |g.edges| && Joins(g.edges[i], a, b)
    ensures HasPair(g, a, b) && Weight(g, a, b) == g.edges[i].weight
  {
    forall j | 0 <= j < |g.edges| && Joins(g.edges[j], a, b)
      ensures j == i
    {
      assert j < i ==> DistinctPairs(g.edges[j], g.edges[i]);
      assert i < j ==> DistinctPairs(g.edges[i], g.edges[j]);
    }
  }

  lemma PairSymmetric(g: Graph, a: int, b: int)
    requires Valid(g) && HasPair(g, a, b)
    ensures HasPair(g, b, a) && Weight(g, b, a) == Weight(g, a, b) && a != b && HasId(g, a) && HasId(g, b)
  {
    var i :| 0 <= i < |g.edges| && Joins(g.edges[i], a, b);
    WeightOfEdge(g, i, a, b);
    WeightOfEdge(g, i, b, a);
    assert GoodEdge(g, g.edges[i]);
  }

  predicate Walk(g: Graph, p: seq<int>) {
    p != [] && forall i :: 0 <= i < |p| - 1 ==> HasPair(g, p[i], p[i + 1])
  }

  predicate WalkBetween(g: Graph, p: seq<int>, a: int, b: int) {
    Walk(g, p) && p[0] == a && p[|p| - 1] == b
  }

  ghost predicate Reachable(g: Graph, a: int, b: int) {
    exists p :: WalkBetween(g, p, a, b)
  }

  predicate Simple(p: seq<int>) {
    forall i, j :: 0 <= i < j < |p| ==> p[i] != p[j]
  }

  /** Cost of the first k edges of p. */
  ghost function CostTo(g: Graph, p: seq<int>, k: nat): int
    requires Walk(g, p) && k < |p|
  {
    if k == 0 then 0 else CostTo(g, p, k - 1) + Weight(g, p[k - 1], p[k])
  }

  ghost function Cost(g: Graph, p: seq<int>): int
    requires Walk(g, p)
  {
    CostTo(g, p, |p| - 1)
  }

  /** The cost of a prefix does not depend on what follows. */
  lemma {:induction false} CostToPrefix(g: Graph, p: seq<int>, q: seq<int>, k: nat)
    requires Walk(g, p) && Walk(g, q) && k < |p| && k < |q| && p[..k + 1] == q[..k + 1]
    ensures CostTo(g, p, k) == CostTo(g, q, k)
  {
    assert p[k] == p[..k + 1][k] == q[k];
    if k > 0 {
      assert p[k - 1] == p[..k + 1][k - 1] == q[k - 1];
      assert p[..k] == p[..k + 1][..k] == q[..k];
      CostToPrefix(g, p, q, k - 1);
    }
  }

  lemma WalkPrefix(g: Graph, p: seq<int>, k: nat)
    requires Walk(g, p) && k < |p|
    ensures WalkBetween(g, p[..k + 1], p[0], p[k]) && Cost(g, p[..k + 1]) == CostTo(g, p, k)
  {
    hide HasPair;
    CostToPrefix(g, p, p[..k + 1], k);
  }

  lemma CostSnoc(g: Graph, p: seq<int>, b: int)
    requires Walk(g, p) && HasPair(g, p[|p| - 1], b)
    ensures Walk(g, p + [b]) && Cost(g, p + [b]) == Cost(g, p) + Weight(g, p[|p| - 1], b)
  {
    var q := p + [b];
    assert forall i :: 0 <= i < |q| - 1 ==> HasPair(g, q[i], q[i + 1]);
    CostToPrefix(g, p, q, |p| - 1);
  }

  predicate WeightsAtLeastOne(g: Graph) {
    forall i :: 0 <= i < |g.edges| ==> g.edges[i].weight >= 1
  }

  lemma WeightAtLeastOne(g: Graph, a: int, b: int)
    requires WeightsAtLeastOne(g) && HasPair(g, a, b)
    ensures Weight(g, a, b) >= 1
  {
  }

  lemma {:induction false} CostToMonotone(g: Graph, p: seq<int>, j: nat, k: nat)
    requires WeightsAtLeastOne(g) && Walk(g, p) && j <= k < |p|
    ensures CostTo(g, p, j) + (k - j) <= CostTo(g, p, k)
    decreases k
  {
    if j < k {
      CostToMonotone(g, p, j, k - 1);
      WeightAtLeastOne(g, p[k - 1], p[k]);
    }
  }

  /** Joining two walks end to start adds their costs. */
  lemma {:induction false} CostConcat(g: Graph, p: seq<int>, q: seq<int>)
    requires Walk(g, p) && Walk(g, q) && p[|p| - 1] == q[0]
    ensures Walk(g, p + q[1..]) && Cost(g, p + q[1..]) == Cost(g, p) + Cost(g, q)
    decreases |q|
  {
    if |q| == 1 {
      assert p + q[1..] == p;
    } else {
      hide HasPair;
      var front, last := q[..|q| - 1], q[|q| - 1];
      assert forall i :: 0 <= i < |front| - 1 ==> HasPair(g, q[i], q[i + 1]);
      assert HasPair(g, q[|q| - 2], q[|q| - 2 + 1]);
      CostConcat(g, p, front);
      JoinedSnoc(p, q);
      CostSnoc(g, p + front[1..], last);
      CostSnoc(g, front, last);
    }
  }

  /** Joining two sequences at a common end, the second one without its last entry first. */
  lemma JoinedSnoc(p: seq<int>, q: seq<int>)
    requires p != [] && |q| >= 2 && p[|p| - 1] == q[0]
    ensures var front, last := q[..|q| - 1], q[|q| - 1];
            && q == front + [last] && p + q[1..] == (p + front[1..]) + [last]
            && (p + front[1..])[|p| + |front| - 2] == q[|q| - 2]
  {
  }

  /** A walk between different ids has both of them in the graph. */
  lemma WalksStayInside(g: Graph, a: int, b: int)
    requires Valid(g) && a != b
    ensures Reachable(g, a, b) ==> HasId(g, a) && HasId(g, b)
  {
    if Reachable(g, a, b) {
      var p :| WalkBetween(g, p, a, b);
      PairSymmetric(g, p[0], p[1]);
      PairSymmetric(g, p[|p| - 2], p[|p| - 1]);
    }
  }
}
