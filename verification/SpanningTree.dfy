/** Trees that grow by one vertex at a time along the lightest edge out: Prim's rule gives the least total weight. */
module SpanningTree {

  datatype Edge = Edge(a: nat, b: nat)

  type Weights = Edge -> nat

  predicate Within(es: seq<Edge>, n: nat) {
    forall k :: 0 <= k < |es| ==> es[k].a < n && es[k].b < n
  }

  function Total(w: Weights, es: seq<Edge>): nat {
    if es == [] then 0 else Total(w, es[..|es| - 1]) + w(es[|es| - 1])
  }

  lemma {:induction false} TotalConcat(w: Weights, a: seq<Edge>, b: seq<Edge>)
    ensures Total(w, a + b) == Total(w, a) + Total(w, b)
  {
    if b == [] {
      assert a + b == a;
    } else {
      assert (a + b)[..|a + b| - 1] == a + b[..|b| - 1];
      TotalConcat(w, a, b[..|b| - 1]);
    }
  }

  lemma TotalWithout(w: Weights, es: seq<Edge>, k: nat)
    requires k < |es|
    ensures Total(w, es[..k] + es[k + 1..]) + w(es[k]) == Total(w, es)
  {
    hide Total;
    assert es == es[..k] + [es[k]] + es[k + 1..];
    TotalConcat(w, es[..k] + [es[k]], es[k + 1..]);
    TotalConcat(w, es[..k], [es[k]]);
    TotalConcat(w, es[..k], es[k + 1..]);
    TotalOne(w, es[k]);
  }

  lemma TotalOne(w: Weights, e: Edge)
    ensures Total(w, [e]) == w(e)
  {
    assert [e][..0] == [];
  }

  // ----------------------------------------------------------------------- connected

  /** No edge leads out of z. */
  predicate Closed(es: seq<Edge>, z: set<nat>) {
    forall k :: 0 <= k < |es| ==> (es[k].a in z <==> es[k].b in z)
  }

  /** Every set that no edge leads out of holds all of the first n vertices or none. */
  ghost predicate Joined(es: seq<Edge>, n: nat) {
    forall z: set<nat> :: Closed(es, z) ==> forall i: nat :: i < n ==> (i in z <==> 0 in z)
  }

  /** p goes from vertex to vertex along edges. */
  predicate Route(es: seq<Edge>, p: seq<nat>) {
    p != [] && forall i :: 0 <= i < |p| - 1 ==> Adjacent(es, p[i], p[i + 1])
  }

  predicate Adjacent(es: seq<Edge>, a: nat, b: nat) {
    exists k :: 0 <= k < |es| && (es[k] == Edge(a, b) || es[k] == Edge(b, a))
  }

  ghost predicate Reaches(es: seq<Edge>, a: nat, b: nat) {
    exists p :: Route(es, p) && p[0] == a && p[|p| - 1] == b
  }

  lemma {:induction false} RouteStaysIn(es: seq<Edge>, p: seq<nat>, z: set<nat>, i: nat)
    requires Route(es, p) && Closed(es, z) && i < |p|
    ensures p[i] in z <==> p[0] in z
  {
    if i > 0 {
      RouteStaysIn(es, p, z, i - 1);
      assert Adjacent(es, p[i - 1], p[i - 1 + 1]);
    }
  }

  lemma ReachesOn(es: seq<Edge>, a: nat, b: nat, c: nat)
    requires Reaches(es, a, b) && Adjacent(es, b, c)
    ensures Reaches(es, a, c)
  {
    hide Adjacent;
    var p :| Route(es, p) && p[0] == a && p[|p| - 1] == b;
    assert Route(es, p + [c]);
    assert (p + [c])[0] == a && (p + [c])[|p|] == c;
  }

  lemma EdgeAdjacent(es: seq<Edge>, k: nat)
    requires k < |es|
    ensures Adjacent(es, es[k].a, es[k].b) && Adjacent(es, es[k].b, es[k].a)
  {
    assert es[k] == Edge(es[k].a, es[k].b);
  }

  /** Joined says that there is a route between any two vertices. */
  lemma JoinedByRoutes(es: seq<Edge>, n: nat)
    requires n > 0 && Within(es, n)
    ensures Joined(es, n) <==> forall i: nat :: i < n ==> Reaches(es, 0, i)
  {
    if Joined(es, n) {
      var z := set i: nat | i < n && Reaches(es, 0, i);
      ReachableIsClosed(es, n, z);
      assert Route(es, [0]);
      assert [0][0] == 0 && Reaches(es, 0, 0);
      assert 0 in z;
      forall i: nat | i < n
        ensures Reaches(es, 0, i)
      {
        assert i in z;
      }
    }
    if forall i: nat :: i < n ==> Reaches(es, 0, i) {
      RoutesJoin(es, n);
    }
  }

  lemma RoutesJoin(es: seq<Edge>, n: nat)
    requires forall i: nat :: i < n ==> Reaches(es, 0, i)
    ensures Joined(es, n)
  {
    forall z: set<nat>, i: nat | Closed(es, z) && i < n
      ensures i in z <==> 0 in z
    {
      assert Reaches(es, 0, i);
      var p :| Route(es, p) && p[0] == 0 && p[|p| - 1] == i;
      RouteStaysIn(es, p, z, |p| - 1);
    }
  }

  lemma ReachableIsClosed(es: seq<Edge>, n: nat, z: set<nat>)
    requires Within(es, n) && z == set i: nat | i < n && Reaches(es, 0, i)
    ensures Closed(es, z)
  {
    hide Reaches;
    forall k | 0 <= k < |es|
      ensures es[k].a in z <==> es[k].b in z
    {
      EdgeAdjacent(es, k);
      if Reaches(es, 0, es[k].a) {
        ReachesOn(es, 0, es[k].a, es[k].b);
      }
      if Reaches(es, 0, es[k].b) {
        ReachesOn(es, 0, es[k].b, es[k].a);
      }
    }
  }

  // ---------------------------------------------------------------------- Prim's rule

  /** Edge k joins vertex k + 1 to one of the vertices before it. */
  predicate Grown(tree: seq<Edge>) {
    forall k :: 0 <= k < |tree| ==> tree[k].a <= k && tree[k].b == k + 1
  }

  /** When it was chosen, edge k was no heavier than any edge from the first k + 1 vertices to the others. */
  predicate Lightest(w: Weights, tree: seq<Edge>) {
    forall k, i: nat, j: nat :: 0 <= k < |tree| && i <= k < j <= |tree| ==> w(tree[k]) <= w(Edge(i, j))
  }

  ghost predicate Undirected(w: Weights) {
    forall a: nat, b: nat :: w(Edge(a, b)) == w(Edge(b, a))
  }

  lemma {:induction false} GrownIsJoined(tree: seq<Edge>, c: nat, z: set<nat>, i: nat)
    requires Grown(tree) && i <= c <= |tree| && Closed(tree[..c], z)
    ensures i in z <==> 0 in z
    decreases i
  {
    if i > 0 {
      assert tree[..c][i - 1] == tree[i - 1];
      GrownIsJoined(tree, c, z, tree[i - 1].a);
    }
  }

  /** The edges that stay clear of the first c + 1 vertices. */
  predicate ClosedOutside(es: seq<Edge>, c: nat, z: set<nat>) {
    forall k :: 0 <= k < |es| && es[k].a > c && es[k].b > c ==> (es[k].a in z <==> es[k].b in z)
  }

  ghost predicate Drags(es: seq<Edge>, c: nat, v: nat, i: nat) {
    forall z: set<nat> :: ClosedOutside(es, c, z) && v in z ==> i in z
  }

  /** What vertex v reaches without going through the first c + 1 vertices. */
  ghost function Outside(es: seq<Edge>, c: nat, v: nat, n: nat): set<nat> {
    set i: nat | c < i < n && Drags(es, c, v, i)
  }

  lemma OutsideIsClosed(es: seq<Edge>, c: nat, v: nat, n: nat)
    requires Within(es, n) && c < v < n
    ensures ClosedOutside(es, c, Outside(es, c, v, n)) && v in Outside(es, c, v, n)
  {
    assert Drags(es, c, v, v);
    forall k | 0 <= k < |es| && es[k].a > c && es[k].b > c
      ensures Drags(es, c, v, es[k].a) <==> Drags(es, c, v, es[k].b)
    {
    }
  }

  lemma OutsideAllOrNone(es: seq<Edge>, c: nat, v: nat, n: nat, z: set<nat>, i: nat)
    requires Within(es, n) && c < v < n && ClosedOutside(es, c, z) && i in Outside(es, c, v, n)
    ensures i in z <==> v in z
  {
    var t := Outside(es, c, v, n);
    OutsideIsClosed(es, c, v, n);
    assert Drags(es, c, v, i);
    if v !in z {
      assert ClosedOutside(es, c, t - z);
    }
  }

  /** Some edge joins what v reaches outside to the first c + 1 vertices. */
  lemma CrossingEdge(tree: seq<Edge>, c: nat, rest: seq<Edge>, n: nat) returns (k: nat)
    requires Grown(tree) && c < |tree| && n == |tree| + 1 && Within(rest, n) && Joined(tree[..c] + rest, n)
    ensures k < |rest|
    ensures var t := Outside(rest, c, c + 1, n);
            (rest[k].a <= c && rest[k].b in t) || (rest[k].b <= c && rest[k].a in t)
  {
    var t := Outside(rest, c, c + 1, n);
    OutsideIsClosed(rest, c, c + 1, n);
    var all := tree[..c] + rest;
    assert c + 1 in t && 0 !in t;
    assert !Closed(all, t);
    assert forall j :: 0 <= j < c ==> all[j] == tree[j] && all[j].a !in t && all[j].b !in t;
    var j :| 0 <= j < |all| && !(all[j].a in t <==> all[j].b in t);
    assert j >= c;
    k := j - c;
    assert all[j] == rest[k];
  }

  /** The chosen edge can take the place of a crossing edge that is no lighter. */
  lemma Exchange(w: Weights, tree: seq<Edge>, c: nat, rest: seq<Edge>, n: nat) returns (less: seq<Edge>)
    requires Grown(tree) && Lightest(w, tree) && Undirected(w) && c < |tree| && n == |tree| + 1
    requires Within(rest, n) && Joined(tree[..c] + rest, n)
    ensures Within(less, n) && Joined(tree[..c + 1] + less, n)
    ensures Total(w, less) + w(tree[c]) <= Total(w, rest)
  {
    hide Total;
    hide Outside;
    var k := CrossingEdge(tree, c, rest, n);
    less := rest[..k] + rest[k + 1..];
    TotalWithout(w, rest, k);
    OutsideAhead(rest, c, c + 1, n);
    assert w(tree[c]) <= w(rest[k]) by {
      assert rest[k] == Edge(rest[k].a, rest[k].b);
    }
    forall z: set<nat>, i: nat | Closed(tree[..c + 1] + less, z) && i < n
      ensures i in z <==> 0 in z
    {
      StillClosed(tree, c, rest, n, k, z);
    }
  }

  lemma OutsideAhead(es: seq<Edge>, c: nat, v: nat, n: nat)
    ensures forall i :: i in Outside(es, c, v, n) ==> c < i < n
  {
  }

  lemma StillClosed(tree: seq<Edge>, c: nat, rest: seq<Edge>, n: nat, k: nat, z: set<nat>)
    requires Grown(tree) && c < |tree| && n == |tree| + 1 && Within(rest, n) && k < |rest|
    requires var t := Outside(rest, c, c + 1, n);
             (rest[k].a <= c && rest[k].b in t) || (rest[k].b <= c && rest[k].a in t)
    requires Closed(tree[..c + 1] + (rest[..k] + rest[k + 1..]), z)
    ensures Closed(tree[..c] + rest, z)
  {
    var less := rest[..k] + rest[k + 1..];
    var now := tree[..c + 1] + less;
    assert forall j :: 0 <= j <= c ==> now[j] == tree[j];
    assert forall j :: 0 <= j < |less| ==> now[c + 1 + j] == less[j];
    assert Closed(tree[..c + 1], z) by {
      assert forall j :: 0 <= j <= c ==> tree[..c + 1][j] == now[j];
    }
    forall j | 0 <= j < |rest| && j != k
      ensures rest[j].a in z <==> rest[j].b in z
    {
      assert rest[j] == less[if j < k then j else j - 1];
    }
    var inner := if rest[k].a <= c then rest[k].a else rest[k].b;
    var outer := if rest[k].a <= c then rest[k].b else rest[k].a;
    GrownIsJoined(tree, c + 1, z, inner);
    GrownIsJoined(tree, c + 1, z, c + 1);
    OutsideAhead(rest, c, c + 1, n);
    assert ClosedOutside(rest, c, z);
    OutsideAllOrNone(rest, c, c + 1, n, z, outer);
    hide Outside;
  }

  /** Prim's rule: no set of edges that joins all vertices weighs less than the tree. */
  lemma PrimIsMinimal(w: Weights, tree: seq<Edge>, others: seq<Edge>)
    requires Grown(tree) && Lightest(w, tree) && Undirected(w)
    requires Within(others, |tree| + 1) && Joined(others, |tree| + 1)
    ensures Joined(tree, |tree| + 1) && Total(w, tree) <= Total(w, others)
  {
    hide Grown;
    hide Lightest;
    hide Undirected;
    hide Within;
    hide Joined;
    assert tree[..0] + others == others && tree[..0] == [] && Total(w, []) == 0;
    hide Total;
    var n, rest, c := |tree| + 1, others, 0;
    while c < |tree|
      invariant c <= |tree| && Within(rest, n) && Joined(tree[..c] + rest, n)
      invariant Total(w, tree[..c]) + Total(w, rest) <= Total(w, others)
    {
      rest := Exchange(w, tree, c, rest, n);
      TotalNext(w, tree, c);
      c := c + 1;
    }
    assert tree[..c] == tree;
    TreeIsJoined(tree);
  }

  lemma TotalNext(w: Weights, es: seq<Edge>, c: nat)
    requires c < |es|
    ensures Total(w, es[..c + 1]) == Total(w, es[..c]) + w(es[c])
  {
    assert es[..c + 1][..c] == es[..c];
  }

  lemma TreeIsJoined(tree: seq<Edge>)
    requires Grown(tree)
    ensures Joined(tree, |tree| + 1)
  {
    assert tree[..|tree|] == tree;
    forall z: set<nat>, i: nat | Closed(tree, z) && i < |tree| + 1
      ensures i in z <==> 0 in z
    {
      GrownIsJoined(tree, |tree|, z, i);
    }
  }
}
