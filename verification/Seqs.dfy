/** Filtering of sequences, in the order the program's loops append and drop. */
module Seqs {

  /** The elements of s that satisfy p, in order. */
  function Filter<T>(p: T -> bool, s: seq<T>): (r: seq<T>)
    ensures |r| <= |s|
  {
    if s == [] then [] else
      var last := s[|s| - 1];
      Filter(p, s[..|s| - 1]) + (if p(last) then [last] else [])
  }

  lemma {:induction false} FilterConcat<T>(p: T -> bool, a: seq<T>, b: seq<T>)
    ensures Filter(p, a + b) == Filter(p, a) + Filter(p, b)
  {
    if b == [] {
      assert a + b == a;
    } else {
      assert (a + b)[..|a + b| - 1] == a + b[..|b| - 1];
      FilterConcat(p, a, b[..|b| - 1]);
    }
  }

  lemma {:induction false} FilterMembers<T>(p: T -> bool, s: seq<T>, x: T)
    ensures x in Filter(p, s) <==> x in s && p(x)
  {
    if s != [] {
      FilterMembers(p, s[..|s| - 1], x);
      assert s == s[..|s| - 1] + [s[|s| - 1]];
    }
  }

  lemma {:induction false} FilterAll<T>(p: T -> bool, s: seq<T>)
    requires forall i :: 0 <= i < |s| ==> p(s[i])
    ensures Filter(p, s) == s
  {
    if s != [] {
      FilterAll(p, s[..|s| - 1]);
    }
  }

  /** When only position k fails p, filtering removes just that position. */
  lemma FilterOutAt<T>(p: T -> bool, s: seq<T>, k: nat)
    requires k < |s| && !p(s[k])
    requires forall i :: 0 <= i < |s| && i != k ==> p(s[i])
    ensures Filter(p, s) == s[..k] + s[k + 1..]
  {
    var a, b := s[..k], s[k + 1..];
    FilterAll(p, a);
    FilterAll(p, b);
    FilterSnoc(p, a, s[k]);
    FilterConcat(p, a + [s[k]], b);
    SplitAt(s, k);
    hide Filter;
  }

  /** A position that fails p can be left out before filtering. */
  lemma FilterWithout<T>(p: T -> bool, s: seq<T>, k: nat)
    requires k < |s| && !p(s[k])
    ensures Filter(p, s[..k] + s[k + 1..]) == Filter(p, s)
  {
    var a, b := s[..k], s[k + 1..];
    FilterConcat(p, a, b);
    FilterSnoc(p, a, s[k]);
    FilterConcat(p, a + [s[k]], b);
    SplitAt(s, k);
    hide Filter;
  }

  lemma SplitAt<T>(s: seq<T>, k: nat)
    requires k < |s|
    ensures s[..k] + [s[k]] + s[k + 1..] == s
  {
  }

  lemma FilterSnoc<T>(p: T -> bool, s: seq<T>, x: T)
    ensures Filter(p, s + [x]) == if p(x) then Filter(p, s) + [x] else Filter(p, s)
  {
    assert (s + [x])[..|s|] == s;
  }

  /** Filtering keeps the order: two kept positions come from two positions in the same order. */
  lemma {:induction false} FilterOrder<T>(p: T -> bool, s: seq<T>, i: nat, j: nat) returns (k: nat, l: nat)
    requires i < j < |Filter(p, s)|
    ensures k < l < |s| && Filter(p, s)[i] == s[k] && Filter(p, s)[j] == s[l]
  {
    var front := Filter(p, s[..|s| - 1]);
    if j < |front| {
      k, l := FilterOrder(p, s[..|s| - 1], i, j);
    } else {
      l := |s| - 1;
      FilterMembers(p, s[..|s| - 1], front[i]);
      k :| 0 <= k < l && s[..|s| - 1][k] == front[i];
    }
  }

  ghost function Elements<T>(s: seq<T>): set<T> {
    set x | x in s
  }

  lemma {:induction false} ElementsOfDistinct<T>(s: seq<T>)
    requires forall i, j :: 0 <= i < j < |s| ==> s[i] != s[j]
    ensures |Elements(s)| == |s|
  {
    if s != [] {
      var front, last := s[..|s| - 1], s[|s| - 1];
      ElementsOfDistinct(front);
      assert Elements(s) == Elements(front) + {last};
    }
  }

  lemma {:induction false} ElementsAtMost<T>(s: seq<T>)
    ensures |Elements(s)| <= |s|
  {
    if s != [] {
      var front, last := s[..|s| - 1], s[|s| - 1];
      ElementsAtMost(front);
      assert Elements(s) == Elements(front) + {last};
    }
  }

  lemma {:induction false} SubsetSize<T>(a: set<T>, b: set<T>)
    requires a <= b
    ensures |a| <= |b|
  {
    if a != {} {
      var x :| x in a;
      SubsetSize(a - {x}, b - {x});
    }
  }

  /** Pigeonhole: distinct entries taken from s are no more than s has. */
  lemma DistinctWithin<T>(p: seq<T>, s: seq<T>)
    requires forall i, j :: 0 <= i < j < |p| ==> p[i] != p[j]
    requires forall i :: 0 <= i < |p| ==> p[i] in s
    ensures |p| <= |s|
  {
    ElementsOfDistinct(p);
    ElementsAtMost(s);
    SubsetSize(Elements(p), Elements(s));
  }
}
