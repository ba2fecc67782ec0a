/** The iterative quicksort of the shot buffer, with its explicit stack of ranges. */
module QuickSort {

  datatype Shot = Shot(x: int, y: int, dist: int, xdir: int, vel: int, veldir: int, imaginary: int, freshShot: int,
                       idir: int, idist: int, itime: int, alert: int, id: int)

  const MAX_LEVELS := 1000

  // -------------------------------------------------------------- sequences of shots

  predicate Ascending(s: seq<Shot>, lo: nat, hi: nat)
    requires hi <= |s|
  {
    forall i, j :: lo <= i < j < hi ==> s[i].alert <= s[j].alert
  }

  /** No alert in [a, b) exceeds one in [c, d). */
  predicate AllBelow(s: seq<Shot>, a: nat, b: nat, c: nat, d: nat)
    requires b <= |s| && d <= |s|
  {
    forall i, j :: a <= i < b && c <= j < d ==> s[i].alert <= s[j].alert
  }

  /** t is s with the entries of [lo, hi) permuted. */
  predicate PermutedIn(s: seq<Shot>, t: seq<Shot>, lo: nat, hi: nat) {
    && lo <= hi <= |s| == |t|
    && multiset(s[lo..hi]) == multiset(t[lo..hi]) && s[..lo] == t[..lo] && s[hi..] == t[hi..]
  }

  function Swap(s: seq<Shot>, i: nat, j: nat): (t: seq<Shot>)
    requires i < |s| && j < |s|
    ensures |t| == |s|
  {
    s[i := s[j]][j := s[i]]
  }

  lemma SwapPermutes(s: seq<Shot>, i: nat, j: nat)
    requires i < |s| && j < |s|
    ensures multiset(Swap(s, i, j)) == multiset(s)
  {
  }

  lemma SwapPermutesIn(s: seq<Shot>, t: seq<Shot>, i: nat, j: nat, lo: nat, hi: nat)
    requires PermutedIn(s, t, lo, hi) && lo <= i < hi && lo <= j < hi
    ensures PermutedIn(s, Swap(t, i, j), lo, hi)
  {
    SwapPermutes(t[lo..hi], i - lo, j - lo);
    SwapWithin(t, i, j, lo, hi);
    hide Swap;
  }

  lemma SwapWithin(t: seq<Shot>, i: nat, j: nat, lo: nat, hi: nat)
    requires lo <= i < hi <= |t| && lo <= j < hi
    ensures var u := Swap(t, i, j);
            && |u| == |t| && u[lo..hi] == Swap(t[lo..hi], i - lo, j - lo)
            && u[..lo] == t[..lo] && u[hi..] == t[hi..]
  {
  }

  /** Every entry of the permuted range was somewhere in the range before. */
  lemma PermutedFrom(s: seq<Shot>, t: seq<Shot>, lo: nat, hi: nat, k: nat) returns (j: nat)
    requires PermutedIn(s, t, lo, hi) && lo <= k < hi
    ensures lo <= j < hi && t[k] == s[j]
  {
    assert t[lo..hi][k - lo] in multiset(t[lo..hi]);
    assert t[k] in s[lo..hi];
    var i :| 0 <= i < hi - lo && s[lo..hi][i] == t[k];
    j := lo + i;
  }

  lemma PermutedWhole(s: seq<Shot>, t: seq<Shot>, lo: nat, hi: nat, n: nat)
    requires PermutedIn(s, t, lo, hi) && hi <= n <= |s|
    ensures PermutedIn(s, t, 0, n)
  {
    assert s[..n] == s[..lo] + s[lo..hi] + s[hi..][..n - hi];
    assert t[..n] == t[..lo] + t[lo..hi] + t[hi..][..n - hi];
    assert s[n..] == s[hi..][n - hi..] && t[n..] == t[hi..][n - hi..];
  }

  /** Permuting a range keeps what lies below all of it and what lies above all of it. */
  lemma PermutedKeepsBelow(s: seq<Shot>, t: seq<Shot>, lo: nat, hi: nat, a: nat, b: nat, c: nat, d: nat)
    requires PermutedIn(s, t, lo, hi) && a <= b <= |s| && c <= d <= |s| && AllBelow(s, a, b, c, d)
    requires b <= lo || hi <= a || (a <= lo && hi <= b)
    requires d <= lo || hi <= c || (c <= lo && hi <= d)
    ensures AllBelow(t, a, b, c, d)
  {
    forall i, j | a <= i < b && c <= j < d
      ensures t[i].alert <= t[j].alert
    {
      var k := Placed(s, t, lo, hi, i);
      var l := Placed(s, t, lo, hi, j);
    }
  }

  lemma Placed(s: seq<Shot>, t: seq<Shot>, lo: nat, hi: nat, k: nat) returns (j: nat)
    requires PermutedIn(s, t, lo, hi) && k < |s|
    ensures j < |s| && t[k] == s[j] && (if lo <= k < hi then lo <= j < hi else j == k)
  {
    if lo <= k < hi {
      j := PermutedFrom(s, t, lo, hi, k);
    } else {
      j := k;
      assert k < lo ==> t[..lo][k] == s[..lo][k];
      assert hi <= k ==> t[hi..][k - hi] == s[hi..][k - hi];
    }
  }

  // ---------------------------------------------------------------- one partition

  /** s with the pivot put back into the hole. */
  predicate Filled(a: seq<Shot>, hole: nat, piv: Shot, s: seq<Shot>) {
    hole < |a| == |s| && s == a[hole := piv]
  }

  lemma MoveIntoHole(a: seq<Shot>, hole: nat, from: nat, piv: Shot, s: seq<Shot>)
    requires Filled(a, hole, piv, s) && from < |a| && from != hole
    ensures Filled(a[hole := a[from]], from, piv, Swap(s, hole, from))
  {
  }

  /** R comes down over entries not below the pivot. */
  method ScanDown(buf: array<Shot>, piv: Shot, L: nat, r: nat) returns (R: nat)
    requires L <= r < buf.Length
    ensures L <= R <= r && (R > L ==> buf[R].alert < piv.alert)
    ensures forall k :: R < k <= r ==> buf[k].alert >= piv.alert
  {
    R := r;
    while buf[R].alert >= piv.alert && L < R
      invariant L <= R <= r
      invariant forall k :: R < k <= r ==> buf[k].alert >= piv.alert
      decreases R
    {
      R := R - 1;
    }
  }

  /** L goes up over entries not above the pivot. */
  method ScanUp(buf: array<Shot>, piv: Shot, l: nat, R: nat) returns (L: nat)
    requires l <= R < buf.Length
    ensures l <= L <= R && (L < R ==> buf[L].alert > piv.alert)
    ensures forall k :: l <= k < L ==> buf[k].alert <= piv.alert
  {
    L := l;
    while buf[L].alert <= piv.alert && L < R
      invariant l <= L <= R
      invariant forall k :: l <= k < L ==> buf[k].alert <= piv.alert
      decreases R - L
    {
      L := L + 1;
    }
  }

  /** Moves smaller and larger entries of [lo, hi) to either side of the first one, whose place is m. */
  method Partition(buf: array<Shot>, lo: nat, hi: nat) returns (m: nat)
    requires lo + 1 < hi <= buf.Length
    modifies buf
    ensures lo <= m < hi && PermutedIn(old(buf[..]), buf[..], lo, hi)
    ensures AllBelow(buf[..], lo, m, m, m + 1) && AllBelow(buf[..], m, m + 1, m + 1, hi)
  {
    hide PermutedIn;
    hide Swap;
    var L, R := lo, hi - 1;
    var piv := buf[L];
    ghost var was, s := buf[..], buf[..];
    Unpermuted(was, lo, hi);
    while L < R
      invariant lo <= L <= R < hi && Filled(buf[..], L, piv, s) && PermutedIn(was, s, lo, hi)
      invariant forall k :: lo <= k < L ==> buf[k].alert <= piv.alert
      invariant forall k :: R < k < hi ==> buf[k].alert >= piv.alert
      decreases R - L
    {
      L, R, s := Exchange(buf, piv, L, R, lo, hi, was, s);
    }
    buf[L] := piv;
    m := L;
    assert buf[..] == s;
  }

  /** One turn of the partition: a small entry from the right into the hole, a large one from the left. */
  method Exchange(buf: array<Shot>, piv: Shot, l: nat, r: nat, lo: nat, hi: nat, ghost was: seq<Shot>,
                  ghost s0: seq<Shot>)
    returns (L: nat, R: nat, ghost s: seq<Shot>)
    requires lo <= l < r < hi <= buf.Length && Filled(buf[..], l, piv, s0) && PermutedIn(was, s0, lo, hi)
    requires forall k :: lo <= k < l ==> buf[k].alert <= piv.alert
    requires forall k :: r < k < hi ==> buf[k].alert >= piv.alert
    modifies buf
    ensures l <= L <= R <= r && (L > l || R < r)
    ensures Filled(buf[..], L, piv, s) && PermutedIn(was, s, lo, hi)
    ensures forall k :: lo <= k < L ==> buf[k].alert <= piv.alert
    ensures forall k :: R < k < hi ==> buf[k].alert >= piv.alert
  {
    hide PermutedIn;
    hide Swap;
    s := s0;
    L := l;
    R := ScanDown(buf, piv, L, r);
    if L < R {
      MoveIntoHole(buf[..], L, R, piv, s);
      SwapPermutesIn(was, s, L, R, lo, hi);
      s := Swap(s, L, R);
      buf[L] := buf[R];
      L := L + 1;
    }
    L := ScanUp(buf, piv, L, R);
    if L < R {
      MoveIntoHole(buf[..], R, L, piv, s);
      SwapPermutesIn(was, s, R, L, lo, hi);
      s := Swap(s, R, L);
      buf[R] := buf[L];
      R := R - 1;
    }
  }

  lemma Unpermuted(s: seq<Shot>, lo: nat, hi: nat)
    requires lo <= hi <= |s|
    ensures PermutedIn(s, s, lo, hi)
  {
  }

  // -------------------------------------------------------------- the range stack

  /** Ranges 0..i are pending, in ascending order, one pivot apart, and the rest up to n is behind them. */
  predicate Stacked(beg: seq<int>, end: seq<int>, i: int, n: nat) {
    && -1 <= i < |beg| == |end|
    && (forall k :: 0 <= k <= i ==> k <= beg[k] <= end[k] <= n)
    && (i >= 0 ==> beg[0] == 0)
    && (forall k :: 0 <= k < i ==> beg[k + 1] == end[k] + 1)
  }

  /** Where the finished part starts. */
  function Done(end: seq<int>, i: int): int
    requires -1 <= i < |end|
  {
    if i >= 0 then end[i] else 0
  }

  /** The finished part is in its final order, and each pivot between ranges is in its final place. */
  predicate Placing(s: seq<Shot>, beg: seq<int>, end: seq<int>, i: int, n: nat) {
    && Stacked(beg, end, i, n) && n <= |s|
    && Ascending(s, Done(end, i), n) && AllBelow(s, 0, Done(end, i), Done(end, i), n)
    && (forall k :: 0 <= k < i ==>
          AllBelow(s, 0, end[k], end[k], end[k] + 1) && AllBelow(s, end[k], end[k] + 1, end[k] + 1, n))
  }

  /** A range of at most one entry is finished; so is the pivot before it. */
  lemma PopRange(s: seq<Shot>, beg: seq<int>, end: seq<int>, i: nat, n: nat)
    requires Placing(s, beg, end, i, n) && end[i] - beg[i] <= 1
    ensures Placing(s, beg, end, i - 1, n)
  {
    if i > 0 {
      var e := end[i - 1];
      assert AllBelow(s, 0, e, e, e + 1) && AllBelow(s, e, e + 1, e + 1, n);
      forall u, v | 0 <= u < e && e <= v < n
        ensures s[u].alert <= s[v].alert
      {
        assert s[u].alert <= s[e].alert && (v == e || s[e].alert <= s[v].alert);
      }
    }
  }

  /** Partitioning the top range keeps everything already placed. */
  lemma PartitionKeeps(s: seq<Shot>, t: seq<Shot>, beg: seq<int>, end: seq<int>, i: nat, n: nat)
    requires Placing(s, beg, end, i, n) && PermutedIn(s, t, beg[i], end[i])
    ensures Placing(t, beg, end, i, n)
  {
    hide PermutedIn;
    assert |t| == |s| by {
      SameLength(s, t, beg[i], end[i]);
    }
    var lo, hi := beg[i], end[i];
    forall k | 0 <= k < i
      ensures AllBelow(t, 0, end[k], end[k], end[k] + 1) && AllBelow(t, end[k], end[k] + 1, end[k] + 1, n)
    {
      RangesBelow(beg, end, i, n, k);
      PermutedKeepsBelow(s, t, lo, hi, 0, end[k], end[k], end[k] + 1);
      PermutedKeepsBelow(s, t, lo, hi, end[k], end[k] + 1, end[k] + 1, n);
    }
    PermutedKeepsBelow(s, t, lo, hi, 0, hi, hi, n);
    forall k, l | hi <= k < l < n
      ensures t[k].alert <= t[l].alert
    {
      var k' := Placed(s, t, lo, hi, k);
      var l' := Placed(s, t, lo, hi, l);
    }
  }

  lemma SameLength(s: seq<Shot>, t: seq<Shot>, lo: nat, hi: nat)
    requires PermutedIn(s, t, lo, hi)
    ensures |t| == |s|
  {
  }

  lemma {:induction false} RangesBelow(beg: seq<int>, end: seq<int>, i: nat, n: nat, k: nat)
    requires Stacked(beg, end, i, n) && k < i
    ensures end[k] < beg[i]
    decreases i - k
  {
    if k + 1 < i {
      RangesBelow(beg, end, i, n, k + 1);
      assert beg[k + 1] <= end[k + 1];
    }
  }

  /** The two ranges beside the pivot at m replace the top range. */
  lemma PushRanges(t: seq<Shot>, beg: seq<int>, end: seq<int>, i: nat, n: nat, m: nat)
    requires Placing(t, beg, end, i, n) && i + 1 < |beg| && beg[i] <= m < end[i]
    requires AllBelow(t, beg[i], m, m, m + 1) && AllBelow(t, m, m + 1, m + 1, end[i])
    ensures Placing(t, beg[i + 1 := m + 1], end[i + 1 := end[i]][i := m], i + 1, n)
  {
    var b, e := beg[i + 1 := m + 1], end[i + 1 := end[i]][i := m];
    PivotPlaced(t, beg, end, i, n, m);
    PushStacked(beg, end, i, n, m);
    hide AllBelow;
    hide Stacked;
    hide Ascending;
    forall k | 0 <= k < i
      ensures AllBelow(t, 0, e[k], e[k], e[k] + 1) && AllBelow(t, e[k], e[k] + 1, e[k] + 1, n)
    {
      assert e[k] == end[k];
    }
  }

  lemma PushStacked(beg: seq<int>, end: seq<int>, i: nat, n: nat, m: nat)
    requires Stacked(beg, end, i, n) && i + 1 < |beg| && beg[i] <= m < end[i]
    ensures var b, e := beg[i + 1 := m + 1], end[i + 1 := end[i]][i := m];
            Stacked(b, e, i + 1, n) && |b| == |beg| && |e| == |end| && Done(e, i + 1) == Done(end, i)
  {
  }

  lemma PivotPlaced(t: seq<Shot>, beg: seq<int>, end: seq<int>, i: nat, n: nat, m: nat)
    requires Placing(t, beg, end, i, n) && beg[i] <= m < end[i]
    requires AllBelow(t, beg[i], m, m, m + 1) && AllBelow(t, m, m + 1, m + 1, end[i])
    ensures AllBelow(t, 0, m, m, m + 1) && AllBelow(t, m, m + 1, m + 1, n)
  {
    if i > 0 {
      var e := end[i - 1];
      assert AllBelow(t, 0, e, e, e + 1) && AllBelow(t, e, e + 1, e + 1, n);
      assert beg[i] == e + 1;
      forall u | 0 <= u < m
        ensures t[u].alert <= t[m].alert
      {
        if u < e {
          assert t[u].alert <= t[e].alert;
        }
      }
    }
  }

  // --------------------------------------------------------------------- the sort

  /** Number of entries before the first whose x is -1. */
  function Live(s: seq<Shot>): (n: nat)
    ensures n <= |s|
    ensures n < |s| ==> s[n].x == -1
    ensures forall i :: 0 <= i < n ==> s[i].x != -1
  {
    if s == [] || s[0].x == -1 then 0 else 1 + Live(s[1..])
  }

  lemma LiveIs(s: seq<Shot>, n: nat)
    requires n < |s| && s[n].x == -1 && forall i :: 0 <= i < n ==> s[i].x != -1
    ensures Live(s) == n
  {
  }

  /** 2 * entries in pending ranges + number of pending ranges. */
  function Pending(beg: seq<int>, end: seq<int>, i: int): int
    requires -1 <= i < |beg| == |end|
    decreases i + 1
  {
    if i < 0 then 0 else Pending(beg, end, i - 1) + 2 * (end[i] - beg[i]) + 1
  }

  lemma {:induction false} PendingSame(b: seq<int>, e: seq<int>, b': seq<int>, e': seq<int>, i: int)
    requires -1 <= i < |b| == |e| == |b'| == |e'|
    requires forall k :: 0 <= k <= i ==> b[k] == b'[k] && e[k] == e'[k]
    ensures Pending(b, e, i) == Pending(b', e', i)
    decreases i + 1
  {
    if i >= 0 {
      PendingSame(b, e, b', e', i - 1);
    }
  }

  lemma {:induction false} PendingNonNegative(b: seq<int>, e: seq<int>, i: int, n: nat)
    requires Stacked(b, e, i, n)
    ensures Pending(b, e, i) >= i + 1
    decreases i + 1
  {
    if i >= 0 {
      PendingNonNegative(b, e, i - 1, n);
    }
  }

  /** The state at the top of the sort's main loop. */
  predicate Sorting(was: seq<Shot>, s: seq<Shot>, beg: seq<int>, end: seq<int>, i: int, n: nat) {
    PermutedIn(was, s, 0, n) && Placing(s, beg, end, i, n)
  }

  /** Replacing the top range [b, e) by the two sides of m makes less work pending. */
  lemma PushedPending(beg: seq<int>, end: seq<int>, i: nat, n: nat, m: nat)
    requires Stacked(beg, end, i, n) && i + 1 < |beg| && beg[i] <= m < end[i]
    ensures Pending(beg[i + 1 := m + 1], end[i + 1 := end[i]][i := m], i + 1) < Pending(beg, end, i)
  {
    var b, e := beg[i + 1 := m + 1], end[i + 1 := end[i]][i := m];
    PendingSame(b, e, beg, end, i - 1);
    assert Pending(b, e, i) == Pending(b, e, i - 1) + 2 * (m - beg[i]) + 1;
  }

  lemma SortingPush(was: seq<Shot>, s: seq<Shot>, t: seq<Shot>, beg: seq<int>, end: seq<int>, i: nat, n: nat, m: nat)
    requires Sorting(was, s, beg, end, i, n) && PermutedIn(s, t, beg[i], end[i])
    requires i + 1 < |beg| && beg[i] <= m < end[i]
    requires AllBelow(t, beg[i], m, m, m + 1) && AllBelow(t, m, m + 1, m + 1, end[i])
    ensures Sorting(was, t, beg[i + 1 := m + 1], end[i + 1 := end[i]][i := m], i + 1, n)
  {
    hide AllBelow;
    hide Ascending;
    PartitionKeeps(s, t, beg, end, i, n);
    PushRanges(t, beg, end, i, n, m);
    PermutedWhole(s, t, beg[i], end[i], n);
  }

  method CountLive(buf: array<Shot>) returns (i: nat)
    requires exists k :: 0 <= k < buf.Length && buf[k].x == -1
    ensures i == Live(buf[..]) && i < buf.Length && buf[i].x == -1
    ensures forall k :: 0 <= k < i ==> buf[k].x != -1
  {
    i := 0;
    while buf[i].x != -1
      invariant i < buf.Length && forall k :: 0 <= k < i ==> buf[k].x != -1
      decreases buf.Length - i
    {
      i := i + 1;
    }
    LiveIs(buf[..], i);
  }

  /**
   * Sorts the live entries of the buffer by alert. It gives up, with the entries merely permuted, only
   * when a thousand ranges are pending, which takes more than a thousand entries.
   */
  method QuickSortShots(buf: array<Shot>) returns (r: int)
    requires exists k :: 0 <= k < buf.Length && buf[k].x == -1
    modifies buf
    ensures r == 1 || r == -1
    ensures var n := Live(old(buf[..])); PermutedIn(old(buf[..]), buf[..], 0, n) && Live(buf[..]) == n
    ensures r == 1 ==> Ascending(buf[..], 0, Live(buf[..]))
    ensures forall i, j :: r == 1 && 0 <= i <= j < Live(buf[..]) ==> buf[i].alert <= buf[j].alert
    ensures Live(buf[..]) <= 1000 ==> r == 1
  {
    hide PermutedIn;
    hide AllBelow;
    hide Ascending;
    hide Stacked;
    hide Sorting;
    var beg, end := new int[MAX_LEVELS](_ => 0), new int[MAX_LEVELS](_ => 0);
    ghost var was := buf[..];
    var n := CountLive(buf);
    beg[0], end[0] := 0, n;
    var i := 0;
    FirstRange(was, beg[..], end[..], n);
    while i >= 0
      invariant -1 <= i < MAX_LEVELS && Sorting(was, buf[..], beg[..], end[..], i, n)
      decreases Pending(beg[..], end[..], i)
    {
      TopRange(was, buf[..], beg[..], end[..], i, n);
      PendingNonNegative(beg[..], end[..], i, n);
      var L, R := beg[i], end[i] - 1;
      if L < R {
        if i == MAX_LEVELS - 1 {
          StillLive(was, buf[..], n);
          return -1;
        }
        ghost var s, b, e := buf[..], beg[..], end[..];
        var m := Partition(buf, L, R + 1);
        SortingPush(was, s, buf[..], b, e, i, n, m);
        PushedPending(b, e, i, n, m);
        beg[i + 1], end[i + 1] := m + 1, end[i];
        end[i] := m;
        assert beg[..] == b[i + 1 := m + 1] && end[..] == e[i + 1 := e[i]][i := m];
        i := i + 1;
      } else {
        SortingPop(was, buf[..], beg[..], end[..], i, n);
        i := i - 1;
      }
    }
    AllPlaced(was, buf[..], beg[..], end[..], n);
    StillLive(was, buf[..], n);
    AlertsAscend(buf[..], n);
    return 1;
  }

  lemma FirstRange(s: seq<Shot>, beg: seq<int>, end: seq<int>, n: nat)
    requires |beg| == |end| == MAX_LEVELS && beg[0] == 0 && end[0] == n <= |s|
    ensures Sorting(s, s, beg, end, 0, n)
  {
  }

  lemma TopRange(was: seq<Shot>, s: seq<Shot>, beg: seq<int>, end: seq<int>, i: nat, n: nat)
    requires Sorting(was, s, beg, end, i, n)
    ensures Stacked(beg, end, i, n) && i <= beg[i] <= end[i] <= n <= |s| && PermutedIn(was, s, 0, n)
  {
    hide PermutedIn;
    hide AllBelow;
    hide Ascending;
  }

  lemma SortingPop(was: seq<Shot>, s: seq<Shot>, beg: seq<int>, end: seq<int>, i: nat, n: nat)
    requires Sorting(was, s, beg, end, i, n) && end[i] - beg[i] <= 1
    ensures Sorting(was, s, beg, end, i - 1, n)
  {
    hide PermutedIn;
    hide Placing;
    PopRange(s, beg, end, i, n);
  }

  lemma AllPlaced(was: seq<Shot>, s: seq<Shot>, beg: seq<int>, end: seq<int>, n: nat)
    requires Sorting(was, s, beg, end, -1, n)
    ensures n <= |s| && Ascending(s, 0, n) && PermutedIn(was, s, 0, n)
  {
    hide PermutedIn;
    hide AllBelow;
  }

  lemma AlertsAscend(s: seq<Shot>, n: nat)
    requires n <= |s| && Ascending(s, 0, n)
    ensures forall i, j :: 0 <= i <= j < n ==> s[i].alert <= s[j].alert
  {
  }

  /** A permutation of the live entries keeps the sentinel first at n. */
  lemma StillLive(was: seq<Shot>, s: seq<Shot>, n: nat)
    requires PermutedIn(was, s, 0, n) && n < |was| && was[n].x == -1
    requires forall k :: 0 <= k < n ==> was[k].x != -1
    ensures Live(s) == n
  {
    forall k | 0 <= k < n
      ensures s[k].x != -1
    {
      var j := PermutedFrom(was, s, 0, n, k);
    }
    assert was[n..][0] == s[n..][0];
    LiveIs(s, n);
  }
}
