/** The list of points to avoid, and the copy of the map without the edges that come near one. */
module SafeMap {
  import opened Seqs
  import opened MapGraph
  import opened LineProbe
  import LP = LinePromise
  import LB = LineBounds
  import A = Arithmetic

  const NUM_AVOIDPTS := 10

  datatype AvoidPt = AvoidPt(x: int, y: int, r: int)

  const EMPTY := AvoidPt(-1, -1, -1)

  // -------------------------------------------------------------- the slots as data

  /** The first n slots are points at distinct places, and the others are empty. */
  predicate Packed(s: seq<AvoidPt>, n: nat) {
    && n <= |s|
    && (forall i :: 0 <= i < n ==> s[i].x != -1)
    && (forall i :: n <= i < |s| ==> s[i] == EMPTY)
    && (forall i, j :: 0 <= i < j < n ==> !At(s[i], s[j].x, s[j].y))
  }

  predicate At(p: AvoidPt, x: int, y: int) {
    p.x == x && p.y == y
  }

  ghost predicate WellFormed(s: seq<AvoidPt>) {
    exists n :: Packed(s, n)
  }

  /** The radius kept for each avoided place. */
  ghost function Contents(s: seq<AvoidPt>): map<(int, int), int> {
    map p | p in Places(s) :: Radius(s, p)
  }

  ghost function Places(s: seq<AvoidPt>): set<(int, int)> {
    set i | 0 <= i < |s| && s[i].x != -1 :: (s[i].x, s[i].y)
  }

  ghost function Radius(s: seq<AvoidPt>, p: (int, int)): int
    requires p in Places(s)
  {
    var i :| 0 <= i < |s| && s[i].x != -1 && At(s[i], p.0, p.1);
    s[i].r
  }

  lemma ContentsAt(s: seq<AvoidPt>, n: nat, i: nat)
    requires Packed(s, n) && i < n
    ensures (s[i].x, s[i].y) in Contents(s) && Contents(s)[(s[i].x, s[i].y)] == s[i].r
  {
    var p := (s[i].x, s[i].y);
    assert p in Places(s);
    forall j | 0 <= j < |s| && s[j].x != -1 && At(s[j], p.0, p.1)
      ensures j == i
    {
      OnePlace(s, n, i, j);
    }
  }

  lemma OnePlace(s: seq<AvoidPt>, n: nat, i: nat, j: nat)
    requires Packed(s, n) && i < n && j < n && At(s[i], s[j].x, s[j].y)
    ensures i == j
  {
  }

  lemma ContentsFrom(s: seq<AvoidPt>, n: nat, p: (int, int)) returns (i: nat)
    requires Packed(s, n) && p in Contents(s)
    ensures i < n && p == (s[i].x, s[i].y) && Contents(s)[p] == s[i].r
  {
    i :| 0 <= i < |s| && s[i].x != -1 && (s[i].x, s[i].y) == p;
    ContentsAt(s, n, i);
  }

  lemma ContentsSize(s: seq<AvoidPt>, n: nat)
    requires Packed(s, n)
    ensures |Contents(s)| == n
  {
    var places := seq(n, i requires 0 <= i < n => (s[i].x, s[i].y));
    forall i, j | 0 <= i < j < n
      ensures places[i] != places[j]
    {
      assert !At(s[i], s[j].x, s[j].y);
    }
    ElementsOfDistinct(places);
    forall p
      ensures p in Places(s) <==> p in Elements(places)
    {
      if p in Places(s) {
        var i :| 0 <= i < |s| && s[i].x != -1 && p == (s[i].x, s[i].y);
        assert places[i] == p;
      }
    }
    assert Contents(s).Keys == Elements(places);
  }

  /** A new radius in one slot changes the entry of its place and nothing else. */
  lemma SetRadius(s: seq<AvoidPt>, n: nat, i: nat, r: int)
    requires Packed(s, n) && i < n
    ensures Packed(s[i := s[i].(r := r)], n)
    ensures Contents(s[i := s[i].(r := r)]) == Contents(s)[(s[i].x, s[i].y) := r]
  {
    var t, p := s[i := s[i].(r := r)], (s[i].x, s[i].y);
    SetRadiusPacked(s, n, i, r);
    SamePlaces(s, t);
    hide Packed;
    hide Contents;
    ContentsAt(s, n, i);
    ContentsAt(t, n, i);
    forall q | q in Contents(t) && q != p
      ensures q in Contents(s) && Contents(t)[q] == Contents(s)[q]
    {
      OtherPlace(s, n, i, r, q);
    }
    SameKeys(s, t);
  }

  lemma OtherPlace(s: seq<AvoidPt>, n: nat, i: nat, r: int, q: (int, int))
    requires i < n <= |s| && Packed(s, n) && Packed(s[i := s[i].(r := r)], n)
    requires q in Contents(s[i := s[i].(r := r)]) && q != (s[i].x, s[i].y)
    ensures q in Contents(s) && Contents(s[i := s[i].(r := r)])[q] == Contents(s)[q]
  {
    hide Packed;
    hide Contents;
    var j := ContentsFrom(s[i := s[i].(r := r)], n, q);
    PackedFits(s, n);
    ContentsAt(s, n, j);
  }

  lemma PackedFits(s: seq<AvoidPt>, n: nat)
    requires Packed(s, n)
    ensures n <= |s|
  {
  }

  lemma SetRadiusPacked(s: seq<AvoidPt>, n: nat, i: nat, r: int)
    requires Packed(s, n) && i < n
    ensures n <= |s| && Packed(s[i := s[i].(r := r)], n)
  {
    var t := s[i := s[i].(r := r)];
    forall j, k | 0 <= j < k < n
      ensures !At(t[j], t[k].x, t[k].y)
    {
      assert !At(s[j], s[k].x, s[k].y);
    }
  }

  lemma SameKeys(s: seq<AvoidPt>, t: seq<AvoidPt>)
    requires Places(s) == Places(t)
    ensures Contents(s).Keys == Contents(t).Keys
  {
  }

  lemma SamePlaces(s: seq<AvoidPt>, t: seq<AvoidPt>)
    requires |s| == |t| && forall i :: 0 <= i < |s| ==> s[i].x == t[i].x && s[i].y == t[i].y
    ensures Places(s) == Places(t)
  {
    forall p
      ensures p in Places(s) <==> p in Places(t)
    {
      if p in Places(s) {
        var i :| 0 <= i < |s| && s[i].x != -1 && p == (s[i].x, s[i].y);
        assert t[i].x != -1 && p == (t[i].x, t[i].y);
      }
      if p in Places(t) {
        var i :| 0 <= i < |t| && t[i].x != -1 && p == (t[i].x, t[i].y);
        assert s[i].x != -1 && p == (s[i].x, s[i].y);
      }
    }
  }

  lemma FillSlot(s: seq<AvoidPt>, n: nat, pt: AvoidPt)
    requires Packed(s, n) && n < |s| && pt.x != -1 && forall i :: 0 <= i < n ==> !At(s[i], pt.x, pt.y)
    ensures Packed(s[n := pt], n + 1)
    ensures (pt.x, pt.y) !in Contents(s) && Contents(s[n := pt]) == Contents(s)[(pt.x, pt.y) := pt.r]
  {
    var t, p := s[n := pt], (pt.x, pt.y);
    FillPacked(s, n, pt);
    hide Packed;
    hide Contents;
    if p in Contents(s) {
      var i := ContentsFrom(s, n, p);
    }
    ContentsAt(t, n + 1, n);
    forall q | q != p
      ensures q in Contents(t) <==> q in Contents(s)
      ensures q in Contents(t) ==> Contents(t)[q] == Contents(s)[q]
    {
      FilledElsewhere(s, n, pt, q);
    }
  }

  lemma FilledElsewhere(s: seq<AvoidPt>, n: nat, pt: AvoidPt, q: (int, int))
    requires n < |s| && Packed(s, n) && Packed(s[n := pt], n + 1) && q != (pt.x, pt.y)
    ensures var t := s[n := pt];
            && (q in Contents(t) <==> q in Contents(s))
            && (q in Contents(t) ==> Contents(t)[q] == Contents(s)[q])
  {
    hide Packed;
    hide Contents;
    var t := s[n := pt];
    if q in Contents(t) {
      var j := ContentsFrom(t, n + 1, q);
      ContentsAt(s, n, j);
    }
    if q in Contents(s) {
      var j := ContentsFrom(s, n, q);
      ContentsAt(t, n + 1, j);
    }
  }

  lemma FillPacked(s: seq<AvoidPt>, n: nat, pt: AvoidPt)
    requires Packed(s, n) && n < |s| && pt.x != -1 && forall i :: 0 <= i < n ==> !At(s[i], pt.x, pt.y)
    ensures Packed(s[n := pt], n + 1)
  {
    var t := s[n := pt];
    forall j, k | 0 <= j < k < n + 1
      ensures !At(t[j], t[k].x, t[k].y)
    {
      assert k < n ==> !At(s[j], s[k].x, s[k].y);
    }
  }

  /** Slot i taken out, the later ones moved up and the last one cleared. */
  function Dropped(s: seq<AvoidPt>, i: nat): seq<AvoidPt>
    requires i < |s|
  {
    s[..i] + s[i + 1..] + [EMPTY]
  }

  lemma DroppedPacked(s: seq<AvoidPt>, n: nat, i: nat)
    requires Packed(s, n) && i < n
    ensures Packed(Dropped(s, i), n - 1)
    ensures |Dropped(s, i)| == |s| && Dropped(s, i)[|s| - 1] == EMPTY
    ensures forall j :: 0 <= j < i ==> Dropped(s, i)[j] == s[j]
    ensures forall j :: i <= j < |s| - 1 ==> Dropped(s, i)[j] == s[j + 1]
  {
    var t := Dropped(s, i);
    forall j, k | 0 <= j < k < n - 1
      ensures !At(t[j], t[k].x, t[k].y)
    {
      var j', k' := if j < i then j else j + 1, if k < i then k else k + 1;
      assert !At(s[j'], s[k'].x, s[k'].y);
    }
  }

  /** A place kept after slot i is dropped was kept before, elsewhere than there. */
  lemma KeptBefore(s: seq<AvoidPt>, n: nat, i: nat, q: (int, int))
    requires Packed(s, n) && i < n && q in Contents(Dropped(s, i))
    ensures q in Contents(s) && q != (s[i].x, s[i].y) && Contents(Dropped(s, i))[q] == Contents(s)[q]
  {
    DroppedPacked(s, n, i);
    hide Dropped;
    hide Contents;
    var j := ContentsFrom(Dropped(s, i), n - 1, q);
    var k := if j < i then j else j + 1;
    ContentsAt(s, n, k);
    if q == (s[i].x, s[i].y) {
      OnePlace(s, n, i, k);
    }
  }

  /** Any other place stays. */
  lemma KeptAfter(s: seq<AvoidPt>, n: nat, i: nat, q: (int, int))
    requires Packed(s, n) && i < n && q in Contents(s) && q != (s[i].x, s[i].y)
    ensures q in Contents(Dropped(s, i))
  {
    DroppedPacked(s, n, i);
    hide Dropped;
    hide Contents;
    var k := ContentsFrom(s, n, q);
    ContentsAt(Dropped(s, i), n - 1, if k < i then k else k - 1);
  }

  lemma DropSlot(s: seq<AvoidPt>, n: nat, i: nat)
    requires Packed(s, n) && i < n
    ensures Packed(Dropped(s, i), n - 1)
    ensures Contents(Dropped(s, i)) == Contents(s) - {(s[i].x, s[i].y)}
  {
    hide Dropped;
    hide Contents;
    hide Packed;
    PackedFits(s, n);
    var t, p := Dropped(s, i), (s[i].x, s[i].y);
    DroppedPacked(s, n, i);
    forall q | q in Contents(t)
      ensures q in Contents(s) && q != p && Contents(t)[q] == Contents(s)[q]
    {
      KeptBefore(s, n, i, q);
    }
    forall q | q in Contents(s) && q != p
      ensures q in Contents(t)
    {
      KeptAfter(s, n, i, q);
    }
    assert Contents(t).Keys == Contents(s).Keys - {p};
  }

  // ---------------------------------------------------------------- what is avoided

  predicate HitBy(e: Edge, p: AvoidPt) {
    Hits(e.v1.x, e.v1.y, e.v2.x, e.v2.y, p.x, p.y, p.r)
  }

  /** e comes near no slot of s. */
  function Clear(s: seq<AvoidPt>): Edge -> bool {
    (e: Edge) => forall i :: 0 <= i < |s| ==> !HitBy(e, s[i])
  }

  /** e comes near no avoided point. */
  ghost predicate ClearOf(e: Edge, avoid: map<(int, int), int>) {
    forall p :: p in avoid ==> !HitBy(e, AvoidPt(p.0, p.1, avoid[p]))
  }

  predicate NonNegative(e: Edge) {
    e.v1.x >= 0 && e.v1.y >= 0 && e.v2.x >= 0 && e.v2.y >= 0
  }

  /** On coordinates that are not negative, only the avoided points count: empty slots remove nothing. */
  lemma ClearMeansClearOf(s: seq<AvoidPt>, e: Edge)
    requires WellFormed(s) && NonNegative(e)
    ensures Clear(s)(e) <==> ClearOf(e, Contents(s))
  {
    hide Hits;
    var n :| Packed(s, n);
    EmptyMisses(e.v1.x, e.v1.y, e.v2.x, e.v2.y);
    if Clear(s)(e) {
      forall p | p in Contents(s)
        ensures !HitBy(e, AvoidPt(p.0, p.1, Contents(s)[p]))
      {
        var i := ContentsFrom(s, n, p);
        assert s[i] == AvoidPt(p.0, p.1, Contents(s)[p]);
      }
    }
    if ClearOf(e, Contents(s)) {
      forall i | 0 <= i < |s|
        ensures !HitBy(e, s[i])
      {
        if i < n {
          ContentsAt(s, n, i);
          assert s[i] == AvoidPt((s[i].x, s[i].y).0, (s[i].x, s[i].y).1, Contents(s)[(s[i].x, s[i].y)]);
        }
      }
    }
  }

  /** The circle of no slot is hit by the segment between the ends of e. */
  ghost predicate MissesAll(e: Edge, s: seq<AvoidPt>) {
    forall i :: 0 <= i < |s| ==> !Hits(e.v1.x, e.v1.y, e.v2.x, e.v2.y, s[i].x, s[i].y, s[i].r)
  }

  lemma KeptEdges(s: seq<AvoidPt>, es: seq<Edge>)
    ensures forall e :: e in Filter(Clear(s), es) <==> e in es && MissesAll(e, s)
  {
    hide Hits;
    forall e: Edge
      ensures e in Filter(Clear(s), es) <==> e in es && MissesAll(e, s)
    {
      FilterMembers(Clear(s), es, e);
    }
  }

  /** An edge that stays in the safe map does not come within r of a place kept with a radius that covers the gaps. */
  lemma KeptEdgeIsSafe(s: seq<AvoidPt>, es: seq<Edge>, e: Edge, p: (int, int), r: nat, gap: nat)
    requires WellFormed(s) && e in Filter(Clear(s), es) && p in Contents(s) && Contents(s)[p] == r + gap
    requires var dx, dy := A.Abs(e.v2.x - e.v1.x), A.Abs(e.v2.y - e.v1.y);
             if dx == 0 then A.Max(1, dy / 10) <= gap
             else A.Max(1, dx / 10) * dy <= dx * (gap - 1 - A.Max(1, dx / 10))
    ensures !LP.Meets(e.v1.x, e.v1.y, e.v2.x, e.v2.y, p.0, p.1, r)
  {
    hide Hits;
    hide LP.Meets;
    KeptEdges(s, es);
    var n :| Packed(s, n);
    var i := ContentsFrom(s, n, p);
    assert !Hits(e.v1.x, e.v1.y, e.v2.x, e.v2.y, s[i].x, s[i].y, s[i].r);
    if LP.Meets(e.v1.x, e.v1.y, e.v2.x, e.v2.y, p.0, p.1, r) {
      LB.NearIsHit(e.v1.x, e.v1.y, e.v2.x, e.v2.y, p.0, p.1, r, gap);
    }
  }

  /** An edge that is taken out comes within its radius and one of some place that is kept. */
  lemma DroppedEdgeIsNear(s: seq<AvoidPt>, es: seq<Edge>, e: Edge) returns (p: (int, int))
    requires WellFormed(s) && NonNegative(e) && e in es && e !in Filter(Clear(s), es)
    ensures p in Contents(s) && LP.Meets(e.v1.x, e.v1.y, e.v2.x, e.v2.y, p.0, p.1, A.Abs(Contents(s)[p]) + 1)
  {
    hide Hits;
    hide LP.Meets;
    KeptEdges(s, es);
    hide Filter;
    var n :| Packed(s, n);
    var i :| 0 <= i < |s| && Hits(e.v1.x, e.v1.y, e.v2.x, e.v2.y, s[i].x, s[i].y, s[i].r);
    EmptyMisses(e.v1.x, e.v1.y, e.v2.x, e.v2.y);
    ContentsAt(s, n, i);
    p := (s[i].x, s[i].y);
    LB.HitIsNear(e.v1.x, e.v1.y, e.v2.x, e.v2.y, p.0, p.1, s[i].r);
  }

  // -------------------------------------------------------------------- the globals

  /** The globals of the chaser that this part of it edits. */
  class Chaser {
    const avoidPoints: array<AvoidPt>
    var wholeMap: Graph
    var safeMap: Graph

    ghost predicate Ok()
      reads this, avoidPoints
    {
      avoidPoints.Length == NUM_AVOIDPTS && WellFormed(avoidPoints[..]) && MapGraph.Valid(wholeMap)
    }

    ghost function Avoided(): map<(int, int), int>
      reads this, avoidPoints
    {
      Contents(avoidPoints[..])
    }

    constructor (g: Graph)
      requires MapGraph.Valid(g)
      ensures Ok() && fresh(avoidPoints) && Avoided() == map[] && wholeMap == g
    {
      avoidPoints := new AvoidPt[NUM_AVOIDPTS](_ => EMPTY);
      wholeMap := g;
      safeMap := g;
      new;
      assert Packed(avoidPoints[..], 0);
      ContentsSize(avoidPoints[..], 0);
    }

    /** Returns 1 just when it changes what is avoided; a new place is refused only when ten are kept. */
    method AddDangerPoint(x: int, y: int, r: int) returns (updated: int)
      requires Ok() && x != -1
      modifies avoidPoints
      ensures Ok()
      ensures Avoided() == if (x, y) in old(Avoided()) || |old(Avoided())| < 10
                           then old(Avoided())[(x, y) := r] else old(Avoided())
      ensures updated == if Avoided() == old(Avoided()) then 0 else 1
    {
      ghost var s := avoidPoints[..];
      ghost var n: nat :| Packed(s, n);
      ContentsSize(s, n);
      for i := 0 to NUM_AVOIDPTS
        invariant avoidPoints[..] == s && i <= n
        invariant forall j :: 0 <= j < i ==> !At(s[j], x, y)
      {
        assert avoidPoints[i] == s[i];
        if avoidPoints[i].x == x && avoidPoints[i].y == y {
          ContentsAt(s, n, i);
          if avoidPoints[i].r == r {
            return 0;
          } else {
            SetRadius(s, n, i, r);
            avoidPoints[i] := avoidPoints[i].(r := r);
            assert avoidPoints[..] == s[i := s[i].(r := r)];
            return 1;
          }
        }
        if avoidPoints[i].x == -1 {
          FillSlot(s, n, AvoidPt(x, y, r));
          avoidPoints[i] := AvoidPt(x, y, r);
          assert avoidPoints[..] == s[n := AvoidPt(x, y, r)];
          return 1;
        }
      }
      NotKept(s, n, x, y);
      return 0;
    }

    /**
     * Forgets the place. It returns 1 for a place that was avoided and also, without changing anything,
     * for the mark (-1, -1) itself while a slot is empty.
     */
    method RemoveDangerPoint(x: int, y: int) returns (removed: int)
      requires Ok()
      modifies avoidPoints
      ensures Ok() && Avoided() == old(Avoided()) - {(x, y)}
      ensures removed == if (x, y) in old(Avoided()) || ((x, y) == (-1, -1) && |old(Avoided())| < 10)
                         then 1 else 0
    {
      ghost var s := avoidPoints[..];
      ghost var n: nat :| Packed(s, n);
      hide Packed;
      hide Contents;
      hide Dropped;
      hide WellFormed;
      var i := 0;
      while i < NUM_AVOIDPTS && !(avoidPoints[i].x == x && avoidPoints[i].y == y)
        invariant 0 <= i <= NUM_AVOIDPTS
        invariant forall j :: 0 <= j < i ==> !At(s[j], x, y)
      {
        i := i + 1;
      }
      if i >= NUM_AVOIDPTS {
        NoSlotAt(s, n, x, y);
        return 0;
      }
      SlotAt(s, n, i, x, y);
      ShiftUp(i, n);
      return 1;
    }

    /** Moves the slots behind i up by one, as far as there are points, and clears the last of them. */
    method ShiftUp(found: nat, ghost n: nat)
      requires avoidPoints.Length == NUM_AVOIDPTS && Packed(avoidPoints[..], n) && found < NUM_AVOIDPTS
      modifies avoidPoints
      ensures avoidPoints[..] == if found < n then Dropped(old(avoidPoints[..]), found) else old(avoidPoints[..])
    {
      ghost var s := avoidPoints[..];
      var i := found;
      while i < NUM_AVOIDPTS - 1 && avoidPoints[i].x != -1
        invariant found <= i < NUM_AVOIDPTS && (found < n ==> i <= n) && (n <= found ==> i == found)
        invariant forall j :: found <= j < i ==> avoidPoints[j] == s[j + 1]
        invariant forall j :: 0 <= j < found || i <= j < NUM_AVOIDPTS ==> avoidPoints[j] == s[j]
      {
        assert avoidPoints[i] == s[i] && avoidPoints[i + 1] == s[i + 1];
        avoidPoints[i] := avoidPoints[i + 1];
        i := i + 1;
      }
      assert avoidPoints[i] == s[i];
      avoidPoints[i] := EMPTY;
      if found < n {
        DroppedPacked(s, n, found);
        assert forall j :: 0 <= j < NUM_AVOIDPTS ==> avoidPoints[j] == Dropped(s, found)[j];
      }
    }

    /** Rebuilds the safe map: the edges of the map, in order, that come near no slot. */
    method ModMap()
      requires Ok()
      modifies `safeMap
      ensures safeMap == wholeMap.(edges := Filter(Clear(avoidPoints[..]), wholeMap.edges))
      ensures forall e :: e in safeMap.edges <==> e in wholeMap.edges && MissesAll(e, avoidPoints[..])
    {
      hide MapGraph.Valid;
      hide Hits;
      safeMap := wholeMap;
      ghost var s := avoidPoints[..];
      ghost var seen, kept, rest: seq<Edge> := [], [], wholeMap.edges;
      for i := 0 to |wholeMap.edges|
        invariant seen + rest == wholeMap.edges && |seen| == i
        invariant kept == Filter(Clear(s), seen) && safeMap == wholeMap.(edges := kept + rest)
        invariant avoidPoints[..] == s
      {
        var e := wholeMap.edges[i];
        assert rest[0] == e;
        KeepStep(wholeMap, s, seen, kept, rest);
        var hit := HitByAny(e);
        if hit {
          safeMap := RemoveEdge(safeMap, e.v1, e.v2);
        } else {
          kept := kept + [e];
        }
        seen, rest := seen + [e], rest[1..];
      }
      assert seen == wholeMap.edges;
      KeptEdges(s, wholeMap.edges);
    }

    /** The inner loop of modMap over the slots. */
    method HitByAny(e: Edge) returns (hit: bool)
      requires avoidPoints.Length == NUM_AVOIDPTS
      ensures hit == !Clear(avoidPoints[..])(e)
    {
      hide Hits;
      for j := 0 to NUM_AVOIDPTS
        invariant forall k :: 0 <= k < j ==> !HitBy(e, avoidPoints[k])
      {
        hit := LineInCircle(e.v1.x, e.v1.y, e.v2.x, e.v2.y, avoidPoints[j].x, avoidPoints[j].y, avoidPoints[j].r);
        if hit {
          assert HitBy(e, avoidPoints[..][j]);
          return;
        }
      }
      hit := false;
    }
  }

  /** No slot carries the place, so it is not kept. */
  lemma NoSlotAt(s: seq<AvoidPt>, n: nat, x: int, y: int)
    requires |s| == NUM_AVOIDPTS && Packed(s, n) && forall j :: 0 <= j < |s| ==> !At(s[j], x, y)
    ensures (x, y) !in Contents(s) && Contents(s) - {(x, y)} == Contents(s)
    ensures (x, y) == (-1, -1) ==> |Contents(s)| == NUM_AVOIDPTS
  {
    ContentsSize(s, n);
    assert n < NUM_AVOIDPTS ==> !At(s[n], x, y);
    NotKept(s, n, x, y);
    hide Contents;
    hide Packed;
  }

  /** Slot i carries the place: it is kept there, or the slot is empty and nothing is kept at the place. */
  lemma SlotAt(s: seq<AvoidPt>, n: nat, i: nat, x: int, y: int)
    requires i < |s| == NUM_AVOIDPTS && Packed(s, n) && At(s[i], x, y)
    ensures var t := if i < n then Dropped(s, i) else s; WellFormed(t) && Contents(t) == Contents(s) - {(x, y)}
    ensures (x, y) in Contents(s) || ((x, y) == (-1, -1) && |Contents(s)| < NUM_AVOIDPTS)
  {
    ContentsSize(s, n);
    hide Contents;
    if i < n {
      ContentsAt(s, n, i);
      DropSlot(s, n, i);
    } else {
      NotKept(s, n, -1, -1);
    }
    hide Packed;
    hide Dropped;
  }

  lemma NotKept(s: seq<AvoidPt>, n: nat, x: int, y: int)
    requires Packed(s, n) && (x == -1 || forall j :: 0 <= j < n ==> !At(s[j], x, y))
    ensures (x, y) !in Contents(s)
  {
    if (x, y) in Contents(s) {
      var i := ContentsFrom(s, n, (x, y));
    }
  }

  lemma NextEdge(g: Graph, seen: seq<Edge>, e: Edge, tail: seq<Edge>)
    requires MapGraph.Valid(g) && g.edges == seen + [e] + tail
    ensures HasId(g, e.v1.id) && HasId(g, e.v2.id) && e.v1.id != e.v2.id
    ensures forall j :: 0 <= j < |tail| ==> !Joins(tail[j], e.v1.id, e.v2.id)
  {
    assert GoodEdge(g, g.edges[|seen|]);
    forall j | 0 <= j < |tail|
      ensures !Joins(tail[j], e.v1.id, e.v2.id)
    {
      assert DistinctPairs(g.edges[|seen|], g.edges[|seen| + 1 + j]);
    }
  }

  lemma DropMiddle(kept: seq<Edge>, e: Edge, rest: seq<Edge>)
    requires forall j :: 0 <= j < |rest| ==> !Joins(rest[j], e.v1.id, e.v2.id)
    ensures DropLastJoin(kept + [e] + rest, e.v1.id, e.v2.id) == kept + rest
  {
    var es := kept + [e] + rest;
    DropLastJoinAt(es, e.v1.id, e.v2.id, |kept|);
    assert es[..|kept|] == kept;
    assert es[|kept| + 1..] == rest;
  }

  /** One step of modMap's edge loop. */
  lemma KeepStep(g: Graph, s: seq<AvoidPt>, seen: seq<Edge>, kept: seq<Edge>, rest: seq<Edge>)
    requires MapGraph.Valid(g) && rest != [] && seen + rest == g.edges && kept == Filter(Clear(s), seen)
    ensures var e, tail, t := rest[0], rest[1..], g.(edges := kept + rest);
            && (seen + [e]) + tail == g.edges
            && Filter(Clear(s), seen + [e]) == (if Clear(s)(e) then kept + [e] else kept)
            && (!Clear(s)(e) ==> RemovedEdge(t, e.v1, e.v2) == g.(edges := kept + tail))
            && (Clear(s)(e) ==> t == g.(edges := (kept + [e]) + tail))
  {
    hide Clear;
    hide Filter;
    hide MapGraph.Valid;
    var e, tail := rest[0], rest[1..];
    assert rest == [e] + tail;
    FilterSnoc(Clear(s), seen, e);
    assert kept + rest == kept + [e] + tail;
    if !Clear(s)(e) {
      assert g.edges == seen + [e] + tail;
      NextEdge(g, seen, e, tail);
      DropMiddle(kept, e, tail);
    }
  }

  /** The safe map is a valid map, and on coordinates that are not negative it keeps exactly the clear edges. */
  lemma SafeMapIsFilter(g: Graph, s: seq<AvoidPt>, e: Edge)
    requires MapGraph.Valid(g) && WellFormed(s) && (forall i :: 0 <= i < |g.edges| ==> NonNegative(g.edges[i]))
    ensures var safe := g.(edges := Filter(Clear(s), g.edges));
            && MapGraph.Valid(safe)
            && (e in safe.edges <==> e in g.edges && ClearOf(e, Contents(s)))
  {
    hide Hits;
    FilteredEdgesKeep(g, Clear(s));
    FilterMembers(Clear(s), g.edges, e);
    if e in g.edges {
      ClearMeansClearOf(s, e);
    }
  }
}
