/** findmin: the closest pair of points of two polygons, on a plane that repeats itself. */
module FindMin {
  import opened Arithmetic
  import opened Tracing

  // -------------------------------------------------------------------------- lengths

  /** The square of the length of (x, y). */
  function Norm2(x: int, y: int): (n: nat)
    ensures n == x * x + y * y
  {
    SquareAtLeast0(x);
    SquareAtLeast0(y);
    x * x + y * y
  }

  lemma SquareAtLeast0(x: int)
    ensures x * x >= 0
  {
  }

  /** Two lengths, given as squares, of which the second is at most the root of 2 shorter. */
  predicate CloseNorms(d: int, e: int) {
    d <= e + 2 || (d - e - 2) * (d - e - 2) <= 8 * e
  }

  lemma SquareOfSum(a: int, b: int)
    ensures (a + b) * (a + b) == a * a + 2 * (a * b) + b * b
  {
  }

  /** A move of at most one in each coordinate changes the length by at most the root of 2. */
  lemma OneMove(x: int, y: int, ex: int, ey: int)
    requires -1 <= ex <= 1 && -1 <= ey <= 1
    ensures CloseNorms(Norm2(x - ex, y - ey), Norm2(x, y))
  {
    var d, e := Norm2(x - ex, y - ey), Norm2(x, y);
    var a := Signed(x, ex);
    var b := Signed(y, ey);
    TwoSquares(a, b);
    SquareOfSum(a, b);
    hide Norm2;
    assert d <= e - 2 * (a + b) + 2;
    if d > e + 2 {
      SquareGrows(d - e - 2, -2 * (a + b));
      SquareOfDouble(a + b);
    }
  }

  lemma SquareOfDouble(p: int)
    ensures (-2 * p) * (-2 * p) == 4 * (p * p)
  {
  }

  /** The product x * e for e of -1, 0 and 1, with the squares that moving x by e takes. */
  lemma Signed(x: int, e: int) returns (a: int)
    requires -1 <= e <= 1
    ensures a * a <= x * x && (x - e) * (x - e) <= x * x - 2 * a + 1
  {
    SquareAtLeast0(x);
    a := if e == 1 then x else if e == -1 then -x else 0;
    if e == 1 {
      SquareOfSum(x, -1);
    } else if e == -1 {
      SquareOfSum(x, 1);
    }
  }

  lemma SquareGrows(a: int, b: int)
    requires 0 <= a <= b
    ensures a * a <= b * b
  {
    assert a * a <= a * b <= b * b;
  }

  lemma TwoSquares(a: int, b: int)
    ensures (a + b) * (a + b) <= 2 * (a * a) + 2 * (b * b)
  {
    SquareAtLeast0(a - b);
    SquareOfSum(a, b);
    SquareOfSum(a, -b);
  }

  /** A length of at least r. */
  predicate AtLeast(d: nat, r: real) {
    r <= 0.0 || r * r <= d as real
  }

  /** The step that the search divides by, a little over the root of 2. */
  const STEP: real := 1.4143

  lemma StepDown(d: nat, e: nat, r: real)
    requires CloseNorms(d, e) && AtLeast(d, r)
    ensures AtLeast(e, r - STEP)
  {
    if r - STEP > 0.0 && (r - STEP) * (r - STEP) > e as real {
      FarNorms(d, e, r - STEP);
    }
  }

  lemma FarNorms(d: nat, e: nat, s: real)
    requires s > 0.0 && s * s > e as real && (s + STEP) * (s + STEP) <= d as real
    ensures !CloseNorms(d, e)
  {
    assert (s + STEP) * (s + STEP) == s * s + 2.0 * STEP * s + STEP * STEP;
    assert STEP * STEP > 2.0;
    assert d as real - e as real - 2.0 > 2.0 * STEP * s;
    var t := d - e - 2;
    assert t as real == d as real - e as real - 2.0;
    RealSquareGrows(2.0 * STEP * s, t as real);
    assert (2.0 * STEP * s) * (2.0 * STEP * s) == 4.0 * (STEP * STEP) * (s * s);
    EightTimes(s * s, STEP * STEP);
    RealProduct(t);
    assert (8 * e) as real == 8.0 * e as real;
  }

  lemma EightTimes(a: real, b: real)
    requires a > 0.0 && b > 2.0
    ensures 4.0 * b * a >= 8.0 * a
  {
  }

  lemma RealSquareGrows(a: real, b: real)
    requires 0.0 <= a <= b
    ensures a * a <= b * b
  {
    assert a * a <= a * b;
    assert a * b <= b * b;
  }

  lemma RealProduct(n: int)
    ensures (n as real) * (n as real) == (n * n) as real
  {
  }

  // ------------------------------------------------------------ planes that repeat

  type Vector = (int, int)

  /** Moves that lead from a point to another image of it. */
  type Shifts = Vector -> bool

  ghost predicate Symmetric(shifts: Shifts) {
    forall a, b :: shifts((a, b)) ==> shifts((-a, -b))
  }

  /** wrap gives the shortest of the vectors that differ by a shift. */
  ghost predicate Shortest(wrap: Vector -> Vector, shifts: Shifts) {
    forall x, y :: ShortestFor(wrap, shifts, x, y)
  }

  ghost predicate ShortestFor(wrap: Vector -> Vector, shifts: Shifts, x: int, y: int) {
    var v := wrap((x, y));
    shifts((v.0 - x, v.1 - y)) && NoImageBelow(shifts, x, y, Norm2(v.0, v.1))
  }

  /** No image of the vector (x, y) has a squared length below n. */
  ghost predicate NoImageBelow(shifts: Shifts, x: int, y: int, n: int) {
    forall a, b :: shifts((a, b)) ==> Norm2(x + a, y + b) >= n
  }

  lemma Opposite(shifts: Shifts, x: int, y: int, n: int)
    requires Symmetric(shifts) && NoImageBelow(shifts, x, y, n)
    ensures NoImageBelow(shifts, -x, -y, n)
  {
    forall a, b | shifts((a, b))
      ensures Norm2(-x + a, -y + b) >= n
    {
      assert shifts((-a, -b));
      SameSquare(x - a);
      SameSquare(y - b);
      assert Norm2(x + -a, y + -b) >= n;
    }
  }

  lemma SameSquare(x: int)
    ensures (-x) * (-x) == x * x
  {
  }

  /** The squared length of the shortest vector to q from any image of p. */
  function Apart(wrap: Vector -> Vector, p: Point, q: Point): nat {
    var v := wrap((q.x - p.x, q.y - p.y));
    Norm2(v.0, v.1)
  }

  /** Consecutive points are at most one apart in each coordinate. */
  predicate Gradual(part: Poly) {
    forall i :: 0 <= i < |part| - 1 ==> NextTo(part[i], part[i + 1])
  }

  predicate NextTo(p: Point, q: Point) {
    -1 <= q.x - p.x <= 1 && -1 <= q.y - p.y <= 1
  }

  /** A step from q to the next point does not bring it closer by more than the root of 2. */
  lemma ApartGradually(wrap: Vector -> Vector, shifts: Shifts, p: Point, q: Point, q': Point)
    requires Shortest(wrap, shifts) && NextTo(q, q')
    ensures CloseNorms(Apart(wrap, p, q), Apart(wrap, p, q'))
  {
    var x, y := q'.x - p.x, q'.y - p.y;
    var ex, ey := q'.x - q.x, q'.y - q.y;
    assert ShortestFor(wrap, shifts, x, y) && ShortestFor(wrap, shifts, x - ex, y - ey);
    var v := wrap((x, y));
    var a, b := v.0 - x, v.1 - y;
    assert shifts((a, b));
    assert Norm2(x - ex + a, y - ey + b) >= Apart(wrap, p, q);
    OneMove(v.0, v.1, ex, ey);
    assert x - ex + a == v.0 - ex && y - ey + b == v.1 - ey;
    Closer(Norm2(v.0 - ex, v.1 - ey), Apart(wrap, p, q), Apart(wrap, p, q'));
  }

  lemma Closer(c: int, d: int, e: int)
    requires CloseNorms(c, e) && d <= c
    ensures CloseNorms(d, e)
  {
    if d > e + 2 {
      SquareGrows(d - e - 2, c - e - 2);
    }
  }

  // ------------------------------------------------------------------- skipping ahead

  /** root is within a quarter of the square root of n. */
  predicate Accurate(root: nat -> real, n: nat) {
    root(n) >= 0.0 && AtLeast(n, root(n) - 0.25) && (root(n) + 0.25) * (root(n) + 0.25) >= n as real
  }

  /** After i steps along part the distance from p has fallen by at most i times the step. */
  lemma {:induction false} FallsSlowly(wrap: Vector -> Vector, shifts: Shifts, p: Point, part: Poly, l: nat, i: nat,
                                       r: real)
    requires Shortest(wrap, shifts) && Gradual(part) && l + i < |part| && AtLeast(Apart(wrap, p, part[l]), r)
    ensures AtLeast(Apart(wrap, p, part[l + i]), r - (i as real) * STEP)
  {
    hide AtLeast;
    hide Apart;
    hide Shortest;
    hide NextTo;
    hide CloseNorms;
    if i > 0 {
      FallsSlowly(wrap, shifts, p, part, l, i - 1, r);
      var j := l + i - 1;
      assert NextTo(part[j], part[j + 1]);
      ApartGradually(wrap, shifts, p, part[j], part[j + 1]);
      StepDown(Apart(wrap, p, part[j]), Apart(wrap, p, part[j + 1]), r - ((i - 1) as real) * STEP);
      assert r - ((i - 1) as real) * STEP - STEP == r - (i as real) * STEP;
    }
  }

  /** The number of points to move on by. */
  function Skip(rootD: real, mind: real): int {
    ((rootD - mind) / STEP).Floor
  }

  lemma SkipAtLeastTwo(root: nat -> real, d: nat, mind: real)
    requires Accurate(root, d) && mind >= 0.0 && d as real >= (mind + 4.0) * (mind + 4.0)
    ensures Skip(root(d), mind) >= 2
  {
    if root(d) + 0.25 < mind + 4.0 {
      RealSquareGrowsMore(root(d) + 0.25, mind + 4.0);
    }
    assert root(d) - mind >= 3.75;
    DivAtLeast(root(d) - mind, 2.0);
  }

  lemma RealSquareGrowsMore(a: real, b: real)
    requires 0.0 <= a < b
    ensures a * a < b * b
  {
    PositiveProduct(b - a, b + a);
    assert (b - a) * (b + a) == b * b - a * a;
  }

  lemma DivAtLeast(a: real, k: real)
    requires a >= k * STEP
    ensures a / STEP >= k
  {
    assert (a / STEP) * STEP == a;
  }

  /** The points that are passed over are no closer than the closest pair so far. */
  lemma SkippedAreFar(wrap: Vector -> Vector, shifts: Shifts, p: Point, part: Poly, l: nat, i: nat, root: nat -> real,
                      mindist: nat)
    requires Shortest(wrap, shifts) && Gradual(part) && l + i < |part|
    requires Accurate(root, Apart(wrap, p, part[l])) && Accurate(root, mindist)
    requires i < Skip(root(Apart(wrap, p, part[l])), root(mindist))
    ensures Apart(wrap, p, part[l + i]) >= mindist
  {
    hide Apart;
    hide Shortest;
    hide Gradual;
    var rootD, mind := root(Apart(wrap, p, part[l])), root(mindist);
    FallsSlowly(wrap, shifts, p, part, l, i, rootD - 0.25);
    var r := rootD - 0.25 - (i as real) * STEP;
    SkipAtMost(rootD, mind, i + 1);
    assert r >= mind + 0.25;
    FarEnough(Apart(wrap, p, part[l + i]), r, mind + 0.25, mindist);
  }

  lemma FarEnough(n: nat, r: real, m: real, mindist: nat)
    requires AtLeast(n, r) && 0.0 < m <= r && m * m >= mindist as real
    ensures n >= mindist
  {
    RealSquareGrows(m, r);
    assert r * r <= n as real;
  }

  lemma SkipAtMost(rootD: real, mind: real, k: nat)
    requires k <= Skip(rootD, mind)
    ensures (k as real) * STEP <= rootD - mind
  {
    var q := (rootD - mind) / STEP;
    assert q * STEP == rootD - mind;
    assert k as real <= q;
  }

  // ------------------------------------------------------------------------ the search

  /** Points k of the first and l of the second polygon, the vector between them and its squared length. */
  datatype Nearest = Nearest(d: nat, k: nat, l: nat, dx: int, dy: int)

  ghost predicate FarFrom(wrap: Vector -> Vector, p: Point, part: Poly, n: nat, l: int) {
    forall j :: 0 <= j < l && j < |part| ==> Apart(wrap, p, part[j]) >= n
  }

  ghost predicate AllFar(wrap: Vector -> Vector, part1: Poly, part2: Poly, n: nat, k: int) {
    forall i :: 0 <= i < k && i < |part1| ==> FarFrom(wrap, part1[i], part2, n, |part2|)
  }

  /** r names a pair of points, and the vector between them as wrap gives it. */
  predicate Names(wrap: Vector -> Vector, part1: Poly, part2: Poly, r: Nearest) {
    && r.k < |part1| && r.l < |part2| && r.d == Apart(wrap, part1[r.k], part2[r.l])
    && (r.dx, r.dy) == wrap((part2[r.l].x - part1[r.k].x, part2[r.l].y - part1[r.k].y))
  }

  /** All distances are within the range where the square root is accurate. */
  ghost predicate InRange(wrap: Vector -> Vector, part1: Poly, part2: Poly, root: nat -> real, limit: nat) {
    && (forall n: nat :: n <= limit ==> Accurate(root, n))
    && forall p: Point, q: Point :: p in part1 && q in part2 ==> Apart(wrap, p, q) <= limit
  }

  lemma FarLess(wrap: Vector -> Vector, part1: Poly, part2: Poly, n: nat, n': nat, k: nat, l: nat)
    requires k < |part1| && AllFar(wrap, part1, part2, n, k) && FarFrom(wrap, part1[k], part2, n, l) && n' <= n
    ensures AllFar(wrap, part1, part2, n', k) && FarFrom(wrap, part1[k], part2, n', l)
  {
    hide Apart;
    forall i | 0 <= i < k && i < |part1|
      ensures FarFrom(wrap, part1[i], part2, n', |part2|)
    {
      assert FarFrom(wrap, part1[i], part2, n, |part2|);
    }
  }

  lemma SkipIsFar(wrap: Vector -> Vector, shifts: Shifts, p: Point, part: Poly, l: nat, root: nat -> real, n: nat)
    requires Shortest(wrap, shifts) && Gradual(part) && l < |part| && FarFrom(wrap, p, part, n, l)
    requires Accurate(root, Apart(wrap, p, part[l])) && Accurate(root, n)
    ensures FarFrom(wrap, p, part, n, l + Skip(root(Apart(wrap, p, part[l])), root(n)))
  {
    hide Apart;
    hide Shortest;
    hide Gradual;
    hide Accurate;
    hide Skip;
    forall j | 0 <= j < l + Skip(root(Apart(wrap, p, part[l])), root(n)) && j < |part|
      ensures Apart(wrap, p, part[j]) >= n
    {
      if j >= l {
        SkippedAreFar(wrap, shifts, p, part, l, j - l, root, n);
      }
    }
  }

  /** The closest pair so far, and its squared distance. */
  predicate IsBest(wrap: Vector -> Vector, part1: Poly, part2: Poly, bound: nat, result: Option<Nearest>,
                   mindist: nat) {
    && (result.None? ==> mindist == bound)
    && (result.Some? ==> mindist == result.value.d < bound && Names(wrap, part1, part2, result.value))
  }

  /** The search over the points of part2 for point k of part1, skipping the points that cannot be closest. */
  method SearchFrom(part1: Poly, part2: Poly, k: nat, bound: nat, found: Option<Nearest>, dist: nat,
                    wrap: Vector -> Vector, root: nat -> real, ghost shifts: Shifts, ghost limit: nat)
    returns (result: Option<Nearest>, mindist: nat)
    requires Shortest(wrap, shifts) && Gradual(part2) && InRange(wrap, part1, part2, root, limit)
    requires k < |part1| && IsBest(wrap, part1, part2, bound, found, dist) && AllFar(wrap, part1, part2, dist, k)
    ensures IsBest(wrap, part1, part2, bound, result, mindist) && AllFar(wrap, part1, part2, mindist, k + 1)
  {
    hide Shortest;
    hide Gradual;
    hide Apart;
    hide Accurate;
    hide Skip;
    hide FarFrom;
    result, mindist := found, dist;
    var mind := root(mindist);
    var far := (mind + 4.0) * (mind + 4.0);
    var p := part1[k];
    var l := 0;
    NoneYet(wrap, p, part2, mindist);
    while l < |part2|
      invariant 0 <= l && mind == root(mindist) && far == (mind + 4.0) * (mind + 4.0)
      invariant IsBest(wrap, part1, part2, bound, result, mindist)
      invariant AllFar(wrap, part1, part2, mindist, k) && FarFrom(wrap, p, part2, mindist, l)
      decreases |part2| - l
    {
      var v := wrap((part2[l].x - p.x, part2[l].y - p.y));
      var d := Norm2(v.0, v.1);
      DistanceIs(wrap, p, part2[l]);
      assert p in part1 && part2[l] in part2;
      if d < mindist {
        FarLess(wrap, part1, part2, mindist, d, k, l);
        mindist := d;
        mind := root(mindist);
        far := (mind + 4.0) * (mind + 4.0);
        result := Some(Nearest(mindist, k, l, v.0, v.1));
        OneFarther(wrap, p, part2, mindist, l);
        l := l + 1;
      } else if d as real < far {
        OneFarther(wrap, p, part2, mindist, l);
        l := l + 1;
      } else {
        SkipIsFar(wrap, shifts, p, part2, l, root, mindist);
        RootNotNegative(root, mindist);
        SkipAtLeastTwo(root, d, mind);
        l := l + Skip(root(d), mind);
      }
    }
    AllOfThem(wrap, p, part2, mindist, l);
  }

  /** The search over points of part2 for each of part1. */
  method Search(part1: Poly, part2: Poly, bound: nat, wrap: Vector -> Vector, root: nat -> real,
                ghost shifts: Shifts, ghost limit: nat)
    returns (result: Option<Nearest>)
    requires Shortest(wrap, shifts) && Gradual(part2) && InRange(wrap, part1, part2, root, limit)
    ensures result.None? ==> AllFar(wrap, part1, part2, bound, |part1|)
    ensures result.Some? ==> result.value.d < bound && Names(wrap, part1, part2, result.value)
                             && AllFar(wrap, part1, part2, result.value.d, |part1|)
  {
    hide Shortest;
    hide Gradual;
    hide Names;
    hide InRange;
    result := None;
    var mindist := bound;
    for k := 0 to |part1|
      invariant IsBest(wrap, part1, part2, bound, result, mindist) && AllFar(wrap, part1, part2, mindist, k)
    {
      result, mindist := SearchFrom(part1, part2, k, bound, result, mindist, wrap, root, shifts, limit);
    }
  }

  lemma NoneYet(wrap: Vector -> Vector, p: Point, part: Poly, n: nat)
    ensures FarFrom(wrap, p, part, n, 0)
  {
  }

  lemma OneFarther(wrap: Vector -> Vector, p: Point, part: Poly, n: nat, l: nat)
    requires FarFrom(wrap, p, part, n, l) && l < |part| && Apart(wrap, p, part[l]) >= n
    ensures FarFrom(wrap, p, part, n, l + 1)
  {
    hide Apart;
  }

  lemma AllOfThem(wrap: Vector -> Vector, p: Point, part: Poly, n: nat, l: nat)
    requires FarFrom(wrap, p, part, n, l) && l >= |part|
    ensures FarFrom(wrap, p, part, n, |part|)
  {
    hide Apart;
  }

  lemma DistanceIs(wrap: Vector -> Vector, p: Point, q: Point)
    ensures Apart(wrap, p, q) == var v := wrap((q.x - p.x, q.y - p.y)); Norm2(v.0, v.1)
  {
  }

  lemma RootNotNegative(root: nat -> real, n: nat)
    requires Accurate(root, n)
    ensures root(n) >= 0.0
  {
  }

  // ------------------------------------------------------------- the answer, unskipped

  /** No image of any point of part2 is closer than n to a point of part1. */
  ghost predicate NoneCloser(shifts: Shifts, part1: Poly, part2: Poly, n: int) {
    forall i, j :: 0 <= i < |part1| && 0 <= j < |part2| ==>
      NoImageBelow(shifts, part2[j].x - part1[i].x, part2[j].y - part1[i].y, n)
  }

  /** r is a pair of points, and a vector from the first to some image of the second. */
  ghost predicate Joins(shifts: Shifts, part1: Poly, part2: Poly, r: Nearest) {
    && r.k < |part1| && r.l < |part2| && r.d == Norm2(r.dx, r.dy)
    && shifts((r.dx - (part2[r.l].x - part1[r.k].x), r.dy - (part2[r.l].y - part1[r.k].y)))
  }

  lemma FarIsNoneCloser(wrap: Vector -> Vector, shifts: Shifts, part1: Poly, part2: Poly, n: nat)
    requires Shortest(wrap, shifts) && AllFar(wrap, part1, part2, n, |part1|)
    ensures NoneCloser(shifts, part1, part2, n)
  {
    hide Norm2;
    forall i, j | 0 <= i < |part1| && 0 <= j < |part2|
      ensures NoImageBelow(shifts, part2[j].x - part1[i].x, part2[j].y - part1[i].y, n)
    {
      assert FarFrom(wrap, part1[i], part2, n, |part2|);
      assert Apart(wrap, part1[i], part2[j]) >= n;
      assert ShortestFor(wrap, shifts, part2[j].x - part1[i].x, part2[j].y - part1[i].y);
    }
  }

  lemma NamesJoins(wrap: Vector -> Vector, shifts: Shifts, part1: Poly, part2: Poly, r: Nearest)
    requires Shortest(wrap, shifts) && Names(wrap, part1, part2, r)
    ensures Joins(shifts, part1, part2, r)
  {
    hide NoImageBelow;
    assert ShortestFor(wrap, shifts, part2[r.l].x - part1[r.k].x, part2[r.l].y - part1[r.k].y);
  }

  lemma NoneCloserSwapped(shifts: Shifts, part1: Poly, part2: Poly, n: int)
    requires Symmetric(shifts) && NoneCloser(shifts, part1, part2, n)
    ensures NoneCloser(shifts, part2, part1, n)
  {
    forall i, j | 0 <= i < |part2| && 0 <= j < |part1|
      ensures NoImageBelow(shifts, part1[j].x - part2[i].x, part1[j].y - part2[i].y, n)
    {
      Opposite(shifts, part2[i].x - part1[j].x, part2[i].y - part1[j].y, n);
    }
  }

  function Swapped(r: Nearest): Nearest {
    Nearest(r.d, r.l, r.k, -r.dx, -r.dy)
  }

  lemma JoinsSwapped(shifts: Shifts, part1: Poly, part2: Poly, r: Nearest)
    requires Symmetric(shifts) && Joins(shifts, part1, part2, r)
    ensures Joins(shifts, part2, part1, Swapped(r))
  {
    SameSquare(r.dx);
    SameSquare(r.dy);
    var a, b := r.dx - (part2[r.l].x - part1[r.k].x), r.dy - (part2[r.l].y - part1[r.k].y);
    assert shifts((a, b)) && shifts((-a, -b));
  }

  /**
   * findmin: a pair of points as close as any pair of images of points of the two polygons,
   * or None when none is closer than the bound.
   */
  method FindMin(part1: Poly, part2: Poly, mindist: nat, distfunc2: Vector -> Vector, root: nat -> real,
                 ghost shifts: Shifts, ghost limit: nat)
    returns (result: Option<Nearest>)
    requires Symmetric(shifts) && Shortest(distfunc2, shifts) && Gradual(part1) && Gradual(part2)
    requires InRange(distfunc2, part1, part2, root, limit) && InRange(distfunc2, part2, part1, root, limit)
    ensures result.None? ==> NoneCloser(shifts, part1, part2, mindist)
    ensures result.Some? ==> result.value.d < mindist && Joins(shifts, part1, part2, result.value)
                             && NoneCloser(shifts, part1, part2, result.value.d)
  {
    hide Symmetric;
    hide Shortest;
    hide InRange;
    hide AllFar;
    hide Names;
    hide NoneCloser;
    hide Joins;
    hide Gradual;
    if |part1| > |part2| {
      result := Search(part2, part1, mindist, distfunc2, root, shifts, limit);
      FarIsNoneCloser(distfunc2, shifts, part2, part1, if result.Some? then result.value.d else mindist);
      NoneCloserSwapped(shifts, part2, part1, if result.Some? then result.value.d else mindist);
      if result.Some? {
        var r := result.value;
        NamesJoins(distfunc2, shifts, part2, part1, r);
        JoinsSwapped(shifts, part2, part1, r);
        result := Some(Nearest(r.d, r.l, r.k, -r.dx, -r.dy));
      }
    } else {
      result := Search(part1, part2, mindist, distfunc2, root, shifts, limit);
      FarIsNoneCloser(distfunc2, shifts, part1, part2, if result.Some? then result.value.d else mindist);
      if result.Some? {
        NamesJoins(distfunc2, shifts, part1, part2, result.value);
      }
    }
  }
}
