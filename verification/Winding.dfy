/** polydir: which way a polygon turns. */
module Winding {
  import opened TileMap
  import opened Tracing
  import opened FindEdges

  /** Whether a direction counts as downward, which the right and the left do. */
  predicate Downward(d: Dir) {
    DirY(d) >= 0
  }

  function Bend(d: Dir, e: Dir): int {
    DirX(d) * DirY(e) - DirX(e) * DirY(d)
  }

  /** What going from direction d to direction e adds to the winding. */
  function Wind(d: Dir, e: Dir): int {
    if Downward(d) == Downward(e) || Bend(d, e) == 0 then 0 else if Bend(d, e) > 0 then -1 else 1
  }

  /** The winding along poly when it is entered in direction d. */
  function WindingOf(d: Dir, poly: Poly): int {
    if poly == [] then 0
    else
      var front := poly[..|poly| - 1];
      WindingOf(d, front) + Wind(if front == [] then d else front[|front| - 1].dir, poly[|poly| - 1].dir)
  }

  function Direction(poly: Poly): int {
    if poly == [] then 0 else WindingOf(poly[|poly| - 1].dir, poly) / 2
  }

  method Polydir(poly: Poly) returns (direction: int)
    requires poly != []
    ensures direction == Direction(poly)
    ensures NoReversal(poly) ==> 8 * direction == TurnsOf(poly[|poly| - 1].dir, poly)
  {
    if NoReversal(poly) {
      DirectionIsTurns(poly);
    }
    hide NoReversal;
    hide TurnsOf;
    hide DirX;
    hide DirY;
    var last := poly[|poly| - 1].dir;
    var d := last;
    var wind := 0;
    assert poly[..0] == [];
    WindingOfNone(last);
    hide WindingOf;
    for i := 0 to |poly|
      invariant wind == WindingOf(last, poly[..i]) && d == if i == 0 then last else poly[i - 1].dir
    {
      WindingNext(last, poly, i);
      if Downward(d) != Downward(poly[i].dir) {
        var side := Bend(d, poly[i].dir);
        if side != 0 {
          if side > 0 {
            wind := wind - 1;
          } else {
            wind := wind + 1;
          }
        }
      }
      d := poly[i].dir;
    }
    assert poly[..|poly|] == poly;
    return wind / 2;
  }

  lemma WindingOfNone(d: Dir)
    ensures WindingOf(d, []) == 0
  {
  }

  lemma WindingNext(last: Dir, poly: Poly, i: nat)
    requires i < |poly|
    ensures WindingOf(last, poly[..i + 1])
            == WindingOf(last, poly[..i]) + Wind(if i == 0 then last else poly[i - 1].dir, poly[i].dir)
  {
    assert poly[..i + 1][..i] == poly[..i];
  }

  /** A change between downward and upward that is not a reversal winds by one. */
  lemma WindChanges(d: Dir, e: Dir)
    requires e != Back(d)
    ensures Wind(d, e) == 0 <==> Downward(d) == Downward(e)
    ensures -1 <= Wind(d, e) <= 1
  {
  }

  /**
   * Along a polygon that never turns straight back, the winding is even just when the direction is as downward
   * as at first.
   */
  lemma {:induction false} WindingParity(d: Dir, poly: Poly)
    requires poly != [] ==> poly[0].dir != Back(d)
    requires forall i :: 0 <= i < |poly| - 1 ==> poly[i + 1].dir != Back(poly[i].dir)
    ensures WindingOf(d, poly) % 2 == 0 <==> Downward(d) == Downward(if poly == [] then d else poly[|poly| - 1].dir)
  {
    hide Wind;
    hide Downward;
    hide Back;
    if poly != [] {
      var front := poly[..|poly| - 1];
      WindingParity(d, front);
      assert front != [] ==> poly[|front| - 1 + 1].dir != Back(poly[|front| - 1].dir);
      WindChanges(if front == [] then d else front[|front| - 1].dir, poly[|poly| - 1].dir);
    }
  }

  /** For the polygons that are found the winding is even, so that halving it loses nothing. */
  lemma DirectionIsWhole(m: Tiles, log: seq<Found>, i: nat)
    requires Valid(m) && Disjoint(m, log) && i < |log|
    ensures var poly := log[i].poly; poly != [] && 2 * Direction(poly) == WindingOf(poly[|poly| - 1].dir, poly)
  {
    hide WindingOf;
    FoundNoReversal(m, log, i);
    WindingParity(log[i].poly[|log[i].poly| - 1].dir, log[i].poly);
  }

  /** A polygon that is found never turns straight back. */
  lemma FoundNoReversal(m: Tiles, log: seq<Found>, i: nat)
    requires Valid(m) && Disjoint(m, log) && i < |log|
    ensures log[i].poly != [] && NoReversal(log[i].poly)
  {
    var poly, hs := log[i].poly, log[i].hs;
    assert DrawsOrbit(m, poly, hs);
    hide Boundary;
    hide Next;
    hide Wrap;
    hide Back;
    hide WindingOf;
    assert forall k :: 0 <= k < |hs| ==> poly[k].dir == hs[k].dir;
    forall k | 0 <= k < |hs|
      ensures Boundary(m, hs[k]) && Next(m, hs[k]).dir != Back(hs[k].dir)
    {
      NextBoundary(m, hs[k]);
    }
    assert Next(m, hs[|hs| - 1]).dir == poly[0].dir;
    forall k | 0 <= k < |poly| - 1
      ensures poly[k + 1].dir != Back(poly[k].dir)
    {
      assert Next(m, hs[k]) == hs[k + 1];
    }
  }

  // ------------------------------------------------------------------- turning numbers

  /** How far one turns to the left from d to e, in eighths of a full turn. */
  function LeftTurn(d: Dir, e: Dir): int {
    (e - d + 12) % 8 - 4
  }

  /** The turns along poly, when it is entered in direction d. */
  function TurnsOf(d: Dir, poly: Poly): int {
    if poly == [] then 0
    else
      var n := |poly| - 1;
      TurnsOf(d, poly[..n]) + LeftTurn(if n == 0 then d else poly[n - 1].dir, poly[n].dir)
  }

  /** Once around, no corner turns straight back. */
  predicate NoReversal(poly: Poly) {
    && (forall i :: 0 <= i < |poly| - 1 ==> poly[i + 1].dir != Back(poly[i].dir))
    && (poly != [] ==> poly[0].dir != Back(poly[|poly| - 1].dir))
  }

  /** How far d is past the horizontal direction before it, which for the right is the left. */
  function PastHorizontal(d: Dir): int {
    if d == 0 then 4 else d % 4
  }

  /** Half a turn counts once, when it passes a horizontal direction. */
  lemma WindIsTurn(d: Dir, e: Dir)
    requires e != Back(d)
    ensures LeftTurn(d, e) == 4 * Wind(d, e) + PastHorizontal(e) - PastHorizontal(d)
  {
    TurnIs(d, e);
    BendSide(d, e);
    hide LeftTurn;
    hide Bend;
  }

  lemma TurnIs(d: Dir, e: Dir)
    ensures LeftTurn(d, e) == if e - d < -4 then e - d + 8 else if e - d < 4 then e - d else e - d - 8
  {
  }

  /** Which way is the shorter one from d to e. */
  lemma BendSide(d: Dir, e: Dir)
    ensures Bend(d, e) < 0 <==> 0 < e - d < 4 || e - d < -4
    ensures Bend(d, e) == 0 <==> e == d || e - d == 4 || e - d == -4
  {
    if d == 0 || d == 4 {
      assert DirY(d) == 0;
    } else if d == 2 || d == 6 {
      assert DirX(d) == 0;
    } else if d == 1 || d == 5 {
      assert DirX(d) == -DirY(d);
    } else {
      assert DirX(d) == DirY(d);
    }
  }

  lemma {:induction false} WindingIsTurns(d: Dir, poly: Poly)
    requires poly != [] ==> poly[0].dir != Back(d)
    requires forall i :: 0 <= i < |poly| - 1 ==> poly[i + 1].dir != Back(poly[i].dir)
    ensures var last := if poly == [] then d else poly[|poly| - 1].dir;
            TurnsOf(d, poly) == 4 * WindingOf(d, poly) + PastHorizontal(last) - PastHorizontal(d)
  {
    hide Wind;
    hide LeftTurn;
    hide PastHorizontal;
    hide Back;
    if poly != [] {
      var front := poly[..|poly| - 1];
      WindingIsTurns(d, front);
      assert front != [] ==> poly[|front| - 1 + 1].dir != Back(poly[|front| - 1].dir);
      WindIsTurn(if front == [] then d else front[|front| - 1].dir, poly[|poly| - 1].dir);
    }
  }

  /** The direction of a polygon without reversals is the number of full turns that it makes to the left. */
  lemma DirectionIsTurns(poly: Poly)
    requires poly != [] && NoReversal(poly)
    ensures 8 * Direction(poly) == TurnsOf(poly[|poly| - 1].dir, poly)
  {
    hide Wind;
    hide LeftTurn;
    hide PastHorizontal;
    hide Back;
    hide TurnsOf;
    var last := poly[|poly| - 1].dir;
    WindingIsTurns(last, poly);
    WindingParity(last, poly);
  }

  /** The polygons that are found have no reversals, so their direction is the number of full turns they make. */
  lemma FoundTurns(m: Tiles, log: seq<Found>, i: nat)
    requires Valid(m) && Disjoint(m, log) && i < |log|
    ensures var poly := log[i].poly;
            poly != [] && NoReversal(poly) && 8 * Direction(poly) == TurnsOf(poly[|poly| - 1].dir, poly)
  {
    hide TurnsOf;
    hide Direction;
    FoundNoReversal(m, log, i);
    DirectionIsTurns(log[i].poly);
  }

  /** The outline of a single filled tile at (x, y) turns once to the left. */
  lemma TileDirection(x: int, y: int)
    ensures Direction([Point(x, y, 6), Point(x, y + 1, 0), Point(x + 1, y + 1, 2), Point(x + 1, y, 4)]) == 1
  {
    DirectionOfFour([Point(x, y, 6), Point(x, y + 1, 0), Point(x + 1, y + 1, 2), Point(x + 1, y, 4)]);
  }

  /** The outline of a hole of a single tile at (x, y) turns once to the right. */
  lemma HoleDirection(x: int, y: int)
    ensures Direction([Point(x, y, 0), Point(x + 1, y, 6), Point(x + 1, y + 1, 4), Point(x, y + 1, 2)]) == -1
  {
    DirectionOfFour([Point(x, y, 0), Point(x + 1, y, 6), Point(x + 1, y + 1, 4), Point(x, y + 1, 2)]);
  }

  lemma DirectionOfFour(p: Poly)
    requires |p| == 4
    ensures Direction(p) == (Wind(p[3].dir, p[0].dir) + Wind(p[0].dir, p[1].dir) + Wind(p[1].dir, p[2].dir)
                             + Wind(p[2].dir, p[3].dir)) / 2
  {
    hide Wind;
    assert p[..3][..2] == p[..2] && p[..2][..1] == p[..1] && p[..1][..0] == [];
    var last := p[3].dir;
    assert WindingOf(last, p[..1]) == Wind(last, p[0].dir);
    assert WindingOf(last, p[..2]) == Wind(last, p[0].dir) + Wind(p[0].dir, p[1].dir);
    assert WindingOf(last, p[..3]) == Wind(last, p[0].dir) + Wind(p[0].dir, p[1].dir) + Wind(p[1].dir, p[2].dir);
  }

  lemma {:induction false} WindingConcat(d: Dir, a: Poly, b: Poly)
    ensures WindingOf(d, a + b) == WindingOf(d, a) + WindingOf(if a == [] then d else a[|a| - 1].dir, b)
  {
    hide Wind;
    if b == [] {
      assert a + b == a;
    } else {
      assert (a + b)[..|a + b| - 1] == a + b[..|b| - 1];
      WindingConcat(d, a, b[..|b| - 1]);
    }
  }

  /** Where on the polygon one starts does not matter. */
  lemma DirectionFromAnywhere(a: Poly, b: Poly)
    ensures Direction(a + b) == Direction(b + a)
  {
    hide WindingOf;
    if a == [] || b == [] {
      assert a + b == b + a;
    } else {
      WindingConcat(b[|b| - 1].dir, a, b);
      WindingConcat(a[|a| - 1].dir, b, a);
    }
  }
}
