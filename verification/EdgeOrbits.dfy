/** Orbits of the boundary, and how each tile's diagonal or left side stands in them. */
module EdgeOrbits {
  import opened Seqs
  import opened TileMap
  import opened Tracing

  // ------------------------------------------------------------------- closed under Next

  /** A set of boundary half-edges that whole orbits make up. */
  ghost predicate Closed(m: Tiles, s: set<HalfEdge>)
    requires Valid(m)
  {
    && (forall h :: h in s ==> Boundary(m, h) && Next(m, h) in s)
    && (forall h :: Boundary(m, h) && Next(m, h) in s ==> h in s)
  }

  lemma OrbitIsClosed(m: Tiles, hs: seq<HalfEdge>)
    requires Valid(m) && Orbit(m, hs)
    ensures Closed(m, Elements(hs))
  {
    hide Boundary;
    hide Next;
    forall h | h in Elements(hs)
      ensures Boundary(m, h) && Next(m, h) in Elements(hs)
    {
      var i :| 0 <= i < |hs| && hs[i] == h;
      assert i < |hs| - 1 ==> Next(m, hs[i]) == hs[i + 1];
    }
    forall h | Boundary(m, h) && Next(m, h) in Elements(hs)
      ensures h in Elements(hs)
    {
      var i :| 0 <= i < |hs| && hs[i] == Next(m, h);
      NextInjective(m, h, if i == 0 then hs[|hs| - 1] else hs[i - 1]);
    }
  }

  lemma UnionIsClosed(m: Tiles, s: set<HalfEdge>, t: set<HalfEdge>)
    requires Valid(m) && Closed(m, s) && Closed(m, t)
    ensures Closed(m, s + t)
  {
    hide Boundary;
    hide Next;
  }

  /** A path from outside a closed set stays outside. */
  lemma {:induction false} PathStaysOut(m: Tiles, hs: seq<HalfEdge>, s: set<HalfEdge>, i: nat)
    requires Valid(m) && Path(m, hs) && Closed(m, s) && hs[0] !in s && i < |hs|
    ensures hs[i] !in s
  {
    hide Boundary;
    hide Next;
    if i > 0 {
      PathStaysOut(m, hs, s, i - 1);
      assert Next(m, hs[i - 1]) == hs[i];
    }
  }

  /** A path from inside a closed set stays inside. */
  lemma {:induction false} PathStaysIn(m: Tiles, hs: seq<HalfEdge>, s: set<HalfEdge>, i: nat)
    requires Valid(m) && Path(m, hs) && Closed(m, s) && hs[0] in s && i < |hs|
    ensures hs[i] in s
  {
    hide Boundary;
    hide Next;
    if i > 0 {
      PathStaysIn(m, hs, s, i - 1);
      assert Next(m, hs[i - 1]) == hs[i];
    }
  }

  /** A path that leads into a closed set lies in it. */
  lemma PathLeadsIn(m: Tiles, hs: seq<HalfEdge>, s: set<HalfEdge>)
    requires Valid(m) && Path(m, hs) && Closed(m, s) && Next(m, hs[|hs| - 1]) in s
    ensures forall i :: 0 <= i < |hs| ==> hs[i] in s
  {
    hide Boundary;
    hide Next;
    assert Boundary(m, hs[|hs| - 1]);
    if hs[0] !in s {
      PathStaysOut(m, hs, s, |hs| - 1);
      assert false;
    }
    forall i | 0 <= i < |hs|
      ensures hs[i] in s
    {
      PathStaysIn(m, hs, s, i);
    }
  }

  /** Two orbits with a half-edge in common consist of the same half-edges. */
  lemma {:induction false} MeetingOrbits(m: Tiles, gs: seq<HalfEdge>, hs: seq<HalfEdge>, i: nat, j: nat)
    requires Valid(m) && Orbit(m, gs) && Orbit(m, hs) && i < |gs| && gs[i] in hs && j < |gs|
    ensures gs[j] in hs
  {
    hide Boundary;
    hide Next;
    OrbitIsClosed(m, hs);
    if gs[0] !in Elements(hs) {
      PathStaysOut(m, gs, Elements(hs), i);
      assert false;
    }
    PathStaysIn(m, gs, Elements(hs), j);
  }

  /** Every boundary half-edge lies on an orbit that starts with it. */
  lemma OrbitFrom(m: Tiles, h: HalfEdge) returns (hs: seq<HalfEdge>)
    requires Valid(m) && Boundary(m, h)
    ensures Orbit(m, hs) && hs[0] == h
  {
    hide Boundary;
    hide Next;
    OneStepPath(m, h);
    hs := [h];
    while Next(m, hs[|hs| - 1]) != h
      invariant Path(m, hs) && hs[0] == h
      decreases |HalfEdges(m)| - |hs|
    {
      PathFits(m, hs);
      PathSnoc(m, hs);
      hs := hs + [Next(m, hs[|hs| - 1])];
      PathFits(m, hs);
    }
  }

  /** A number that never rises along an orbit does not fall on it either. */
  lemma RankStays(m: Tiles, hs: seq<HalfEdge>, rank: HalfEdge -> int)
    requires Valid(m) && Orbit(m, hs)
    requires forall i :: 0 <= i < |hs| ==> rank(Next(m, hs[i])) <= rank(hs[i])
    ensures rank(Next(m, hs[0])) >= rank(hs[0])
  {
    hide Boundary;
    hide Next;
    if |hs| > 1 {
      assert Next(m, hs[0]) == hs[1];
      RankFalls(m, hs, rank, |hs| - 1);
    }
    assert rank(Next(m, hs[|hs| - 1])) <= rank(hs[|hs| - 1]);
  }

  lemma {:induction false} RankFalls(m: Tiles, hs: seq<HalfEdge>, rank: HalfEdge -> int, i: nat)
    requires Valid(m) && Path(m, hs) && 1 <= i < |hs|
    requires forall i :: 0 <= i < |hs| ==> rank(Next(m, hs[i])) <= rank(hs[i])
    ensures rank(hs[i]) <= rank(hs[1])
  {
    hide Boundary;
    hide Next;
    if i > 1 {
      RankFalls(m, hs, rank, i - 1);
      assert Next(m, hs[i - 1]) == hs[i];
    }
  }

  // ------------------------------------------------------------ tiles and their edges

  /** Where the source starts to trace for the tile of cell c, in its first pass. */
  function StartOf(m: Tiles, c: Cell): Option<HalfEdge>
    requires Valid(m) && Inside(m, c)
  {
    var t := TileAt(m, c);
    if t == REC_UR then Some(HalfEdge(c, 7))
    else if t == REC_DR then Some(HalfEdge(Step(m, c, 0), 5))
    else if t == REC_DL then Some(HalfEdge(Step(m, c, 7), 3))
    else if t == REC_UL then Some(HalfEdge(Step(m, c, 6), 1))
    else if Filled(t) && !OneOf(TileAt(m, Step(m, c, 4)), REC_DR, REC_UR) then Some(HalfEdge(c, 6))
    else None
  }

  /** The corners of cell c, and the tiles around them that matter. */
  lemma Corners(m: Tiles, c: Cell)
    requires Valid(m) && Inside(m, c)
    ensures Step(m, Step(m, c, 0), 4) == c && Step(m, Step(m, c, 6), 2) == c && Step(m, Step(m, c, 7), 3) == c
    ensures Step(m, Step(m, c, 4), 7) == Step(m, c, 6) && Step(m, Step(m, c, 4), 0) == c
    ensures Step(m, Step(m, c, 6), 3) == Step(m, c, 4) && Step(m, Step(m, c, 0), 3) == Step(m, c, 2)
    ensures Step(m, Step(m, c, 7), 2) == Step(m, c, 0) && Step(m, Step(m, c, 7), 4) == Step(m, c, 6)
  {
    TwoSteps(m, c, 0, 4);
    TwoSteps(m, c, 6, 2);
    TwoSteps(m, c, 7, 3);
    TwoSteps(m, c, 4, 7);
    TwoSteps(m, c, 4, 0);
    TwoSteps(m, c, 6, 3);
    TwoSteps(m, c, 0, 3);
    TwoSteps(m, c, 7, 2);
    TwoSteps(m, c, 7, 4);
    WrapInside(m, c);
    hide Wrap;
  }

  lemma StartFacts(m: Tiles, c: Cell)
    requires Valid(m) && Inside(m, c) && StartOf(m, c).Some?
    ensures var s := StartOf(m, c).value; Boundary(m, s) && Marking(s) && MarkCell(m, s) == c
  {
    Corners(m, c);
    hide Step;
    hide TileAt;
  }

  /** The tile that a boundary half-edge marks has a start, on the same orbit and at most one step away. */
  lemma MarkedHasStart(m: Tiles, h: HalfEdge)
    requires Valid(m) && Boundary(m, h) && Marking(h)
    ensures var s := StartOf(m, MarkCell(m, h));
            s.Some? && Boundary(m, s.value) && (s.value == h || Next(m, s.value) == h || Next(m, h) == s.value)
  {
    var c := MarkCell(m, h);
    MarkedStart(m, h);
    StartFacts(m, c);
    if StartOf(m, c).value != h {
      LeftSide(m, h);
    }
  }

  lemma MarkedStart(m: Tiles, h: HalfEdge)
    requires Valid(m) && Boundary(m, h) && Marking(h)
    ensures StartOf(m, MarkCell(m, h)).Some?
    ensures h.dir != 6 ==> StartOf(m, MarkCell(m, h)).value == h
    ensures h.dir == 6 ==> (TileAt(m, h.loc) == REC_DL || TileAt(m, h.loc) == REC_UL
                            || StartOf(m, MarkCell(m, h)).value == h)
  {
    var l, d := h.loc, h.dir;
    TwoSteps(m, l, 4, 0);
    TwoSteps(m, l, 3, 7);
    TwoSteps(m, l, 2, 6);
    WrapInside(m, l);
    hide Wrap;
    hide TileAt;
  }

  /** The left side of a tile with a diagonal is next to that diagonal. */
  lemma LeftSide(m: Tiles, h: HalfEdge)
    requires Valid(m) && Boundary(m, h) && h.dir == 6 && (TileAt(m, h.loc) == REC_DL || TileAt(m, h.loc) == REC_UL)
    ensures var s := StartOf(m, h.loc);
            s.Some? && Boundary(m, s.value) && (Next(m, s.value) == h || Next(m, h) == s.value)
  {
    var c := h.loc;
    StartFacts(m, c);
    Corners(m, c);
    var s := StartOf(m, c).value;
    hide TileAt;
    hide Step;
    if TileAt(m, c) == REC_DL {
      TurnsFirst(m, s);
    } else {
      TurnsFirst(m, h);
    }
  }

  /** If the sharpest left turn is open, it is taken. */
  lemma TurnsFirst(m: Tiles, h: HalfEdge)
    requires Valid(m) && Boundary(m, h) && !NoEdge(m, Head(m, h), Turn(h.dir, 3))
    ensures Next(m, h) == HalfEdge(Head(m, h), Turn(h.dir, 3))
  {
    hide NoEdge;
    WallAtHead(m, h);
    assert !Barred(m, Head(m, h), h.dir, 0);
  }

  // ---------------------------------------------------------------- flat half-edges

  /** The half-edge that goes up the left side of cell c. */
  function UpEdge(m: Tiles, c: Cell): HalfEdge
    requires Valid(m)
  {
    HalfEdge(Step(m, c, 6), 2)
  }

  /** The half-edge that goes left along the top of cell c. */
  function TopEdge(m: Tiles, c: Cell): HalfEdge
    requires Valid(m)
  {
    HalfEdge(Step(m, c, 0), 4)
  }

  /** The half-edge that goes right along the bottom of cell c. */
  function BottomEdge(m: Tiles, c: Cell): HalfEdge
    requires Valid(m)
  {
    HalfEdge(Step(m, c, 6), 0)
  }

  lemma UpEdgeOf(m: Tiles, h: HalfEdge)
    requires Valid(m) && Inside(m, h.loc) && h.dir == 2
    ensures UpEdge(m, Step(m, h.loc, 2)) == h
  {
    StepBack(m, h.loc, 2);
  }

  /** An upward half-edge has a filled tile on its left, or the diagonal of that tile is next to it. */
  lemma UpBesideFilled(m: Tiles, h: HalfEdge)
    requires Valid(m) && Boundary(m, h) && h.dir == 2
    ensures Filled(TileAt(m, Step(m, h.loc, 3))) || NextToMarking(m, h)
    ensures !OneOf(TileAt(m, Step(m, h.loc, 2)), REC_UL, REC_DL)
  {
    var c := Step(m, h.loc, 3);
    Corners(m, c);
    TwoSteps(m, h.loc, 3, 7);
    WrapInside(m, h.loc);
    StepBack(m, h.loc, 2);
    TwoSteps(m, h.loc, 2, 4);
    assert Step(m, c, 7) == h.loc && Step(m, Step(m, h.loc, 2), 4) == c;
    hide TileAt;
    hide Step;
    if TileAt(m, c) == REC_UR {
      StartFacts(m, c);
      TurnsFirst(m, HalfEdge(c, 7));
    } else if TileAt(m, c) == REC_DR {
      TurnsFirst(m, h);
    }
  }

  lemma TopBesideFilled(m: Tiles, h: HalfEdge)
    requires Valid(m) && Boundary(m, h) && h.dir == 4
    ensures Filled(TileAt(m, Step(m, h.loc, 4))) || NextToMarking(m, h)
    ensures !OneOf(TileAt(m, Step(m, Step(m, h.loc, 4), 2)), REC_DL, REC_DR)
  {
    var c := Step(m, h.loc, 4);
    Corners(m, c);
    StepBack(m, h.loc, 4);
    TwoSteps(m, h.loc, 4, 2);
    assert Step(m, c, 2) == Step(m, h.loc, 3);
    hide TileAt;
    hide Step;
    if TileAt(m, c) == REC_UL {
      StartFacts(m, c);
      UpperLeftTop(m, c, h);
    } else if TileAt(m, c) == REC_UR {
      TurnsFirst(m, h);
    }
  }

  lemma UpperLeftTop(m: Tiles, c: Cell, h: HalfEdge)
    requires Valid(m) && Inside(m, c) && TileAt(m, c) == REC_UL && h == TopEdge(m, c) && Boundary(m, h)
    ensures NextToMarking(m, h)
  {
    var g := HalfEdge(Step(m, c, 6), 1);
    StartFacts(m, c);
    TwoSteps(m, c, 6, 1);
    assert Head(m, g) == h.loc;
    hide TileAt;
    hide Step;
    hide NoEdge;
    TurnsFirst(m, g);
    assert Next(m, g) == h;
  }

  lemma BottomBesideFilled(m: Tiles, h: HalfEdge)
    requires Valid(m) && Boundary(m, h) && h.dir == 0
    ensures Filled(TileAt(m, Step(m, h.loc, 2))) || NextToMarking(m, h)
    ensures !OneOf(TileAt(m, h.loc), REC_UR, REC_UL) && Step(m, Step(m, h.loc, 2), 6) == h.loc
  {
    var c := Step(m, h.loc, 2);
    Corners(m, c);
    StepBack(m, h.loc, 2);
    hide TileAt;
    if TileAt(m, c) == REC_DR {
      StartFacts(m, c);
      var g := HalfEdge(Step(m, c, 0), 5);
      TwoSteps(m, c, 0, 5);
      assert Head(m, g) == h.loc;
      hide Step;
      TurnsFirst(m, g);
      assert Next(m, g) == h;
    } else if TileAt(m, c) == REC_DL {
      TwoSteps(m, h.loc, 0, 3);
      assert Step(m, Head(m, h), 3) == c;
      hide Step;
      TurnsFirst(m, h);
    }
  }

  /** h comes right before or right after a half-edge that marks a tile. */
  ghost predicate NextToMarking(m: Tiles, h: HalfEdge)
    requires Valid(m) && Boundary(m, h)
  {
    (Boundary(m, Next(m, h)) && Marking(Next(m, h)))
    || exists g :: Boundary(m, g) && Marking(g) && Next(m, g) == h
  }
}
