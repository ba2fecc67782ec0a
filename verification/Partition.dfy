/** poly_partition: a flood fill that numbers the connected parts of the wall. */
module Partition {
  import opened Seqs
  import opened TileMap

  // ------------------------------------------------------- which tiles belong together

  /** The sides through which a tile can continue into its neighbour. */
  function Ways(c: char): seq<Dir> {
    if Filled(c) then [0, 2, 4, 6]
    else if c == REC_UR then [0, 2]
    else if c == REC_UL then [2, 4]
    else if c == REC_DL then [4, 6]
    else if c == REC_DR then [6, 0]
    else []
  }

  /** The tiles on both sides of the edge that d crosses are solid along it. */
  predicate Linked(m: Tiles, c: Cell, d: Dir)
    requires Valid(m) && Inside(m, c)
  {
    d in Ways(TileAt(m, c)) && Back(d) in Ways(TileAt(m, Step(m, c, d)))
  }

  lemma LinkedBack(m: Tiles, c: Cell, d: Dir)
    requires Valid(m) && Inside(m, c) && Linked(m, c, d)
    ensures Linked(m, Step(m, c, d), Back(d)) && Step(m, Step(m, c, d), Back(d)) == c
  {
    StepBack(m, c, d);
  }

  /** From the unwrapped position (x, y), ds crosses one matching side after the other. */
  predicate Follows(m: Tiles, x: int, y: int, ds: seq<Dir>)
    requires Valid(m)
    decreases |ds|
  {
    ds == [] || (Linked(m, Wrap(m, x, y), ds[0]) && Follows(m, x + DirX(ds[0]), y + DirY(ds[0]), ds[1..]))
  }

  function EndX(x: int, ds: seq<Dir>): int
    decreases |ds|
  {
    if ds == [] then x else EndX(x + DirX(ds[0]), ds[1..])
  }

  function EndY(y: int, ds: seq<Dir>): int
    decreases |ds|
  {
    if ds == [] then y else EndY(y + DirY(ds[0]), ds[1..])
  }

  /** A chain of matching sides leads from a to b. */
  ghost predicate Connected(m: Tiles, a: Cell, b: Cell)
    requires Valid(m)
  {
    exists ds :: Leads(m, a, ds, b)
  }

  predicate Leads(m: Tiles, a: Cell, ds: seq<Dir>, b: Cell)
    requires Valid(m)
  {
    Follows(m, a.x, a.y, ds) && Wrap(m, EndX(a.x, ds), EndY(a.y, ds)) == b
  }

  lemma {:induction false} FollowsConcat(m: Tiles, x: int, y: int, ds: seq<Dir>, es: seq<Dir>)
    requires Valid(m)
    ensures Follows(m, x, y, ds + es) <==> Follows(m, x, y, ds) && Follows(m, EndX(x, ds), EndY(y, ds), es)
    ensures EndX(x, ds + es) == EndX(EndX(x, ds), es) && EndY(y, ds + es) == EndY(EndY(y, ds), es)
    decreases |ds|
  {
    hide Linked;
    hide Wrap;
    if ds == [] {
      assert ds + es == es;
    } else {
      assert (ds + es)[1..] == ds[1..] + es;
      FollowsConcat(m, x + DirX(ds[0]), y + DirY(ds[0]), ds[1..], es);
    }
  }

  lemma FollowsOne(m: Tiles, x: int, y: int, d: Dir)
    requires Valid(m) && Linked(m, Wrap(m, x, y), d)
    ensures Follows(m, x, y, [d]) && EndX(x, [d]) == x + DirX(d) && EndY(y, [d]) == y + DirY(d)
  {
    assert [d][1..] == [];
  }

  /** The way back along a chain. */
  function Reversed(ds: seq<Dir>): seq<Dir> {
    if ds == [] then [] else Reversed(ds[1..]) + [Back(ds[0])]
  }

  lemma {:induction false} FollowsReversed(m: Tiles, x: int, y: int, ds: seq<Dir>)
    requires Valid(m) && Follows(m, x, y, ds)
    ensures var ex, ey := EndX(x, ds), EndY(y, ds);
            Follows(m, ex, ey, Reversed(ds)) && EndX(ex, Reversed(ds)) == x && EndY(ey, Reversed(ds)) == y
    decreases |ds|
  {
    hide Linked;
    hide Wrap;
    if ds != [] {
      var d, x1, y1 := ds[0], x + DirX(ds[0]), y + DirY(ds[0]);
      FollowsReversed(m, x1, y1, ds[1..]);
      LinkedBack(m, Wrap(m, x, y), d);
      StepWraps(m, x, y, d);
      FollowsOne(m, x1, y1, Back(d));
      FollowsConcat(m, EndX(x1, ds[1..]), EndY(y1, ds[1..]), Reversed(ds[1..]), [Back(d)]);
    }
  }

  /** What a chain does depends only on the cell it starts from. */
  lemma {:induction false} FollowsShift(m: Tiles, x: int, y: int, x': int, y': int, ds: seq<Dir>)
    requires Valid(m) && Wrap(m, x, y) == Wrap(m, x', y') && Follows(m, x, y, ds)
    ensures Follows(m, x', y', ds)
    ensures Wrap(m, EndX(x, ds), EndY(y, ds)) == Wrap(m, EndX(x', ds), EndY(y', ds))
    decreases |ds|
  {
    hide Linked;
    hide Wrap;
    if ds != [] {
      StepWraps(m, x, y, ds[0]);
      StepWraps(m, x', y', ds[0]);
      FollowsShift(m, x + DirX(ds[0]), y + DirY(ds[0]), x' + DirX(ds[0]), y' + DirY(ds[0]), ds[1..]);
    }
  }

  lemma ConnectedSymmetric(m: Tiles, a: Cell, b: Cell)
    requires Valid(m) && Inside(m, a) && Connected(m, a, b)
    ensures Connected(m, b, a)
  {
    hide Wrap;
    var ds :| Leads(m, a, ds, b);
    var ex, ey := EndX(a.x, ds), EndY(a.y, ds);
    FollowsReversed(m, a.x, a.y, ds);
    WrapInside(m, a);
    WrapInside(m, Wrap(m, ex, ey));
    FollowsShift(m, ex, ey, b.x, b.y, Reversed(ds));
    assert Leads(m, b, Reversed(ds), a);
  }

  lemma ConnectedTransitive(m: Tiles, a: Cell, b: Cell, c: Cell)
    requires Valid(m) && Connected(m, a, b) && Connected(m, b, c)
    ensures Connected(m, a, c)
  {
    hide Wrap;
    var ds :| Leads(m, a, ds, b);
    var es :| Leads(m, b, es, c);
    var ex, ey := EndX(a.x, ds), EndY(a.y, ds);
    WrapInside(m, Wrap(m, ex, ey));
    FollowsShift(m, b.x, b.y, ex, ey, es);
    FollowsConcat(m, a.x, a.y, ds, es);
    assert Leads(m, a, ds + es, c);
  }

  // ------------------------------------------------------------- what the fill keeps

  /** The part a cell belongs to, and the unwrapped position it was reached at. */
  datatype Part = Part(num: nat, x: int, y: int)

  type Parts = map<Cell, Part>

  /** p is where a chain of at most n sides from the seed arrives, and it lies in cell c. */
  ghost predicate Rooted(m: Tiles, seed: Cell, p: Part, c: Cell, n: nat)
    requires Valid(m)
  {
    Wrap(m, p.x, p.y) == c && exists ds :: |ds| <= n && Arrives(m, seed, ds, p)
  }

  lemma RootWraps(m: Tiles, seed: Cell, p: Part, c: Cell, n: nat)
    requires Valid(m) && Rooted(m, seed, p, c, n)
    ensures Wrap(m, p.x, p.y) == c
  {
  }

  predicate Arrives(m: Tiles, seed: Cell, ds: seq<Dir>, p: Part)
    requires Valid(m)
  {
    Follows(m, seed.x, seed.y, ds) && EndX(seed.x, ds) == p.x && EndY(seed.y, ds) == p.y
  }

  /**
   * Every numbered cell is a wall joined to the first cell of its part, over no more sides than cells are numbered,
   * and parts have their own first cells.
   */
  ghost predicate Sound(m: Tiles, v: Parts, seeds: seq<Cell>) {
    && Valid(m)
    && (forall c :: c in v ==> Inside(m, c) && IsWall(TileAt(m, c)) && v[c].num < |seeds|)
    && (forall c :: c in v ==> Rooted(m, seeds[v[c].num], v[c], c, |v|))
    && (forall i :: 0 <= i < |seeds| ==> Inside(m, seeds[i]) && seeds[i] in v && v[seeds[i]].num == i)
  }

  /** All neighbours that c continues into are in c's part. */
  ghost predicate ClosedAt(m: Tiles, v: Parts, c: Cell)
    requires Valid(m) && Inside(m, c) && c in v
  {
    forall d: Dir :: Linked(m, c, d) ==> Step(m, c, d) in v && v[Step(m, c, d)].num == v[c].num
  }

  ghost predicate ClosedExcept(m: Tiles, v: Parts, open: set<Cell>)
    requires Valid(m) && forall c :: c in v ==> Inside(m, c)
  {
    forall c :: c in v && c !in open ==> ClosedAt(m, v, c)
  }

  /** The stack of positions still to be looked at, all of the part that is being filled. */
  predicate Stacked(m: Tiles, v: Parts, num: nat, left: seq<(int, int)>)
    requires Valid(m)
  {
    forall i :: 0 <= i < |left| ==> PartAt(m, v, num, left[i])
  }

  predicate PartAt(m: Tiles, v: Parts, num: nat, p: (int, int))
    requires Valid(m)
  {
    Wrap(m, p.0, p.1) in v && v[Wrap(m, p.0, p.1)] == Part(num, p.0, p.1)
  }

  ghost function StackCells(m: Tiles, left: seq<(int, int)>): set<Cell>
    requires Valid(m)
  {
    set i | 0 <= i < |left| :: Wrap(m, left[i].0, left[i].1)
  }

  /** The state of the fill of part num, looking at position p. */
  ghost predicate Filling(m: Tiles, v: Parts, seeds: seq<Cell>, left: seq<(int, int)>, open: set<Cell>) {
    && Sound(m, v, seeds) && seeds != [] && Stacked(m, v, |seeds| - 1, left)
    && open >= StackCells(m, left) && ClosedExcept(m, v, open)
    && forall c :: c in open ==> c in v && v[c].num == |seeds| - 1
  }

  /** A neighbour that already has a number has the number of the part being filled. */
  lemma NeighbourNumber(m: Tiles, v: Parts, seeds: seq<Cell>, left: seq<(int, int)>, open: set<Cell>, c: Cell, d: Dir)
    requires Filling(m, v, seeds, left, open) && c in open && Inside(m, c) && Linked(m, c, d) && Step(m, c, d) in v
    ensures v[Step(m, c, d)].num == |seeds| - 1
  {
    hide Linked;
    hide Step;
    hide Rooted;
    LinkedBack(m, c, d);
    var n := Step(m, c, d);
    if n !in open {
      assert ClosedAt(m, v, n);
    }
  }

  /** Numbering a neighbour and putting it on the stack. */
  lemma PushNeighbour(m: Tiles, v: Parts, seeds: seq<Cell>, left: seq<(int, int)>, open: set<Cell>, p: (int, int),
                      d: Dir)
    requires Valid(m) && Filling(m, v, seeds, left, open) && PartAt(m, v, |seeds| - 1, p)
    requires Linked(m, Wrap(m, p.0, p.1), d) && Step(m, Wrap(m, p.0, p.1), d) !in v
    ensures var x, y := p.0 + DirX(d), p.1 + DirY(d);
            var n := Step(m, Wrap(m, p.0, p.1), d);
            && n == Wrap(m, x, y)
            && Filling(m, v[n := Part(|seeds| - 1, x, y)], seeds, left + [(x, y)], open + {n})
  {
    hide Linked;
    hide Step;
    hide Rooted;
    hide Wrap;
    hide Sound;
    hide ClosedExcept;
    hide Stacked;
    hide TileAt;
    hide IsWall;
    hide StackCells;
    hide DirX;
    hide DirY;
    var x, y, c := p.0 + DirX(d), p.1 + DirY(d), Wrap(m, p.0, p.1);
    StepWraps(m, p.0, p.1, d);
    LinkedIsWall(m, c, d);
    SoundAt(m, v, seeds, c);
    RootedStep(m, seeds[|seeds| - 1], v[c], d, |v|);
    PushFilling(m, v, seeds, left, open, Step(m, c, d), Part(|seeds| - 1, x, y));
  }

  lemma SoundAt(m: Tiles, v: Parts, seeds: seq<Cell>, c: Cell)
    requires Sound(m, v, seeds) && c in v
    ensures Valid(m)
    ensures v[c].num < |seeds| && Rooted(m, seeds[v[c].num], v[c], c, |v|)
  {
    hide Rooted;
  }

  lemma PushFilling(m: Tiles, v: Parts, seeds: seq<Cell>, left: seq<(int, int)>, open: set<Cell>, n: Cell, p: Part)
    requires Filling(m, v, seeds, left, open) && p.num == |seeds| - 1 && n == Wrap(m, p.x, p.y) && n !in v
    requires IsWall(TileAt(m, n)) && Rooted(m, seeds[p.num], p, n, |v| + 1)
    ensures Filling(m, v[n := p], seeds, left + [(p.x, p.y)], open + {n})
  {
    PushSound(m, v, seeds, n, p);
    PushStacked(m, v, p.num, left, n, (p.x, p.y));
    PushedCells(m, left, p.x, p.y);
    SoundInside(m, v, seeds);
    PushKeepsClosed(m, v, n, p, open);
    hide Rooted;
    hide Wrap;
    hide Sound;
    hide Stacked;
    hide ClosedExcept;
    hide StackCells;
    hide TileAt;
  }

  lemma SoundInside(m: Tiles, v: Parts, seeds: seq<Cell>)
    requires Sound(m, v, seeds)
    ensures forall c :: c in v ==> Inside(m, c)
  {
  }

  lemma PushSound(m: Tiles, v: Parts, seeds: seq<Cell>, n: Cell, p: Part)
    requires Sound(m, v, seeds) && Inside(m, n) && IsWall(TileAt(m, n)) && n !in v
    requires p.num < |seeds| && Rooted(m, seeds[p.num], p, n, |v| + 1)
    ensures Sound(m, v[n := p], seeds)
  {
    hide Rooted;
    hide TileAt;
    hide IsWall;
    forall c | c in v
      ensures Rooted(m, seeds[v[c].num], v[c], c, |v| + 1)
    {
      RootedMore(m, seeds[v[c].num], v[c], c, |v|);
    }
  }

  lemma RootedMore(m: Tiles, seed: Cell, p: Part, c: Cell, n: nat)
    requires Valid(m) && Rooted(m, seed, p, c, n)
    ensures Rooted(m, seed, p, c, n + 1)
  {
    hide Arrives;
    hide Wrap;
  }

  lemma PushStacked(m: Tiles, v: Parts, num: nat, left: seq<(int, int)>, n: Cell, p: (int, int))
    requires Valid(m) && Stacked(m, v, num, left) && n == Wrap(m, p.0, p.1) && n !in v
    ensures Stacked(m, v[n := Part(num, p.0, p.1)], num, left + [p])
  {
    hide Wrap;
    var w, more := v[n := Part(num, p.0, p.1)], left + [p];
    forall i | 0 <= i < |more|
      ensures PartAt(m, w, num, more[i])
    {
      if i < |left| {
        assert PartAt(m, v, num, left[i]);
      }
    }
  }

  lemma PushedCells(m: Tiles, left: seq<(int, int)>, x: int, y: int)
    requires Valid(m)
    ensures StackCells(m, left + [(x, y)]) == StackCells(m, left) + {Wrap(m, x, y)}
  {
    hide Wrap;
    var more := left + [(x, y)];
    forall c
      ensures c in StackCells(m, more) <==> c in StackCells(m, left) || c == Wrap(m, x, y)
    {
      if c in StackCells(m, left) {
        var i :| 0 <= i < |left| && c == Wrap(m, left[i].0, left[i].1);
        assert c == Wrap(m, more[i].0, more[i].1);
      }
      assert Wrap(m, x, y) == Wrap(m, more[|left|].0, more[|left|].1);
    }
  }

  lemma PushKeepsClosed(m: Tiles, v: Parts, n: Cell, p: Part, open: set<Cell>)
    requires Valid(m) && (forall c :: c in v ==> Inside(m, c)) && Inside(m, n)
    requires ClosedExcept(m, v, open) && n !in v
    ensures ClosedExcept(m, v[n := p], open + {n})
  {
    hide Linked;
    hide Step;
    var w := v[n := p];
    forall c | c in w && c !in open + {n}
      ensures ClosedAt(m, w, c)
    {
      assert ClosedAt(m, v, c);
    }
  }

  lemma LinkedIsWall(m: Tiles, c: Cell, d: Dir)
    requires Valid(m) && Inside(m, c) && Linked(m, c, d)
    ensures IsWall(TileAt(m, c)) && IsWall(TileAt(m, Step(m, c, d)))
  {
    hide Step;
  }

  /** A chain from the seed can be continued through one more matching side. */
  lemma RootedStep(m: Tiles, seed: Cell, p: Part, d: Dir, n: nat)
    requires Valid(m) && Rooted(m, seed, p, Wrap(m, p.x, p.y), n) && Linked(m, Wrap(m, p.x, p.y), d)
    ensures Rooted(m, seed, Part(p.num, p.x + DirX(d), p.y + DirY(d)), Wrap(m, p.x + DirX(d), p.y + DirY(d)), n + 1)
  {
    hide Linked;
    hide Wrap;
    var ds :| |ds| <= n && Arrives(m, seed, ds, p);
    FollowsOne(m, p.x, p.y, d);
    FollowsConcat(m, seed.x, seed.y, ds, [d]);
    assert Arrives(m, seed, ds + [d], Part(p.num, p.x + DirX(d), p.y + DirY(d)));
  }

  // ---------------------------------------------------------------- what it computes

  /** The result: every wall cell has a number, and no part continues into another cell. */
  ghost predicate Partitioned(m: Tiles, v: Parts, seeds: seq<Cell>) {
    && Sound(m, v, seeds) && ClosedExcept(m, v, {})
    && forall c :: Inside(m, c) && IsWall(TileAt(m, c)) ==> c in v
  }

  lemma {:induction false} ChainKeepsNumber(m: Tiles, v: Parts, seeds: seq<Cell>, x: int, y: int, ds: seq<Dir>)
    requires Sound(m, v, seeds) && ClosedExcept(m, v, {}) && Wrap(m, x, y) in v && Follows(m, x, y, ds)
    ensures Wrap(m, EndX(x, ds), EndY(y, ds)) in v
    ensures v[Wrap(m, EndX(x, ds), EndY(y, ds))].num == v[Wrap(m, x, y)].num
    decreases |ds|
  {
    hide Linked;
    hide Wrap;
    hide Rooted;
    if ds != [] {
      assert ClosedAt(m, v, Wrap(m, x, y));
      StepWraps(m, x, y, ds[0]);
      ChainKeepsNumber(m, v, seeds, x + DirX(ds[0]), y + DirY(ds[0]), ds[1..]);
    }
  }

  lemma RootedConnected(m: Tiles, v: Parts, seeds: seq<Cell>, c: Cell)
    requires Sound(m, v, seeds) && c in v
    ensures Connected(m, seeds[v[c].num], c)
  {
    hide Sound;
    hide ClosedExcept;
    hide Wrap;
    hide Follows;
    hide EndX;
    hide EndY;
    SoundAt(m, v, seeds, c);
    var seed := seeds[v[c].num];
    var ds :| |ds| <= |v| && Arrives(m, seed, ds, v[c]);
    assert Leads(m, seed, ds, c);
  }

  /** Two wall cells have the same number exactly when a chain of matching sides joins them. */
  lemma SamePartIsConnected(m: Tiles, v: Parts, seeds: seq<Cell>, a: Cell, b: Cell)
    requires Partitioned(m, v, seeds) && a in v && b in v
    ensures v[a].num == v[b].num <==> Connected(m, a, b)
  {
    hide Rooted;
    hide ClosedExcept;
    hide Wrap;
    if v[a].num == v[b].num {
      RootedConnected(m, v, seeds, a);
      RootedConnected(m, v, seeds, b);
      ConnectedSymmetric(m, seeds[v[a].num], a);
      ConnectedTransitive(m, a, seeds[v[a].num], b);
    }
    if Connected(m, a, b) {
      var ds :| Leads(m, a, ds, b);
      WrapInside(m, a);
      ChainKeepsNumber(m, v, seeds, a.x, a.y, ds);
    }
  }

  /** There are as many components as parts: each wall cell is joined to exactly one of the first cells. */
  lemma SeedsAreComponents(m: Tiles, v: Parts, seeds: seq<Cell>, c: Cell, i: nat)
    requires Partitioned(m, v, seeds) && Inside(m, c) && IsWall(TileAt(m, c)) && i < |seeds|
    ensures c in v && (Connected(m, seeds[i], c) <==> i == v[c].num)
  {
    hide Rooted;
    hide ClosedExcept;
    SamePartIsConnected(m, v, seeds, seeds[i], c);
  }

  // ----------------------------------------------------------- the order of the parts

  /** Cell a comes before b in the order of the scan, row by row. */
  predicate Before(a: Cell, b: Cell) {
    a.y < b.y || (a.y == b.y && a.x < b.x)
  }

  /** Parts are numbered in the order of their first cells, and no cell of a part comes before its first cell. */
  ghost predicate FirstCells(v: Parts, seeds: seq<Cell>) {
    && (forall i, j :: 0 <= i < j < |seeds| ==> Before(seeds[i], seeds[j]))
    && (forall c :: c in v ==> v[c].num < |seeds| && !Before(c, seeds[v[c].num]))
  }

  /** Filling one more part numbers only cells of that part. */
  lemma NewInNewPart(m: Tiles, v: Parts, seeds: seq<Cell>, w: Parts, c: Cell, b: Cell)
    requires Sound(m, v, seeds) && ClosedExcept(m, v, {}) && Sound(m, w, seeds + [c]) && b in w && b !in v
    ensures w[b].num == |seeds|
  {
    hide Sound;
    hide ClosedExcept;
    hide Follows;
    hide EndX;
    hide EndY;
    hide Wrap;
    var i := w[b].num;
    SoundAt(m, w, seeds + [c], b);
    RootedConnected(m, w, seeds + [c], b);
    if i < |seeds| {
      assert (seeds + [c])[i] == seeds[i];
      SeedNumber(m, v, seeds, i);
      var ds :| Leads(m, seeds[i], ds, b);
      WrapInside(m, seeds[i]);
      ChainKeepsNumber(m, v, seeds, seeds[i].x, seeds[i].y, ds);
    }
  }

  lemma SeedNumber(m: Tiles, v: Parts, seeds: seq<Cell>, i: nat)
    requires Sound(m, v, seeds) && i < |seeds|
    ensures Valid(m) && Inside(m, seeds[i]) && seeds[i] in v && v[seeds[i]].num == i
  {
    hide Rooted;
  }

  /** A new part whose first cell is where the scan has come to. */
  lemma FirstCellsMore(m: Tiles, v: Parts, seeds: seq<Cell>, w: Parts, c: Cell)
    requires Sound(m, v, seeds) && ClosedExcept(m, v, {}) && FirstCells(v, seeds)
    requires Inside(m, c) && ScannedTo(m, v, c.x, c.y)
    requires Sound(m, w, seeds + [c]) && forall b :: b in v ==> b in w && w[b] == v[b]
    requires forall i :: 0 <= i < |seeds| ==> Before(seeds[i], c)
    ensures FirstCells(w, seeds + [c])
  {
    hide ClosedExcept;
    hide Rooted;
    forall b | b in w
      ensures w[b].num < |seeds| + 1 && !Before(b, (seeds + [c])[w[b].num])
    {
      if b !in v {
        NewInNewPart(m, v, seeds, w, c, b);
      }
    }
  }

  // ----------------------------------------------------------------------- the loops

  /** An entry of the scratch grid. */
  datatype Entry = Unassigned | Assigned(part: Part)

  /** The scratch grid holds v. */
  ghost predicate Holds(parts: array2<Entry>, m: Tiles, v: Parts)
    reads parts
  {
    && parts.Length0 == m.height && parts.Length1 == m.width
    && (forall c :: c in v ==> Inside(m, c))
    && (forall x, y :: 0 <= x < m.width && 0 <= y < m.height ==>
          parts[y, x] == if Cell(x, y) in v then Assigned(v[Cell(x, y)]) else Unassigned)
  }

  method Assign(parts: array2<Entry>, m: Tiles, ghost v: Parts, c: Cell, p: Part)
    requires Holds(parts, m, v) && Inside(m, c)
    modifies parts
    ensures Holds(parts, m, v[c := p])
  {
    parts[c.y, c.x] := Assigned(p);
  }

  method IsUnassigned(parts: array2<Entry>, m: Tiles, ghost v: Parts, c: Cell) returns (b: bool)
    requires Holds(parts, m, v) && Inside(m, c)
    ensures b <==> c !in v
  {
    b := parts[c.y, c.x] == Unassigned;
    assert c == Cell(c.x, c.y);
  }

  /** The neighbours over the first k ways of c are in the part being filled. */
  ghost predicate PartlyClosed(m: Tiles, v: Parts, num: nat, c: Cell, k: nat)
    requires Valid(m) && Inside(m, c)
  {
    forall j :: 0 <= j < k && j < |Ways(TileAt(m, c))| && Linked(m, c, Ways(TileAt(m, c))[j]) ==>
      InPart(v, num, Step(m, c, Ways(TileAt(m, c))[j]))
  }

  predicate InPart(v: Parts, num: nat, c: Cell) {
    c in v && v[c].num == num
  }

  /** Cells not yet numbered, plus positions not yet looked at. */
  ghost function Work(m: Tiles, v: Parts, left: seq<(int, int)>): int {
    |Cells(m)| - |v| + |left|
  }

  lemma WorkIsPositive(m: Tiles, v: Parts, left: seq<(int, int)>)
    requires forall c :: c in v ==> Inside(m, c)
    ensures Work(m, v, left) >= |left|
  {
    CellsInside(m);
    SubsetSize(v.Keys, Cells(m));
    assert |v.Keys| == |v|;
  }

  /** The fill of part num with position p taken off the stack but not yet done. */
  ghost predicate Looking(m: Tiles, v: Parts, seeds: seq<Cell>, left: seq<(int, int)>, p: (int, int)) {
    && Valid(m) && Filling(m, v, seeds, left, StackCells(m, left) + {Wrap(m, p.0, p.1)})
    && PartAt(m, v, |seeds| - 1, p)
  }

  /** Numbered cells stay as they are, and the work gets no more. */
  ghost predicate Grown(m: Tiles, v: Parts, left: seq<(int, int)>, newV: Parts, newLeft: seq<(int, int)>) {
    && (forall c :: c in v ==> c in newV && newV[c] == v[c])
    && Work(m, newV, newLeft) == Work(m, v, left)
  }

  /** Looks at one way out of position p: numbers and stacks the neighbour if it is new. */
  method LookAt(m: Tiles, parts: array2<Entry>, num: nat, left: seq<(int, int)>, p: (int, int), d: Dir,
                ghost v: Parts, ghost seeds: seq<Cell>)
    returns (newLeft: seq<(int, int)>, ghost newV: Parts)
    requires Valid(m) && Looking(m, v, seeds, left, p) && Holds(parts, m, v) && num == |seeds| - 1
    requires d in Ways(TileAt(m, Wrap(m, p.0, p.1)))
    modifies parts
    ensures Looking(m, newV, seeds, newLeft, p) && Holds(parts, m, newV) && Grown(m, v, left, newV, newLeft)
    ensures Linked(m, Wrap(m, p.0, p.1), d) ==> InPart(newV, num, Step(m, Wrap(m, p.0, p.1), d))
  {
    hide Looking;
    hide Holds;
    hide Ways;
    hide IsWall;
    hide DirX;
    hide DirY;
    hide Wrap;
    hide Step;
    newLeft, newV := left, v;
    var x3, y3 := p.0 + DirX(d), p.1 + DirY(d);
    var w := Wrap(m, x3, y3);
    StepWraps(m, p.0, p.1, d);
    NotWallNoWays(TileAt(m, w));
    if !IsWall(TileAt(m, w)) || Back(d) !in Ways(TileAt(m, w)) {
      return;
    }
    var isNew := IsUnassigned(parts, m, v, w);
    if isNew {
      PushLooking(m, v, seeds, left, p, d);
      newLeft, newV := left + [(x3, y3)], v[w := Part(num, x3, y3)];
      Assign(parts, m, v, w, Part(num, x3, y3));
    } else {
      KnownLooking(m, v, seeds, left, p, d);
    }
  }

  lemma NotWallNoWays(c: char)
    ensures !IsWall(c) ==> Ways(c) == []
  {
  }

  lemma PushLooking(m: Tiles, v: Parts, seeds: seq<Cell>, left: seq<(int, int)>, p: (int, int), d: Dir)
    requires Valid(m) && Looking(m, v, seeds, left, p)
    requires Linked(m, Wrap(m, p.0, p.1), d) && Step(m, Wrap(m, p.0, p.1), d) !in v
    ensures var x, y, n := p.0 + DirX(d), p.1 + DirY(d), Step(m, Wrap(m, p.0, p.1), d);
            && n == Wrap(m, x, y)
            && Looking(m, v[n := Part(|seeds| - 1, x, y)], seeds, left + [(x, y)], p)
            && Grown(m, v, left, v[n := Part(|seeds| - 1, x, y)], left + [(x, y)])
  {
    hide Filling;
    hide Linked;
    hide Step;
    hide Wrap;
    hide StackCells;
    hide DirX;
    hide DirY;
    var c, x, y := Wrap(m, p.0, p.1), p.0 + DirX(d), p.1 + DirY(d);
    PushNeighbour(m, v, seeds, left, StackCells(m, left) + {c}, p, d);
    PushedCells(m, left, x, y);
    assert StackCells(m, left + [(x, y)]) + {c} == StackCells(m, left) + {c} + {Wrap(m, x, y)};
  }

  lemma KnownLooking(m: Tiles, v: Parts, seeds: seq<Cell>, left: seq<(int, int)>, p: (int, int), d: Dir)
    requires Valid(m) && Looking(m, v, seeds, left, p)
    requires Linked(m, Wrap(m, p.0, p.1), d) && Step(m, Wrap(m, p.0, p.1), d) in v
    ensures InPart(v, |seeds| - 1, Step(m, Wrap(m, p.0, p.1), d))
  {
    hide Linked;
    hide Step;
    hide Wrap;
    NeighbourNumber(m, v, seeds, left, StackCells(m, left) + {Wrap(m, p.0, p.1)}, Wrap(m, p.0, p.1), d);
  }

  /** Looks at all ways out of the position just popped. */
  method LookAround(m: Tiles, parts: array2<Entry>, num: nat, left: seq<(int, int)>, p: (int, int),
                    ghost v: Parts, ghost seeds: seq<Cell>)
    returns (newLeft: seq<(int, int)>, ghost newV: Parts)
    requires Valid(m) && Looking(m, v, seeds, left, p) && Holds(parts, m, v) && num == |seeds| - 1
    modifies parts
    ensures Filling(m, newV, seeds, newLeft, StackCells(m, newLeft)) && Holds(parts, m, newV)
    ensures Grown(m, v, left, newV, newLeft)
  {
    hide Looking;
    hide Filling;
    hide Holds;
    hide Ways;
    hide Linked;
    hide Wrap;
    hide Step;
    newLeft, newV := left, v;
    var c := Wrap(m, p.0, p.1);
    var ways := Ways(TileAt(m, c));
    for k := 0 to |ways|
      invariant Looking(m, newV, seeds, newLeft, p) && Holds(parts, m, newV) && Grown(m, v, left, newV, newLeft)
      invariant PartlyClosed(m, newV, num, c, k)
    {
      newLeft, newV := LookAt(m, parts, num, newLeft, p, ways[k], newV, seeds);
    }
    DoneLooking(m, newV, seeds, newLeft, p);
  }

  /** When all ways have been looked at, the position is done. */
  lemma DoneLooking(m: Tiles, v: Parts, seeds: seq<Cell>, left: seq<(int, int)>, p: (int, int))
    requires Valid(m) && Looking(m, v, seeds, left, p)
    requires PartlyClosed(m, v, |seeds| - 1, Wrap(m, p.0, p.1), |Ways(TileAt(m, Wrap(m, p.0, p.1)))|)
    ensures Filling(m, v, seeds, left, StackCells(m, left))
  {
    hide Wrap;
    hide Step;
    hide StackCells;
    hide Ways;
    hide Rooted;
    var c := Wrap(m, p.0, p.1);
    forall d: Dir | Linked(m, c, d)
      ensures InPart(v, |seeds| - 1, Step(m, c, d))
    {
      var j :| 0 <= j < |Ways(TileAt(m, c))| && Ways(TileAt(m, c))[j] == d;
    }
    assert ClosedAt(m, v, c);
  }

  /** Fills one part from its first cell. */
  method FillPart(m: Tiles, parts: array2<Entry>, partnum: nat, c: Cell, ghost v: Parts, ghost seeds: seq<Cell>)
    returns (ghost newV: Parts)
    requires Valid(m) && Sound(m, v, seeds) && ClosedExcept(m, v, {}) && Holds(parts, m, v) && partnum == |seeds|
    requires Inside(m, c) && IsWall(TileAt(m, c)) && c !in v
    modifies parts
    ensures Sound(m, newV, seeds + [c]) && ClosedExcept(m, newV, {}) && Holds(parts, m, newV)
    ensures c in newV && forall b :: b in v ==> b in newV && newV[b] == v[b]
  {
    hide Sound;
    hide Filling;
    hide Holds;
    hide Stacked;
    hide ClosedExcept;
    hide StackCells;
    hide TileAt;
    var left := [(c.x, c.y)];
    Assign(parts, m, v, c, Part(partnum, c.x, c.y));
    newV := v[c := Part(partnum, c.x, c.y)];
    NewPart(m, v, seeds, c);
    ghost var more := seeds + [c];
    while left != []
      invariant Filling(m, newV, more, left, StackCells(m, left)) && Holds(parts, m, newV)
      invariant c in newV && forall b :: b in v ==> b in newV && newV[b] == v[b]
      decreases Work(m, newV, left)
    {
      var p := left[|left| - 1];
      PopLooking(m, newV, more, left);
      left := left[..|left| - 1];
      left, newV := LookAround(m, parts, partnum, left, p, newV, more);
      FillingWork(m, newV, more, left);
    }
    NothingStacked(m, newV, more);
  }

  lemma NewPart(m: Tiles, v: Parts, seeds: seq<Cell>, c: Cell)
    requires Sound(m, v, seeds) && ClosedExcept(m, v, {}) && Inside(m, c) && IsWall(TileAt(m, c)) && c !in v
    ensures var w, left := v[c := Part(|seeds|, c.x, c.y)], [(c.x, c.y)];
            Filling(m, w, seeds + [c], left, StackCells(m, left))
  {
    var w, left, more := v[c := Part(|seeds|, c.x, c.y)], [(c.x, c.y)], seeds + [c];
    WrapInside(m, c);
    hide Wrap;
    PushKeepsClosed(m, v, c, w[c], {});
    assert StackCells(m, left) == {c} by {
      assert Wrap(m, left[0].0, left[0].1) == c;
    }
    assert {} + {c} == {c};
    NewPartSound(m, v, seeds, c);
    hide Sound;
    hide ClosedExcept;
  }

  lemma NewPartSound(m: Tiles, v: Parts, seeds: seq<Cell>, c: Cell)
    requires Sound(m, v, seeds) && Inside(m, c) && IsWall(TileAt(m, c)) && c !in v
    ensures Sound(m, v[c := Part(|seeds|, c.x, c.y)], seeds + [c])
  {
    hide Rooted;
    hide TileAt;
    var w, more := v[c := Part(|seeds|, c.x, c.y)], seeds + [c];
    forall b | b in w
      ensures w[b].num < |more| && Rooted(m, more[w[b].num], w[b], b, |w|)
    {
      if b == c {
        OwnRoot(m, c, w[c], |w|);
      } else {
        SoundAt(m, v, seeds, b);
        RootedMore(m, seeds[v[b].num], v[b], b, |v|);
      }
    }
  }

  lemma OwnRoot(m: Tiles, c: Cell, p: Part, n: nat)
    requires Valid(m) && Inside(m, c) && p.x == c.x && p.y == c.y
    ensures Rooted(m, c, p, c, n)
  {
    WrapInside(m, c);
    assert Arrives(m, c, [], p);
  }

  lemma PopLooking(m: Tiles, v: Parts, seeds: seq<Cell>, left: seq<(int, int)>)
    requires Valid(m) && Filling(m, v, seeds, left, StackCells(m, left)) && left != []
    ensures Looking(m, v, seeds, left[..|left| - 1], left[|left| - 1])
    ensures Work(m, v, left[..|left| - 1]) == Work(m, v, left) - 1
    ensures Work(m, v, left) >= 1
  {
    hide Rooted;
    hide Wrap;
    hide ClosedAt;
    var front, p := left[..|left| - 1], left[|left| - 1];
    assert left == front + [(p.0, p.1)];
    PushedCells(m, front, p.0, p.1);
    assert PartAt(m, v, |seeds| - 1, left[|left| - 1]);
    WorkIsPositive(m, v, left);
  }

  lemma FillingWork(m: Tiles, v: Parts, seeds: seq<Cell>, left: seq<(int, int)>)
    requires Valid(m) && Filling(m, v, seeds, left, StackCells(m, left))
    ensures Work(m, v, left) >= 0
  {
    WorkIsPositive(m, v, left);
  }

  lemma NothingStacked(m: Tiles, v: Parts, seeds: seq<Cell>)
    requires Valid(m) && Filling(m, v, seeds, [], StackCells(m, []))
    ensures Sound(m, v, seeds) && ClosedExcept(m, v, {})
  {
    assert StackCells(m, []) == {};
  }

  /** poly_partition; v is what the returned grid holds and seeds are the first cells of the parts. */
  method PolyPartition(m: Tiles)
    returns (mapparts: array2<Entry>, partnum: nat, ghost v: Parts, ghost seeds: seq<Cell>)
    requires Valid(m)
    ensures Holds(mapparts, m, v) && Partitioned(m, v, seeds) && partnum == |seeds|
    ensures FirstCells(v, seeds)
  {
    hide ClosedExcept;
    hide Sound;
    hide FirstCells;
    hide ScannedTo;
    hide Partitioned;
    hide Valid;
    mapparts := new Entry[m.height, m.width]((_, _) => Unassigned);
    partnum, v, seeds := 0, map[], [];
    EmptyScan(m);
    for y := 0 to m.height
      invariant Holds(mapparts, m, v) && Sound(m, v, seeds) && ClosedExcept(m, v, {}) && partnum == |seeds|
      invariant fresh(mapparts) && ScannedTo(m, v, 0, y)
      invariant FirstCells(v, seeds) && AllBefore(seeds, Cell(0, y))
    {
      for x := 0 to m.width
        invariant Holds(mapparts, m, v) && Sound(m, v, seeds) && ClosedExcept(m, v, {}) && partnum == |seeds|
        invariant fresh(mapparts) && ScannedTo(m, v, x, y)
        invariant FirstCells(v, seeds) && AllBefore(seeds, Cell(x, y))
      {
        ghost var before := v;
        partnum, v, seeds := ScanCell(m, mapparts, partnum, Cell(x, y), v, seeds);
        ScanStep(m, before, v, x, y);
      }
      ScanRow(m, v, y);
    }
    ScanEnd(m, v, seeds);
  }

  /** The first cells so far come before c. */
  predicate AllBefore(seeds: seq<Cell>, c: Cell) {
    forall i :: 0 <= i < |seeds| ==> Before(seeds[i], c)
  }

  lemma EmptyScan(m: Tiles)
    requires Valid(m)
    ensures FirstCells(map[], [])
    ensures Sound(m, map[], []) && ClosedExcept(m, map[], {}) && ScannedTo(m, map[], 0, 0)
  {
  }

  lemma ScanStep(m: Tiles, v: Parts, w: Parts, x: nat, y: nat)
    requires Valid(m) && ScannedTo(m, v, x, y) && x < m.width && y < m.height
    requires (IsWall(TileAt(m, Cell(x, y))) ==> Cell(x, y) in w) && forall b :: b in v ==> b in w
    ensures ScannedTo(m, w, x + 1, y)
  {
  }

  lemma ScanRow(m: Tiles, v: Parts, y: nat)
    requires Valid(m) && ScannedTo(m, v, m.width, y)
    ensures ScannedTo(m, v, 0, y + 1)
  {
  }

  lemma ScanEnd(m: Tiles, v: Parts, seeds: seq<Cell>)
    requires Sound(m, v, seeds) && ClosedExcept(m, v, {}) && ScannedTo(m, v, 0, m.height)
    ensures Partitioned(m, v, seeds)
  {
  }

  /** The wall cells that come before column x of row y have numbers. */
  ghost predicate ScannedTo(m: Tiles, v: Parts, x: nat, y: nat)
    requires Valid(m)
  {
    forall c :: Inside(m, c) && IsWall(TileAt(m, c)) && (c.y < y || (c.y == y && c.x < x)) ==> c in v
  }

  method ScanCell(m: Tiles, mapparts: array2<Entry>, partnum: nat, c: Cell, ghost v: Parts, ghost seeds: seq<Cell>)
    returns (newPartnum: nat, ghost newV: Parts, ghost newSeeds: seq<Cell>)
    requires Sound(m, v, seeds) && ClosedExcept(m, v, {}) && Holds(mapparts, m, v) && partnum == |seeds|
    requires Valid(m) && Inside(m, c) && ScannedTo(m, v, c.x, c.y) && FirstCells(v, seeds) && AllBefore(seeds, c)
    modifies mapparts
    ensures FirstCells(newV, newSeeds) && AllBefore(newSeeds, Cell(c.x + 1, c.y))
    ensures Sound(m, newV, newSeeds) && ClosedExcept(m, newV, {}) && Holds(mapparts, m, newV)
    ensures newPartnum == |newSeeds|
    ensures IsWall(TileAt(m, c)) ==> c in newV
    ensures forall b :: b in v ==> b in newV
  {
    hide ClosedExcept;
    hide Holds;
    hide FirstCells;
    hide ScannedTo;
    hide Sound;
    newPartnum, newV, newSeeds := partnum, v, seeds;
    if IsWall(TileAt(m, c)) {
      var isNew := IsUnassigned(mapparts, m, v, c);
      if isNew {
        newV := FillPart(m, mapparts, partnum, c, v, seeds);
        FirstCellsMore(m, v, seeds, newV, c);
        newSeeds := seeds + [c];
        newPartnum := partnum + 1;
      }
    }
  }
}
