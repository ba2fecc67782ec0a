/** Tile maps on a torus: cells, the eight directions, and where a tile is solid. */
module TileMap {
  import opened Arithmetic

  /** data[y][x] is the tile in column x of row y; both coordinates wrap. */
  datatype Tiles = Tiles(data: seq<string>, width: nat, height: nat)

  predicate Valid(m: Tiles) {
    && m.width > 0 && m.height > 0 && |m.data| == m.height
    && forall y :: 0 <= y < m.height ==> |m.data[y]| == m.width
  }

  const REC_UL := 's'
  const REC_UR := 'a'
  const REC_DL := 'w'
  const REC_DR := 'q'

  predicate Filled(c: char) {
    c == 'x' || c == '#'
  }

  predicate IsWall(c: char) {
    Filled(c) || c == REC_UL || c == REC_UR || c == REC_DL || c == REC_DR
  }

  /** A position that has been wrapped into the map. */
  datatype Cell = Cell(x: int, y: int)

  predicate Inside(m: Tiles, c: Cell) {
    0 <= c.x < m.width && 0 <= c.y < m.height
  }

  function Wrap(m: Tiles, x: int, y: int): (c: Cell)
    requires Valid(m)
    ensures Inside(m, c)
  {
    Cell(x % m.width, y % m.height)
  }

  function TileAt(m: Tiles, c: Cell): char
    requires Valid(m) && Inside(m, c)
  {
    m.data[c.y][c.x]
  }

  type Dir = d: int | 0 <= d < 8

  /** Directions run counterclockwise from the right; y grows downward. */
  function DirX(d: Dir): int {
    if d == 0 || d == 1 || d == 7 then 1 else if d == 2 || d == 6 then 0 else -1
  }

  function DirY(d: Dir): int {
    if d == 5 || d == 6 || d == 7 then 1 else if d == 0 || d == 4 then 0 else -1
  }

  /** The table of directions, as the source writes it. */
  lemma DirectionTable(d: Dir)
    ensures (DirX(d), DirY(d))
            == [(1, 0), (1, -1), (0, -1), (-1, -1), (-1, 0), (-1, 1), (0, 1), (1, 1)][d]
  {
  }

  function Back(d: Dir): Dir {
    (d + 4) % 8
  }

  /** The cell one step away. */
  function Step(m: Tiles, c: Cell, d: Dir): Cell
    requires Valid(m)
  {
    Wrap(m, c.x + DirX(d), c.y + DirY(d))
  }

  lemma ModAdd(a: int, b: int, n: nat)
    requires n > 0
    ensures (a % n + b) % n == (a + b) % n
  {
    var q := a / n;
    assert a % n + b == (a + b) + (-q) * n;
    ModShift(a + b, -q, n);
  }

  lemma ModShift(a: int, k: int, n: nat)
    requires n > 0
    ensures (a + k * n) % n == a % n
  {
    var q := a / n + k;
    assert a + k * n == q * n + a % n by {
      assert q * n == (a / n) * n + k * n;
    }
    ModIs(a + k * n, q, a % n, n);
  }

  /** Stepping from an unwrapped position and stepping from its cell lead to the same cell. */
  lemma StepWraps(m: Tiles, x: int, y: int, d: Dir)
    requires Valid(m)
    ensures Step(m, Wrap(m, x, y), d) == Wrap(m, x + DirX(d), y + DirY(d))
  {
    ModAdd(x, DirX(d), m.width);
    ModAdd(y, DirY(d), m.height);
  }

  lemma WrapInside(m: Tiles, c: Cell)
    requires Valid(m) && Inside(m, c)
    ensures Wrap(m, c.x, c.y) == c
  {
    ModIs(c.x, 0, c.x, m.width);
    ModIs(c.y, 0, c.y, m.height);
  }

  /** A step back undoes a step. */
  lemma StepBack(m: Tiles, c: Cell, d: Dir)
    requires Valid(m) && Inside(m, c)
    ensures Step(m, Step(m, c, d), Back(d)) == c
  {
    StepWraps(m, c.x + DirX(d), c.y + DirY(d), Back(d));
    WrapInside(m, c);
  }

  /** All cells, as a set. */
  ghost function Cells(m: Tiles): set<Cell> {
    set x, y | 0 <= x < m.width && 0 <= y < m.height :: Cell(x, y)
  }

  lemma CellsInside(m: Tiles)
    ensures forall c :: c in Cells(m) <==> Inside(m, c)
  {
    forall c
      ensures c in Cells(m) <==> Inside(m, c)
    {
      if Inside(m, c) {
        assert c == Cell(c.x, c.y);
      }
    }
  }
}
