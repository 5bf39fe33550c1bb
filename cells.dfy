/** The cell kinds of the dungeon grid and a value view of the grid
    (the `CellType` enum and the `cells` array of DungeonGame/Map.cs). */
module Cells {

  datatype Cell = Empty | Wall | DoorClosed | DoorOpen | Key

  /** The fixed dimensions every map is created with. */
  const Width := 50
  const Height := 30

  /** The grid as a value: `Height` rows of `Width` cells, indexed `[y][x]`. */
  type Grid = seq<seq<Cell>>

  predicate InBounds(x: int, y: int) { 0 <= x < Width && 0 <= y < Height }

  /** The outermost ring of cells. */
  predicate OnRing(x: int, y: int) { x == 0 || x == Width - 1 || y == 0 || y == Height - 1 }

  predicate WellFormed(g: Grid) {
    |g| == Height && forall y :: 0 <= y < Height ==> |g[y]| == Width
  }

  /** The bounds-checked read: every coordinate off the grid reads as a wall. */
  function Get(g: Grid, x: int, y: int): (c: Cell)
    requires WellFormed(g)
    ensures !InBounds(x, y) ==> c == Wall
  {
    if InBounds(x, y) then g[y][x] else Wall
  }

  /** The bounds-checked write: off the grid it changes nothing, on the grid it
      changes exactly the one cell. */
  function Set(g: Grid, x: int, y: int, c: Cell): (h: Grid)
    requires WellFormed(g)
    ensures WellFormed(h)
    ensures InBounds(x, y) ==> Get(h, x, y) == c
    ensures forall i, j :: (i, j) != (x, y) ==> Get(h, i, j) == Get(g, i, j)
    ensures !InBounds(x, y) ==> h == g
  {
    if InBounds(x, y) then g[y := g[y][x := c]] else g
  }

  /** Number of cells of kind `k` in one row. */
  function CountRow(row: seq<Cell>, k: Cell): (n: nat)
    ensures n <= |row|
  {
    if row == [] then 0
    else CountRow(row[..|row| - 1], k) + (if row[|row| - 1] == k then 1 else 0)
  }

  /** Number of cells of kind `k` in the whole grid. */
  function Count(g: Grid, k: Cell): nat
  {
    if g == [] then 0 else Count(g[..|g| - 1], k) + CountRow(g[|g| - 1], k)
  }

  lemma {:induction false} CountRowUpdate(row: seq<Cell>, i: nat, c: Cell, k: Cell)
    requires i < |row|
    ensures CountRow(row[i := c], k)
         == CountRow(row, k) - (if row[i] == k then 1 else 0) + (if c == k then 1 else 0)
  {
    var n := |row| - 1;
    if i < n {
      assert row[i := c][..n] == row[..n][i := c];
      CountRowUpdate(row[..n], i, c, k);
    } else {
      assert row[i := c][..n] == row[..n];
    }
  }

  lemma {:induction false} CountUpdate(g: Grid, j: nat, r: seq<Cell>, k: Cell)
    requires j < |g|
    ensures Count(g[j := r], k) == Count(g, k) - CountRow(g[j], k) + CountRow(r, k)
  {
    var n := |g| - 1;
    if j < n {
      assert g[j := r][..n] == g[..n][j := r];
      CountUpdate(g[..n], j, r, k);
    } else {
      assert g[j := r][..n] == g[..n];
    }
  }

  /** Writing one cell moves it from the count of its old kind to the count
      of its new kind. */
  lemma CountAfterSet(g: Grid, x: int, y: int, c: Cell, k: Cell)
    requires WellFormed(g) && InBounds(x, y)
    ensures Count(Set(g, x, y, c), k)
         == Count(g, k) - (if Get(g, x, y) == k then 1 else 0) + (if c == k then 1 else 0)
  {
    CountRowUpdate(g[y], x, c, k);
    CountUpdate(g, y, g[y][x := c], k);
  }

  /** The character each cell kind is exported as, one per cell. */
  function CellChar(c: Cell): (ch: char)
    ensures ch in {'.', '#', '+', '/', 'K'}
  {
    match c
    case Empty => '.'
    case Wall => '#'
    case DoorClosed => '+'
    case DoorOpen => '/'
    case Key => 'K'
  }

  /** Reading an exported character back; the export has no import of its own,
      this only shows that no information is lost. */
  function CellOfChar(ch: char): (c: Cell)
    requires ch in {'.', '#', '+', '/', 'K'}
    ensures CellChar(c) == ch
  {
    match ch
    case '.' => Empty
    case '#' => Wall
    case '+' => DoorClosed
    case '/' => DoorOpen
    case _ => Key
  }

  /** The export is lossless: distinct kinds get distinct characters. */
  lemma CellCharRoundTrip(c: Cell)
    ensures CellOfChar(CellChar(c)) == c
  {
  }
}
