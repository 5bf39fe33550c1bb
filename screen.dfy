/** The text-mode renderer (DungeonGame/Renderer.cs): the per-column band
    layout of the first-person view, its shading and colours, the buffer
    clearing and the minimap. The ray march that finds, per column, the
    perspective-corrected distance, what was hit and the wall orientation is
    not modelled: those arrive as one `Ray` per column. */
module Screen {
  import opened CSharp
  import opened Cells
  import opened Dungeon
  import opened Actor

  /** `System.ConsoleColor`. */
  datatype Color =
    | Black | DarkBlue | DarkGreen | DarkCyan | DarkRed | DarkMagenta | DarkYellow | Gray
    | DarkGray | Blue | Green | Cyan | Red | Magenta | Yellow | White

  /** One character cell of the screen. */
  datatype Glyph = Glyph(ch: char, color: Color)

  /** What the ray of one column ran into: a wall (or the edge of the map),
      a door (closed or open) or a key. */
  datatype HitKind = WallHit | DoorHit | KeyHit

  /** The ray-march result of one column: the perspective-corrected distance
      before clamping, what was hit, and the wall orientation (0 for
      north-south walls, 1 for east-west walls). */
  datatype Ray = Ray(corrected: real, hit: HitKind, orientation: int)

  const MaxDepth: real := 20.0
  const MinimapWidth := 20
  const MinimapHeight := 10
  /** The columns of the window the minimap takes, and the rows reserved for
      the HUD and messages. */
  const ReservedColumns := MinimapWidth
  const ReservedRows := 6

  const CeilingShade: char := '\U{2591}'
  const FullShade: char := '\U{2588}'
  const DarkShade: char := '\U{2593}'
  const MediumShade: char := '\U{2592}'

  // ---------------------------------------------------------------------
  // Colours

  /** How bright a colour of the wall palette is; colours outside the
      palette rank with Black. */
  function Rank(c: Color): nat
  {
    match c
    case White => 4
    case Gray => 3
    case DarkGray => 2
    case DarkBlue => 1
    case _ => 0
  }

  /** The wall palette, brightest first. */
  predicate InPalette(c: Color) { c in {White, Gray, DarkGray, DarkBlue, Black} }

  /** One step darker along White, Gray, DarkGray, DarkBlue, Black; every
      other colour becomes Black. */
  function DarkenColor(color: Color): (c: Color)
    ensures InPalette(c) && Rank(c) <= Rank(color)
  {
    match color
    case White => Gray
    case Gray => DarkGray
    case DarkGray => DarkBlue
    case DarkBlue => Black
    case _ => Black
  }

  /** The base colour by distance ratio in bands of one fifth, darkened one
      step for an east-west wall. */
  function GetWallColor(distance: real, maxDepth: real, wallOrientation: int): (c: Color)
    requires maxDepth > 0.0
    ensures InPalette(c)
  {
    var ratio := distance / maxDepth;
    var baseColor :=
      if ratio < 0.2 then White
      else if ratio < 0.4 then Gray
      else if ratio < 0.6 then DarkGray
      else if ratio < 0.8 then DarkBlue
      else Black;
    if wallOrientation == 1 then DarkenColor(baseColor) else baseColor
  }

  /** Within the palette darkening goes exactly one rank down (Black stays
      Black); every colour outside the palette becomes Black. */
  lemma DarkenNeverBrightens(c: Color)
    ensures Rank(c) > 0 ==> Rank(DarkenColor(c)) == Rank(c) - 1
    ensures !InPalette(c) ==> DarkenColor(c) == Black
  {
  }

  /** A side wall gets the darkened colour of a front wall at the same
      distance; every orientation other than 1 is drawn as a front wall. */
  lemma SideWallIsDarkened(distance: real, maxDepth: real, wallOrientation: int)
    requires maxDepth > 0.0
    ensures GetWallColor(distance, maxDepth, 1) == DarkenColor(GetWallColor(distance, maxDepth, 0))
    ensures wallOrientation != 1 ==>
      GetWallColor(distance, maxDepth, wallOrientation) == GetWallColor(distance, maxDepth, 0)
  {
  }

  /** Further never looks brighter: for the same orientation, a larger
      distance gets a colour of no higher rank. */
  lemma WallColorMonotone(near: real, far: real, maxDepth: real, wallOrientation: int)
    requires maxDepth > 0.0 && near <= far
    ensures Rank(GetWallColor(far, maxDepth, wallOrientation)) <= Rank(GetWallColor(near, maxDepth, wallOrientation))
  {
    assert near / maxDepth <= far / maxDepth by {
      assert far / maxDepth - near / maxDepth == (far - near) / maxDepth;
    }
  }

  // ---------------------------------------------------------------------
  // One column of the view

  /** `Math.Max(0.1, correctedDistance)`: keeps the division below defined. */
  function Clamped(r: Ray): (d: real)
    ensures d >= 0.1
    ensures d == r.corrected || (r.corrected < 0.1 && d == 0.1)
  {
    if r.corrected < 0.1 then 0.1 else r.corrected
  }

  /** `(int)(ViewHeight / correctedDistance)`. */
  function WallHeight(viewHeight: int, distance: real): (h: int)
    requires viewHeight >= 0 && distance > 0.0
    ensures h >= 0
  {
    Trunc(viewHeight as real / distance)
  }

  /** First row below the ceiling band (truncating halving: negative when
      the wall is taller than the view). */
  function CeilingRows(viewHeight: int, wallHeight: int): int
  {
    Div(viewHeight - wallHeight, 2)
  }

  /** First row below the wall band. */
  function FloorRow(viewHeight: int, wallHeight: int): int
  {
    viewHeight - CeilingRows(viewHeight, wallHeight)
  }

  /** End of the two-row runner band under the wall. */
  function RunnerEnd(viewHeight: int, wallHeight: int): int
  {
    Min(viewHeight, FloorRow(viewHeight, wallHeight) + 2)
  }

  /** The wall band is centred: row `y` is a ceiling row exactly when its
      mirror row, counted from the bottom, lies at or below the wall band. */
  lemma BandsAreCentred(viewHeight: int, wallHeight: int, y: int)
    ensures y < CeilingRows(viewHeight, wallHeight) <==> viewHeight - 1 - y >= FloorRow(viewHeight, wallHeight)
  {
  }

  /** A wall no taller than the view gets exactly its height in rows, or one
      more when the leftover rows are odd, and fits inside the view. */
  lemma WallBandHeight(viewHeight: int, wallHeight: int)
    requires 0 <= wallHeight <= viewHeight
    ensures 0 <= CeilingRows(viewHeight, wallHeight) <= FloorRow(viewHeight, wallHeight) <= viewHeight
    ensures FloorRow(viewHeight, wallHeight) - CeilingRows(viewHeight, wallHeight)
         == wallHeight + (viewHeight - wallHeight) % 2
  {
    var c := CeilingRows(viewHeight, wallHeight);
    assert 0 <= (viewHeight - wallHeight) - c * 2 < 2;
  }

  /** A wall at least as tall as the view covers every row. */
  lemma TallWallFillsColumn(viewHeight: int, wallHeight: int)
    requires wallHeight >= viewHeight
    ensures CeilingRows(viewHeight, wallHeight) <= 0
    ensures FloorRow(viewHeight, wallHeight) >= viewHeight
  {
  }

  /** The runner band is at most two rows and never passes the bottom. */
  lemma RunnerBandBounds(viewHeight: int, wallHeight: int)
    ensures RunnerEnd(viewHeight, wallHeight) <= viewHeight
    ensures RunnerEnd(viewHeight, wallHeight) - FloorRow(viewHeight, wallHeight) <= 2
    ensures FloorRow(viewHeight, wallHeight) <= viewHeight ==>
      RunnerEnd(viewHeight, wallHeight) >= FloorRow(viewHeight, wallHeight)
  {
  }

  /** The wall character by distance: full block within a third of the
      maximum depth, dark shade within half, medium shade beyond. */
  function WallShade(distance: real): (ch: char)
    ensures ch in {FullShade, DarkShade, MediumShade}
  {
    if distance < MaxDepth / 3.0 then FullShade
    else if distance < MaxDepth / 2.0 then DarkShade
    else MediumShade
  }

  /** The runner band's character: dark shade within a third of the maximum
      depth, medium shade beyond. */
  function RunnerShade(distance: real): (ch: char)
    ensures ch in {DarkShade, MediumShade}
  {
    if distance < MaxDepth / 3.0 then DarkShade else MediumShade
  }

  /** How dense a shade character is: full block, dark, medium. */
  function Density(ch: char): nat
  {
    if ch == FullShade then 3 else if ch == DarkShade then 2 else if ch == MediumShade then 1 else 0
  }

  /** Shading fades with distance: a farther wall or runner is never drawn
      denser than a nearer one, and the runner band is never denser than
      the wall above it. */
  lemma ShadesFadeWithDistance(near: real, far: real)
    requires near <= far
    ensures Density(WallShade(far)) <= Density(WallShade(near))
    ensures Density(RunnerShade(far)) <= Density(RunnerShade(near))
    ensures Density(RunnerShade(near)) <= Density(WallShade(near))
  {
  }

  /** A wall-band cell: doors show '+' in yellow and keys 'K' in magenta
      whatever the distance; plain walls are shaded in the wall colour. */
  function WallGlyph(hit: HitKind, distance: real, wallColor: Color): Glyph
  {
    match hit
    case DoorHit => Glyph('+', Yellow)
    case KeyHit => Glyph('K', Magenta)
    case WallHit => Glyph(WallShade(distance), wallColor)
  }

  /** A floor cell, shaded by how far down the row lies: the brightness is
      `1 - (y - half) / half` with `half` the truncated half of the view
      height, in bands of one quarter. With a one-row view `half` is zero and
      the floating-point quotient is infinite (a row below the top: darkest
      band) or not a number (the top row: it fails every comparison and
      falls to the last case). */
  function FloorGlyph(viewHeight: int, y: int): (g: Glyph)
    requires viewHeight >= 0
    ensures g in {Glyph('#', DarkGreen), Glyph('x', Green), Glyph('.', Gray), Glyph(' ', Black)}
  {
    var half := viewHeight / 2;
    if half == 0 then
      if y > 0 then Glyph('#', DarkGreen) else Glyph(' ', Black)
    else
      var b := 1.0 - (y as real - half as real) / half as real;
      if b < 0.25 then Glyph('#', DarkGreen)
      else if b < 0.5 then Glyph('x', Green)
      else if b < 0.75 then Glyph('.', Gray)
      else Glyph(' ', Black)
  }

  /** How dark a floor character looks: '#' darkest, then 'x', '.', blank. */
  function FloorDensity(ch: char): nat
  {
    if ch == '#' then 3 else if ch == 'x' then 2 else if ch == '.' then 1 else 0
  }

  /** The floor darkens toward the bottom of the view: a lower row is never
      drawn lighter than a row above it. */
  lemma FloorDarkensDownward(viewHeight: int, upper: int, lower: int)
    requires viewHeight >= 0 && upper <= lower
    ensures FloorDensity(FloorGlyph(viewHeight, upper).ch) <= FloorDensity(FloorGlyph(viewHeight, lower).ch)
  {
    var half := viewHeight / 2;
    if half > 0 {
      var h := half as real;
      assert (upper as real - h) / h <= (lower as real - h) / h by {
        assert (lower as real - h) / h - (upper as real - h) / h == (lower - upper) as real / h;
      }
    }
  }

  /** Row `y` of a column whose wall is `wallHeight` rows tall, top to
      bottom: ceiling, wall band, runner band, floor. */
  function Bands(viewHeight: int, wallHeight: int, wall: Glyph, runner: Glyph, y: int): Glyph
    requires viewHeight >= 0
  {
    if y < CeilingRows(viewHeight, wallHeight) then Glyph(CeilingShade, Cyan)
    else if y < FloorRow(viewHeight, wallHeight) then wall
    else if y < RunnerEnd(viewHeight, wallHeight) then runner
    else FloorGlyph(viewHeight, y)
  }

  /** What row `y` of the column drawn from ray `r` shows. */
  function ColumnCell(viewHeight: int, r: Ray, wallColor: Color, y: int): Glyph
    requires viewHeight >= 0
  {
    var distance := Clamped(r);
    Bands(viewHeight, WallHeight(viewHeight, distance),
      WallGlyph(r.hit, distance, wallColor), Glyph(RunnerShade(distance), wallColor), y)
  }

  /** In the wall band of a column whose ray hit a door or a key, the cell is
      the door or key glyph, whatever the distance and the wall colour. */
  lemma DoorAndKeyOverride(viewHeight: int, r: Ray, wallColor: Color, y: int)
    requires viewHeight >= 0
    requires var h := WallHeight(viewHeight, Clamped(r));
      CeilingRows(viewHeight, h) <= y < FloorRow(viewHeight, h)
    ensures r.hit == DoorHit ==> ColumnCell(viewHeight, r, wallColor, y) == Glyph('+', Yellow)
    ensures r.hit == KeyHit ==> ColumnCell(viewHeight, r, wallColor, y) == Glyph('K', Magenta)
    ensures r.hit == WallHit ==> ColumnCell(viewHeight, r, wallColor, y).color == wallColor
  {
  }

  // ---------------------------------------------------------------------
  // The colour carried from column to column

  /** The (distance, colour) pair carried into column `n`: nothing but
      (0, Black) before the first column; afterwards the previous column's
      clamped distance and wall colour. A column whose distance is within
      0.05 of the carried one reuses the carried colour. */
  function CacheAfter(rays: seq<Ray>, n: nat): (cache: (real, Color))
    requires n <= |rays|
    ensures n > 0 ==> cache.0 == Clamped(rays[n - 1])
    ensures InPalette(cache.1)
  {
    if n == 0 then (0.0, Black)
    else
      var prev := CacheAfter(rays, n - 1);
      var d := Clamped(rays[n - 1]);
      var color :=
        if Abs(d - prev.0) < 0.05 then prev.1
        else GetWallColor(d, MaxDepth, rays[n - 1].orientation);
      (d, color)
  }

  function Abs(r: real): real { if r < 0.0 then -r else r }

  /** The wall colour of column `n`. */
  function ColumnColor(rays: seq<Ray>, n: nat): Color
    requires n < |rays|
  {
    CacheAfter(rays, n + 1).1
  }

  /** The first column never reuses a colour: its distance is at least 0.1
      away from the initial 0. */
  lemma FirstColumnComputesColor(rays: seq<Ray>)
    requires |rays| > 0
    ensures ColumnColor(rays, 0) == GetWallColor(Clamped(rays[0]), MaxDepth, rays[0].orientation)
  {
    assert CacheAfter(rays, 0) == (0.0, Black);
  }

  /** Reuse only hands back a colour computed for this or an earlier column:
      every column's colour is the wall colour of some column at or before
      it. */
  lemma {:induction false} ColumnColorComputedEarlier(rays: seq<Ray>, n: nat)
    requires n < |rays|
    ensures exists k :: (0 <= k <= n &&
      ColumnColor(rays, n) == GetWallColor(Clamped(rays[k]), MaxDepth, rays[k].orientation))
  {
    var d := Clamped(rays[n]);
    var prev := CacheAfter(rays, n);
    if Abs(d - prev.0) < 0.05 {
      if n == 0 {
        assert false;
      } else {
        ColumnColorComputedEarlier(rays, n - 1);
        var k :| 0 <= k <= n - 1 &&
          ColumnColor(rays, n - 1) == GetWallColor(Clamped(rays[k]), MaxDepth, rays[k].orientation);
        assert ColumnColor(rays, n) == GetWallColor(Clamped(rays[k]), MaxDepth, rays[k].orientation);
      }
    } else {
      assert ColumnColor(rays, n) == GetWallColor(d, MaxDepth, rays[n].orientation);
    }
  }

  // ---------------------------------------------------------------------
  // The minimap

  /** Left (or top) edge of the minimap window: centred on the player, then
      pushed right to the map's start and back left to its end. */
  function WindowStart(p: int, window: int, extent: int): (s: int)
    requires window > 0
    ensures window <= extent ==> 0 <= s <= extent - window
    ensures window <= extent && 0 <= p < extent ==> s <= p < s + window
  {
    var centred := p - Div(window, 2);
    var low := if centred < 0 then 0 else centred;
    if low + window > extent then extent - window else low
  }

  /** The minimap colour and character of a cell kind; the characters are
      those of the map export. */
  function MiniGlyph(c: Cell): (g: Glyph)
    ensures g.ch == CellChar(c)
  {
    match c
    case Empty => Glyph('.', DarkGray)
    case Wall => Glyph('#', Gray)
    case DoorClosed => Glyph('+', DarkYellow)
    case DoorOpen => Glyph('/', Yellow)
    case Key => Glyph('K', Cyan)
  }

  /** The minimap cell for map cell (mapX, mapY): the player marker on the
      player's cell whatever lies there, the cell's own glyph elsewhere. */
  function MiniCell(g: Grid, px: int, py: int, mapX: int, mapY: int): Glyph
    requires WellFormed(g)
  {
    if mapX == px && mapY == py then Glyph('P', Red) else MiniGlyph(Get(g, mapX, mapY))
  }

  /** The minimap's rows for a grid and a player cell. */
  function MiniMap(g: Grid, px: int, py: int): (rows: seq<seq<Glyph>>)
    requires WellFormed(g)
    ensures |rows| == MinimapHeight
    ensures forall y :: 0 <= y < MinimapHeight ==> |rows[y]| == MinimapWidth
  {
    var sx := WindowStart(px, MinimapWidth, Width);
    var sy := WindowStart(py, MinimapHeight, Height);
    seq(MinimapHeight, y =>
      seq(MinimapWidth, x => MiniCell(g, px, py, sx + x, sy + y)))
  }

  /** A player on the grid appears on the minimap exactly once, and every
      other minimap cell shows its map cell with the export's character. */
  lemma MiniMapShowsPlayerOnce(g: Grid, px: int, py: int)
    requires WellFormed(g) && InBounds(px, py)
    ensures var rows := MiniMap(g, px, py);
      var sx := WindowStart(px, MinimapWidth, Width);
      var sy := WindowStart(py, MinimapHeight, Height);
      && 0 <= px - sx < MinimapWidth && 0 <= py - sy < MinimapHeight
      && rows[py - sy][px - sx] == Glyph('P', Red)
      && (forall y, x :: 0 <= y < MinimapHeight && 0 <= x < MinimapWidth && (x, y) != (px - sx, py - sy) ==>
            rows[y][x] == MiniGlyph(Get(g, sx + x, sy + y)))
  {
    var rows := MiniMap(g, px, py);
    var sx := WindowStart(px, MinimapWidth, Width);
    var sy := WindowStart(py, MinimapHeight, Height);
    assert sx <= px < sx + MinimapWidth && sy <= py < sy + MinimapHeight;
    assert rows[py - sy][px - sx] == MiniCell(g, px, py, px, py);
    forall y, x | 0 <= y < MinimapHeight && 0 <= x < MinimapWidth && (x, y) != (px - sx, py - sy)
      ensures rows[y][x] == MiniGlyph(Get(g, sx + x, sy + y))
    {
      assert rows[y][x] == MiniCell(g, px, py, sx + x, sy + y);
    }
  }

  // ---------------------------------------------------------------------
  // The renderer's state

  /** The renderer's view size and screen buffers (static in the source). */
  class Renderer {
    var ViewWidth: int
    var ViewHeight: int
    var buffer: array2<char>
    var colorBuffer: array2<Color>

    ghost predicate Valid()
      reads this
    {
      && ViewWidth >= 0 && ViewHeight >= 0
      && buffer.Length0 == ViewHeight && buffer.Length1 == ViewWidth
      && colorBuffer.Length0 == ViewHeight && colorBuffer.Length1 == ViewWidth
    }

    constructor ()
      ensures Valid() && ViewWidth == 0 && ViewHeight == 0
    {
      ViewWidth, ViewHeight := 0, 0;
      buffer := new char[0, 0];
      colorBuffer := new Color[0, 0];
    }

    /** Every cell becomes a blank in black. */
    method ClearBuffer()
      requires Valid()
      modifies buffer, colorBuffer
      ensures forall y, x :: 0 <= y < ViewHeight && 0 <= x < ViewWidth ==>
        buffer[y, x] == ' ' && colorBuffer[y, x] == Black
    {
      for y := 0 to ViewHeight
        invariant forall j, x :: 0 <= j < y && 0 <= x < ViewWidth ==>
          buffer[j, x] == ' ' && colorBuffer[j, x] == Black
      {
        for x := 0 to ViewWidth
          invariant forall j, i :: 0 <= j < y && 0 <= i < ViewWidth ==>
            buffer[j, i] == ' ' && colorBuffer[j, i] == Black
          invariant forall i :: 0 <= i < x ==> buffer[y, i] == ' ' && colorBuffer[y, i] == Black
        {
          buffer[y, x] := ' ';
          colorBuffer[y, x] := Black;
        }
      }
    }

    /** Writes one cell of both buffers and nothing else. */
    method Put(y: int, x: int, ch: char, color: Color)
      requires Valid() && 0 <= y < ViewHeight && 0 <= x < ViewWidth
      modifies buffer, colorBuffer
      ensures buffer[y, x] == ch && colorBuffer[y, x] == color
      ensures forall j, i :: 0 <= j < ViewHeight && 0 <= i < ViewWidth && (j, i) != (y, x) ==>
        buffer[j, i] == old(buffer[j, i]) && colorBuffer[j, i] == old(colorBuffer[j, i])
    {
      buffer[y, x] := ch;
      colorBuffer[y, x] := color;
    }

    /** The ceiling pass of a column: rows above `ceiling` (and inside the
        view) become the ceiling shade in cyan; no other cell changes. */
    method FillCeiling(x: int, ceiling: int)
      requires Valid() && 0 <= x < ViewWidth
      modifies buffer, colorBuffer
      ensures forall j :: 0 <= j < ViewHeight && j < ceiling ==>
        buffer[j, x] == CeilingShade && colorBuffer[j, x] == Cyan
      ensures forall j, i :: 0 <= j < ViewHeight && 0 <= i < ViewWidth && (i != x || j >= ceiling) ==>
        buffer[j, i] == old(buffer[j, i]) && colorBuffer[j, i] == old(colorBuffer[j, i])
    {
      var y := 0;
      while y < ceiling && y < ViewHeight
        invariant 0 <= y <= ViewHeight
        invariant y == 0 || y <= ceiling
        invariant forall j :: 0 <= j < y ==> buffer[j, x] == CeilingShade && colorBuffer[j, x] == Cyan
        invariant forall j, i :: 0 <= j < ViewHeight && 0 <= i < ViewWidth && (i != x || j >= y) ==>
          buffer[j, i] == old(buffer[j, i]) && colorBuffer[j, i] == old(colorBuffer[j, i])
      {
        Put(y, x, CeilingShade, Cyan);
        y := y + 1;
      }
    }

    /** The glyph the loop below the ceiling puts in row `y` of a column:
        the wall shade (a door or key ray overrides shade and colour), the
        runner shade in the next two rows, then the floor. */
    static method BandGlyph(viewHeight: int, y: int, r: Ray, wallColor: Color,
                            wallShade: char, runnerShade: char, floor: int, runnerEnd: int)
      returns (ch: char, color: Color)
      requires viewHeight >= 0
      requires var h := WallHeight(viewHeight, Clamped(r));
        && CeilingRows(viewHeight, h) <= y
        && floor == FloorRow(viewHeight, h) && runnerEnd == RunnerEnd(viewHeight, h)
      requires wallShade == WallGlyph(r.hit, Clamped(r), wallColor).ch
      requires runnerShade == RunnerShade(Clamped(r))
      ensures Glyph(ch, color) == ColumnCell(viewHeight, r, wallColor, y)
    {
      if y < floor {
        ch := wallShade;
        if r.hit == DoorHit {
          color := Yellow;
        } else if r.hit == KeyHit {
          color := Magenta;
        } else {
          color := wallColor;
        }
      } else if y < runnerEnd {
        ch, color := runnerShade, wallColor;
      } else {
        var g := FloorGlyph(viewHeight, y);
        ch, color := g.ch, g.color;
      }
    }

    /** Draws column `x`: the ceiling rows, then from the ceiling down the
        wall band (skipping rows above the view when the ceiling is
        negative), the runner band and the floor. No other column changes. */
    method DrawColumn(x: int, r: Ray, wallColor: Color)
      requires Valid() && 0 <= x < ViewWidth
      modifies buffer, colorBuffer
      ensures forall y :: 0 <= y < ViewHeight ==>
        Glyph(buffer[y, x], colorBuffer[y, x]) == ColumnCell(ViewHeight, r, wallColor, y)
      ensures forall y, i :: 0 <= y < ViewHeight && 0 <= i < ViewWidth && i != x ==>
        buffer[y, i] == old(buffer[y, i]) && colorBuffer[y, i] == old(colorBuffer[y, i])
    {
      var distance := Clamped(r);
      var wallHeight := WallHeight(ViewHeight, distance);
      var ceiling := CeilingRows(ViewHeight, wallHeight);
      var floor := ViewHeight - ceiling;
      var runnerWallEnd := Min(ViewHeight, floor + 2);

      FillCeiling(x, ceiling);

      var wallShade := WallShade(distance);
      var runnerWallShade := RunnerShade(distance);
      if r.hit == DoorHit {
        wallShade := '+';
      } else if r.hit == KeyHit {
        wallShade := 'K';
      }

      var y := ceiling;
      while y < ViewHeight
        invariant ceiling <= y
        invariant forall j :: 0 <= j < y && j < ViewHeight ==>
          Glyph(buffer[j, x], colorBuffer[j, x]) == ColumnCell(ViewHeight, r, wallColor, j)
        invariant forall j, i :: 0 <= j < ViewHeight && 0 <= i < ViewWidth && i != x ==>
          buffer[j, i] == old(buffer[j, i]) && colorBuffer[j, i] == old(colorBuffer[j, i])
      {
        // rows above the view (a negative ceiling) are skipped
        if 0 <= y {
          var ch, color := BandGlyph(ViewHeight, y, r, wallColor, wallShade, runnerWallShade, floor, runnerWallEnd);
          label Before:
          Put(y, x, ch, color);
          assert forall j :: 0 <= j < y ==>
            buffer[j, x] == old@Before(buffer[j, x]) && colorBuffer[j, x] == old@Before(colorBuffer[j, x]);
        }
        y := y + 1;
      }
    }

    /** The view pass of Render: sizes the view to the window less the
        minimap columns and the HUD rows, clears it, then draws every column
        from its ray, carrying the previous column's distance and colour. */
    method Render(windowWidth: int, windowHeight: int, rays: seq<Ray>)
      returns (buf: array2<char>, colors: array2<Color>)
      requires windowWidth >= ReservedColumns && windowHeight >= ReservedRows
      requires |rays| == windowWidth - ReservedColumns
      modifies this
      ensures Valid()
      ensures ViewWidth == windowWidth - ReservedColumns && ViewHeight == windowHeight - ReservedRows
      ensures fresh(buffer) && fresh(colorBuffer) && buf == buffer && colors == colorBuffer
      ensures forall y, x :: 0 <= y < ViewHeight && 0 <= x < ViewWidth ==>
        Glyph(buffer[y, x], colorBuffer[y, x]) == ColumnCell(ViewHeight, rays[x], ColumnColor(rays, x), y)
    {
      ViewWidth := windowWidth - ReservedColumns;
      ViewHeight := windowHeight - ReservedRows;
      buffer := new char[ViewHeight, ViewWidth];
      colorBuffer := new Color[ViewHeight, ViewWidth];

      ClearBuffer();

      var numRays := ViewWidth;
      var previousDistance := 0.0;
      var previousColor := Black;

      for x := 0 to numRays
        modifies buffer, colorBuffer
        invariant (previousDistance, previousColor) == CacheAfter(rays, x)
        invariant forall y, i :: 0 <= y < ViewHeight && 0 <= i < x ==>
          Glyph(buffer[y, i], colorBuffer[y, i]) == ColumnCell(ViewHeight, rays[i], ColumnColor(rays, i), y)
      {
        var distance := Clamped(rays[x]);
        var wallColor;
        if Abs(distance - previousDistance) < 0.05 {
          wallColor := previousColor;
        } else {
          wallColor := GetWallColor(distance, MaxDepth, rays[x].orientation);
        }
        previousDistance := distance;
        previousColor := wallColor;
        DrawColumn(x, rays[x], wallColor);
      }
      buf, colors := buffer, colorBuffer;
    }

    /** RenderMiniMap: a 20 by 10 window of the map, clamped to the map and
        centred on the player where possible, built row by row. */
    method RenderMiniMap(dungeon: Map, player: Player) returns (rows: seq<seq<Glyph>>)
      requires dungeon.Valid()
      ensures rows == MiniMap(dungeon.View(), Trunc(player.X), Trunc(player.Y))
    {
      var px, py := Trunc(player.X), Trunc(player.Y);
      var startX := px - MinimapWidth / 2;
      var startY := py - MinimapHeight / 2;
      if startX < 0 { startX := 0; }
      if startY < 0 { startY := 0; }
      if startX + MinimapWidth > Width { startX := Width - MinimapWidth; }
      if startY + MinimapHeight > Height { startY := Height - MinimapHeight; }

      ghost var target := MiniMap(dungeon.View(), px, py);
      assert startX == WindowStart(px, MinimapWidth, Width);
      assert startY == WindowStart(py, MinimapHeight, Height);
      rows := [];
      for y := 0 to MinimapHeight
        invariant rows == target[..y]
      {
        var row := [];
        for x := 0 to MinimapWidth
          invariant row == target[y][..x]
        {
          var mapX, mapY := startX + x, startY + y;
          var cell := dungeon.GetCell(mapX, mapY);
          assert target[y][x] == MiniCell(dungeon.View(), px, py, mapX, mapY);
          var glyph;
          if mapX == px && mapY == py {
            glyph := Glyph('P', Red);
          } else {
            glyph := MiniGlyph(cell);
          }
          row := row + [glyph];
        }
        assert row == target[y];
        rows := rows + [row];
      }
    }
  }
}
