# Dungeon-Game core in Dafny

A Dafny model of a console dungeon crawler. The game has:

- a 50 x 30 grid of cells (empty floor, wall, closed door, open door, key);
- a generator that carves rectangular rooms and joins them with L-shaped
  tunnels, then puts closed doors around the rooms and one key inside each;
- a player who walks the grid, picks up keys and spends them on doors;
- a text renderer that draws a first-person view, column by column, plus a
  minimap.

Modules, one per concern:

- `CSharp` (csharp.dfy): the C# integer semantics the game relies on.
  Division truncates toward zero, and `(int)` of a floating-point value
  truncates toward zero.
- `Geometry` (rectangle.dfy): the `Rectangle` struct.
- `Cells` (cells.dfy): the cell kinds, the grid size and a value view of
  the grid.
  - `Get` and `Set` are the bounds-checked read and write.
  - `Count` counts the cells of one kind.
  - `CellChar` is the export character of a cell kind.
- `Randomness` (randomness.dfy): `System.Random` as a class over a fixed
  stream of draws.
  - Draw number `p`, asked for in `[lo, hi)`, is whatever the stream holds
    for `(p, lo, hi)`.
  - The model only knows that the draw lies in that range.
- `RoomPlan` (roomplan.dfy): which rooms the generator keeps, as a pure
  function of the draws.
- `MapPlan` (mapplan.dfy): the door-and-key pass as functions of the grid
  and the draws. It fixes the order of the door candidates, the draw each
  wall candidate takes and the two draws that pick each key cell.
- `Generation` (generation.dfy): the room carving and the hallway loop as
  functions of the draws. `Generate` is the whole of GenerateMap as one
  function of the draws.
- `Dungeon` (dungeon.dfy): the `Map` class over a `Height` x `Width` array
  indexed `[y, x]`. It holds the generator's passes as methods, `GetCell` and
  `SetCell`, and the text export. Each pass is proved against the function
  of `MapPlan` or `Generation` that it computes.
- `Actor` (actor.dfy): the `Player` class, together with pure outcome
  functions (`MoveOutcome`, `InteractOutcome`) that its methods are proved
  against.
- `Screen` (screen.dfy): the renderer.
  - Colours and the wall colour.
  - The band layout of one view column.
  - The colour carried from column to column.
  - The `Renderer` class with its two screen buffers, and the minimap.

Messages that the source prints to the console become an `Event` value
returned by the player's actions. Angles and trigonometry stay outside the
model:

- a player action takes the facing vector `(cosA, sinA)`;
- the view pass takes one `Ray` per column. A `Ray` is the corrected distance
  found by the ray march, what it hit, and the wall orientation.

The generator is proved to produce exactly `Generate` of its draws, and
that result is proved to have:

- at least one room;
- pairwise disjoint rooms, each at least 4 x 4 and well inside the grid;
- a wall ring that stays intact;
- doors only where walls stood on a room's perimeter, and no open door;
- exactly one key strictly inside each room, and no key anywhere else;
- after the hallway loop, every hallway's whole path empty. The later
  door and key pass may then put a key on a path cell (the first room's
  centre, say);
- a start cell at the first room's centre that the player may stand on.

The player's actions are proved to:

- conserve keys in hand + key cells + open doors;
- pick up a key only once;
- never leave the player inside a wall;
- clear exactly the target cell when a key is picked up, and leave the grid
  alone on any other move.

When both side cells are walls, the caller refuses to strafe. That veto
never changes an outcome: a strafe into a wall is already refused by the
move itself (`RestrictedBlocksStrafing`).

## Model

| member | source | states |
|---|---|---|
| CSharp.Div | DungeonGame/Rectangle.cs:6 | C# integer division: the quotient truncates toward zero, so the remainder has the dividend's sign |
| CSharp.Trunc | DungeonGame/Player.cs:117 | the `(int)` cast of a double truncates toward zero: floor for non-negative values, ceiling for negative ones |
| Geometry.Rectangle.CenterX | DungeonGame/Rectangle.cs:6 | the centre column lies within [X1, X2], and strictly inside when the rectangle spans at least three columns |
| Geometry.Rectangle.CenterY | DungeonGame/Rectangle.cs:7 | the centre row lies within [Y1, Y2], and strictly inside when the rectangle spans at least three rows |
| Geometry.MakeRectangle | DungeonGame/Rectangle.cs:9-15 | the constructed rectangle covers exactly `width` columns from x and `height` rows from y; with a positive size it is non-empty and holds both corners |
| Geometry.IntersectsSymmetric | DungeonGame/Rectangle.cs:17-21 | the overlap test gives the same answer both ways round |
| Geometry.IntersectsReflexive | DungeonGame/Rectangle.cs:17-21 | a non-empty rectangle intersects itself |
| Geometry.IntersectsIffSharedCell | DungeonGame/Rectangle.cs:17-21 | for non-empty rectangles, `Rectangle.Intersects` holds if and only if some cell lies in both |
| Geometry.EdgeAdjacentDisjoint | DungeonGame/Rectangle.cs:17-21 | rectangles that only touch along an edge do not intersect |
| Cells.Set | DungeonGame/Map.cs:160-164 | the bounds-checked write: off the grid the grid is unchanged; on the grid exactly that cell takes the new kind |
| Cells.CountAfterSet | DungeonGame/Player.cs:125-126 | writing one cell moves it from its old kind's count to its new kind's count |
| Cells.CellChar | DungeonGame/Map.cs:177-194 | every cell kind exports as one of '.', '#', '+', '/', 'K' |
| Cells.CellOfChar | DungeonGame/Map.cs:177-194 | every export character decodes to a kind that exports as that character again |
| Cells.CellCharRoundTrip | DungeonGame/Map.cs:177-194 | the export mapping is lossless: decoding a kind's character gives the kind back |
| Randomness.Draw | DungeonGame/Map.cs:40-48 | every draw lies in the half-open range it was asked for |
| Randomness.Random.constructor | DungeonGame/Map.cs:27 | a generator seeded with a stream starts at its first draw |
| Randomness.Random.Next | DungeonGame/Map.cs:45-48 | returns the next draw of the stream, in [minValue, maxValue), and advances by one |
| RoomPlan.RoomCount | DungeonGame/Map.cs:40 | the generator makes between 5 and 9 room attempts |
| RoomPlan.Candidate | DungeonGame/Map.cs:45-50 | every candidate room is 4 to 9 cells wide and 4 to 7 high; it is at least one cell from the top and left edges and two from the bottom and right |
| RoomPlan.AcceptedWellPlaced | DungeonGame/Map.cs:43-66 | every kept room is well placed |
| RoomPlan.AcceptedDisjoint | DungeonGame/Map.cs:51-66 | kept rooms are pairwise disjoint |
| RoomPlan.AcceptedFirst | DungeonGame/Map.cs:43-66 | the first attempt is always kept, so at least one room exists, rooms[0] is the first candidate, and no more rooms than attempts are kept |
| RoomPlan.InAnyRoomAppend | DungeonGame/Map.cs:62-66 | keeping a room adds exactly its cells to the area covered by rooms |
| MapPlan.PerimeterOrderCells | DungeonGame/Map.cs:121-133 | the candidate list, in the source's order, holds exactly the cells one step outside an edge of the room, corners excluded |
| MapPlan.DoorPassChanges | DungeonGame/Map.cs:135-144 | the door pass takes at most one draw per candidate and only turns walls into closed doors, at listed positions with x > 0 and y > 0 |
| MapPlan.DoorPassStep | DungeonGame/Map.cs:135-144 | the door pass over one more candidate is the pass so far followed by that candidate's step |
| MapPlan.KeyCell | DungeonGame/Map.cs:147-148 | the key cell drawn for a well-placed room lies strictly inside it |
| MapPlan.FurnishEffect | DungeonGame/Map.cs:118-149 | one round on an empty room leaves the room holding its drawn key and empty elsewhere; outside it only perimeter walls become closed doors |
| MapPlan.FurnishAllEffect | DungeonGame/Map.cs:116-151 | the loop over disjoint empty rooms leaves every room holding its own drawn key; the key cells of the grid are the old ones plus the drawn ones, and every other change is wall to closed door at a door site |
| MapPlan.FurnishAllStep | DungeonGame/Map.cs:116-151 | furnishing one more room is the rounds so far followed by that room's round, with its key cell appended |
| MapPlan.NextRoomEmpty | DungeonGame/Map.cs:118 | the rounds for earlier rooms leave the next, disjoint room empty |
| MapPlan.FurnishedFrom | DungeonGame/Map.cs:116-151 | a grid of walls and floor with an intact ring, changed only by doors at door sites and keys at key cells, is furnished |
| MapPlan.FurnishAllFurnished | DungeonGame/Map.cs:116-151 | on a laid-out grid the loop ends furnished: the ring is wall, each room holds exactly its key, keys lie exactly at the key cells, no door is open, and closed doors stand only at door sites |
| Generation.Carve | DungeonGame/Map.cs:62-66 | the carved grid is well formed |
| Generation.HallwayCells | DungeonGame/Map.cs:72-86 | a hallway empties exactly the on-grid cells of its L-shaped path, whichever way the coin bends it, and changes nothing else |
| Generation.HallwayEffect | DungeonGame/Map.cs:72-86 | one hallway only empties cells, never refills one, and empties every on-grid cell of its path |
| Generation.ConnectHallways | DungeonGame/Map.cs:70-87 | the hallway loop takes one draw per hallway, only ever empties cells, never refills one, and leaves the whole path of every hallway empty |
| Generation.ConnectDraws | DungeonGame/Map.cs:70-87 | the hallway loop over the first n rooms takes n - 1 draws, one per hallway |
| Generation.ConnectOnlyEmpties | DungeonGame/Map.cs:70-87 | the hallway loop changes a cell only by emptying it, and an empty cell stays empty |
| Generation.ConnectStep | DungeonGame/Map.cs:72-86 | the next hallway keeps every empty cell empty and empties the on-grid cells of its own path |
| Generation.PathsExtend | DungeonGame/Map.cs:70-87 | once the next hallway is dug, the paths of all hallways dug so far are still empty |
| Generation.ConnectPaths | DungeonGame/Map.cs:70-87 | after the loop every on-grid cell of every hallway's path is empty |
| Generation.Generate | DungeonGame/Map.cs:32-95 | the generated grid is well formed and holds one key cell per room |
| Dungeon.PerimeterPositions | DungeonGame/Map.cs:121-133 | the list built is `PerimeterOrder` of the room, so it holds exactly the room's perimeter cells |
| Dungeon.Overlaps | DungeonGame/Map.cs:51-60 | the scan reports an overlap if and only if the candidate intersects some kept room |
| Dungeon.Map.GetCell | DungeonGame/Map.cs:153-158 | off the grid every cell reads as a wall; on the grid the stored cell is returned |
| Dungeon.Map.SetCell | DungeonGame/Map.cs:160-164 | only the addressed cell changes, and only when it is on the grid; the grid's value view is `Set` of the old view |
| Dungeon.Map.FillWithWalls | DungeonGame/Map.cs:35-37 | every cell becomes a wall |
| Dungeon.Map.CreateRoom | DungeonGame/Map.cs:97-102 | exactly the room's cells become empty and every other cell is unchanged |
| Dungeon.Map.CreateHorizontalTunnel | DungeonGame/Map.cs:104-108 | the grid becomes `HTunnel` of the old grid: exactly row y from min(x1,x2) to max(x1,x2) becomes empty, clipped to the grid, and every other cell is unchanged |
| Dungeon.Map.CreateVerticalTunnel | DungeonGame/Map.cs:110-114 | the grid becomes `VTunnel` of the old grid: exactly column x from min(y1,y2) to max(y1,y2) becomes empty, clipped to the grid, and every other cell is unchanged |
| Dungeon.Map.TryRoom | DungeonGame/Map.cs:45-66 | one attempt takes four draws and keeps the candidate if and only if it intersects no kept room; afterwards the empty cells are exactly the kept rooms' cells |
| Dungeon.Map.PlaceRooms | DungeonGame/Map.cs:40-67 | one draw for the attempt count and four per attempt; the rooms kept are `Accepted` of the draws, and the carved cells are exactly theirs |
| Dungeon.Map.MakeAttempts | DungeonGame/Map.cs:43-66 | the attempts take four draws each; the rooms kept are `Accepted` of the draws, and the carved cells are exactly theirs |
| Dungeon.Map.CarvedRooms | DungeonGame/Map.cs:40-67 | after the room loop there is at least one room; rooms are disjoint and well placed, the ring is wall, rooms are empty and nothing but floor and wall exists |
| Dungeon.Map.LayOutRooms | DungeonGame/Map.cs:34-67 | the grid becomes `Carve` of the rooms `Accepted` from the draws, with the properties of CarvedRooms |
| Dungeon.Map.CarvedView | DungeonGame/Map.cs:34-67 | a grid whose empty cells are exactly the rooms' cells is `Carve` of the rooms |
| Dungeon.Map.ConnectRooms | DungeonGame/Map.cs:70-87 | the new grid and draw count are `Connect` of the old grid, the rooms and the draws; the ring stays wall, the rooms stay empty and no door or key appears |
| Dungeon.Map.DigHallway | DungeonGame/Map.cs:72-86 | one coin draw, and the grid becomes `Hallway` of the old grid between the two rooms' centres, bent as the coin says |
| Dungeon.Map.CarveAndConnect | DungeonGame/Map.cs:34-87 | the rooms are `Accepted` of the draws, and the grid and draw count are `Connect` of their carved grid |
| Dungeon.Map.PlaceDoors | DungeonGame/Map.cs:135-144 | the new grid and draw count are `DoorPass` of the old grid over the positions: which walls become doors is fixed by the draws; a cell changes only from wall to closed door, at a listed position with x > 0 and y > 0 |
| Dungeon.Map.PlaceKey | DungeonGame/Map.cs:146-149 | two draws pick the key cell, `KeyCell` of the room, and exactly that cell becomes a key |
| Dungeon.Map.FurnishRoom | DungeonGame/Map.cs:118-150 | the new grid, draw count and key cell are `Furnish` of the old state and the draws; the room ends with exactly that key, strictly inside it, and is empty elsewhere; other changes are wall to door on its perimeter |
| Dungeon.Map.FurnishRooms | DungeonGame/Map.cs:118-150 | the loop computes `FurnishAll` of the old grid, the rooms and the draws |
| Dungeon.Map.PlaceDoorsAndKeys | DungeonGame/Map.cs:116-151 | the new grid, draw count and key cells are `FurnishAll` of the old state and the draws, and the grid is `Furnished`: one key per room strictly inside it and no other key, doors only where walls stood at door sites, the ring wall, no open door |
| Dungeon.Map.Build | DungeonGame/Map.cs:34-94 | the grid, draw count, rooms and key cells are `Generate` of the draws, and the grid is furnished |
| Dungeon.Map.StartOnFloor | DungeonGame/Map.cs:89-91 | with the start at the first room's centre, a built grid is a finished map: that cell is on the grid and empty or a key |
| Dungeon.Map.Settle | DungeonGame/Map.cs:89-94 | records the rooms, key cells and the first room's centre as the start, leaves the grid unchanged, and the map is then generated |
| Dungeon.Map.GenerateMap | DungeonGame/Map.cs:32-95 | the grid, draw count, rooms and key cells are `Generate` of the draws, and the map is `Generated`: at least one room, rooms disjoint and well placed, furnished as above, start at the first room's centre on an empty or key cell |
| Dungeon.Map.constructor | DungeonGame/Map.cs:22-30 | a new map over a fresh 30 x 50 grid is `Generate` of its stream from the first draw, and is `Generated` |
| Dungeon.Map.MapText | DungeonGame/Map.cs:167-200 | the export has one line per row and one character per cell, the character of that cell's kind |
| Actor.MoveOutcome | DungeonGame/Player.cs:115-141 | a move gains a key exactly when it shows the pickup message and otherwise keeps the key count; the player either stays entirely put or stands at the target |
| Actor.InteractOutcome | DungeonGame/Player.cs:87-105 | interacting spends a key exactly when it shows the unlock message and never moves the player |
| Actor.MoveLandsIffWalkable | DungeonGame/Player.cs:115-141 | a move lands on the target if the target cell is empty, an open door or a key, and otherwise changes nothing; the locked-door message appears exactly for a closed door, the pickup message exactly for a key; on floor or an open door the grid and keys are unchanged; on a key exactly that cell becomes empty and one key is added |
| Actor.MoveKeepsBudget | DungeonGame/Player.cs:123-128 | walking conserves keys in hand + key cells + open doors, and the number of closed doors |
| Actor.InteractKeepsBudget | DungeonGame/Player.cs:93-96 | opening a door conserves keys in hand + key cells + open doors, and closed + open doors |
| Actor.InteractSpendsOneKey | DungeonGame/Player.cs:87-105 | a door is unlocked if and only if the cell ahead is a closed door and a key is held; then exactly one key is spent, exactly that cell opens, and the player stays; otherwise nothing changes |
| Actor.KeysStayNatural | DungeonGame/Player.cs:93-95 | from a non-negative key count, neither moving nor interacting makes it negative |
| Actor.PickUpOnce | DungeonGame/Player.cs:123-128 | a key is gained once: stepping again onto the same target gains nothing and shows no message |
| Actor.MoveKeepsOnFloor | DungeonGame/Player.cs:115-141 | a player standing on floor, an open door or a key still does so after any move |
| Actor.InteractKeepsOnFloor | DungeonGame/Player.cs:87-105 | interacting never changes the cell the player stands on, so a player on floor, an open door or a key still stands on one |
| Actor.StartIsOnFloor | DungeonGame/Player.cs:15-19 | a player placed at a generated map's start cell stands on floor or a key |
| Actor.Player.constructor | DungeonGame/Player.cs:15-19 | the player starts in the middle of the start cell with no keys; truncating a position on the grid gives the cell back |
| Actor.Player.AttemptMove | DungeonGame/Player.cs:115-141 | the new position, keys and grid, and the message, are `MoveOutcome` of the old state |
| Actor.Player.MoveForward | DungeonGame/Player.cs:36-41 | an attempted move one step along the facing vector |
| Actor.Player.MoveBackward | DungeonGame/Player.cs:43-48 | an attempted move one step against the facing vector |
| Actor.Player.StrafeRight | DungeonGame/Player.cs:50-55 | an attempted move one step to (X - sin A, Y + cos A) |
| Actor.Player.StrafeLeft | DungeonGame/Player.cs:57-62 | an attempted move one step to (X + sin A, Y - cos A) |
| Actor.Player.IsSpaceRestricted | DungeonGame/Player.cs:76-85 | the space is restricted exactly when both side cells of the grid are walls, a side cell off the grid counting as a wall |
| Actor.Player.RestrictedBlocksStrafing | DungeonGame/Player.cs:76-85 | when both side cells are walls, neither strafe moves the player or changes the grid |
| Actor.Player.Interact | DungeonGame/Player.cs:87-105 | the new keys and grid, and the message, are `InteractOutcome` of the old state |
| Screen.GetWallColor | DungeonGame/Renderer.cs:303-324 | every wall colour is one of White, Gray, DarkGray, DarkBlue, Black |
| Screen.DarkenColor | DungeonGame/Renderer.cs:326-336 | darkening lands in the wall palette and never raises a colour's rank |
| Screen.DarkenNeverBrightens | DungeonGame/Renderer.cs:326-336 | darkening goes exactly one step down the White-Gray-DarkGray-DarkBlue-Black chain, keeps Black, and sends every other colour to Black |
| Screen.SideWallIsDarkened | DungeonGame/Renderer.cs:316-321 | an east-west wall gets the darkened colour of a north-south wall at the same distance; any orientation other than 1 is a north-south wall |
| Screen.WallColorMonotone | DungeonGame/Renderer.cs:305-315 | a farther wall is never brighter than a nearer one of the same orientation |
| Screen.Clamped | DungeonGame/Renderer.cs:99 | the distance used is at least 0.1: the corrected one, or 0.1 when that is smaller |
| Screen.WallHeight | DungeonGame/Renderer.cs:101 | the wall height in rows is never negative |
| Screen.BandsAreCentred | DungeonGame/Renderer.cs:102-103 | the wall band is centred: row y is a ceiling row exactly when its mirror row from the bottom lies at or below the wall band |
| Screen.WallBandHeight | DungeonGame/Renderer.cs:101-103 | a wall no taller than the view fits inside it and gets its height in rows, plus one when the leftover rows are odd |
| Screen.TallWallFillsColumn | DungeonGame/Renderer.cs:102-103 | a wall at least as tall as the view leaves no ceiling or floor rows |
| Screen.RunnerBandBounds | DungeonGame/Renderer.cs:104-105 | the runner band under the wall is at most two rows and never passes the bottom of the view |
| Screen.WallShade | DungeonGame/Renderer.cs:119 | the wall character is the full block, the dark shade or the medium shade |
| Screen.RunnerShade | DungeonGame/Renderer.cs:120 | the runner character is the dark shade or the medium shade |
| Screen.ShadesFadeWithDistance | DungeonGame/Renderer.cs:119-120 | a farther wall or runner is never drawn denser than a nearer one, and the runner is never denser than the wall above it |
| Screen.FloorGlyph | DungeonGame/Renderer.cs:165-189 | a floor cell is '#' in dark green, 'x' in green, '.' in gray or a blank in black |
| Screen.FloorDarkensDownward | DungeonGame/Renderer.cs:168-188 | a lower floor row is never drawn lighter than a row above it |
| Screen.DoorAndKeyOverride | DungeonGame/Renderer.cs:142-155 | in the wall band a door shows '+' in yellow and a key 'K' in magenta whatever the distance; a plain wall takes the wall colour |
| Screen.CacheAfter | DungeonGame/Renderer.cs:130-139 | after a column, the carried distance is that column's clamped distance and the carried colour is in the wall palette |
| Screen.FirstColumnComputesColor | DungeonGame/Renderer.cs:130-139 | the first column always computes its wall colour, since its distance is at least 0.1 away from the initial 0 |
| Screen.ColumnColorComputedEarlier | DungeonGame/Renderer.cs:130-139 | every column's colour is the wall colour computed for that column or an earlier one |
| Screen.WindowStart | DungeonGame/Renderer.cs:220-228 | the minimap window lies within the map; a player on the map lies inside the window |
| Screen.MiniGlyph | DungeonGame/Renderer.cs:244-273 | each cell kind shows on the minimap as the same character the map export uses |
| Screen.MiniMap | DungeonGame/Renderer.cs:230-278 | the minimap is 10 rows of 20 cells |
| Screen.MiniMapShowsPlayerOnce | DungeonGame/Renderer.cs:237-273 | a player on the map is shown as a red 'P' at their cell; every other minimap cell shows its map cell's glyph |
| Screen.Renderer.constructor | DungeonGame/Renderer.cs:9-12 | before the first frame the view is 0 x 0 |
| Screen.Renderer.ClearBuffer | DungeonGame/Renderer.cs:338-348 | every cell of the view becomes a blank in black |
| Screen.Renderer.FillCeiling | DungeonGame/Renderer.cs:112-116 | the column's rows above the ceiling line become the ceiling shade in cyan; no other cell changes, in this column or any other |
| Screen.Renderer.BandGlyph | DungeonGame/Renderer.cs:142-189 | the character and colour picked for a row below the ceiling are `ColumnCell` of that row |
| Screen.Renderer.DrawColumn | DungeonGame/Renderer.cs:101-190 | every row of the column shows `ColumnCell` for its ray and wall colour; no other column changes |
| Screen.Renderer.Render | DungeonGame/Renderer.cs:16-209 | the view is the window less 20 columns and 6 rows, with fresh buffers; every cell shows `ColumnCell` of its column's ray and its carried colour |
| Screen.Renderer.RenderMiniMap | DungeonGame/Renderer.cs:211-281 | the minimap drawn is `MiniMap` of the grid at the player's truncated position |

## Left out

- Game.cs (the game loop, keyboard input, the HUD) is not part of this model.
- The PRNG algorithm of `System.Random` is not modelled.
  - A seed is abstracted to a stream of draws that each lie in the range
    asked for.
  - `Next(n)` is written `Next(0, n)`.
- Trigonometry and angles are left out: the angle, RotateLeft/RotateRight,
  NormalizeAngle and FacingDirection.
  - Player actions take the facing vector `(cosA, sinA)` as input.
  - Strafing and IsSpaceRestricted use the identities
    cos(A +- pi/2) = -+sin A and sin(A +- pi/2) = +-cos A.
- The ray march and DetermineWallOrientation (Renderer.cs:43-98, 283-301) are
  left out.
  - Each column's corrected distance, hit kind and orientation arrive as a
    `Ray`.
  - The fish-eye correction is part of that input.
- Doubles are idealised as reals: no rounding, infinities or NaN. The one NaN
  case that changes a glyph, the floor shade of a one-row view, is written
  out in `FloorGlyph`.
- Int32 arithmetic is modelled unbounded: `X1 + X2` in CenterX and
  CenterY, `x + width - 1` in the Rectangle constructor and `Keys++` do not
  wrap. Every value the program computes stays far inside the range:
  coordinates are below 50 and a player holds at most 9 keys.
- The `(int)` casts are modelled without overflow. For out-of-range doubles
  C# gives an unspecified result.
- Console output is left out. Messages become `Event` values. The minimap is
  returned as rows instead of being written beside the view. The copy of the
  buffers to the console is not modelled.
- SaveMapToFile writes to a file. Only the text it writes is modelled
  (`MapText`).
- Generation.ConnectHallways: states that every hallway's path is empty,
  not that the rooms end up reachable from one another.
- Screen.Renderer.Render: the window size is a parameter instead of being
  read from the console.
- Screen.Renderer.Render: requires a window at least 20 columns wide and 6
  rows high. On a smaller console the source's buffer allocation throws
  OverflowException, and that failure is not modelled.
- Screen.Renderer.Render: the minimap is drawn by a separate call to
  RenderMiniMap.
- Screen.GetWallColor: requires a positive maximum depth. The source calls
  it only with 20.
- Actor.Player.constructor: the start cell is recovered by truncation only
  for non-negative coordinates. Truncation toward zero maps -0.5 to 0.
- The generator is split into phase methods: LayOutRooms, PlaceRooms,
  MakeAttempts, TryRoom, CarveAndConnect, ConnectRooms, DigHallway, Build,
  PlaceDoorsAndKeys, FurnishRooms, FurnishRoom, PerimeterPositions,
  PlaceDoors, PlaceKey and Settle. They run the source's loops in the
  source's order, with the same draws and writes.
- Dungeon.Map.GenerateMap: sets the start after the doors and keys, where
  the source sets it before them. No pass reads the start, so the result is
  the same.
- Map.Rooms and Map.KeyCells are ghost fields. They record the generator's
  local room list and key cells for the specification.
