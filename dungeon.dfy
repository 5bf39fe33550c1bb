/** The dungeon map and its generator (DungeonGame/Map.cs). The grid is a
    `Height` x `Width` array indexed `[y, x]`, as in the source. */
module Dungeon {
  import opened CSharp
  import opened Cells
  import opened Geometry
  import opened Randomness
  import opened RoomPlan
  import opened MapPlan
  import opened Generation

  /** The cells listed by PlaceDoorsAndKeys as door candidates of a room: the
      perimeter one step outside each edge, in the order the source adds them. */
  method PerimeterPositions(room: Rectangle) returns (positions: seq<(int, int)>)
    ensures positions == PerimeterOrder(room)
    ensures forall x, y :: (x, y) in positions <==> room.OnPerimeter(x, y)
  {
    positions := [];
    var x := room.X1;
    while x <= room.X2
      invariant room.X1 <= x <= Max(room.X1, room.X2 + 1)
      invariant positions == TopBottom(room, x - room.X1)
    {
      positions := positions + [(x, room.Y1 - 1), (x, room.Y2 + 1)];
      x := x + 1;
    }
    var y := room.Y1;
    while y <= room.Y2
      invariant room.Y1 <= y <= Max(room.Y1, room.Y2 + 1)
      invariant positions == TopBottom(room, Span(room.X1, room.X2)) + LeftRight(room, y - room.Y1)
    {
      positions := positions + [(room.X1 - 1, y), (room.X2 + 1, y)];
      y := y + 1;
    }
    forall x, y
      ensures (x, y) in positions <==> room.OnPerimeter(x, y)
    {
      PerimeterOrderCells(room, x, y);
    }
  }

  /** The scan of the kept rooms in GenerateMap: stops at the first kept room
      the candidate intersects. */
  method Overlaps(room: Rectangle, rooms: seq<Rectangle>) returns (overlaps: bool)
    ensures overlaps == OverlapsAny(room, rooms)
  {
    overlaps := false;
    var j := 0;
    while j < |rooms|
      invariant 0 <= j <= |rooms| && !overlaps
      invariant forall k :: 0 <= k < j ==> !room.Intersects(rooms[k])
    {
      if room.Intersects(rooms[j]) {
        overlaps := true;
        break;
      }
      j := j + 1;
    }
  }

  class Map {
    const cells: array2<Cell>
    const rand: Random
    var StartX: int
    var StartY: int
    /** The rooms GenerateMap accepted, in generation order (a local list in the source). */
    ghost var Rooms: seq<Rectangle>
    /** The cell where PlaceDoorsAndKeys put each room's key. */
    ghost var KeyCells: seq<(int, int)>

    ghost predicate Valid() {
      cells.Length0 == Height && cells.Length1 == Width
    }

    /** The grid as a value. */
    ghost function View(): (g: Grid)
      reads cells
      requires Valid()
      ensures WellFormed(g)
      ensures forall y, x :: 0 <= y < Height && 0 <= x < Width ==> g[y][x] == cells[y, x]
    {
      seq(Height, y requires 0 <= y < Height reads cells =>
        seq(Width, x requires 0 <= x < Width reads cells => cells[y, x]))
    }

    function GetCell(x: int, y: int): (c: Cell)
      reads cells
      requires Valid()
      ensures !InBounds(x, y) ==> c == Wall
      ensures InBounds(x, y) ==> c == cells[y, x]
      ensures c == Get(View(), x, y)
    {
      if x < 0 || x >= Width || y < 0 || y >= Height then Wall else cells[y, x]
    }

    method SetCell(x: int, y: int, cellType: Cell)
      requires Valid()
      modifies cells
      ensures forall j, i :: 0 <= j < Height && 0 <= i < Width ==>
        cells[j, i] == if i == x && j == y then cellType else old(cells[j, i])
      ensures View() == Set(old(View()), x, y, cellType)
    {
      if x >= 0 && x < Width && y >= 0 && y < Height {
        cells[y, x] := cellType;
      }
      ghost var g, h := View(), Set(old(View()), x, y, cellType);
      forall j | 0 <= j < Height
        ensures g[j] == h[j]
      {
        assert forall i :: 0 <= i < Width ==> g[j][i] == Get(h, i, j);
      }
    }

    /** Every cell of the outer ring is a wall. */
    ghost predicate RingIsWall()
      reads cells
      requires Valid()
    {
      forall y, x :: 0 <= y < Height && 0 <= x < Width && OnRing(x, y) ==> cells[y, x] == Wall
    }

    /** The carved cells are exactly the cells of the rooms. */
    ghost predicate CarvedExactly(rooms: seq<Rectangle>)
      reads cells
      requires Valid()
    {
      forall y, x :: 0 <= y < Height && 0 <= x < Width ==>
        cells[y, x] == if InAnyRoom(rooms, x, y) then Empty else Wall
    }

    /** Every cell is empty or a wall: no doors or keys yet. */
    ghost predicate OnlyEmptyOrWall()
      reads cells
      requires Valid()
    {
      forall y, x :: 0 <= y < Height && 0 <= x < Width ==> cells[y, x] == Empty || cells[y, x] == Wall
    }

    /** Every cell of every room is empty. */
    ghost predicate RoomsAreEmpty(rooms: seq<Rectangle>)
      reads cells
      requires Valid()
    {
      forall k, y, x :: 0 <= k < |rooms| && 0 <= y < Height && 0 <= x < Width && rooms[k].Contains(x, y) ==>
        cells[y, x] == Empty
    }

    /** The room holds a key at `key` and is empty everywhere else. */
    ghost predicate RoomHoldsKeyAt(room: Rectangle, key: (int, int))
      reads cells
      requires Valid()
    {
      forall y, x :: 0 <= y < Height && 0 <= x < Width && room.Contains(x, y) ==>
        cells[y, x] == if (x, y) == key then Key else Empty
    }

    method FillWithWalls()
      requires Valid()
      modifies cells
      ensures forall y, x :: 0 <= y < Height && 0 <= x < Width ==> cells[y, x] == Wall
    {
      for y := 0 to Height
        invariant forall j, i :: 0 <= j < y && 0 <= i < Width ==> cells[j, i] == Wall
      {
        for x := 0 to Width
          invariant forall j, i :: 0 <= j < y && 0 <= i < Width ==> cells[j, i] == Wall
          invariant forall i :: 0 <= i < x ==> cells[y, i] == Wall
        {
          cells[y, x] := Wall;
        }
      }
    }

    /** Carves every cell of the room, indexing the array directly. */
    method CreateRoom(room: Rectangle)
      requires Valid()
      requires 0 <= room.X1 && room.X2 < Width && 0 <= room.Y1 && room.Y2 < Height
      modifies cells
      ensures forall j, i :: 0 <= j < Height && 0 <= i < Width ==>
        cells[j, i] == if room.Contains(i, j) then Empty else old(cells[j, i])
    {
      var y := room.Y1;
      while y <= room.Y2
        invariant room.Y1 <= y <= Max(room.Y1, room.Y2 + 1)
        invariant forall j, i :: 0 <= j < Height && 0 <= i < Width ==>
          cells[j, i] == if room.X1 <= i <= room.X2 && room.Y1 <= j < y then Empty else old(cells[j, i])
      {
        var x := room.X1;
        while x <= room.X2
          invariant room.X1 <= x <= Max(room.X1, room.X2 + 1)
          invariant forall j, i :: 0 <= j < Height && 0 <= i < Width ==>
            cells[j, i] == if room.X1 <= i <= room.X2 && (room.Y1 <= j < y || (j == y && i < x)) then Empty else old(cells[j, i])
        {
          cells[y, x] := Empty;
          x := x + 1;
        }
        y := y + 1;
      }
    }

    /** Carves row `y` from column min(x1, x2) to max(x1, x2), through SetCell. */
    method CreateHorizontalTunnel(x1: int, x2: int, y: int)
      requires Valid()
      modifies cells
      ensures forall j, i :: 0 <= j < Height && 0 <= i < Width ==>
        cells[j, i] == if j == y && Min(x1, x2) <= i <= Max(x1, x2) then Empty else old(cells[j, i])
      ensures View() == HTunnel(old(View()), x1, x2, y)
    {
      var x := Min(x1, x2);
      while x <= Max(x1, x2)
        invariant Min(x1, x2) <= x <= Max(x1, x2) + 1
        invariant forall j, i :: 0 <= j < Height && 0 <= i < Width ==>
          cells[j, i] == if j == y && Min(x1, x2) <= i < x then Empty else old(cells[j, i])
      {
        SetCell(x, y, Empty);
        x := x + 1;
      }
      ghost var g, h := View(), HTunnel(old(View()), x1, x2, y);
      forall j | 0 <= j < Height
        ensures g[j] == h[j]
      {
        assert forall i :: 0 <= i < Width ==> g[j][i] == h[j][i];
      }
    }

    /** Carves column `x` from row min(y1, y2) to max(y1, y2), through SetCell. */
    method CreateVerticalTunnel(y1: int, y2: int, x: int)
      requires Valid()
      modifies cells
      ensures forall j, i :: 0 <= j < Height && 0 <= i < Width ==>
        cells[j, i] == if i == x && Min(y1, y2) <= j <= Max(y1, y2) then Empty else old(cells[j, i])
      ensures View() == VTunnel(old(View()), y1, y2, x)
    {
      var y := Min(y1, y2);
      while y <= Max(y1, y2)
        invariant Min(y1, y2) <= y <= Max(y1, y2) + 1
        invariant forall j, i :: 0 <= j < Height && 0 <= i < Width ==>
          cells[j, i] == if i == x && Min(y1, y2) <= j < y then Empty else old(cells[j, i])
      {
        SetCell(x, y, Empty);
        y := y + 1;
      }
      ghost var g, h := View(), VTunnel(old(View()), y1, y2, x);
      forall j | 0 <= j < Height
        ensures g[j] == h[j]
      {
        assert forall i :: 0 <= i < Width ==> g[j][i] == h[j][i];
      }
    }

    /** One room attempt of GenerateMap: draws width, height, left column and
        top row, keeps the candidate when it intersects no kept room and
        carves it. */
    method TryRoom(rooms: seq<Rectangle>) returns (kept: seq<Rectangle>)
      requires Valid()
      requires CarvedExactly(rooms)
      modifies cells, rand
      ensures rand.used == old(rand.used) + 4
      ensures kept == Attempt(rooms, Candidate(rand.draws, old(rand.used)))
      ensures CarvedExactly(kept)
    {
      ghost var pos := rand.used;
      var roomWidth := rand.Next(4, 10);
      var roomHeight := rand.Next(4, 8);
      var roomX := rand.Next(1, Width - roomWidth - 1);
      var roomY := rand.Next(1, Height - roomHeight - 1);
      var room := MakeRectangle(roomX, roomY, roomWidth, roomHeight);
      assert roomWidth == Draw(rand.draws, pos, 4, 10);
      assert roomHeight == Draw(rand.draws, pos + 1, 4, 8);
      assert roomX == Draw(rand.draws, pos + 2, 1, Width - roomWidth - 1);
      assert roomY == Draw(rand.draws, pos + 3, 1, Height - roomHeight - 1);
      assert room == Candidate(rand.draws, pos);

      var overlaps := Overlaps(room, rooms);
      kept := rooms;
      if !overlaps {
        kept := rooms + [room];
        CreateRoom(room);
        forall y, x | 0 <= y < Height && 0 <= x < Width
          ensures cells[y, x] == if InAnyRoom(kept, x, y) then Empty else Wall
        {
          InAnyRoomAppend(rooms, room, x, y);
        }
        assert CarvedExactly(kept);
      }
    }

    /** The room loop of GenerateMap: draws the number of attempts, then makes
        that many attempts. */
    method PlaceRooms() returns (rooms: seq<Rectangle>)
      requires Valid()
      requires forall y, x :: 0 <= y < Height && 0 <= x < Width ==> cells[y, x] == Wall
      modifies cells, rand
      ensures rand.used == old(rand.used) + 1 + 4 * RoomCount(rand.draws, old(rand.used))
      ensures rooms == Accepted(rand.draws, old(rand.used) + 1, RoomCount(rand.draws, old(rand.used)))
      ensures CarvedExactly(rooms)
    {
      var roomCount := rand.Next(5, 10);
      rooms := MakeAttempts(roomCount);
    }

    /** The attempts of the room loop, each one drawing four numbers. */
    method MakeAttempts(roomCount: nat) returns (rooms: seq<Rectangle>)
      requires Valid() && CarvedExactly([])
      modifies cells, rand
      ensures rand.used == old(rand.used) + 4 * roomCount
      ensures rooms == Accepted(rand.draws, old(rand.used), roomCount)
      ensures CarvedExactly(rooms)
    {
      rooms := [];
      var i := 0;
      while i < roomCount
        invariant 0 <= i <= roomCount
        invariant rand.used == old(rand.used) + 4 * i
        invariant rooms == Accepted(rand.draws, old(rand.used), i)
        invariant CarvedExactly(rooms)
      {
        ghost var pos := rand.used;
        ghost var before := rooms;
        rooms := TryRoom(rooms);
        assert Accepted(rand.draws, old(rand.used), i + 1) == Attempt(before, Candidate(rand.draws, pos));
        i := i + 1;
      }
    }

    /** The hallway loop of GenerateMap: joins each room to the one accepted
        before it with an L-shaped tunnel between their centres. */
    method ConnectRooms(rooms: seq<Rectangle>)
      requires Valid()
      requires forall k :: 0 <= k < |rooms| ==> WellPlaced(rooms[k])
      requires RingIsWall() && OnlyEmptyOrWall() && RoomsAreEmpty(rooms)
      modifies cells, rand
      ensures (View(), rand.used) == Connect(old(View()), rooms, |rooms|, rand.draws, old(rand.used))
      ensures RingIsWall() && OnlyEmptyOrWall() && RoomsAreEmpty(rooms)
    {
      var i := 1;
      while i < |rooms|
        invariant 1 <= i <= Max(|rooms|, 1)
        invariant (View(), rand.used) == Connect(old(View()), rooms, Min(i, |rooms|), rand.draws, old(rand.used))
        invariant RingIsWall() && OnlyEmptyOrWall() && RoomsAreEmpty(rooms)
      {
        ghost var before, pos := View(), rand.used;
        DigHallway(rooms, i);
        assert Connect(old(View()), rooms, i + 1, rand.draws, old(rand.used))
          == (Hallway(before, rooms[i - 1], rooms[i], Draw(rand.draws, pos, 0, 2)), pos + 1);
        i := i + 1;
      }
    }

    /** One hallway: from the centre of room `i - 1` to the centre of room
        `i`, bending horizontally first or vertically first on a coin draw. */
    method DigHallway(rooms: seq<Rectangle>, i: int)
      requires Valid() && 1 <= i < |rooms|
      requires WellPlaced(rooms[i - 1]) && WellPlaced(rooms[i])
      requires RingIsWall() && OnlyEmptyOrWall() && RoomsAreEmpty(rooms)
      modifies cells, rand
      ensures View() == Hallway(old(View()), rooms[i - 1], rooms[i], Draw(rand.draws, old(rand.used), 0, 2))
      ensures rand.used == old(rand.used) + 1
      ensures RingIsWall() && OnlyEmptyOrWall() && RoomsAreEmpty(rooms)
    {
      var x1 := rooms[i - 1].CenterX();
      var y1 := rooms[i - 1].CenterY();
      var x2 := rooms[i].CenterX();
      var y2 := rooms[i].CenterY();
      var coin := rand.Next(0, 2);
      if coin == 0 {
        CreateHorizontalTunnel(x1, x2, y1);
        CreateVerticalTunnel(y1, y2, x2);
      } else {
        CreateVerticalTunnel(y1, y2, x1);
        CreateHorizontalTunnel(x1, x2, y2);
      }
    }

    /** The door pass over one room's candidate positions: a position strictly
        right of column 0 and below row 0 that is still a wall becomes a closed
        door when a draw from [0, 100) is below 20. A draw is taken only for
        such wall positions. */
    method PlaceDoors(positions: seq<(int, int)>)
      requires Valid()
      modifies cells, rand
      ensures (View(), rand.used) == DoorPass(old(View()), positions, rand.draws, old(rand.used))
      ensures forall y, x :: 0 <= y < Height && 0 <= x < Width ==>
        || cells[y, x] == old(cells[y, x])
        || (old(cells[y, x]) == Wall && cells[y, x] == DoorClosed && x > 0 && y > 0 && (x, y) in positions)
    {
      for p := 0 to |positions|
        invariant (View(), rand.used) == DoorPass(old(View()), positions[..p], rand.draws, old(rand.used))
        invariant forall y, x :: 0 <= y < Height && 0 <= x < Width ==>
          || cells[y, x] == old(cells[y, x])
          || (old(cells[y, x]) == Wall && cells[y, x] == DoorClosed && x > 0 && y > 0 && (x, y) in positions)
      {
        var pos := positions[p];
        DoorPassStep(old(View()), positions, p, rand.draws, old(rand.used));
        if pos.0 > 0 && pos.0 < Width && pos.1 > 0 && pos.1 < Height {
          if cells[pos.1, pos.0] == Wall {
            var roll := rand.Next(0, 100);
            if roll < 20 {
              // on the grid, so SetCell is the plain write
              SetCell(pos.0, pos.1, DoorClosed);
            }
          }
        }
      }
      assert positions[..|positions|] == positions;
    }

    /** For every room in turn: doors on its perimeter, then one key at a
        random cell strictly inside it. */
    method PlaceDoorsAndKeys(rooms: seq<Rectangle>) returns (ghost keys: seq<(int, int)>)
      requires Valid()
      requires PairwiseDisjoint(rooms) && forall k :: 0 <= k < |rooms| ==> WellPlaced(rooms[k])
      requires RingIsWall() && RoomsAreEmpty(rooms) && OnlyEmptyOrWall()
      modifies cells, rand
      ensures (View(), rand.used, keys) == FurnishAll(old(View()), rooms, rand.draws, old(rand.used))
      ensures FurnishFrame(old(View()), View(), rooms, keys)
      ensures Furnished(View(), rooms, keys)
    {
      ghost var g := View();
      LaidOutView(rooms);
      keys := FurnishRooms(rooms);
      FurnishAllFurnished(g, rooms, rand.draws, old(rand.used));
    }

    /** The loop of PlaceDoorsAndKeys: one round per room, in order. */
    method FurnishRooms(rooms: seq<Rectangle>) returns (ghost keys: seq<(int, int)>)
      requires Valid()
      requires PairwiseDisjoint(rooms) && forall k :: 0 <= k < |rooms| ==> WellPlaced(rooms[k])
      requires RoomsEmpty(View(), rooms)
      modifies cells, rand
      ensures (View(), rand.used, keys) == FurnishAll(old(View()), rooms, rand.draws, old(rand.used))
    {
      ghost var g := View();
      keys := [];
      for k := 0 to |rooms|
        invariant (View(), rand.used, keys) == FurnishAll(g, rooms[..k], rand.draws, old(rand.used))
      {
        FurnishAllStep(g, rooms, k, rand.draws, old(rand.used));
        NextRoomEmpty(g, rooms, k, rand.draws, old(rand.used));
        RoomEmptyInView(rooms[k]);
        ghost var key := FurnishRoom(rooms[k]);
        keys := keys + [key];
      }
      assert rooms[..|rooms|] == rooms;
    }

    /** The heap predicates of the laid-out grid, read on its value. */
    lemma LaidOutView(rooms: seq<Rectangle>)
      requires Valid() && forall k :: 0 <= k < |rooms| ==> WellPlaced(rooms[k])
      requires RingIsWall() && RoomsAreEmpty(rooms) && OnlyEmptyOrWall()
      ensures RingWall(View()) && EmptyOrWall(View()) && RoomsEmpty(View(), rooms)
    {
      var g := View();
      forall x, y
        ensures Get(g, x, y) == Empty || Get(g, x, y) == Wall
      {
        if InBounds(x, y) {
          assert Get(g, x, y) == cells[y, x];
        }
      }
      forall k, x, y | 0 <= k < |rooms| && rooms[k].Contains(x, y)
        ensures Get(g, x, y) == Empty
      {
        assert Get(g, x, y) == cells[y, x];
      }
    }

    /** A room that is empty in the grid's value is empty in the array. */
    lemma RoomEmptyInView(room: Rectangle)
      requires Valid() && WellPlaced(room) && RoomsEmpty(View(), [room])
      ensures RoomsAreEmpty([room])
    {
      forall k, y, x | 0 <= k < 1 && 0 <= y < Height && 0 <= x < Width && [room][k].Contains(x, y)
        ensures cells[y, x] == Empty
      {
        assert Get(View(), x, y) == cells[y, x];
      }
    }

    /** One round of the door-and-key loop: doors on the room's perimeter,
        then the room's key at a drawn cell strictly inside it. */
    method FurnishRoom(room: Rectangle) returns (ghost key: (int, int))
      requires Valid() && WellPlaced(room) && RoomsAreEmpty([room])
      modifies cells, rand
      ensures (View(), rand.used, key) == Furnish(old(View()), room, rand.draws, old(rand.used))
      ensures room.InInterior(key.0, key.1) && RoomHoldsKeyAt(room, key)
      ensures forall y, x :: 0 <= y < Height && 0 <= x < Width ==>
        || cells[y, x] == old(cells[y, x])
        || (old(cells[y, x]) == Wall && cells[y, x] == DoorClosed && x > 0 && y > 0 && room.OnPerimeter(x, y))
        || ((x, y) == key && cells[y, x] == Key)
    {
      var possiblePositions := PerimeterPositions(room);
      PlaceDoors(possiblePositions);
      assert RoomsAreEmpty([room]);
      label Doors:
      key := PlaceKey(room);
      forall y, x | 0 <= y < Height && 0 <= x < Width && room.Contains(x, y)
        ensures cells[y, x] == if (x, y) == key then Key else Empty
      {
        assert [room][0].Contains(x, y);
        assert old@Doors(cells[y, x]) == Empty;
      }
    }

    /** The key half of a round: a column and then a row drawn strictly
        inside the room, and that cell becomes a key. */
    method PlaceKey(room: Rectangle) returns (ghost key: (int, int))
      requires Valid() && WellPlaced(room)
      modifies cells, rand
      ensures key == KeyCell(room, rand.draws, old(rand.used)) && rand.used == old(rand.used) + 2
      ensures View() == Set(old(View()), key.0, key.1, Key)
      ensures forall y, x :: 0 <= y < Height && 0 <= x < Width ==>
        cells[y, x] == if (x, y) == key then Key else old(cells[y, x])
    {
      var keyX := rand.Next(room.X1 + 1, room.X2);
      var keyY := rand.Next(room.Y1 + 1, room.Y2);
      // strictly inside a well-placed room, so SetCell is the plain write
      SetCell(keyX, keyY, Key);
      key := (keyX, keyY);
    }

    /** What generation leaves behind. */
    ghost predicate Generated()
      reads this, cells
      requires Valid()
    {
      Laid(View(), Rooms, KeyCells, StartX, StartY)
    }

    /** A finished map: at least one room, the rooms well placed and pairwise
        disjoint, doors and keys as the furnishing pass leaves them, and the
        start at the centre of the first room, on a walkable cell. */
    static ghost predicate Laid(g: Grid, rooms: seq<Rectangle>, keys: seq<(int, int)>, startX: int, startY: int)
      requires WellFormed(g)
    {
      && 1 <= |rooms|
      && PairwiseDisjoint(rooms)
      && (forall k :: 0 <= k < |rooms| ==> WellPlaced(rooms[k]))
      && Furnished(g, rooms, keys)
      && startX == rooms[0].CenterX() && startY == rooms[0].CenterY()
      && InBounds(startX, startY) && Get(g, startX, startY) in {Empty, Key}
    }

    /** Right after the room loop the grid is walls and room floors only. */
    lemma CarvedRooms(draws: Stream, pos: nat, n: nat)
      requires Valid() && 1 <= n
      requires CarvedExactly(Accepted(draws, pos, n))
      ensures var rooms := Accepted(draws, pos, n);
        && 1 <= |rooms| && PairwiseDisjoint(rooms)
        && (forall k :: 0 <= k < |rooms| ==> WellPlaced(rooms[k]))
        && RingIsWall() && OnlyEmptyOrWall() && RoomsAreEmpty(rooms)
    {
      var rooms := Accepted(draws, pos, n);
      AcceptedFirst(draws, pos, n);
      AcceptedWellPlaced(draws, pos, n);
      AcceptedDisjoint(draws, pos, n);
      forall k, y, x | 0 <= k < |rooms| && 0 <= y < Height && 0 <= x < Width && rooms[k].Contains(x, y)
        ensures cells[y, x] == Empty
      {
        assert InAnyRoom(rooms, x, y);
      }
    }

    /** The first phase of GenerateMap: fill the grid with walls, then carve
        the rooms the draws accept. */
    method LayOutRooms() returns (rooms: seq<Rectangle>)
      requires Valid()
      modifies cells, rand
      ensures rand.used == old(rand.used) + 1 + 4 * RoomCount(rand.draws, old(rand.used))
      ensures rooms == Accepted(rand.draws, old(rand.used) + 1, RoomCount(rand.draws, old(rand.used)))
      ensures View() == Carve(rooms)
      ensures 1 <= |rooms| && PairwiseDisjoint(rooms)
      ensures forall k :: 0 <= k < |rooms| ==> WellPlaced(rooms[k])
      ensures RingIsWall() && OnlyEmptyOrWall() && RoomsAreEmpty(rooms)
    {
      ghost var base := rand.used;
      FillWithWalls();
      rooms := PlaceRooms();
      CarvedRooms(rand.draws, base + 1, RoomCount(rand.draws, base));
      CarvedView(rooms);
    }

    /** A grid carved exactly for the rooms is, as a value, `Carve` of them. */
    lemma CarvedView(rooms: seq<Rectangle>)
      requires Valid() && CarvedExactly(rooms)
      ensures View() == Carve(rooms)
    {
      ghost var g, h := View(), Carve(rooms);
      forall j | 0 <= j < Height
        ensures g[j] == h[j]
      {
        assert forall i :: 0 <= i < Width ==> g[j][i] == h[j][i];
      }
    }

    /** The room loop and the hallway loop of GenerateMap. */
    method CarveAndConnect() returns (rooms: seq<Rectangle>)
      requires Valid()
      modifies cells, rand
      ensures var n := RoomCount(rand.draws, old(rand.used));
        && rooms == Accepted(rand.draws, old(rand.used) + 1, n)
        && (View(), rand.used) == Connect(Carve(rooms), rooms, |rooms|, rand.draws, old(rand.used) + 1 + 4 * n)
      ensures 1 <= |rooms| && PairwiseDisjoint(rooms)
      ensures forall k :: 0 <= k < |rooms| ==> WellPlaced(rooms[k])
      ensures RingIsWall() && OnlyEmptyOrWall() && RoomsAreEmpty(rooms)
    {
      rooms := LayOutRooms();
      ConnectRooms(rooms);
    }

    /** The three passes of GenerateMap: rooms, hallways, doors and keys. */
    method Build() returns (rooms: seq<Rectangle>, ghost keys: seq<(int, int)>)
      requires Valid()
      modifies cells, rand
      ensures (View(), rand.used, rooms, keys) == Generate(rand.draws, old(rand.used))
      ensures 1 <= |rooms| && PairwiseDisjoint(rooms)
      ensures forall k :: 0 <= k < |rooms| ==> WellPlaced(rooms[k])
      ensures Furnished(View(), rooms, keys)
    {
      rooms := CarveAndConnect();
      keys := PlaceDoorsAndKeys(rooms);
    }

    method GenerateMap()
      requires Valid()
      modifies this, cells, rand
      ensures (View(), rand.used, Rooms, KeyCells) == Generate(rand.draws, old(rand.used))
      ensures Generated()
    {
      // the start cell is set before the doors in the source; no pass reads it
      var rooms, keys := Build();
      StartOnFloor(View(), rooms, keys);
      Settle(rooms, keys);
    }

    /** Records the rooms, the key cells and the start, the centre of the
        first room. */
    method Settle(rooms: seq<Rectangle>, ghost keys: seq<(int, int)>)
      requires Valid() && 1 <= |rooms|
      requires Laid(View(), rooms, keys, rooms[0].CenterX(), rooms[0].CenterY())
      modifies this
      ensures Valid() && View() == old(View())
      ensures Rooms == rooms && KeyCells == keys
      ensures StartX == rooms[0].CenterX() && StartY == rooms[0].CenterY()
      ensures Generated()
    {
      StartX, StartY, Rooms, KeyCells := rooms[0].CenterX(), rooms[0].CenterY(), rooms, keys;
    }

    /** A built grid is a finished map once the start is the centre of the
        first room: that cell is floor or a key. */
    static lemma StartOnFloor(g: Grid, rooms: seq<Rectangle>, keys: seq<(int, int)>)
      requires WellFormed(g) && 1 <= |rooms| && PairwiseDisjoint(rooms)
      requires forall k :: 0 <= k < |rooms| ==> WellPlaced(rooms[k])
      requires Furnished(g, rooms, keys)
      ensures Laid(g, rooms, keys, rooms[0].CenterX(), rooms[0].CenterY())
    {
      assert rooms[0].Contains(rooms[0].CenterX(), rooms[0].CenterY());
      assert HoldsKey(g, rooms[0], keys[0]);
    }

    constructor (draws: Stream)
      ensures Valid() && fresh(cells) && fresh(rand)
      ensures rand.draws == draws
      ensures (View(), rand.used, Rooms, KeyCells) == Generate(draws, 0)
      ensures Generated()
    {
      cells := new Cell[Height, Width];
      rand := new Random(draws);
      new;
      assert rand.used == 0;
      GenerateMap();
    }

    /** The text SaveMapToFile writes: one line per row, one character per cell. */
    method MapText() returns (lines: seq<string>)
      requires Valid()
      ensures |lines| == Height
      ensures forall y :: 0 <= y < Height ==> |lines[y]| == Width
      ensures forall y, x :: 0 <= y < Height && 0 <= x < Width ==> lines[y][x] == CellChar(cells[y, x])
    {
      lines := [];
      for y := 0 to Height
        invariant |lines| == y
        invariant forall j :: 0 <= j < y ==> |lines[j]| == Width
        invariant forall j, x :: 0 <= j < y && 0 <= x < Width ==> lines[j][x] == CellChar(cells[j, x])
      {
        var line := "";
        for x := 0 to Width
          invariant |line| == x
          invariant forall i :: 0 <= i < x ==> line[i] == CellChar(cells[y, i])
        {
          line := line + [CellChar(cells[y, x])];
        }
        lines := lines + [line];
      }
    }
  }
}
