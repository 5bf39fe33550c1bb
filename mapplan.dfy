/** What the door-and-key pass of GenerateMap (DungeonGame/Map.cs) does to
    the grid, as functions of the grid before it and of the random draws:
    the order in which door candidates are visited, the draw each wall
    candidate consumes, and the two draws that pick each room's key cell. */
module MapPlan {
  import opened CSharp
  import opened Cells
  import opened Geometry
  import opened Randomness
  import opened RoomPlan

  /** Number of cells from `lo` to `hi` inclusive. */
  function Span(lo: int, hi: int): nat
  {
    if hi < lo then 0 else hi - lo + 1
  }

  /** The candidates above and below the first `n` columns of the room,
      column by column, the one above first. */
  function TopBottom(room: Rectangle, n: nat): seq<(int, int)>
  {
    if n == 0 then []
    else TopBottom(room, n - 1) + [(room.X1 + n - 1, room.Y1 - 1), (room.X1 + n - 1, room.Y2 + 1)]
  }

  /** The candidates left and right of the first `n` rows of the room, row
      by row, the one on the left first. */
  function LeftRight(room: Rectangle, n: nat): seq<(int, int)>
  {
    if n == 0 then []
    else LeftRight(room, n - 1) + [(room.X1 - 1, room.Y1 + n - 1), (room.X2 + 1, room.Y1 + n - 1)]
  }

  /** The door candidates of a room in the order they are listed: above and
      below each column, then left and right of each row. */
  function PerimeterOrder(room: Rectangle): seq<(int, int)>
  {
    TopBottom(room, Span(room.X1, room.X2)) + LeftRight(room, Span(room.Y1, room.Y2))
  }

  lemma {:induction false} TopBottomCells(room: Rectangle, n: nat, x: int, y: int)
    ensures (x, y) in TopBottom(room, n) <==>
      room.X1 <= x < room.X1 + n && (y == room.Y1 - 1 || y == room.Y2 + 1)
  {
    if n > 0 {
      TopBottomCells(room, n - 1, x, y);
    }
  }

  lemma {:induction false} LeftRightCells(room: Rectangle, n: nat, x: int, y: int)
    ensures (x, y) in LeftRight(room, n) <==>
      room.Y1 <= y < room.Y1 + n && (x == room.X1 - 1 || x == room.X2 + 1)
  {
    if n > 0 {
      LeftRightCells(room, n - 1, x, y);
    }
  }

  /** The candidate list holds exactly the room's perimeter. */
  lemma PerimeterOrderCells(room: Rectangle, x: int, y: int)
    ensures (x, y) in PerimeterOrder(room) <==> room.OnPerimeter(x, y)
  {
    TopBottomCells(room, Span(room.X1, room.X2), x, y);
    LeftRightCells(room, Span(room.Y1, room.Y2), x, y);
  }

  /** One door candidate: a wall strictly right of column 0 and below row 0
      takes the next draw from [0, 100) and becomes a closed door when it is
      below 20; any other candidate takes no draw and changes nothing.
      Returns the grid and the number of draws used so far. */
  function DoorStep(g: Grid, p: (int, int), draws: Stream, used: nat): (r: (Grid, nat))
    requires WellFormed(g)
    ensures WellFormed(r.0)
  {
    if 0 < p.0 < Width && 0 < p.1 < Height && Get(g, p.0, p.1) == Wall then
      (if Draw(draws, used, 0, 100) < 20 then Set(g, p.0, p.1, DoorClosed) else g, used + 1)
    else
      (g, used)
  }

  /** The door candidates visited in order. */
  function DoorPass(g: Grid, ps: seq<(int, int)>, draws: Stream, used: nat): (r: (Grid, nat))
    requires WellFormed(g)
    ensures WellFormed(r.0)
  {
    if ps == [] then (g, used)
    else
      var prev := DoorPass(g, ps[..|ps| - 1], draws, used);
      DoorStep(prev.0, ps[|ps| - 1], draws, prev.1)
  }

  /** Visiting the first `p + 1` candidates is visiting the first `p` and
      then candidate `p`. */
  lemma DoorPassStep(g: Grid, ps: seq<(int, int)>, p: nat, draws: Stream, used: nat)
    requires WellFormed(g) && p < |ps|
    ensures var prev := DoorPass(g, ps[..p], draws, used);
      DoorPass(g, ps[..p + 1], draws, used) == DoorStep(prev.0, ps[p], draws, prev.1)
  {
    assert ps[..p + 1][..p] == ps[..p];
  }

  /** The door pass only turns walls into closed doors, only at listed
      positions off the top row and the left column, and takes one draw per
      wall it visits at most. */
  lemma {:induction false} DoorPassChanges(g: Grid, ps: seq<(int, int)>, draws: Stream, used: nat)
    requires WellFormed(g)
    ensures var r := DoorPass(g, ps, draws, used);
      && used <= r.1 <= used + |ps|
      && forall x, y :: Get(r.0, x, y) == Get(g, x, y)
           || (Get(g, x, y) == Wall && Get(r.0, x, y) == DoorClosed && x > 0 && y > 0 && (x, y) in ps)
  {
    if ps != [] {
      var init := ps[..|ps| - 1];
      DoorPassChanges(g, init, draws, used);
      var prev := DoorPass(g, init, draws, used);
      var r := DoorPass(g, ps, draws, used);
      forall x, y
        ensures Get(r.0, x, y) == Get(g, x, y)
          || (Get(g, x, y) == Wall && Get(r.0, x, y) == DoorClosed && x > 0 && y > 0 && (x, y) in ps)
      {
        assert (x, y) in init ==> (x, y) in ps;
        if Get(r.0, x, y) != Get(prev.0, x, y) {
          assert (x, y) == ps[|ps| - 1];
        }
      }
    }
  }

  /** The key cell of a room: a column drawn from [X1 + 1, X2) and then a row
      drawn from [Y1 + 1, Y2), both strictly inside the room. */
  function KeyCell(room: Rectangle, draws: Stream, used: nat): (c: (int, int))
    requires WellPlaced(room)
    ensures room.InInterior(c.0, c.1)
  {
    (Draw(draws, used, room.X1 + 1, room.X2), Draw(draws, used + 1, room.Y1 + 1, room.Y2))
  }

  /** One round of the loop: the doors of the room, then its key. */
  function Furnish(g: Grid, room: Rectangle, draws: Stream, used: nat): (r: (Grid, nat, (int, int)))
    requires WellFormed(g) && WellPlaced(room)
    ensures WellFormed(r.0)
  {
    var doors := DoorPass(g, PerimeterOrder(room), draws, used);
    var key := KeyCell(room, draws, doors.1);
    (Set(doors.0, key.0, key.1, Key), doors.1 + 2, key)
  }

  /** The whole loop over the rooms, in order: the grid, the draws used so
      far and the key cell of every room. */
  function FurnishAll(g: Grid, rooms: seq<Rectangle>, draws: Stream, used: nat): (r: (Grid, nat, seq<(int, int)>))
    requires WellFormed(g) && forall k :: 0 <= k < |rooms| ==> WellPlaced(rooms[k])
    ensures WellFormed(r.0) && |r.2| == |rooms|
  {
    if rooms == [] then (g, used, [])
    else
      var prev := FurnishAll(g, rooms[..|rooms| - 1], draws, used);
      var last := Furnish(prev.0, rooms[|rooms| - 1], draws, prev.1);
      (last.0, last.1, prev.2 + [last.2])
  }

  /** Cell (x, y) is one where the door pass may put a door: off the top row
      and the left column, on the perimeter of one of the rooms. */
  predicate DoorSite(rooms: seq<Rectangle>, x: int, y: int) {
    x > 0 && y > 0 && exists k :: 0 <= k < |rooms| && rooms[k].OnPerimeter(x, y)
  }

  /** Every cell of the outer ring is a wall. */
  ghost predicate RingWall(g: Grid)
    requires WellFormed(g)
  {
    forall x, y :: InBounds(x, y) && OnRing(x, y) ==> Get(g, x, y) == Wall
  }

  /** Every cell is empty or a wall: no doors or keys yet. */
  ghost predicate EmptyOrWall(g: Grid)
    requires WellFormed(g)
  {
    forall x, y :: Get(g, x, y) == Empty || Get(g, x, y) == Wall
  }

  /** Every cell of every room is empty. */
  ghost predicate RoomsEmpty(g: Grid, rooms: seq<Rectangle>)
    requires WellFormed(g)
  {
    forall k, x, y :: 0 <= k < |rooms| && rooms[k].Contains(x, y) ==> Get(g, x, y) == Empty
  }

  /** The room holds its key strictly inside it and is otherwise empty. */
  ghost predicate HoldsKey(g: Grid, room: Rectangle, key: (int, int))
    requires WellFormed(g)
  {
    && room.InInterior(key.0, key.1)
    && forall x, y :: room.Contains(x, y) ==> Get(g, x, y) == if (x, y) == key then Key else Empty
  }

  /** Each room holds its own key. */
  ghost predicate HoldsKeys(g: Grid, rooms: seq<Rectangle>, keys: seq<(int, int)>)
    requires WellFormed(g)
  {
    |keys| == |rooms| && forall k :: 0 <= k < |rooms| ==> HoldsKey(g, rooms[k], keys[k])
  }

  /** `r` is `g` with closed doors put on walls of the room's perimeter off
      the top row and the left column, and a key put at `key`. */
  ghost predicate RoundFrame(g: Grid, r: Grid, room: Rectangle, key: (int, int))
    requires WellFormed(g) && WellFormed(r)
  {
    forall x, y ::
      || Get(r, x, y) == Get(g, x, y)
      || (Get(g, x, y) == Wall && Get(r, x, y) == DoorClosed && x > 0 && y > 0 && room.OnPerimeter(x, y))
      || ((x, y) == key && Get(r, x, y) == Key)
  }

  /** `r` is `g` with closed doors put on walls at door sites and keys put
      at the key cells, and nothing else changed. */
  ghost predicate FurnishFrame(g: Grid, r: Grid, rooms: seq<Rectangle>, keys: seq<(int, int)>)
    requires WellFormed(g) && WellFormed(r)
  {
    forall x, y ::
      || Get(r, x, y) == Get(g, x, y)
      || (Get(g, x, y) == Wall && Get(r, x, y) == DoorClosed && DoorSite(rooms, x, y))
      || (Get(r, x, y) == Key && (x, y) in keys)
  }

  /** The grid once doors and keys are placed. */
  ghost predicate Furnished(g: Grid, rooms: seq<Rectangle>, keys: seq<(int, int)>)
    requires WellFormed(g)
  {
    // the dungeon stays enclosed
    && RingWall(g)
    // each room holds exactly one key, strictly inside it, and is otherwise empty
    && HoldsKeys(g, rooms, keys)
    // keys lie exactly at those cells
    && (forall x, y :: Get(g, x, y) == Key <==> (x, y) in keys)
    // doors are closed, and only where the door pass may put them
    && (forall x, y :: Get(g, x, y) != DoorOpen && (Get(g, x, y) == DoorClosed ==> DoorSite(rooms, x, y)))
  }

  /** One round on an empty room: the room ends up holding its key, doors
      appear only on walls of its perimeter, and the key cell is the only
      other change. */
  lemma FurnishEffect(g: Grid, room: Rectangle, draws: Stream, used: nat)
    requires WellFormed(g) && WellPlaced(room) && RoomsEmpty(g, [room])
    ensures var r := Furnish(g, room, draws, used);
      HoldsKey(r.0, room, r.2) && RoundFrame(g, r.0, room, r.2)
  {
    var doors := DoorPass(g, PerimeterOrder(room), draws, used);
    DoorPassChanges(g, PerimeterOrder(room), draws, used);
    forall x, y
      ensures (x, y) in PerimeterOrder(room) <==> room.OnPerimeter(x, y)
    {
      PerimeterOrderCells(room, x, y);
    }
    forall x, y | room.Contains(x, y)
      ensures Get(doors.0, x, y) == Empty
    {
      assert [room][0].Contains(x, y);
    }
  }

  /** Rooms furnished earlier leave a later, disjoint room empty. */
  lemma LaterRoomEmpty(g: Grid, prev: Grid, init: seq<Rectangle>, keys: seq<(int, int)>, room: Rectangle)
    requires WellFormed(g) && WellFormed(prev)
    requires RoomsEmpty(g, [room]) && HoldsKeys(prev, init, keys) && FurnishFrame(g, prev, init, keys)
    requires forall k :: 0 <= k < |init| ==> !init[k].Intersects(room)
    ensures RoomsEmpty(prev, [room])
  {
    forall k, x, y | 0 <= k < 1 && [room][k].Contains(x, y)
      ensures Get(prev, x, y) == Empty
    {
      assert Get(g, x, y) == Empty;
      forall j | 0 <= j < |keys|
        ensures keys[j] != (x, y)
      {
        assert HoldsKey(prev, init[j], keys[j]);
        assert !init[j].Intersects(room);
      }
    }
  }

  /** A door site of the first rooms is a door site of all of them. */
  lemma DoorSiteGrows(init: seq<Rectangle>, room: Rectangle, x: int, y: int)
    ensures DoorSite(init, x, y) ==> DoorSite(init + [room], x, y)
    ensures x > 0 && y > 0 && room.OnPerimeter(x, y) ==> DoorSite(init + [room], x, y)
  {
    if DoorSite(init, x, y) {
      var k :| 0 <= k < |init| && init[k].OnPerimeter(x, y);
      assert (init + [room])[k] == init[k];
    }
    if x > 0 && y > 0 && room.OnPerimeter(x, y) {
      assert (init + [room])[|init|] == room;
    }
  }

  /** The frame of the first rounds and that of one more round compose. */
  lemma FrameStep(g: Grid, prev: Grid, last: Grid, init: seq<Rectangle>, keys: seq<(int, int)>,
                  room: Rectangle, key: (int, int))
    requires WellFormed(g) && WellFormed(prev) && WellFormed(last)
    requires FurnishFrame(g, prev, init, keys) && RoundFrame(prev, last, room, key)
    ensures FurnishFrame(g, last, init + [room], keys + [key])
  {
    forall x, y
      ensures || Get(last, x, y) == Get(g, x, y)
              || (Get(g, x, y) == Wall && Get(last, x, y) == DoorClosed && DoorSite(init + [room], x, y))
              || (Get(last, x, y) == Key && (x, y) in keys + [key])
    {
      DoorSiteGrows(init, room, x, y);
    }
  }

  /** One more round keeps every earlier, disjoint room holding its key and
      adds the new room with its key. */
  lemma HoldsStep(prev: Grid, last: Grid, init: seq<Rectangle>, keys: seq<(int, int)>,
                  room: Rectangle, key: (int, int))
    requires WellFormed(prev) && WellFormed(last)
    requires HoldsKeys(prev, init, keys) && RoundFrame(prev, last, room, key) && HoldsKey(last, room, key)
    requires forall k :: 0 <= k < |init| ==> !init[k].Intersects(room)
    ensures HoldsKeys(last, init + [room], keys + [key])
  {
    forall k | 0 <= k < |init|
      ensures HoldsKey(last, init[k], keys[k])
    {
      assert HoldsKey(prev, init[k], keys[k]);
      forall x, y | init[k].Contains(x, y)
        ensures Get(last, x, y) == Get(prev, x, y)
      {
        assert !init[k].Intersects(room);
      }
    }
    assert forall k :: 0 <= k < |init| ==> (init + [room])[k] == init[k] && (keys + [key])[k] == keys[k];
  }

  /** The whole loop on empty, pairwise disjoint rooms: every room holds its
      own key, doors and keys are the only changes, and a cell holds a key
      exactly when it did before or is a key cell. */
  lemma {:induction false} FurnishAllEffect(g: Grid, rooms: seq<Rectangle>, draws: Stream, used: nat)
    requires WellFormed(g) && forall k :: 0 <= k < |rooms| ==> WellPlaced(rooms[k])
    requires PairwiseDisjoint(rooms) && RoomsEmpty(g, rooms)
    ensures var r := FurnishAll(g, rooms, draws, used);
      && HoldsKeys(r.0, rooms, r.2)
      && FurnishFrame(g, r.0, rooms, r.2)
      && (forall x, y :: Get(r.0, x, y) == Key <==> Get(g, x, y) == Key || (x, y) in r.2)
  {
    if rooms != [] {
      var n := |rooms|;
      var init, room := rooms[..n - 1], rooms[n - 1];
      assert rooms == init + [room];
      assert forall k :: 0 <= k < n - 1 ==> !init[k].Intersects(room);
      assert RoomsEmpty(g, [room]) by {
        assert forall x, y :: room.Contains(x, y) ==> rooms[n - 1].Contains(x, y);
      }
      FurnishAllEffect(g, init, draws, used);
      var prev := FurnishAll(g, init, draws, used);
      LaterRoomEmpty(g, prev.0, init, prev.2, room);
      FurnishEffect(prev.0, room, draws, prev.1);
      var last := Furnish(prev.0, room, draws, prev.1);
      FrameStep(g, prev.0, last.0, init, prev.2, room, last.2);
      HoldsStep(prev.0, last.0, init, prev.2, room, last.2);
      KeysStep(g, prev.0, last.0, prev.2, room, last.2);
    }
  }

  /** One more round adds exactly its key cell to the cells holding a key. */
  lemma KeysStep(g: Grid, prev: Grid, last: Grid, keys: seq<(int, int)>, room: Rectangle, key: (int, int))
    requires WellFormed(g) && WellFormed(prev) && WellFormed(last)
    requires forall x, y :: Get(prev, x, y) == Key <==> Get(g, x, y) == Key || (x, y) in keys
    requires RoundFrame(prev, last, room, key) && HoldsKey(last, room, key)
    ensures forall x, y :: Get(last, x, y) == Key <==> Get(g, x, y) == Key || (x, y) in keys + [key]
  {
    assert room.Contains(key.0, key.1);
  }

  /** The rounds for the first `k + 1` rooms are those for the first `k`
      followed by the round for room `k`. */
  lemma FurnishAllStep(g: Grid, rooms: seq<Rectangle>, k: nat, draws: Stream, used: nat)
    requires WellFormed(g) && forall j :: 0 <= j < |rooms| ==> WellPlaced(rooms[j])
    requires k < |rooms|
    ensures var prev := FurnishAll(g, rooms[..k], draws, used);
      var last := Furnish(prev.0, rooms[k], draws, prev.1);
      FurnishAll(g, rooms[..k + 1], draws, used) == (last.0, last.1, prev.2 + [last.2])
  {
    assert rooms[..k + 1][..k] == rooms[..k];
  }

  /** After the rounds for the first `k` rooms, room `k` is still empty. */
  lemma NextRoomEmpty(g: Grid, rooms: seq<Rectangle>, k: nat, draws: Stream, used: nat)
    requires WellFormed(g) && forall j :: 0 <= j < |rooms| ==> WellPlaced(rooms[j])
    requires PairwiseDisjoint(rooms) && RoomsEmpty(g, rooms) && k < |rooms|
    ensures RoomsEmpty(FurnishAll(g, rooms[..k], draws, used).0, [rooms[k]])
  {
    var init := rooms[..k];
    assert forall j :: 0 <= j < k ==> init[j] == rooms[j];
    assert forall j :: 0 <= j < k ==> !init[j].Intersects(rooms[k]);
    assert RoomsEmpty(g, [rooms[k]]) by {
      forall j, x, y | 0 <= j < 1 && [rooms[k]][j].Contains(x, y)
        ensures Get(g, x, y) == Empty
      {
        assert rooms[k].Contains(x, y);
      }
    }
    FurnishAllEffect(g, init, draws, used);
    var prev := FurnishAll(g, init, draws, used);
    LaterRoomEmpty(g, prev.0, init, prev.2, rooms[k]);
  }

  /** A grid of walls and empty floor changed only by doors at door sites
      and keys at the key cells of well-placed rooms is furnished. */
  lemma FurnishedFrom(g: Grid, r: Grid, rooms: seq<Rectangle>, keys: seq<(int, int)>)
    requires WellFormed(g) && WellFormed(r) && forall k :: 0 <= k < |rooms| ==> WellPlaced(rooms[k])
    requires RingWall(g) && EmptyOrWall(g)
    requires HoldsKeys(r, rooms, keys) && FurnishFrame(g, r, rooms, keys)
    requires forall x, y :: Get(r, x, y) == Key <==> Get(g, x, y) == Key || (x, y) in keys
    ensures Furnished(r, rooms, keys)
  {
    forall x, y | InBounds(x, y) && OnRing(x, y)
      ensures Get(r, x, y) == Wall
    {
      forall k | 0 <= k < |keys|
        ensures keys[k] != (x, y)
      {
        assert HoldsKey(r, rooms[k], keys[k]);
      }
    }
    forall x, y
      ensures Get(r, x, y) != DoorOpen && (Get(r, x, y) == DoorClosed ==> DoorSite(rooms, x, y))
    {
      assert Get(g, x, y) == Empty || Get(g, x, y) == Wall;
    }
  }

  /** Furnishing a grid of walls and empty rooms leaves it furnished, and
      changes it only by doors and keys. */
  lemma FurnishAllFurnished(g: Grid, rooms: seq<Rectangle>, draws: Stream, used: nat)
    requires WellFormed(g) && forall k :: 0 <= k < |rooms| ==> WellPlaced(rooms[k])
    requires PairwiseDisjoint(rooms) && RoomsEmpty(g, rooms)
    requires RingWall(g) && EmptyOrWall(g)
    ensures var r := FurnishAll(g, rooms, draws, used);
      Furnished(r.0, rooms, r.2) && FurnishFrame(g, r.0, rooms, r.2)
  {
    var r := FurnishAll(g, rooms, draws, used);
    FurnishAllEffect(g, rooms, draws, used);
    FurnishedFrom(g, r.0, rooms, r.2);
  }
}
