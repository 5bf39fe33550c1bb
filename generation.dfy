/** The room and hallway phases of GenerateMap (DungeonGame/Map.cs) as
    functions of the grid and the draws, and the whole generation as one
    function of the draws. */
module Generation {
  import opened CSharp
  import opened Cells
  import opened Geometry
  import opened Randomness
  import opened RoomPlan
  import opened MapPlan

  /** The grid after the room loop: the cells of the rooms are empty, every
      other cell is a wall. */
  ghost function Carve(rooms: seq<Rectangle>): (g: Grid)
    ensures WellFormed(g)
  {
    seq(Height, y => seq(Width, x => if InAnyRoom(rooms, x, y) then Empty else Wall))
  }

  /** Row `y` carved from column min(x1, x2) to max(x1, x2); cells off the
      grid are skipped. */
  ghost function HTunnel(g: Grid, x1: int, x2: int, y: int): (r: Grid)
    requires WellFormed(g)
    ensures WellFormed(r)
  {
    seq(Height, j requires 0 <= j < Height =>
      seq(Width, i requires 0 <= i < Width =>
        if j == y && Min(x1, x2) <= i <= Max(x1, x2) then Empty else g[j][i]))
  }

  /** Column `x` carved from row min(y1, y2) to max(y1, y2); cells off the
      grid are skipped. */
  ghost function VTunnel(g: Grid, y1: int, y2: int, x: int): (r: Grid)
    requires WellFormed(g)
    ensures WellFormed(r)
  {
    seq(Height, j requires 0 <= j < Height =>
      seq(Width, i requires 0 <= i < Width =>
        if i == x && Min(y1, y2) <= j <= Max(y1, y2) then Empty else g[j][i]))
  }

  /** The hallway from the centre of `a` to the centre of `b`: along a's row
      and then b's column when the coin is 0, along a's column and then b's
      row otherwise. */
  ghost function Hallway(g: Grid, a: Rectangle, b: Rectangle, coin: int): (r: Grid)
    requires WellFormed(g)
    ensures WellFormed(r)
  {
    var x1, y1, x2, y2 := a.CenterX(), a.CenterY(), b.CenterX(), b.CenterY();
    if coin == 0 then VTunnel(HTunnel(g, x1, x2, y1), y1, y2, x2)
    else HTunnel(VTunnel(g, y1, y2, x1), x1, x2, y2)
  }

  /** The cells of the L-shaped path the hallway follows. */
  predicate OnHallway(a: Rectangle, b: Rectangle, coin: int, x: int, y: int) {
    var x1, y1, x2, y2 := a.CenterX(), a.CenterY(), b.CenterX(), b.CenterY();
    if coin == 0 then
      (y == y1 && Min(x1, x2) <= x <= Max(x1, x2)) || (x == x2 && Min(y1, y2) <= y <= Max(y1, y2))
    else
      (x == x1 && Min(y1, y2) <= y <= Max(y1, y2)) || (y == y2 && Min(x1, x2) <= x <= Max(x1, x2))
  }

  /** A hallway empties exactly the cells of its path that lie on the grid. */
  lemma HallwayCells(g: Grid, a: Rectangle, b: Rectangle, coin: int, x: int, y: int)
    requires WellFormed(g)
    ensures Get(Hallway(g, a, b, coin), x, y) ==
      if InBounds(x, y) && OnHallway(a, b, coin, x, y) then Empty else Get(g, x, y)
  {
  }

  /** The hallway loop over the first `n` rooms: each joined to the one
      before it, the coin of each hallway being the next draw from [0, 2).
      Returns the grid and the draws used so far. */
  ghost function Connect(g: Grid, rooms: seq<Rectangle>, n: nat, draws: Stream, used: nat): (r: (Grid, nat))
    requires WellFormed(g) && n <= |rooms|
    ensures WellFormed(r.0)
  {
    if n <= 1 then (g, used)
    else
      var prev := Connect(g, rooms, n - 1, draws, used);
      (Hallway(prev.0, rooms[n - 2], rooms[n - 1], Draw(draws, prev.1, 0, 2)), prev.1 + 1)
  }

  /** Cell (x, y) lies on the path of hallway `i`, the one joining room
      `i - 1` to room `i`. */
  predicate OnHallwayAt(rooms: seq<Rectangle>, draws: Stream, used: nat, i: nat, x: int, y: int)
    requires 1 <= i < |rooms|
  {
    OnHallway(rooms[i - 1], rooms[i], Draw(draws, used + i - 1, 0, 2), x, y)
  }

  /** The hallway loop takes one draw per hallway. */
  lemma {:induction false} ConnectDraws(g: Grid, rooms: seq<Rectangle>, n: nat, draws: Stream, used: nat)
    requires WellFormed(g) && n <= |rooms|
    ensures Connect(g, rooms, n, draws, used).1 == used + Max(n - 1, 0)
  {
    if n > 1 {
      ConnectDraws(g, rooms, n - 1, draws, used);
    }
  }

  /** The hallway loop only ever empties cells and never refills one. */
  lemma {:induction false} ConnectOnlyEmpties(g: Grid, rooms: seq<Rectangle>, n: nat, draws: Stream, used: nat)
    requires WellFormed(g) && n <= |rooms|
    ensures var r := Connect(g, rooms, n, draws, used);
      && (forall x, y :: Get(r.0, x, y) == Get(g, x, y) || Get(r.0, x, y) == Empty)
      && (forall x, y :: Get(g, x, y) == Empty ==> Get(r.0, x, y) == Empty)
  {
    if n > 1 {
      ConnectOnlyEmpties(g, rooms, n - 1, draws, used);
      var prev := Connect(g, rooms, n - 1, draws, used);
      HallwayEffect(prev.0, rooms[n - 2], rooms[n - 1], Draw(draws, prev.1, 0, 2));
    }
  }

  /** One more hallway keeps every empty cell empty and empties the on-grid
      cells of its own path. */
  lemma ConnectStep(g: Grid, rooms: seq<Rectangle>, n: nat, draws: Stream, used: nat)
    requires WellFormed(g) && 1 < n <= |rooms|
    ensures var prev, next := Connect(g, rooms, n - 1, draws, used).0, Connect(g, rooms, n, draws, used).0;
      && (forall x, y :: Get(prev, x, y) == Empty ==> Get(next, x, y) == Empty)
      && (forall x, y :: InBounds(x, y) && OnHallwayAt(rooms, draws, used, n - 1, x, y) ==> Get(next, x, y) == Empty)
  {
    ConnectDraws(g, rooms, n - 1, draws, used);
    var prev := Connect(g, rooms, n - 1, draws, used);
    var coin := Draw(draws, prev.1, 0, 2);
    assert coin == Draw(draws, used + (n - 1) - 1, 0, 2);
    assert Connect(g, rooms, n, draws, used).0 == Hallway(prev.0, rooms[n - 2], rooms[n - 1], coin);
    HallwayEffect(prev.0, rooms[n - 2], rooms[n - 1], coin);
  }

  /** If the paths of the first hallways are empty before the next one is
      dug, and digging it keeps empty cells empty and empties its own path,
      then all those paths are empty afterwards. */
  lemma PathsExtend(prev: Grid, next: Grid, rooms: seq<Rectangle>, n: nat, draws: Stream, used: nat)
    requires WellFormed(prev) && WellFormed(next) && 1 < n <= |rooms|
    requires forall i, x, y :: 1 <= i < n - 1 && InBounds(x, y) && OnHallwayAt(rooms, draws, used, i, x, y) ==>
      Get(prev, x, y) == Empty
    requires forall x, y :: Get(prev, x, y) == Empty ==> Get(next, x, y) == Empty
    requires forall x, y :: InBounds(x, y) && OnHallwayAt(rooms, draws, used, n - 1, x, y) ==> Get(next, x, y) == Empty
    ensures forall i, x, y :: 1 <= i < n && InBounds(x, y) && OnHallwayAt(rooms, draws, used, i, x, y) ==>
      Get(next, x, y) == Empty
  {
    forall i, x, y | 1 <= i < n && InBounds(x, y) && OnHallwayAt(rooms, draws, used, i, x, y)
      ensures Get(next, x, y) == Empty
    {
      if i < n - 1 {
        assert Get(prev, x, y) == Empty;
      }
    }
  }

  /** The hallway loop leaves the whole path of every hallway empty. */
  lemma {:induction false} ConnectPaths(g: Grid, rooms: seq<Rectangle>, n: nat, draws: Stream, used: nat)
    requires WellFormed(g) && n <= |rooms|
    ensures forall i, x, y :: 1 <= i < n && InBounds(x, y) && OnHallwayAt(rooms, draws, used, i, x, y) ==>
      Get(Connect(g, rooms, n, draws, used).0, x, y) == Empty
  {
    if n > 1 {
      ConnectPaths(g, rooms, n - 1, draws, used);
      ConnectStep(g, rooms, n, draws, used);
      PathsExtend(Connect(g, rooms, n - 1, draws, used).0, Connect(g, rooms, n, draws, used).0, rooms, n, draws, used);
    }
  }

  /** The hallway loop takes one draw per hallway, only ever empties cells,
      and leaves the whole path of every hallway empty. */
  lemma ConnectHallways(g: Grid, rooms: seq<Rectangle>, n: nat, draws: Stream, used: nat)
    requires WellFormed(g) && n <= |rooms|
    ensures var r := Connect(g, rooms, n, draws, used);
      && r.1 == used + Max(n - 1, 0)
      && (forall x, y :: Get(r.0, x, y) == Get(g, x, y) || Get(r.0, x, y) == Empty)
      && (forall x, y :: Get(g, x, y) == Empty ==> Get(r.0, x, y) == Empty)
      && (forall i, x, y :: 1 <= i < n && InBounds(x, y) && OnHallwayAt(rooms, draws, used, i, x, y) ==>
            Get(r.0, x, y) == Empty)
  {
    ConnectDraws(g, rooms, n, draws, used);
    ConnectOnlyEmpties(g, rooms, n, draws, used);
    ConnectPaths(g, rooms, n, draws, used);
  }

  /** A hallway only empties cells, never refills one, and empties its whole
      path on the grid. */
  lemma HallwayEffect(g: Grid, a: Rectangle, b: Rectangle, coin: int)
    requires WellFormed(g)
    ensures var h := Hallway(g, a, b, coin);
      && (forall x, y :: Get(h, x, y) == Get(g, x, y) || Get(h, x, y) == Empty)
      && (forall x, y :: Get(g, x, y) == Empty ==> Get(h, x, y) == Empty)
      && (forall x, y :: InBounds(x, y) && OnHallway(a, b, coin, x, y) ==> Get(h, x, y) == Empty)
  {
    forall x, y {
      HallwayCells(g, a, b, coin, x, y);
    }
  }

  /** All of GenerateMap on the draws starting at `used`: the number of room
      attempts, the attempts, the hallways, then doors and keys. Returns the
      grid, the draws used, the rooms kept and the key cells. */
  ghost function Generate(draws: Stream, used: nat): (r: (Grid, nat, seq<Rectangle>, seq<(int, int)>))
    ensures WellFormed(r.0) && |r.3| == |r.2|
  {
    var n := RoomCount(draws, used);
    var rooms := Accepted(draws, used + 1, n);
    var halls := Connect(Carve(rooms), rooms, |rooms|, draws, used + 1 + 4 * n);
    AcceptedWellPlaced(draws, used + 1, n);
    var furnished := FurnishAll(halls.0, rooms, draws, halls.1);
    (furnished.0, furnished.1, rooms, furnished.2)
  }
}
