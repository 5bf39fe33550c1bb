/** Which rooms the generator accepts, as a function of the random draws
    (the room loop of GenerateMap in DungeonGame/Map.cs). Each attempt takes
    four draws (width, height, left column, top row) and keeps the candidate
    only if it intersects no room kept before it. */
module RoomPlan {
  import opened Cells
  import opened Geometry
  import opened Randomness

  /** A room the generator may carve: at least 4x4 and at most 9x7 cells,
      with a wall ring around it that is at least one cell thick on the top
      and left and two cells thick on the bottom and right. */
  predicate WellPlaced(r: Rectangle) {
    && 1 <= r.X1 && r.X2 <= Width - 3
    && 1 <= r.Y1 && r.Y2 <= Height - 3
    && 3 <= r.X2 - r.X1 <= 8
    && 3 <= r.Y2 - r.Y1 <= 6
  }

  /** No two rooms of the list intersect. */
  predicate PairwiseDisjoint(rooms: seq<Rectangle>) {
    forall i, j :: 0 <= i < j < |rooms| ==> !rooms[i].Intersects(rooms[j])
  }

  predicate OverlapsAny(room: Rectangle, rooms: seq<Rectangle>) {
    exists k :: 0 <= k < |rooms| && room.Intersects(rooms[k])
  }

  predicate InAnyRoom(rooms: seq<Rectangle>, x: int, y: int) {
    exists k :: 0 <= k < |rooms| && rooms[k].Contains(x, y)
  }

  /** The number of room attempts, `rand.Next(5, 10)`. */
  function RoomCount(draws: Stream, pos: nat): (n: int)
    ensures 5 <= n < 10
  {
    Draw(draws, pos, 5, 10)
  }

  /** The candidate room built from the four draws starting at `pos`. */
  function Candidate(draws: Stream, pos: nat): (r: Rectangle)
    ensures WellPlaced(r)
  {
    var w := Draw(draws, pos, 4, 10);
    var h := Draw(draws, pos + 1, 4, 8);
    var x := Draw(draws, pos + 2, 1, Width - w - 1);
    var y := Draw(draws, pos + 3, 1, Height - h - 1);
    MakeRectangle(x, y, w, h)
  }

  /** One attempt: the candidate is kept when it intersects no kept room. */
  function Attempt(kept: seq<Rectangle>, c: Rectangle): seq<Rectangle>
  {
    if OverlapsAny(c, kept) then kept else kept + [c]
  }

  /** The rooms kept after `n` attempts whose draws start at `pos`. */
  function Accepted(draws: Stream, pos: nat, n: nat): seq<Rectangle>
  {
    if n == 0 then []
    else Attempt(Accepted(draws, pos, n - 1), Candidate(draws, pos + 4 * (n - 1)))
  }

  /** Every kept room is one of the well-placed candidates. */
  lemma {:induction false} AcceptedWellPlaced(draws: Stream, pos: nat, n: nat)
    ensures forall k :: 0 <= k < |Accepted(draws, pos, n)| ==> WellPlaced(Accepted(draws, pos, n)[k])
  {
    if n > 0 {
      AcceptedWellPlaced(draws, pos, n - 1);
    }
  }

  /** Kept rooms never intersect one another. */
  lemma {:induction false} AcceptedDisjoint(draws: Stream, pos: nat, n: nat)
    ensures PairwiseDisjoint(Accepted(draws, pos, n))
  {
    if n > 0 {
      AcceptedDisjoint(draws, pos, n - 1);
      var prev := Accepted(draws, pos, n - 1);
      var c := Candidate(draws, pos + 4 * (n - 1));
      if !OverlapsAny(c, prev) {
        var rooms := prev + [c];
        forall i, j | 0 <= i < j < |rooms|
          ensures !rooms[i].Intersects(rooms[j])
        {
          if j == |prev| {
            IntersectsSymmetric(c, prev[i]);
          }
        }
      }
    }
  }

  /** The first attempt is always kept, because nothing was kept before it;
      so `rooms[0]` exists and is the first candidate. */
  lemma {:induction false} AcceptedFirst(draws: Stream, pos: nat, n: nat)
    requires n >= 1
    ensures 1 <= |Accepted(draws, pos, n)| <= n
    ensures Accepted(draws, pos, n)[0] == Candidate(draws, pos)
  {
    if n > 1 {
      AcceptedFirst(draws, pos, n - 1);
    }
  }

  /** Adding a room to the list adds exactly its cells to the covered area. */
  lemma InAnyRoomAppend(rooms: seq<Rectangle>, r: Rectangle, x: int, y: int)
    ensures InAnyRoom(rooms + [r], x, y) <==> InAnyRoom(rooms, x, y) || r.Contains(x, y)
  {
    var all := rooms + [r];
    if r.Contains(x, y) {
      assert all[|rooms|].Contains(x, y);
    }
    if InAnyRoom(rooms, x, y) {
      var k :| 0 <= k < |rooms| && rooms[k].Contains(x, y);
      assert all[k].Contains(x, y);
    }
  }
}
