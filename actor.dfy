/** The player: position, key count, movement into the grid and opening
    doors (DungeonGame/Player.cs). The facing angle and its trigonometry are
    not modelled: every move takes the facing vector `(cosA, sinA)` it would
    compute from the angle. */
module Actor {
  import opened CSharp
  import opened Cells
  import opened Dungeon

  /** The message the source writes to the console after an action, if any. */
  datatype Event =
    | Silent          // nothing is written
    | PickedUpKey     // "You picked up a key!"
    | LockedUseKey    // "The door is locked. Press Space to use a key."
    | Unlocked        // "You unlocked the door."
    | LockedNeedKey   // "The door is locked. You need a key."

  /** What the player's actions can see and change: position, keys in hand
      and the grid. */
  datatype Snapshot = Snapshot(x: real, y: real, keys: int, grid: Grid)

  datatype Outcome = Outcome(after: Snapshot, event: Event)

  /** Distance of one step; the source's `moveSpeed`. */
  const MoveSpeed: real := 1.0

  /** A cell the player may stand in. */
  predicate Walkable(c: Cell) { c == Empty || c == DoorOpen || c == Key }

  /** AttemptMove: the target cell is the truncated target position; the
      player steps into an empty cell, an open door or a key (picking the key
      up and clearing its cell), and stays put at a wall, a closed door or
      anywhere off the grid. */
  function MoveOutcome(s: Snapshot, newX: real, newY: real): (o: Outcome)
    requires WellFormed(s.grid)
    ensures WellFormed(o.after.grid)
    ensures o.after.keys == if o.event == PickedUpKey then s.keys + 1 else s.keys
    ensures o.after == s || (o.after.x, o.after.y) == (newX, newY)
  {
    var tx, ty := Trunc(newX), Trunc(newY);
    var cell := Get(s.grid, tx, ty);
    if cell == Empty || cell == DoorOpen then
      Outcome(Snapshot(newX, newY, s.keys, s.grid), Silent)
    else if cell == Key then
      Outcome(Snapshot(newX, newY, s.keys + 1, Set(s.grid, tx, ty, Empty)), PickedUpKey)
    else if cell == DoorClosed then
      Outcome(s, LockedUseKey)
    else
      Outcome(s, Silent)
  }

  /** Interact: the cell one step ahead, if it is a closed door, is opened
      when the player holds a key, which is spent; otherwise nothing changes. */
  function InteractOutcome(s: Snapshot, cosA: real, sinA: real): (o: Outcome)
    requires WellFormed(s.grid)
    ensures WellFormed(o.after.grid)
    ensures o.after.keys == if o.event == Unlocked then s.keys - 1 else s.keys
    ensures o.after.x == s.x && o.after.y == s.y
  {
    var tx, ty := Trunc(s.x + cosA), Trunc(s.y + sinA);
    var cell := Get(s.grid, tx, ty);
    if cell == DoorClosed && s.keys > 0 then
      Outcome(Snapshot(s.x, s.y, s.keys - 1, Set(s.grid, tx, ty, DoorOpen)), Unlocked)
    else if cell == DoorClosed then
      Outcome(s, LockedNeedKey)
    else
      Outcome(s, Silent)
  }

  /** Keys held, keys lying on the floor and doors already opened. */
  function KeyBudget(s: Snapshot): int
    requires WellFormed(s.grid)
  {
    s.keys + Count(s.grid, Key) + Count(s.grid, DoorOpen)
  }

  /** A move lands exactly when the target cell is walkable; it then puts the
      player at the target, and otherwise changes nothing at all. Landing on
      floor or an open door leaves the grid and the keys alone; landing on a
      key clears exactly that cell and adds one key. */
  lemma MoveLandsIffWalkable(s: Snapshot, newX: real, newY: real)
    requires WellFormed(s.grid)
    ensures var r := MoveOutcome(s, newX, newY);
      var tx, ty := Trunc(newX), Trunc(newY);
      var c := Get(s.grid, tx, ty);
      && (Walkable(c) ==> r.after.x == newX && r.after.y == newY)
      && (!Walkable(c) ==> r.after == s)
      && (r.event == LockedUseKey <==> c == DoorClosed)
      && (r.event == PickedUpKey <==> c == Key)
      && ((c == Empty || c == DoorOpen) ==> r.after.grid == s.grid && r.after.keys == s.keys)
      && (c == Key ==>
            && r.after.keys == s.keys + 1
            && Get(r.after.grid, tx, ty) == Empty
            && forall i, j :: (i, j) != (tx, ty) ==> Get(r.after.grid, i, j) == Get(s.grid, i, j))
  {
  }

  /** Walking never creates or destroys keys: a key picked up leaves the
      floor and enters the player's hand; doors are untouched. */
  lemma MoveKeepsBudget(s: Snapshot, newX: real, newY: real)
    requires WellFormed(s.grid)
    ensures WellFormed(MoveOutcome(s, newX, newY).after.grid)
    ensures KeyBudget(MoveOutcome(s, newX, newY).after) == KeyBudget(s)
    ensures Count(MoveOutcome(s, newX, newY).after.grid, DoorClosed) == Count(s.grid, DoorClosed)
  {
    var tx, ty := Trunc(newX), Trunc(newY);
    if Get(s.grid, tx, ty) == Key {
      CountAfterSet(s.grid, tx, ty, Empty, Key);
      CountAfterSet(s.grid, tx, ty, Empty, DoorOpen);
      CountAfterSet(s.grid, tx, ty, Empty, DoorClosed);
    }
  }

  /** Opening a door spends the key it consumes into the open-door count;
      a closed door opened is one closed door fewer. */
  lemma InteractKeepsBudget(s: Snapshot, cosA: real, sinA: real)
    requires WellFormed(s.grid)
    ensures WellFormed(InteractOutcome(s, cosA, sinA).after.grid)
    ensures KeyBudget(InteractOutcome(s, cosA, sinA).after) == KeyBudget(s)
    ensures Count(InteractOutcome(s, cosA, sinA).after.grid, DoorClosed)
          + Count(InteractOutcome(s, cosA, sinA).after.grid, DoorOpen)
         == Count(s.grid, DoorClosed) + Count(s.grid, DoorOpen)
  {
    var tx, ty := Trunc(s.x + cosA), Trunc(s.y + sinA);
    if Get(s.grid, tx, ty) == DoorClosed && s.keys > 0 {
      CountAfterSet(s.grid, tx, ty, DoorOpen, Key);
      CountAfterSet(s.grid, tx, ty, DoorOpen, DoorOpen);
      CountAfterSet(s.grid, tx, ty, DoorOpen, DoorClosed);
    }
  }

  /** Unlocking spends exactly one key and opens exactly the door ahead;
      without a key, or without a closed door ahead, nothing changes. */
  lemma InteractSpendsOneKey(s: Snapshot, cosA: real, sinA: real)
    requires WellFormed(s.grid)
    ensures var r := InteractOutcome(s, cosA, sinA);
      var tx, ty := Trunc(s.x + cosA), Trunc(s.y + sinA);
      && (r.event == Unlocked <==> Get(s.grid, tx, ty) == DoorClosed && s.keys > 0)
      && (r.event == Unlocked ==>
            && r.after.keys == s.keys - 1
            && Get(r.after.grid, tx, ty) == DoorOpen
            && (forall i, j :: (i, j) != (tx, ty) ==> Get(r.after.grid, i, j) == Get(s.grid, i, j)))
      && (r.event != Unlocked ==> r.after == s)
      && r.after.x == s.x && r.after.y == s.y
  {
  }

  /** The key count never goes negative, whatever the player does. */
  lemma KeysStayNatural(s: Snapshot, newX: real, newY: real, cosA: real, sinA: real)
    requires WellFormed(s.grid) && s.keys >= 0
    ensures MoveOutcome(s, newX, newY).after.keys >= 0
    ensures InteractOutcome(s, cosA, sinA).after.keys >= 0
  {
  }

  /** A key is picked up once: stepping onto the same cell again, from
      wherever the first step left the player, gains nothing. */
  lemma PickUpOnce(s: Snapshot, newX: real, newY: real)
    requires WellFormed(s.grid)
    requires Get(s.grid, Trunc(newX), Trunc(newY)) == Key
    ensures var first := MoveOutcome(s, newX, newY).after;
      WellFormed(first.grid) &&
      first.keys == s.keys + 1 &&
      MoveOutcome(first, newX, newY).after.keys == first.keys &&
      MoveOutcome(first, newX, newY).event == Silent
  {
  }

  /** The player stands on a cell they may stand in. */
  predicate OnFloor(s: Snapshot)
    requires WellFormed(s.grid)
  {
    Walkable(Get(s.grid, Trunc(s.x), Trunc(s.y)))
  }

  /** Walking never leaves the player standing in a wall or a closed door. */
  lemma MoveKeepsOnFloor(s: Snapshot, newX: real, newY: real)
    requires WellFormed(s.grid) && OnFloor(s)
    ensures WellFormed(MoveOutcome(s, newX, newY).after.grid)
    ensures OnFloor(MoveOutcome(s, newX, newY).after)
  {
  }

  /** Opening a door never changes the cell the player stands on, so a player
      on floor, an open door or a key is still on one afterwards. */
  lemma InteractKeepsOnFloor(s: Snapshot, cosA: real, sinA: real)
    requires WellFormed(s.grid) && OnFloor(s)
    ensures WellFormed(InteractOutcome(s, cosA, sinA).after.grid)
    ensures OnFloor(InteractOutcome(s, cosA, sinA).after)
    ensures Get(InteractOutcome(s, cosA, sinA).after.grid, Trunc(s.x), Trunc(s.y)) == Get(s.grid, Trunc(s.x), Trunc(s.y))
  {
  }

  /** A player placed at the start cell of a freshly generated map stands on
      the floor, so the invariant above holds from the first frame. */
  lemma StartIsOnFloor(dungeon: Map)
    requires dungeon.Valid() && dungeon.Generated()
    ensures OnFloor(Snapshot(dungeon.StartX as real + 0.5, dungeon.StartY as real + 0.5, 0, dungeon.View()))
  {
  }

  /** The player (DungeonGame/Player.cs). */
  class Player {
    var X: real
    var Y: real
    var Keys: int

    /** The player starts in the middle of the start cell with no keys; for
        a cell on the grid, truncating the position gives the cell back. */
    constructor (startX: int, startY: int)
      ensures X == startX as real + 0.5 && Y == startY as real + 0.5
      ensures Keys == 0
      ensures startX >= 0 && startY >= 0 ==> Trunc(X) == startX && Trunc(Y) == startY
    {
      X := startX as real + 0.5;
      Y := startY as real + 0.5;
      Keys := 0;
    }

    ghost function Snap(dungeon: Map): Snapshot
      reads this, dungeon.cells
      requires dungeon.Valid()
    {
      Snapshot(X, Y, Keys, dungeon.View())
    }

    method AttemptMove(newX: real, newY: real, dungeon: Map) returns (event: Event)
      requires dungeon.Valid()
      modifies this, dungeon.cells
      ensures Outcome(Snap(dungeon), event) == MoveOutcome(old(Snap(dungeon)), newX, newY)
    {
      var tx, ty := Trunc(newX), Trunc(newY);
      var cell := dungeon.GetCell(tx, ty);
      if cell == Empty || cell == DoorOpen {
        X, Y := newX, newY;
        event := Silent;
      } else if cell == Key {
        Keys := Keys + 1;
        dungeon.SetCell(tx, ty, Empty);
        X, Y := newX, newY;
        event := PickedUpKey;
      } else if cell == DoorClosed {
        event := LockedUseKey;
      } else {
        event := Silent;
      }
    }

    method MoveForward(cosA: real, sinA: real, dungeon: Map) returns (event: Event)
      requires dungeon.Valid()
      modifies this, dungeon.cells
      ensures Outcome(Snap(dungeon), event)
           == MoveOutcome(old(Snap(dungeon)), old(X) + cosA * MoveSpeed, old(Y) + sinA * MoveSpeed)
    {
      event := AttemptMove(X + cosA * MoveSpeed, Y + sinA * MoveSpeed, dungeon);
    }

    method MoveBackward(cosA: real, sinA: real, dungeon: Map) returns (event: Event)
      requires dungeon.Valid()
      modifies this, dungeon.cells
      ensures Outcome(Snap(dungeon), event)
           == MoveOutcome(old(Snap(dungeon)), old(X) - cosA * MoveSpeed, old(Y) - sinA * MoveSpeed)
    {
      event := AttemptMove(X - cosA * MoveSpeed, Y - sinA * MoveSpeed, dungeon);
    }

    /** StrafeRight steps to the cell IsSpaceRestricted calls the left one. */
    method StrafeRight(cosA: real, sinA: real, dungeon: Map) returns (event: Event)
      requires dungeon.Valid()
      modifies this, dungeon.cells
      ensures Outcome(Snap(dungeon), event)
           == MoveOutcome(old(Snap(dungeon)), old(X) - sinA * MoveSpeed, old(Y) + cosA * MoveSpeed)
    {
      event := AttemptMove(X - sinA * MoveSpeed, Y + cosA * MoveSpeed, dungeon);
    }

    /** StrafeLeft steps to the cell IsSpaceRestricted calls the right one. */
    method StrafeLeft(cosA: real, sinA: real, dungeon: Map) returns (event: Event)
      requires dungeon.Valid()
      modifies this, dungeon.cells
      ensures Outcome(Snap(dungeon), event)
           == MoveOutcome(old(Snap(dungeon)), old(X) + sinA * MoveSpeed, old(Y) - cosA * MoveSpeed)
    {
      event := AttemptMove(X + sinA * MoveSpeed, Y - cosA * MoveSpeed, dungeon);
    }

    /** Both side cells (a quarter turn to either side, via cos(A +- pi/2) =
        -+sin A and sin(A +- pi/2) = +-cos A) are walls. */
    function IsSpaceRestricted(cosA: real, sinA: real, dungeon: Map): (restricted: bool)
      reads this, dungeon.cells
      requires dungeon.Valid()
      ensures restricted <==>
        && Get(dungeon.View(), Trunc(X - sinA), Trunc(Y + cosA)) == Wall
        && Get(dungeon.View(), Trunc(X + sinA), Trunc(Y - cosA)) == Wall
    {
      var leftX, leftY := Trunc(X - sinA), Trunc(Y + cosA);
      var rightX, rightY := Trunc(X + sinA), Trunc(Y - cosA);
      dungeon.GetCell(leftX, leftY) == Wall && dungeon.GetCell(rightX, rightY) == Wall
    }

    /** In a restricted space neither strafe can move the player or change
        the grid. */
    lemma RestrictedBlocksStrafing(cosA: real, sinA: real, dungeon: Map)
      requires dungeon.Valid() && IsSpaceRestricted(cosA, sinA, dungeon)
      ensures MoveOutcome(Snap(dungeon), X - sinA * MoveSpeed, Y + cosA * MoveSpeed).after == Snap(dungeon)
      ensures MoveOutcome(Snap(dungeon), X + sinA * MoveSpeed, Y - cosA * MoveSpeed).after == Snap(dungeon)
    {
    }

    method Interact(cosA: real, sinA: real, dungeon: Map) returns (event: Event)
      requires dungeon.Valid()
      modifies this, dungeon.cells
      ensures Outcome(Snap(dungeon), event) == InteractOutcome(old(Snap(dungeon)), cosA, sinA)
    {
      var targetX, targetY := Trunc(X + cosA), Trunc(Y + sinA);
      var cell := dungeon.GetCell(targetX, targetY);
      if cell == DoorClosed && Keys > 0 {
        Keys := Keys - 1;
        dungeon.SetCell(targetX, targetY, DoorOpen);
        event := Unlocked;
      } else if cell == DoorClosed {
        event := LockedNeedKey;
      } else {
        event := Silent;
      }
    }
  }
}
