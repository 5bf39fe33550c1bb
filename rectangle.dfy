/** Rooms of the dungeon: integer rectangles with inclusive corners
    (DungeonGame/Rectangle.cs). */
module Geometry {
  import opened CSharp

  /** A rectangle of grid cells; both corners (X1, Y1) and (X2, Y2) belong to it. */
  datatype Rectangle = Rectangle(X1: int, Y1: int, X2: int, Y2: int) {

    /** The rectangle holds at least one cell. */
    predicate NonEmpty() { X1 <= X2 && Y1 <= Y2 }

    /** Cell (x, y) lies in the rectangle, border included. */
    predicate Contains(x: int, y: int) { X1 <= x <= X2 && Y1 <= y <= Y2 }

    /** Cell (x, y) lies strictly inside, off the rectangle's own border. */
    predicate InInterior(x: int, y: int) { X1 < x < X2 && Y1 < y < Y2 }

    /** Cell (x, y) is one step outside an edge of the rectangle; the four
        diagonal corner cells are not part of the perimeter. */
    predicate OnPerimeter(x: int, y: int) {
      || (X1 <= x <= X2 && (y == Y1 - 1 || y == Y2 + 1))
      || (Y1 <= y <= Y2 && (x == X1 - 1 || x == X2 + 1))
    }

    /** Column of the centre, halving with C# truncating division. */
    function CenterX(): (c: int)
      ensures X1 <= X2 ==> X1 <= c <= X2
      ensures X2 - X1 >= 2 ==> X1 < c < X2
    {
      Div(X1 + X2, 2)
    }

    /** Row of the centre, halving with C# truncating division. */
    function CenterY(): (c: int)
      ensures Y1 <= Y2 ==> Y1 <= c <= Y2
      ensures Y2 - Y1 >= 2 ==> Y1 < c < Y2
    {
      Div(Y1 + Y2, 2)
    }

    /** The closed-interval overlap test. */
    predicate Intersects(other: Rectangle) {
      X1 <= other.X2 && X2 >= other.X1 &&
      Y1 <= other.Y2 && Y2 >= other.Y1
    }
  }

  /** The struct constructor `Rectangle(x, y, width, height)`: the far corner
      is `width - 1` and `height - 1` cells away, so the rectangle covers
      exactly `width` columns from `x` and `height` rows from `y`; with a
      positive size it is non-empty and holds both corners. */
  function MakeRectangle(x: int, y: int, width: int, height: int): (r: Rectangle)
    ensures r.X1 == x && r.Y1 == y
    ensures forall i, j :: r.Contains(i, j) <==> x <= i < x + width && y <= j < y + height
    ensures width >= 1 && height >= 1 ==>
      r.NonEmpty() && r.Contains(x, y) && r.Contains(x + width - 1, y + height - 1)
  {
    Rectangle(x, y, x + width - 1, y + height - 1)
  }

  /** The overlap test gives the same answer both ways round. */
  lemma IntersectsSymmetric(a: Rectangle, b: Rectangle)
    ensures a.Intersects(b) == b.Intersects(a)
  {
  }

  /** A rectangle with a cell overlaps itself. */
  lemma IntersectsReflexive(a: Rectangle)
    requires a.NonEmpty()
    ensures a.Intersects(a)
  {
  }

  /** For non-empty rectangles the overlap test is exact: it holds precisely
      when some cell belongs to both. */
  lemma IntersectsIffSharedCell(a: Rectangle, b: Rectangle)
    requires a.NonEmpty() && b.NonEmpty()
    ensures a.Intersects(b) <==> exists x, y :: a.Contains(x, y) && b.Contains(x, y)
  {
    if a.Intersects(b) {
      var x := Max(a.X1, b.X1);
      var y := Max(a.Y1, b.Y1);
      assert a.Contains(x, y) && b.Contains(x, y);
    }
  }

  /** Rectangles that touch along an edge do not intersect: the test is on
      cells, not on outlines. */
  lemma EdgeAdjacentDisjoint(a: Rectangle, b: Rectangle)
    requires a.X2 + 1 == b.X1 || a.Y2 + 1 == b.Y1
    ensures !a.Intersects(b) && !b.Intersects(a)
  {
  }
}
