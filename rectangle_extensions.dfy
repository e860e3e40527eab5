// RectangleExtensions: how far, and in which direction, a point lies outside
// a rectangle, and the nearest pixel of the rectangle to a point.

module RectangleExtensions {
  import opened Drawing
  import opened PointExtensions

  /**
   * Signed horizontal distance from the point to the nearest pixel column of
   * the rectangle: 0 inside the span, negative to the left, positive to the
   * right (Right is exclusive, hence the +1).
   */
  function OutsideXDistance(rectangle: Rect, point: Point): (d: int)
    ensures rectangle.width >= 1 ==> (d == 0 <==> rectangle.left <= point.x < rectangle.Right())
    ensures rectangle.width >= 1 && point.x < rectangle.left ==> d == point.x - rectangle.left
    ensures rectangle.width >= 1 && point.x >= rectangle.Right() ==> d == point.x - (rectangle.Right() - 1)
  {
    MathMax(MathMin(0, point.x - rectangle.left), point.x - rectangle.Right() + 1)
  }

  /** The vertical counterpart of OutsideXDistance. */
  function OutsideYDistance(rectangle: Rect, point: Point): (d: int)
    ensures rectangle.height >= 1 ==> (d == 0 <==> rectangle.top <= point.y < rectangle.Bottom())
    ensures rectangle.height >= 1 && point.y < rectangle.top ==> d == point.y - rectangle.top
    ensures rectangle.height >= 1 && point.y >= rectangle.Bottom() ==> d == point.y - (rectangle.Bottom() - 1)
  {
    MathMax(MathMin(0, point.y - rectangle.top), point.y - rectangle.Bottom() + 1)
  }

  /** Both outside distances packed into a point; (0,0) exactly when the point is inside. */
  function OutsideDistance(rectangle: Rect, point: Point): (d: Point)
    ensures rectangle.NonEmpty() ==> (d == Origin <==> rectangle.Contains(point))
  {
    Point(OutsideXDistance(rectangle, point), OutsideYDistance(rectangle, point))
  }

  /**
   * The pixel of the rectangle nearest to the point: each coordinate clamped
   * into [Left, Right-1] and [Top, Bottom-1]. A point inside is returned as is.
   */
  function ClosestBoundaryPoint(rectangle: Rect, point: Point): (c: Point)
    ensures rectangle.NonEmpty() ==> rectangle.Contains(c)
    ensures rectangle.Contains(point) ==> c == point
  {
    Point(MathMax(MathMin(point.x, rectangle.Right() - 1), rectangle.left),
          MathMax(MathMin(point.y, rectangle.Bottom() - 1), rectangle.top))
  }

  /**
   * The side(s) of the rectangle the point lies beyond: each component is
   * -1, 0 or 1, and (0,0) means the point is inside.
   */
  function OutsideDirection(rectangle: Rect, point: Point): (d: Point)
    ensures IsUnit(d.x) && IsUnit(d.y)
    ensures rectangle.width >= 1 ==> (d.x == 0 <==> rectangle.left <= point.x < rectangle.Right())
    ensures rectangle.height >= 1 ==> (d.y == 0 <==> rectangle.top <= point.y < rectangle.Bottom())
    ensures rectangle.width >= 1 ==> (d.x == -1 <==> point.x < rectangle.left) && (d.x == 1 <==> point.x >= rectangle.Right())
    ensures rectangle.height >= 1 ==> (d.y == -1 <==> point.y < rectangle.top) && (d.y == 1 <==> point.y >= rectangle.Bottom())
    ensures rectangle.NonEmpty() ==> (d == Origin <==> rectangle.Contains(point))
  {
    Sign(OutsideDistance(rectangle, point))
  }

  /**
   * The "opposite" of OutsideDistance: stepping back from the point by its
   * outside distance lands on the closest boundary point.
   */
  lemma OutsideDistanceThenClosest(rectangle: Rect, point: Point)
    requires rectangle.NonEmpty()
    ensures Sub(point, OutsideDistance(rectangle, point)) == ClosestBoundaryPoint(rectangle, point)
  {
  }

  /** Clamping a second time changes nothing. */
  lemma ClosestBoundaryPointIdempotent(rectangle: Rect, point: Point)
    requires rectangle.NonEmpty()
    ensures ClosestBoundaryPoint(rectangle, ClosestBoundaryPoint(rectangle, point))
         == ClosestBoundaryPoint(rectangle, point)
  {
  }

  /** The closest boundary point of a point outside the rectangle lies on its border. */
  lemma ClosestBoundaryPointOnBorder(rectangle: Rect, point: Point)
    requires rectangle.NonEmpty() && !rectangle.Contains(point)
    ensures var c := ClosestBoundaryPoint(rectangle, point);
      c.x == rectangle.left || c.x == rectangle.Right() - 1 ||
      c.y == rectangle.top || c.y == rectangle.Bottom() - 1
  {
  }

  /**
   * No pixel of the rectangle is nearer to the point (in squared Euclidean
   * distance) than its closest boundary point.
   */
  lemma ClosestBoundaryPointIsNearest(rectangle: Rect, point: Point, q: Point)
    requires rectangle.Contains(q)
    ensures DistanceSquared(point, ClosestBoundaryPoint(rectangle, point)) <= DistanceSquared(point, q)
  {
    var c := ClosestBoundaryPoint(rectangle, point);
    SquareMonotone(point.x - c.x, point.x - q.x);
    SquareMonotone(point.y - c.y, point.y - q.y);
  }

  /** The distance to the closest boundary point is zero exactly for points inside. */
  lemma ClosestDistanceZeroIffInside(rectangle: Rect, point: Point)
    requires rectangle.NonEmpty()
    ensures DistanceSquared(point, ClosestBoundaryPoint(rectangle, point)) == 0 <==> rectangle.Contains(point)
  {
    var c := ClosestBoundaryPoint(rectangle, point);
    if DistanceSquared(point, c) == 0 {
      SquareZero(point.x - c.x, point.y - c.y);
    }
  }
}
