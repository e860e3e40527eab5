// PointExtensions: the component-wise sign of a point and the direction
// vector between two points.

module PointExtensions {
  import opened Drawing

  /** A coordinate that is -1, 0 or 1. */
  predicate IsUnit(v: int) { v == -1 || v == 0 || v == 1 }

  /**
   * The signs of X and Y, independently: the "component direction" of p,
   * not normalised to length 1.
   */
  function Sign(p: Point): (s: Point)
    ensures IsUnit(s.x) && IsUnit(s.y)
    ensures (s.x < 0 <==> p.x < 0) && (s.x == 0 <==> p.x == 0) && (s.x > 0 <==> p.x > 0)
    ensures (s.y < 0 <==> p.y < 0) && (s.y == 0 <==> p.y == 0) && (s.y > 0 <==> p.y > 0)
  {
    Point(IntSign(p.x), IntSign(p.y))
  }

  /** The direction vector from point1 to point2; each component is -1, 0 or 1. */
  function Direction(point1: Point, point2: Point): (d: Point)
    ensures IsUnit(d.x) && IsUnit(d.y)
    ensures (d.x < 0 <==> point2.x < point1.x) && (d.x > 0 <==> point2.x > point1.x)
    ensures (d.y < 0 <==> point2.y < point1.y) && (d.y > 0 <==> point2.y > point1.y)
  {
    Sign(Sub(point2, point1))
  }

  /** Taking the sign twice changes nothing. */
  lemma SignIdempotent(p: Point)
    ensures Sign(Sign(p)) == Sign(p)
  {
  }

  /** Only the origin has the zero sign vector. */
  lemma SignZeroIffOrigin(p: Point)
    ensures Sign(p) == Origin <==> p == Origin
  {
  }

  /** The sign of the negated point is the negated sign. */
  lemma SignNegate(p: Point)
    ensures Sign(Negate(p)) == Negate(Sign(p))
  {
  }

  /** There is no direction from a point to itself. */
  lemma DirectionToSelf(p: Point)
    ensures Direction(p, p) == Origin
  {
  }

  /** Reversing the two points reverses the direction. */
  lemma DirectionAntisymmetric(p1: Point, p2: Point)
    ensures Direction(p1, p2) == Negate(Direction(p2, p1))
  {
    var d, e := Direction(p1, p2), Direction(p2, p1);
    assert d.x == -e.x && d.y == -e.y;
  }

  /**
   * Squared Euclidean distance, standing in for the floating-point
   * `DistanceTo`: the square root is monotone, so both order pairs of points alike.
   */
  function DistanceSquared(p: Point, q: Point): (d: nat)
  {
    (p.x - q.x) * (p.x - q.x) + (p.y - q.y) * (p.y - q.y)
  }

  lemma SquareMonotone(a: int, b: int)
    requires 0 <= a <= b || b <= a <= 0
    ensures a * a <= b * b
  {
    if 0 <= a {
      assert a * a <= a * b <= b * b;
    } else {
      assert a * a <= a * b <= b * b;
    }
  }

  lemma SquareZero(a: int, b: int)
    requires a * a + b * b == 0
    ensures a == 0 && b == 0
  {
  }
}
