// The System.Drawing value types the engine computes with, and Math.Sign.
// Coordinates are unbounded integers: the model assumes every coordinate and
// every Left+Width / Top+Height sum stays inside the 32-bit range, so no
// arithmetic here wraps around.

module Drawing {

  /** A pixel position in virtual-desktop coordinates (may be negative). */
  datatype Point = Point(x: int, y: int)

  /** The origin, `Point.Empty`. */
  const Origin := Point(0, 0)

  /** `p2 - (Size)p1`: component-wise difference. */
  function Sub(p2: Point, p1: Point): (d: Point)
    ensures Add(p1, d) == p2
  {
    Point(p2.x - p1.x, p2.y - p1.y)
  }

  function Add(p: Point, q: Point): Point
  {
    Point(p.x + q.x, p.y + q.y)
  }

  function Negate(p: Point): Point
  {
    Point(-p.x, -p.y)
  }

  /**
   * An axis-aligned rectangle. Right and Bottom are exclusive: they are one
   * past the last pixel that belongs to the rectangle.
   */
  datatype Rect = Rect(left: int, top: int, width: int, height: int)
  {
    function Right(): int { left + width }
    function Bottom(): int { top + height }

    /** At least one pixel: every monitor rectangle is of this kind. */
    predicate NonEmpty() { width >= 1 && height >= 1 }

    /** `Rectangle.Contains(Point)`, with the exclusive right and bottom edges. */
    predicate Contains(p: Point)
    {
      left <= p.x < Right() && top <= p.y < Bottom()
    }
  }

  /** `Math.Sign` on an int. */
  function IntSign(v: int): (s: int)
    ensures s == -1 || s == 0 || s == 1
    ensures (s < 0 <==> v < 0) && (s == 0 <==> v == 0) && (s > 0 <==> v > 0)
  {
    if v < 0 then -1 else if v == 0 then 0 else 1
  }

  /** `Math.Min` on ints. */
  function MathMin(a: int, b: int): (m: int)
    ensures m <= a && m <= b && (m == a || m == b)
  {
    if a <= b then a else b
  }

  /** `Math.Max` on ints. */
  function MathMax(a: int, b: int): (m: int)
    ensures m >= a && m >= b && (m == a || m == b)
  {
    if a >= b then a else b
  }
}
