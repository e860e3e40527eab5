// StaticStuff: the older copies of the geometric helpers, plus the 3-way Max
// and the per-axis containment tests. Each copy is tied by its contract to
// the extension-method version the engine uses.

module StaticStuff {
  import opened Drawing
  import PointExtensions
  import RectangleExtensions

  /** The signs of X and Y, independently. */
  function Sign(p: Point): (s: Point)
    ensures s == PointExtensions.Sign(p)
  {
    Point(IntSign(p.x), IntSign(p.y))
  }

  /** 3-way maximum: no smaller than any argument, and equal to one of them. */
  function Max(x: int, y: int, z: int): (m: int)
    ensures m >= x && m >= y && m >= z
    ensures m == x || m == y || m == z
  {
    MathMax(x, MathMax(y, z))
  }

  /** Direction vector from P1 to P2, with components -1, 0 or 1. */
  function Direction(p1: Point, p2: Point): (d: Point)
    ensures PointExtensions.IsUnit(d.x) && PointExtensions.IsUnit(d.y)
    ensures d == PointExtensions.Direction(p1, p2)
  {
    Sign(Sub(p2, p1))
  }

  function OutsideXDistance(r: Rect, p: Point): (d: int)
    ensures d == RectangleExtensions.OutsideXDistance(r, p)
  {
    MathMax(MathMin(0, p.x - r.left), p.x - r.Right() + 1)
  }

  function OutsideYDistance(r: Rect, p: Point): (d: int)
    ensures d == RectangleExtensions.OutsideYDistance(r, p)
  {
    MathMax(MathMin(0, p.y - r.top), p.y - r.Bottom() + 1)
  }

  function OutsideDistance(r: Rect, p: Point): (d: Point)
    ensures d == RectangleExtensions.OutsideDistance(r, p)
  {
    Point(OutsideXDistance(r, p), OutsideYDistance(r, p))
  }

  function ClosestBoundaryPoint(r: Rect, p: Point): (c: Point)
    ensures c == RectangleExtensions.ClosestBoundaryPoint(r, p)
    ensures r.NonEmpty() ==> ContainsX(r, c) && ContainsY(r, c)
  {
    Point(MathMax(MathMin(p.x, r.Right() - 1), r.left),
          MathMax(MathMin(p.y, r.Bottom() - 1), r.top))
  }

  function OutsideDirection(r: Rect, p: Point): (d: Point)
    ensures d == RectangleExtensions.OutsideDirection(r, p)
    ensures r.NonEmpty() ==> (d == Origin <==> ContainsX(r, p) && ContainsY(r, p))
  {
    Sign(OutsideDistance(r, p))
  }

  /** Is P's row within R's rows? Exactly when the vertical outside distance is zero. */
  predicate ContainsY(r: Rect, p: Point)
    ensures r.height >= 1 ==> (ContainsY(r, p) <==> OutsideYDistance(r, p) == 0)
  {
    p.y >= r.top && p.y < r.Bottom()
  }

  /** Is P's column within R's columns? Exactly when the horizontal outside distance is zero. */
  predicate ContainsX(r: Rect, p: Point)
    ensures r.width >= 1 ==> (ContainsX(r, p) <==> OutsideXDistance(r, p) == 0)
  {
    p.x >= r.left && p.x < r.Right()
  }

  /** The two per-axis tests together are Rectangle.Contains. */
  lemma ContainsBothAxes(r: Rect, p: Point)
    ensures ContainsX(r, p) && ContainsY(r, p) <==> r.Contains(p)
  {
  }
}
