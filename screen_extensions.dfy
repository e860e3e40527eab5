// The Screen entity (an index, a bounds rectangle and a DPI) and
// ScreenExtensions.GetScreenMidpointY, the DPI remap's reference row.

module ScreenExtensions {
  import opened Drawing

  /** A DPI reading; the host only ever supplies positive ones. */
  type Dpi = d: int | d > 0 witness 96

  /** One monitor: its position in the owning set, its bounds and its DPI. */
  datatype Screen = Screen(index: int, bounds: Rect, dpi: Dpi)

  /**
   * C#'s integer `/`: the quotient truncated toward zero (Dafny's own `/`
   * rounds toward negative infinity for a positive divisor).
   */
  function TruncatingDiv(a: int, b: int): (q: int)
    requires b > 0
    ensures a >= 0 ==> 0 <= a - q * b < b
    ensures a < 0 ==> -b < a - q * b <= 0
  {
    if a >= 0 then a / b else -((-a) / b)
  }

  /** `(Top + Bottom) / 2` in C# arithmetic: the vertical middle row, rounded toward zero. */
  function GetScreenMidpointY(screen: Screen): (m: int)
    ensures var n := screen.bounds.top + screen.bounds.Bottom();
      2 * m == n || 2 * m == n - IntSign(n)
  {
    TruncatingDiv(screen.bounds.top + screen.bounds.Bottom(), 2)
  }

  /** For a screen at least two rows high the middle row is one of its rows. */
  lemma MidpointWithinScreen(screen: Screen)
    requires screen.bounds.height >= 2
    ensures screen.bounds.top <= GetScreenMidpointY(screen) < screen.bounds.Bottom()
  {
  }

  /** Only Top and Bottom matter: Left, Width, the index and the DPI do not. */
  lemma MidpointDependsOnlyOnRows(s1: Screen, s2: Screen)
    requires s1.bounds.top == s2.bounds.top && s1.bounds.Bottom() == s2.bounds.Bottom()
    ensures GetScreenMidpointY(s1) == GetScreenMidpointY(s2)
  {
  }

  /** The three (top, bottom) pairs of the reference arrangement. */
  lemma MidpointExamples()
    ensures GetScreenMidpointY(Screen(0, Rect(0, 468, 0, 1548 - 468), 96)) == 1008
    ensures GetScreenMidpointY(Screen(0, Rect(0, 487, 0, 1537 - 487), 96)) == 1012
    ensures GetScreenMidpointY(Screen(0, Rect(0, 0, 0, 2160), 96)) == 1080
  {
  }

  /** Truncation differs from flooring only for an odd negative sum: -3 / 2 is -1, not -2. */
  lemma MidpointTruncatesTowardZero()
    ensures GetScreenMidpointY(Screen(0, Rect(0, -2, 0, 1), 96)) == -1
  {
  }
}
