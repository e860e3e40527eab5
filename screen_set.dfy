// ScreenSet: the jump engine. The queries are functions of the ordered
// screen list (and, for wrapping, of the outer-edge lists); the class holds
// the configuration and the one piece of history, the previous raw mouse
// point, which CheckJumpCursor rewrites on every call.
//
// A screen is named by its position in the list, so "no screen" (null in the
// source) is None and two screens are the same screen exactly when their
// positions are equal.

module ScreenSets {
  import opened Drawing
  import opened PointExtensions
  import opened RectangleExtensions
  import opened ScreenExtensions

  datatype Option<+T> = None | Some(value: T)

  /** int.MaxValue: the starting "closest distance" of the wrap search. */
  const IntMaxValue: int := 0x7fff_ffff

  // ---------------------------------------------------------------------------
  // WhichScreen

  /** The first screen, in list order, whose bounds contain the point; None in a gap. */
  function WhichScreen(screens: seq<Screen>, point: Point): (r: Option<nat>)
    ensures r.Some? ==> r.value < |screens| && screens[r.value].bounds.Contains(point)
    ensures r.Some? ==> forall k :: 0 <= k < r.value ==> !screens[k].bounds.Contains(point)
    ensures r.None? <==> forall k :: 0 <= k < |screens| ==> !screens[k].bounds.Contains(point)
    decreases |screens|
  {
    if screens == [] then None
    else
      var r := WhichScreen(screens[..|screens| - 1], point);
      if r.Some? then r
      else if screens[|screens| - 1].bounds.Contains(point) then Some(|screens| - 1)
      else None
  }

  /** The first screen whose bounds contain the point is the one WhichScreen names. */
  lemma WhichScreenIsFirstContaining(screens: seq<Screen>, point: Point, k: nat)
    requires k < |screens| && screens[k].bounds.Contains(point)
    requires forall j :: 0 <= j < k ==> !screens[j].bounds.Contains(point)
    ensures WhichScreen(screens, point) == Some(k)
  {
    var r := WhichScreen(screens, point);
    assert r.Some?;
    var first := r.value;
    assert screens[first].bounds.Contains(point);
    assert first >= k;
  }

  // ---------------------------------------------------------------------------
  // ScreenInDirection

  /**
   * Does `candidate` share the edge of `origin` on the side `direction`
   * names? The horizontal component is looked at first: a diagonal overshoot
   * only considers left or right neighbours.
   */
  predicate AbutsInDirection(origin: Rect, candidate: Rect, direction: Point)
  {
    if direction.x == 1 then origin.Right() == candidate.left
    else if direction.x == -1 then origin.left == candidate.Right()
    else if direction.y == 1 then origin.Bottom() == candidate.top
    else if direction.y == -1 then origin.top == candidate.Bottom()
    else false
  }

  /** Screen j is another screen, touching the origin on the side the mouse is pushing out of. */
  predicate IsCandidate(screens: seq<Screen>, origin: nat, mouse: Point, j: nat)
    requires origin < |screens| && j < |screens|
  {
    var o := screens[origin].bounds;
    j != origin && AbutsInDirection(o, screens[j].bounds, OutsideDirection(o, mouse))
  }

  /** How far the mouse is from the nearest pixel of the screen (squared). */
  function JumpDistance(screen: Screen, mouse: Point): nat
  {
    DistanceSquared(mouse, ClosestBoundaryPoint(screen.bounds, mouse))
  }

  /**
   * Screen j is the one a stable sort by JumpDistance puts first among the
   * candidates below n: no candidate is nearer, and every earlier candidate
   * is strictly farther.
   */
  ghost predicate IsNearestCandidate(screens: seq<Screen>, origin: nat, mouse: Point, n: nat, j: nat)
    requires origin < |screens| && n <= |screens|
  {
    && j < n
    && IsCandidate(screens, origin, mouse, j)
    && (forall k :: 0 <= k < n && IsCandidate(screens, origin, mouse, k) ==>
          JumpDistance(screens[j], mouse) <= JumpDistance(screens[k], mouse))
    && (forall k :: 0 <= k < j && IsCandidate(screens, origin, mouse, k) ==>
          JumpDistance(screens[j], mouse) < JumpDistance(screens[k], mouse))
  }

  /** The nearest candidate among the first n screens, earliest on a tie. */
  function NearestCandidate(screens: seq<Screen>, origin: nat, mouse: Point, n: nat): (r: Option<nat>)
    requires origin < |screens| && n <= |screens|
    ensures r.Some? ==> IsNearestCandidate(screens, origin, mouse, n, r.value)
    ensures r.None? <==> forall k :: 0 <= k < n ==> !IsCandidate(screens, origin, mouse, k)
  {
    if n == 0 then None
    else
      var r := NearestCandidate(screens, origin, mouse, n - 1);
      if !IsCandidate(screens, origin, mouse, n - 1) then r
      else if r.None? || JumpDistance(screens[n - 1], mouse) < JumpDistance(screens[r.value], mouse) then Some(n - 1)
      else r
  }

  /**
   * The closest screen in the direction of the mouse: among the other screens
   * that abut the cursor's screen on the side the mouse lies beyond, the one
   * whose nearest pixel is closest to the mouse, the earliest on a tie.
   */
  function ScreenInDirection(screens: seq<Screen>, cursorScreen: nat, mouse: Point): (r: Option<nat>)
    requires cursorScreen < |screens|
    ensures r.Some? ==> IsNearestCandidate(screens, cursorScreen, mouse, |screens|, r.value)
    ensures r.None? <==> forall k :: 0 <= k < |screens| ==> !IsCandidate(screens, cursorScreen, mouse, k)
    ensures r.Some? ==> r.value != cursorScreen
    ensures screens[cursorScreen].bounds.Contains(mouse) ==> r.None?
    ensures r.Some? ==>
      var o, c := screens[cursorScreen].bounds, screens[r.value].bounds;
      var d := OutsideDirection(o, mouse);
      && (d.x == 1 ==> c.left == o.Right())
      && (d.x == -1 ==> c.Right() == o.left)
      && (d.x == 0 && d.y == 1 ==> c.top == o.Bottom())
      && (d.x == 0 && d.y == -1 ==> c.Bottom() == o.top)
      && d != Origin
  {
    NearestCandidate(screens, cursorScreen, mouse, |screens|)
  }

  /** The nearest-candidate description leaves no choice: it names one screen at most. */
  lemma NearestCandidateUnique(screens: seq<Screen>, origin: nat, mouse: Point, n: nat, i: nat, j: nat)
    requires origin < |screens| && n <= |screens|
    requires IsNearestCandidate(screens, origin, mouse, n, i)
    requires IsNearestCandidate(screens, origin, mouse, n, j)
    ensures i == j
  {
    var di, dj := JumpDistance(screens[i], mouse), JumpDistance(screens[j], mouse);
    assert i < j ==> dj < di;
    assert j < i ==> di < dj;
  }

  /** A candidate that is the only one is chosen, whatever the distances. */
  lemma SoleCandidateChosen(screens: seq<Screen>, origin: nat, mouse: Point, j: nat)
    requires origin < |screens| && j < |screens|
    requires IsCandidate(screens, origin, mouse, j)
    requires forall k :: 0 <= k < |screens| && k != j ==> !IsCandidate(screens, origin, mouse, k)
    ensures ScreenInDirection(screens, origin, mouse) == Some(j)
  {
    var r := ScreenInDirection(screens, origin, mouse);
    assert r.Some?;
    var chosen := r.value;
    assert IsCandidate(screens, origin, mouse, chosen);
  }

  /** Two rectangles share no pixel. */
  predicate Disjoint(a: Rect, b: Rect)
  {
    a.Right() <= b.left || b.Right() <= a.left || a.Bottom() <= b.top || b.Bottom() <= a.top
  }

  /** The monitor arrangement the host supplies: every screen has pixels, no two overlap. */
  predicate WellFormed(screens: seq<Screen>)
  {
    && (forall i :: 0 <= i < |screens| ==> screens[i].bounds.NonEmpty())
    && (forall i, j :: 0 <= i < |screens| && 0 <= j < |screens| && i != j ==>
          Disjoint(screens[i].bounds, screens[j].bounds))
  }

  /**
   * Adjacent-screen symmetry: when the mouse has already reached a screen that
   * abuts the cursor's screen on the side it left by, that screen is chosen.
   */
  lemma NeighbourUnderMouseIsChosen(screens: seq<Screen>, origin: nat, mouse: Point, j: nat)
    requires WellFormed(screens)
    requires origin < |screens| && j < |screens|
    requires IsCandidate(screens, origin, mouse, j) && screens[j].bounds.Contains(mouse)
    ensures ScreenInDirection(screens, origin, mouse) == Some(j)
  {
    var result := ScreenInDirection(screens, origin, mouse);
    assert result.Some?;
    var r := result.value;
    var chosen, reached := screens[r].bounds, screens[j].bounds;
    assert ClosestBoundaryPoint(reached, mouse) == mouse;
    assert DistanceSquared(mouse, mouse) == 0;
    assert JumpDistance(screens[r], mouse) <= JumpDistance(screens[j], mouse) == 0;
    ClosestDistanceZeroIffInside(chosen, mouse);
    assert r != j ==> Disjoint(chosen, reached);
  }

  // ---------------------------------------------------------------------------
  // The DPI remap (ComputeAdjustment)

  /**
   * Math.Round's default rounding of the exact quotient num / den: to the
   * nearest integer, and to the even one of two equally near.
   */
  function RoundHalfEven(num: int, den: int): (r: int)
    requires den > 0
    ensures -den <= 2 * (num - r * den) <= den
    ensures 2 * (num - r * den) == den || 2 * (num - r * den) == -den ==> r % 2 == 0
  {
    var q, rem := num / den, num % den;
    QuotientRemainder(num, den, q, rem);
    if 2 * rem < den then q
    else if 2 * rem > den then q + 1
    else if q % 2 == 0 then q
    else q + 1
  }

  lemma QuotientRemainder(num: int, den: int, q: int, rem: int)
    requires den > 0 && q == num / den && rem == num % den
    ensures 0 <= rem < den
    ensures num - q * den == rem && num - (q + 1) * den == rem - den
  {
  }

  /** The two properties of RoundHalfEven determine its result. */
  lemma RoundHalfEvenUnique(num: int, den: int, r: int)
    requires den > 0
    requires -den <= 2 * (num - r * den) <= den
    requires 2 * (num - r * den) == den || 2 * (num - r * den) == -den ==> r % 2 == 0
    ensures r == RoundHalfEven(num, den)
  {
    var s := RoundHalfEven(num, den);
    var e, f, t := num - r * den, num - s * den, r - s;
    assert f - e == t * den by {
      assert r * den == s * den + t * den;
    }
    NearestMultiples(e, f, t, den);
  }

  /**
   * Two remainders e and f, each within half of den of zero, that differ by a
   * multiple t of den: they are equal, or they are the two opposite ties.
   */
  lemma NearestMultiples(e: int, f: int, t: int, den: int)
    requires den > 0
    requires -den <= 2 * e <= den && -den <= 2 * f <= den
    requires f - e == t * den
    ensures t == 0 || (t == 1 && 2 * f == den && 2 * e == -den) || (t == -1 && 2 * f == -den && 2 * e == den)
  {
    MultipleBounds(t, den);
  }

  lemma MultipleBounds(t: int, den: int)
    requires den > 0
    ensures t >= 2 ==> t * den >= 2 * den
    ensures t <= -2 ==> t * den <= -2 * den
  {
  }

  /**
   * The exact target row scaled by the cursor screen's DPI:
   * (cursor.Y - m1) * d2 + m2 * d1, where the cursor's offset from its
   * screen's middle row, in inches, is (cursor.Y - m1) / d1.
   */
  function ScaledTargetRow(cursorScreen: Screen, targetScreen: Screen, cursor: Point): int
  {
    (cursor.y - GetScreenMidpointY(cursorScreen)) * targetScreen.dpi
      + GetScreenMidpointY(targetScreen) * cursorScreen.dpi
  }

  /**
   * Where the cursor lands on targetScreen: the column of the raw mouse, and
   * the row at the same physical (inch) offset from the target's middle row as
   * the cursor has from its own screen's middle row, rounded to nearest-even.
   */
  function ComputeAdjustment(cursorScreen: Screen, targetScreen: Screen, cursor: Point, mouse: Point): (p: Point)
    ensures p.x == mouse.x
    ensures var num, den := ScaledTargetRow(cursorScreen, targetScreen, cursor), cursorScreen.dpi as int;
      -den <= 2 * (num - p.y * den) <= den
  {
    Point(mouse.x, RoundHalfEven(ScaledTargetRow(cursorScreen, targetScreen, cursor), cursorScreen.dpi))
  }

  /**
   * A cursor a whole number k of inches off its screen's middle row lands
   * exactly k inches off the target's middle row.
   */
  lemma RemapWholeInches(cursorScreen: Screen, targetScreen: Screen, cursor: Point, mouse: Point, k: int)
    requires cursor.y - GetScreenMidpointY(cursorScreen) == k * cursorScreen.dpi
    ensures ComputeAdjustment(cursorScreen, targetScreen, cursor, mouse).y
         == GetScreenMidpointY(targetScreen) + k * targetScreen.dpi
  {
    var d1, d2, m2 := cursorScreen.dpi, targetScreen.dpi, GetScreenMidpointY(targetScreen);
    var r := m2 + k * d2;
    assert ScaledTargetRow(cursorScreen, targetScreen, cursor) == k * d1 * d2 + m2 * d1;
    assert ScaledTargetRow(cursorScreen, targetScreen, cursor) - r * d1 == 0;
    RoundHalfEvenUnique(ScaledTargetRow(cursorScreen, targetScreen, cursor), d1, r);
  }

  /** Between screens of equal DPI the pixel offset from the middle row is kept. */
  lemma RemapSameDpi(cursorScreen: Screen, targetScreen: Screen, cursor: Point, mouse: Point)
    requires cursorScreen.dpi == targetScreen.dpi
    ensures ComputeAdjustment(cursorScreen, targetScreen, cursor, mouse).y - GetScreenMidpointY(targetScreen)
         == cursor.y - GetScreenMidpointY(cursorScreen)
  {
    var d, m1, m2 := cursorScreen.dpi, GetScreenMidpointY(cursorScreen), GetScreenMidpointY(targetScreen);
    var r := m2 + cursor.y - m1;
    assert ScaledTargetRow(cursorScreen, targetScreen, cursor) == r * d;
    RoundHalfEvenUnique(ScaledTargetRow(cursorScreen, targetScreen, cursor), d, r);
  }

  // ---------------------------------------------------------------------------
  // WrapPoint

  /** The outer-edge list the wrap search runs over: LeftMost when moving right, else RightMost. */
  function WrapCandidates(leftMost: seq<Screen>, rightMost: seq<Screen>, direction: Point): seq<Screen>
  {
    if direction.x == 1 then leftMost else rightMost
  }

  /** How many rows the point lies above or below the screen (0 within its rows). */
  function RowGap(screen: Screen, cursor: Point): nat
  {
    var d := OutsideYDistance(screen.bounds, cursor);
    if d < 0 then -d else d
  }

  /** The first of the candidates with the smallest row gap to the cursor. */
  function ClosestInY(candidates: seq<Screen>, cursor: Point): (k: nat)
    requires candidates != []
    ensures k < |candidates|
    ensures forall j :: 0 <= j < |candidates| ==> RowGap(candidates[k], cursor) <= RowGap(candidates[j], cursor)
    ensures forall j :: 0 <= j < k ==> RowGap(candidates[k], cursor) < RowGap(candidates[j], cursor)
    decreases |candidates|
  {
    if |candidates| == 1 then 0
    else
      var n := |candidates| - 1;
      var k := ClosestInY(candidates[..n], cursor);
      if RowGap(candidates[n], cursor) < RowGap(candidates[k], cursor) then n else k
  }

  /** Extending the searched prefix by one screen: that screen wins only with a strictly smaller gap. */
  lemma ClosestInYExtend(candidates: seq<Screen>, cursor: Point, i: nat)
    requires 0 < i < |candidates|
    ensures var k := ClosestInY(candidates[..i], cursor);
      ClosestInY(candidates[..i + 1], cursor) == if RowGap(candidates[i], cursor) < RowGap(candidates[k], cursor) then i else k
  {
    assert candidates[..i + 1][..i] == candidates[..i];
  }

  /**
   * The wrap-around landing point: on the outer-edge screen whose rows best
   * match the cursor's, in its Left column (moving right) or its last column
   * (otherwise), at the cursor's row clamped into the screen. With no
   * horizontal component the cursor itself.
   */
  function WrapTarget(leftMost: seq<Screen>, rightMost: seq<Screen>, cursor: Point, direction: Point): (p: Point)
    requires direction.x != 0 ==> WrapCandidates(leftMost, rightMost, direction) != []
    ensures direction.x == 0 ==> p == cursor
  {
    if direction.x == 0 then cursor
    else
      var candidates := WrapCandidates(leftMost, rightMost, direction);
      var b := candidates[ClosestInY(candidates, cursor)].bounds;
      ClosestBoundaryPoint(b, Point(if direction.x == 1 then b.left else b.Right(), cursor.y))
  }

  /** Where the wrap lands, for a wrap screen that has pixels. */
  lemma WrapTargetLands(leftMost: seq<Screen>, rightMost: seq<Screen>, cursor: Point, direction: Point)
    requires direction.x != 0 && WrapCandidates(leftMost, rightMost, direction) != []
    ensures var candidates := WrapCandidates(leftMost, rightMost, direction);
      var b := candidates[ClosestInY(candidates, cursor)].bounds;
      var p := WrapTarget(leftMost, rightMost, cursor, direction);
      b.NonEmpty() ==>
        && b.Contains(p)
        && p.x == (if direction.x == 1 then b.left else b.Right() - 1)
        && p.y == (if cursor.y < b.top then b.top else if cursor.y >= b.Bottom() then b.Bottom() - 1 else cursor.y)
  {
  }

  /**
   * What WrapPoint needs to find a screen: with a horizontal component the
   * list it searches is not empty, and every row gap is below int.MaxValue
   * (true of 32-bit coordinates on real monitors).
   */
  predicate WrapDefined(leftMost: seq<Screen>, rightMost: seq<Screen>, cursor: Point, direction: Point)
  {
    direction.x != 0 ==>
      var candidates := WrapCandidates(leftMost, rightMost, direction);
      && candidates != []
      && forall i :: 0 <= i < |candidates| ==> RowGap(candidates[i], cursor) < IntMaxValue
  }

  // ---------------------------------------------------------------------------
  // GetAdjustedPoint

  /**
   * When GetAdjustedPoint dereferences nothing null: the cursor is on a
   * screen, and if the wrap branch is taken its list has a screen to offer;
   * or the set is empty and wrapping is off, when every lookup finds nothing.
   */
  predicate AdjustmentDefined(screens: seq<Screen>, leftMost: seq<Screen>, rightMost: seq<Screen>,
                              enableHorizontalWrap: bool, cursor: Point, mouse: Point)
  {
    match WhichScreen(screens, cursor)
    case None =>
      // No cursor screen: only an empty set gets past the lookups, and then
      // only with wrapping off.
      screens == [] && !enableHorizontalWrap
    case Some(cursorScreen) =>
      WhichScreen(screens, mouse).None? && ScreenInDirection(screens, cursorScreen, mouse).None?
        && enableHorizontalWrap
      ==> WrapDefined(leftMost, rightMost, cursor, OutsideDirection(screens[cursorScreen].bounds, mouse))
  }

  /**
   * Where the cursor should go, in priority order: onto the screen under the
   * raw mouse (DPI-remapped); else onto the adjacent screen in the mouse's
   * direction (DPI-remapped, then clamped into it); else, with wrapping on and
   * a horizontal push, to the wrap point; else nowhere (the cursor stays).
   */
  function AdjustedPoint(screens: seq<Screen>, leftMost: seq<Screen>, rightMost: seq<Screen>,
                         enableHorizontalWrap: bool, cursor: Point, mouse: Point): (p: Point)
    requires AdjustmentDefined(screens, leftMost, rightMost, enableHorizontalWrap, cursor, mouse)
    ensures screens == [] ==> p == cursor
    ensures WhichScreen(screens, mouse).Some? ==> p.x == mouse.x
    ensures WhichScreen(screens, cursor).Some? ==>
      var cursorScreen := WhichScreen(screens, cursor).value;
      var jumpScreen := ScreenInDirection(screens, cursorScreen, mouse);
      WhichScreen(screens, mouse).None? && jumpScreen.Some? && screens[jumpScreen.value].bounds.NonEmpty() ==>
        screens[jumpScreen.value].bounds.Contains(p)
    ensures WhichScreen(screens, cursor).Some? ==>
      var cursorScreen := WhichScreen(screens, cursor).value;
      var stuck := OutsideDirection(screens[cursorScreen].bounds, mouse);
      WhichScreen(screens, mouse).None? && ScreenInDirection(screens, cursorScreen, mouse).None?
        && !(enableHorizontalWrap && stuck.x != 0) ==>
        p == cursor
  {
    match WhichScreen(screens, cursor)
    case None =>
      // The empty set: no screen under the mouse, none in its direction, no wrapping.
      cursor
    case Some(cursorScreen) =>
      match WhichScreen(screens, mouse)
      case Some(mouseScreen) =>
        ComputeAdjustment(screens[cursorScreen], screens[mouseScreen], cursor, mouse)
      case None =>
        match ScreenInDirection(screens, cursorScreen, mouse)
        case Some(jumpScreen) =>
          ClosestBoundaryPoint(screens[jumpScreen].bounds,
                               ComputeAdjustment(screens[cursorScreen], screens[jumpScreen], cursor, mouse))
        case None =>
          var stuckDirection := OutsideDirection(screens[cursorScreen].bounds, mouse);
          if enableHorizontalWrap && stuckDirection.x != 0 then
            WrapTarget(leftMost, rightMost, cursor, stuckDirection)
          else
            cursor
  }

  /** An empty screen set with wrapping off leaves the cursor where it is, wherever the mouse went. */
  lemma EmptySetKeepsCursor(leftMost: seq<Screen>, rightMost: seq<Screen>, cursor: Point, mouse: Point)
    ensures AdjustmentDefined([], leftMost, rightMost, false, cursor, mouse)
    ensures AdjustedPoint([], leftMost, rightMost, false, cursor, mouse) == cursor
  {
  }

  // ---------------------------------------------------------------------------
  // CheckJumpCursor

  /**
   * When CheckJumpCursor dereferences nothing null: the cursor is on a screen,
   * or the mouse is on none (then the guard is decided before the
   * direction lookup).
   */
  predicate JumpDefined(screens: seq<Screen>, cursor: Point, mouse: Point)
  {
    WhichScreen(screens, cursor).Some? || WhichScreen(screens, mouse).None?
  }

  /**
   * The jump decision, with the guard's boolean structure as written (&& binds
   * tighter than ||): no jump when not stuck and on the same screen, or when
   * there is no screen in the mouse's direction.
   */
  predicate Jumps(screens: seq<Screen>, previousMouse: Point, cursor: Point, mouse: Point)
    requires JumpDefined(screens, cursor, mouse)
  {
    var cursorScreen := WhichScreen(screens, cursor);
    var mouseScreen := WhichScreen(screens, mouse);
    var isStuck := cursor != previousMouse && mouseScreen != cursorScreen;
    !((!isStuck && cursorScreen == mouseScreen)
      || ScreenInDirection(screens, cursorScreen.value, mouse).None?)
  }

  /**
   * The decision in plain terms: jump exactly when cursor and mouse are on
   * different screens and a screen lies in the mouse's direction. The previous
   * mouse point does not enter into it.
   */
  lemma JumpsIffNeighbourInDirection(screens: seq<Screen>, previousMouse: Point, cursor: Point, mouse: Point)
    requires JumpDefined(screens, cursor, mouse)
    ensures Jumps(screens, previousMouse, cursor, mouse) <==>
      && WhichScreen(screens, cursor).Some?
      && WhichScreen(screens, cursor) != WhichScreen(screens, mouse)
      && ScreenInDirection(screens, WhichScreen(screens, cursor).value, mouse).Some?
  {
  }

  /** Whatever the previous mouse point was, the decision is the same. */
  lemma JumpIgnoresPreviousMouse(screens: seq<Screen>, previous1: Point, previous2: Point, cursor: Point, mouse: Point)
    requires JumpDefined(screens, cursor, mouse)
    ensures Jumps(screens, previous1, cursor, mouse) == Jumps(screens, previous2, cursor, mouse)
  {
    JumpsIffNeighbourInDirection(screens, previous1, cursor, mouse);
    JumpsIffNeighbourInDirection(screens, previous2, cursor, mouse);
  }

  /** Cursor and mouse over the same screen (for one, the same point): never a jump. */
  lemma NoJumpOnSameScreen(screens: seq<Screen>, previousMouse: Point, cursor: Point, mouse: Point)
    requires WhichScreen(screens, cursor) == WhichScreen(screens, mouse)
    ensures JumpDefined(screens, cursor, mouse)
    ensures !Jumps(screens, previousMouse, cursor, mouse)
  {
  }

  /**
   * A jump never reaches GetAdjustedPoint's wrap branch: it needs a screen in
   * the mouse's direction, so the edge lists and the wrap flag cannot matter.
   */
  lemma JumpNeedsNoWrap(screens: seq<Screen>, leftMost: seq<Screen>, rightMost: seq<Screen>,
                        enableHorizontalWrap: bool, previousMouse: Point, cursor: Point, mouse: Point)
    requires JumpDefined(screens, cursor, mouse) && Jumps(screens, previousMouse, cursor, mouse)
    ensures AdjustmentDefined(screens, leftMost, rightMost, enableHorizontalWrap, cursor, mouse)
    ensures AdjustedPoint(screens, leftMost, rightMost, enableHorizontalWrap, cursor, mouse)
         == AdjustedPoint(screens, [], [], false, cursor, mouse)
  {
  }

  // ---------------------------------------------------------------------------
  // The screen set

  class ScreenSet {
    const allScreens: seq<Screen>
    /** Outer-edge lists: created empty; only the wrap search reads LeftMost and RightMost. */
    var leftMost: seq<Screen>
    var rightMost: seq<Screen>
    var topMost: seq<Screen>
    var bottomMost: seq<Screen>
    var enableHorizontalWrap: bool
    /** The raw mouse point of the previous CheckJumpCursor call. */
    var lastMouse: Point

    /** The set of the given screens, in the given order. */
    constructor (screens: seq<Screen>)
      ensures allScreens == screens
      ensures leftMost == [] && rightMost == [] && topMost == [] && bottomMost == []
      ensures !enableHorizontalWrap && lastMouse == Origin
    {
      allScreens := screens;
      leftMost, rightMost, topMost, bottomMost := [], [], [], [];
      enableHorizontalWrap := false;
      lastMouse := Origin;
    }

    /**
     * The wrap-around point for a cursor stuck in `direction`: a linear search
     * of LeftMost (moving right) or RightMost for the first screen with the
     * smallest row gap, then the landing point on its near column.
     */
    method WrapPoint(cursor: Point, direction: Point) returns (p: Point)
      requires WrapDefined(leftMost, rightMost, cursor, direction)
      ensures p == WrapTarget(leftMost, rightMost, cursor, direction)
    {
      if direction.x != 0 {
        var candidates := if direction.x == 1 then leftMost else rightMost;
        var closestDistance := IntMaxValue;
        var wrapScreen: Option<Screen> := None;
        for i := 0 to |candidates|
          invariant i == 0 ==> wrapScreen.None? && closestDistance == IntMaxValue
          invariant i > 0 ==>
            var k := ClosestInY(candidates[..i], cursor);
            wrapScreen == Some(candidates[k]) && closestDistance == RowGap(candidates[k], cursor)
        {
          var distance := OutsideYDistance(candidates[i].bounds, cursor);
          distance := if distance < 0 then -distance else distance;
          if i > 0 {
            ClosestInYExtend(candidates, cursor, i);
          }
          if distance < closestDistance {
            closestDistance := distance;
            wrapScreen := Some(candidates[i]);
          }
        }
        assert candidates[..|candidates|] == candidates;
        var b := wrapScreen.value.bounds;
        return ClosestBoundaryPoint(b, Point(if direction.x == 1 then b.left else b.Right(), cursor.y));
      }
      return cursor;
    }

    /** Where the cursor should land, given the OS cursor and the raw mouse point. */
    method GetAdjustedPoint(cursor: Point, mouse: Point) returns (p: Point)
      requires AdjustmentDefined(allScreens, leftMost, rightMost, enableHorizontalWrap, cursor, mouse)
      ensures p == AdjustedPoint(allScreens, leftMost, rightMost, enableHorizontalWrap, cursor, mouse)
    {
      var cursorScreenOrNone := WhichScreen(allScreens, cursor);
      if cursorScreenOrNone.None? {
        // Only for an empty set: no screen under the mouse, none in its direction, no wrapping.
        return cursor;
      }
      var cursorScreen := cursorScreenOrNone.value;
      var mouseScreen := WhichScreen(allScreens, mouse);
      if mouseScreen.Some? {
        return ComputeAdjustment(allScreens[cursorScreen], allScreens[mouseScreen.value], cursor, mouse);
      }
      var jumpScreen := ScreenInDirection(allScreens, cursorScreen, mouse);
      if jumpScreen.Some? {
        var target := allScreens[jumpScreen.value];
        return ClosestBoundaryPoint(target.bounds, ComputeAdjustment(allScreens[cursorScreen], target, cursor, mouse));
      }
      var stuckDirection := OutsideDirection(allScreens[cursorScreen].bounds, mouse);
      if enableHorizontalWrap && stuckDirection.x != 0 {
        p := WrapPoint(cursor, stuckDirection);
        return;
      }
      return cursor;
    }

    /**
     * The top-level decision for one motion event: whether to move the cursor,
     * and where. Always records the mouse point as the new previous mouse.
     */
    method CheckJumpCursor(cursor: Point, mouse: Point) returns (jumped: bool, newCursor: Point)
      requires JumpDefined(allScreens, cursor, mouse)
      modifies this`lastMouse
      ensures lastMouse == mouse
      ensures jumped == Jumps(allScreens, old(lastMouse), cursor, mouse)
      ensures jumped ==> newCursor == AdjustedPoint(allScreens, leftMost, rightMost, enableHorizontalWrap, cursor, mouse)
      ensures !jumped ==> newCursor == cursor
    {
      var cursorScreen, mouseScreen := WhichScreen(allScreens, cursor), WhichScreen(allScreens, mouse);
      var previousMouse := lastMouse;
      var isStuck := cursor != previousMouse && mouseScreen != cursorScreen;

      lastMouse := mouse;

      if (!isStuck && cursorScreen == mouseScreen)
         || ScreenInDirection(allScreens, cursorScreen.value, mouse).None? {
        return false, cursor;
      }
      JumpNeedsNoWrap(allScreens, leftMost, rightMost, enableHorizontalWrap, previousMouse, cursor, mouse);
      newCursor := GetAdjustedPoint(cursor, mouse);
      jumped := true;
    }
  }
}
