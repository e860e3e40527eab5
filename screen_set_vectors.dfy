// The reference arrangement of four monitors and the jumps expected on it:
// a 1920x1080 screen at 91 DPI left of a 3840x2160 screen at 163 DPI, and two
// 1680x1050 screens at 90 DPI to the right of that.

module ScreenSetVectors {
  import opened Drawing
  import opened ScreenExtensions
  import opened ScreenSets

  const Reference: seq<Screen> := [
    Screen(0, Rect(-1920, 468, 1920, 1080), 91),
    Screen(1, Rect(3840, 487, 1680, 1050), 90),
    Screen(2, Rect(5520, 487, 1680, 1050), 90),
    Screen(3, Rect(0, 0, 3840, 2160), 163)
  ]

  /** The reference arrangement is a valid monitor layout. */
  lemma ReferenceWellFormed()
    ensures WellFormed(Reference)
  {
    var r0, r1, r2, r3 := Reference[0].bounds, Reference[1].bounds, Reference[2].bounds, Reference[3].bounds;
    assert Disjoint(r0, r1) && Disjoint(r0, r2) && Disjoint(r0, r3);
    assert Disjoint(r1, r0) && Disjoint(r1, r2) && Disjoint(r1, r3);
    assert Disjoint(r2, r0) && Disjoint(r2, r1) && Disjoint(r2, r3);
    assert Disjoint(r3, r0) && Disjoint(r3, r1) && Disjoint(r3, r2);
    forall i, j | 0 <= i < 4 && 0 <= j < 4 && i != j
      ensures Disjoint(Reference[i].bounds, Reference[j].bounds)
    {
      if i == 0 {
        if j == 1 {} else if j == 2 {} else {}
      } else if i == 1 {
        if j == 0 {} else if j == 2 {} else {}
      } else if i == 2 {
        if j == 0 {} else if j == 1 {} else {}
      } else {
        if j == 0 {} else if j == 1 {} else {}
      }
    }
  }

  lemma ReferenceMidpoints()
    ensures GetScreenMidpointY(Reference[0]) == 1008
    ensures GetScreenMidpointY(Reference[3]) == 1080
  {
  }

  /** Column -1 lies on the left screen within its rows, and on no screen outside them. */
  lemma LeftColumn(y: int)
    ensures 468 <= y < 1548 ==> WhichScreen(Reference, Point(-1, y)) == Some(0)
    ensures !(468 <= y < 1548) ==> WhichScreen(Reference, Point(-1, y)).None?
  {
    var p := Point(-1, y);
    if 468 <= y < 1548 {
      WhichScreenIsFirstContaining(Reference, p, 0);
    } else {
      assert !Reference[0].bounds.Contains(p) && !Reference[1].bounds.Contains(p)
          && !Reference[2].bounds.Contains(p) && !Reference[3].bounds.Contains(p);
    }
  }

  /** Column 1 lies on the large screen. */
  lemma LargeScreenColumn(y: int)
    requires 0 <= y < 2160
    ensures WhichScreen(Reference, Point(1, y)) == Some(3)
  {
    var p := Point(1, y);
    forall j | 0 <= j < 3 ensures !Reference[j].bounds.Contains(p) {
      if j == 0 {} else if j == 1 {} else {}
    }
    WhichScreenIsFirstContaining(Reference, p, 3);
  }

  /** Pushing right out of the left screen, the large screen is the only neighbour. */
  lemma RightNeighbourOfLeftScreen(y: int)
    requires 468 <= y < 1548
    ensures ScreenInDirection(Reference, 0, Point(1, y)) == Some(3)
  {
    var mouse := Point(1, y);
    forall k | 0 <= k < 4 && k != 3 ensures !IsCandidate(Reference, 0, mouse, k) {
      if k == 0 {} else if k == 1 {} else {}
    }
    SoleCandidateChosen(Reference, 0, mouse, 3);
  }

  /** Pushing left out of the large screen, the left screen is the only neighbour. */
  lemma LeftNeighbourOfLargeScreen(y: int)
    requires 0 <= y < 2160
    ensures ScreenInDirection(Reference, 3, Point(-1, y)) == Some(0)
  {
    var mouse := Point(-1, y);
    forall k | 0 <= k < 4 && k != 0 ensures !IsCandidate(Reference, 3, mouse, k) {
      if k == 1 {} else if k == 2 {} else {}
    }
    SoleCandidateChosen(Reference, 3, mouse, 0);
  }

  /** Where a point lands on the reference arrangement (no wrapping, no outer-edge lists). */
  function Adjusted(cursor: Point, mouse: Point): Point
    requires AdjustmentDefined(Reference, [], [], false, cursor, mouse)
  {
    AdjustedPoint(Reference, [], [], false, cursor, mouse)
  }

  /**
   * From the left screen (midpoint 1008, 91 DPI) onto the large one (midpoint
   * 1080, 163 DPI): the row (y - 1008) * 163 / 91 + 1080, rounded.
   */
  lemma LeftToLarge(y: int)
    requires 468 <= y < 1548
    ensures AdjustmentDefined(Reference, [], [], false, Point(-1, y), Point(1, y))
    ensures Adjusted(Point(-1, y), Point(1, y)) == Point(1, RoundHalfEven((y - 1008) * 163 + 1080 * 91, 91))
  {
    LeftColumn(y);
    LargeScreenColumn(y);
    ReferenceMidpoints();
  }

  /**
   * From the large screen onto the left one where the mouse has left every
   * screen: the row (y - 1080) * 91 / 163 + 1008, rounded, then clamped into
   * the left screen's rows.
   */
  lemma LargeToLeftOffScreen(y: int)
    requires 0 <= y < 468 || 1548 <= y < 2160
    ensures AdjustmentDefined(Reference, [], [], false, Point(1, y), Point(-1, y))
    ensures var row := RoundHalfEven((y - 1080) * 91 + 1008 * 163, 163);
      Adjusted(Point(1, y), Point(-1, y)) == Point(-1, if row < 468 then 468 else if row > 1547 then 1547 else row)
  {
    LeftColumn(y);
    LargeScreenColumn(y);
    LeftNeighbourOfLargeScreen(y);
    ReferenceMidpoints();
  }

  /** Three rows of the left-to-large vectors. */
  lemma AdjustsFromLeftScreen()
    ensures AdjustmentDefined(Reference, [], [], false, Point(-1, 468), Point(1, 468))
    ensures Adjusted(Point(-1, 468), Point(1, 468)) == Point(1, 113)
    ensures AdjustmentDefined(Reference, [], [], false, Point(-1, 1008), Point(1, 1008))
    ensures Adjusted(Point(-1, 1008), Point(1, 1008)) == Point(1, 1080)
    ensures AdjustmentDefined(Reference, [], [], false, Point(-1, 1547), Point(1, 1547))
    ensures Adjusted(Point(-1, 1547), Point(1, 1547)) == Point(1, 2045)
  {
    LeftToLarge(468);
    RoundHalfEvenUnique(10260, 91, 113);
    LeftToLarge(1008);
    RoundHalfEvenUnique(98280, 91, 1080);
    LeftToLarge(1547);
    RoundHalfEvenUnique(186137, 91, 2045);
  }

  /**
   * From the large screen onto the left one where the mouse already lies on
   * the left screen: the row (y - 1080) * 91 / 163 + 1008, rounded, unclamped.
   */
  lemma LargeToLeftOnScreen(y: int)
    requires 468 <= y < 1548
    ensures AdjustmentDefined(Reference, [], [], false, Point(1, y), Point(-1, y))
    ensures Adjusted(Point(1, y), Point(-1, y)) == Point(-1, RoundHalfEven((y - 1080) * 91 + 1008 * 163, 163))
  {
    LeftColumn(y);
    LargeScreenColumn(y);
    ReferenceMidpoints();
  }

  /** Rows of the large-to-left vectors, on and off the left screen's rows. */
  lemma AdjustsFromLargeScreen()
    ensures AdjustmentDefined(Reference, [], [], false, Point(1, 0), Point(-1, 0))
    ensures Adjusted(Point(1, 0), Point(-1, 0)) == Point(-1, 468)
    ensures AdjustmentDefined(Reference, [], [], false, Point(1, 113), Point(-1, 113))
    ensures Adjusted(Point(1, 113), Point(-1, 113)) == Point(-1, 468)
    ensures AdjustmentDefined(Reference, [], [], false, Point(1, 1084), Point(-1, 1084))
    ensures Adjusted(Point(1, 1084), Point(-1, 1084)) == Point(-1, 1010)
    ensures AdjustmentDefined(Reference, [], [], false, Point(1, 2045), Point(-1, 2045))
    ensures Adjusted(Point(1, 2045), Point(-1, 2045)) == Point(-1, 1547)
    ensures AdjustmentDefined(Reference, [], [], false, Point(1, 2159), Point(-1, 2159))
    ensures Adjusted(Point(1, 2159), Point(-1, 2159)) == Point(-1, 1547)
  {
    LargeToLeftOffScreen(0);
    RoundHalfEvenUnique(66024, 163, 405);
    LargeToLeftOffScreen(113);
    RoundHalfEvenUnique(76307, 163, 468);
    LargeToLeftOnScreen(1084);
    RoundHalfEvenUnique(164668, 163, 1010);
    LargeToLeftOffScreen(2045);
    RoundHalfEvenUnique(252119, 163, 1547);
    LargeToLeftOffScreen(2159);
    RoundHalfEvenUnique(262493, 163, 1610);
  }

  /**
   * Row 1547 of the large screen is also a row of the left screen, so the
   * mouse at (-1, 1547) already lies on it and the remap is not clamped:
   * the cursor lands at row 1269, not on the left screen's top row 468.
   */
  lemma LargeToLeftAtRow1547()
    ensures AdjustmentDefined(Reference, [], [], false, Point(1, 1547), Point(-1, 1547))
    ensures Adjusted(Point(1, 1547), Point(-1, 1547)) == Point(-1, 1269)
  {
    LargeToLeftOnScreen(1547);
    RoundHalfEvenUnique(206801, 163, 1269);
  }

  /** Motions that leave the left screen where it has no neighbour never jump. */
  lemma ShouldNotJump(previousMouse: Point)
    ensures JumpDefined(Reference, Point(-1000, 470), Point(-1000, 460))
    ensures !Jumps(Reference, previousMouse, Point(-1000, 470), Point(-1000, 460))
    ensures JumpDefined(Reference, Point(-1000, 1540), Point(-1000, 1560))
    ensures !Jumps(Reference, previousMouse, Point(-1000, 1540), Point(-1000, 1560))
    ensures JumpDefined(Reference, Point(-1910, 1000), Point(-1930, 1000))
    ensures !Jumps(Reference, previousMouse, Point(-1910, 1000), Point(-1930, 1000))
  {
    NoNeighbour(Point(-1000, 470), Point(-1000, 460));
    NoNeighbour(Point(-1000, 1540), Point(-1000, 1560));
    NoNeighbour(Point(-1910, 1000), Point(-1930, 1000));
  }

  /** A push right off the left screen jumps onto the large screen, whatever came before. */
  lemma StuckPushJumps(previousMouse: Point)
    ensures JumpDefined(Reference, Point(-1, 468), Point(1, 468))
    ensures Jumps(Reference, previousMouse, Point(-1, 468), Point(1, 468))
    ensures AdjustmentDefined(Reference, [], [], false, Point(-1, 468), Point(1, 468))
    ensures AdjustedPoint(Reference, [], [], false, Point(-1, 468), Point(1, 468)) == Point(1, 113)
  {
    LeftColumn(468);
    LargeScreenColumn(468);
    RightNeighbourOfLeftScreen(468);
    AdjustsFromLeftScreen();
  }

  lemma NoNeighbour(cursor: Point, mouse: Point)
    requires Reference[0].bounds.Contains(cursor)
    requires mouse.x < -1920 || (-1920 <= mouse.x < 0 && (mouse.y < 468 || mouse.y >= 1548))
    ensures WhichScreen(Reference, cursor) == Some(0)
    ensures ScreenInDirection(Reference, 0, mouse).None?
  {
    WhichScreenIsFirstContaining(Reference, cursor, 0);
    forall k | 0 <= k < 4 ensures !IsCandidate(Reference, 0, mouse, k) {
      if k == 0 {} else if k == 1 {} else if k == 2 {} else {}
    }
  }

  /** A host driving a fresh reference set: a stuck push jumps, a plain move does not. */
  method ReplayMotions()
  {
    var engine := new ScreenSet(Reference);
    StuckPushJumps(engine.lastMouse);
    var jumped, cursor := engine.CheckJumpCursor(Point(-1, 468), Point(1, 468));
    assert jumped && cursor == Point(1, 113);
    assert engine.lastMouse == Point(1, 468);
    ShouldNotJump(engine.lastMouse);
    jumped, cursor := engine.CheckJumpCursor(Point(-1000, 470), Point(-1000, 460));
    assert !jumped && cursor == Point(-1000, 470);
  }
}
