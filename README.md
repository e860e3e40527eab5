# MouseUnSnag geometric core, in Dafny

MouseUnSnag stops the Windows cursor from catching on the edges between
monitors of different sizes and DPIs. On each mouse move the host reads two
points: the OS cursor (always on a screen) and the raw mouse point (which may
lie beyond every screen). When the cursor is "stuck" on a screen edge and
another screen abuts that edge in the direction of the push, MouseUnSnag moves
the cursor onto the neighbour. It keeps the cursor's physical height, measured
in inches from the middle row of each screen, so the two screens' DPIs are
taken into account. With horizontal wrapping enabled it can also wrap the
cursor to the far side of the desktop.

This project models the purely geometric part of that decision:

- `Drawing`: the `System.Drawing` values the code computes with.
  - `Point`, and `Rect` with exclusive `Right` and `Bottom`.
  - `Math.Sign`, `Math.Min` and `Math.Max`.
- `PointExtensions`: `Sign`, and the direction vector between two points.
  - Squared Euclidean distance stands in for `DistanceTo`.
- `RectangleExtensions`:
  - The signed outside distances of a point from a rectangle.
  - The nearest pixel of a rectangle to a point.
  - The side(s) the point lies beyond.
- `ScreenExtensions`: a screen (index, bounds, DPI) and its middle row, computed with C#'s truncating integer division.
- `StaticStuff`: the older copies of the same helpers in `MouseUnSnag.cs`.
  - Each copy's contract ties it to the extension-method version.
  - This module also holds the 3-way `Max` and the per-axis containment tests.
- `ScreenSets`: the engine.
  - The queries are functions of the ordered screen list: `WhichScreen`, `ScreenInDirection`, the DPI remap, the wrap target, the adjusted point and the jump decision.
  - The class `ScreenSet` holds the configuration and the previous raw mouse point. Its methods are proved against those functions:
    - `WrapPoint`, a linear search with a loop invariant.
    - `GetAdjustedPoint`.
    - `CheckJumpCursor`, which rewrites the previous mouse point on every call.
- `ScreenSetVectors`: the four-monitor reference arrangement and concrete jumps on it.
  - The arrangement: a 1920x1080 screen at 91 DPI, a 3840x2160 screen at 163 DPI, and two 1680x1050 screens at 90 DPI.
  - The jumps are proved from the general functions, not computed.

A screen is named by its position in the screen list. "No screen" (null in
C#) is `None`, and two screens are the same exactly when their positions are
equal. Wherever the C# would dereference null, the model has a precondition
instead:
- For GetAdjustedPoint, the cursor is on a screen, or the set is empty and
  wrapping is off. In that second case every lookup finds nothing and the
  cursor stays (`EmptySetKeepsCursor`).
- For CheckJumpCursor, the cursor is on a screen, or the mouse is on none.
- For the wrap search, its list is not empty.

Facts proved about the design:
- The jump decision does not depend on the previous mouse point
  (`JumpIgnoresPreviousMouse`). A jump happens exactly when cursor and mouse are
  on different screens and a screen lies in the mouse's direction.
  The doc comment on CheckJumpCursor (MouseUnSnag/ScreenSet.cs:75-81) says it
  returns true only when the cursor differs from the previous mouse point. The
  guard as written also jumps on a plain crossing where the two are equal, and
  the model follows the code, not that comment.
- A jump never reaches the wrap branch of GetAdjustedPoint (`JumpNeedsNoWrap`).
- A screen that abuts the cursor's screen on the side of the push, and that
  already holds the mouse point, is the one chosen (`NeighbourUnderMouseIsChosen`).
- The DPI remap keeps whole-inch offsets from the middle row exactly
  (`RemapWholeInches`), and between equal DPIs keeps pixel offsets
  (`RemapSameDpi`).

On the reference arrangement, cursor (1,1547) with mouse (-1,1547) lands on
row 1269, not on the left screen's top row 468 (`LargeToLeftAtRow1547`).
Row 1547 is also a row of the left screen, so the mouse is already on it and
the remap is not clamped. The unit tests ask the row-1547 question only the
other way round: (-1,1547) to (1,2045).

## Model

| member | source | states |
|---|---|---|
| Drawing.Sub | MouseUnSnag/Extensions/PointExtensions.cs:22 | `point2 - (Size)point1` is the vector that, added to point1, gives point2 |
| Drawing.IntSign | MouseUnSnag/Extensions/PointExtensions.cs:16 | Math.Sign: the result is -1, 0 or 1, and has the sign of its argument in both directions |
| Drawing.MathMin | MouseUnSnag/Extensions/RectangleExtensions.cs:15 | Math.Min is no larger than either argument and equals one of them |
| Drawing.MathMax | MouseUnSnag/Extensions/RectangleExtensions.cs:15 | Math.Max is no smaller than either argument and equals one of them |
| PointExtensions.Sign | MouseUnSnag/Extensions/PointExtensions.cs:16 | each component is -1, 0 or 1 and has the sign of that component of the point (iff, each sign) |
| PointExtensions.Direction | MouseUnSnag/Extensions/PointExtensions.cs:18-22 | each component is -1, 0 or 1; negative exactly when point2 is before point1 on that axis, positive exactly when after |
| PointExtensions.SignIdempotent | MouseUnSnag/Extensions/PointExtensions.cs:16 | the sign of a sign vector is itself |
| PointExtensions.SignZeroIffOrigin | MouseUnSnag/Extensions/PointExtensions.cs:16 | the sign vector is (0,0) exactly for the origin |
| PointExtensions.SignNegate | MouseUnSnag/Extensions/PointExtensions.cs:16 | the sign of the negated point is the negated sign |
| PointExtensions.DirectionToSelf | MouseUnSnag/Extensions/PointExtensions.cs:22 | there is no direction from a point to itself |
| PointExtensions.DirectionAntisymmetric | MouseUnSnag/Extensions/PointExtensions.cs:22 | swapping the two points negates the direction |
| RectangleExtensions.OutsideXDistance | MouseUnSnag/Extensions/RectangleExtensions.cs:8-15 | zero exactly inside the column span; left of it, the (negative) distance to Left; right of it, the distance to the last column Right-1 |
| RectangleExtensions.OutsideYDistance | MouseUnSnag/Extensions/RectangleExtensions.cs:17 | the same for rows, with Top and Bottom-1 |
| RectangleExtensions.OutsideDistance | MouseUnSnag/Extensions/RectangleExtensions.cs:8-19 | (0,0) exactly when the point is inside the rectangle |
| RectangleExtensions.ClosestBoundaryPoint | MouseUnSnag/Extensions/RectangleExtensions.cs:21-31 | the result is a pixel of the rectangle; a point inside is returned unchanged |
| RectangleExtensions.OutsideDirection | MouseUnSnag/Extensions/RectangleExtensions.cs:33-38 | components are -1, 0 or 1; per axis, 0 iff within the span, -1 iff before it, +1 iff at or past the exclusive edge; (0,0) iff inside |
| RectangleExtensions.OutsideDistanceThenClosest | MouseUnSnag/Extensions/RectangleExtensions.cs:19-31 | the point minus its outside distance is its closest boundary point (the "opposite" the comment describes) |
| RectangleExtensions.ClosestBoundaryPointIdempotent | MouseUnSnag/Extensions/RectangleExtensions.cs:29-31 | capturing a captured point changes nothing |
| RectangleExtensions.ClosestBoundaryPointOnBorder | MouseUnSnag/Extensions/RectangleExtensions.cs:25-31 | for a point outside, the result lies on the rectangle's border |
| RectangleExtensions.ClosestBoundaryPointIsNearest | MouseUnSnag/Extensions/RectangleExtensions.cs:25-31 | no pixel of the rectangle is nearer to the point than the closest boundary point |
| RectangleExtensions.ClosestDistanceZeroIffInside | MouseUnSnag/Extensions/RectangleExtensions.cs:25-31 | the distance to the closest boundary point is zero exactly for points inside |
| ScreenExtensions.TruncatingDiv | MouseUnSnag/Extensions/ScreenExtensions.cs:22 | C# integer division: the remainder has the sign of the dividend and is smaller than the divisor |
| ScreenExtensions.GetScreenMidpointY | MouseUnSnag/Extensions/ScreenExtensions.cs:22 | twice the result is Top+Bottom, or Top+Bottom moved one toward zero (truncation) |
| ScreenExtensions.MidpointWithinScreen | MouseUnSnag/Extensions/ScreenExtensions.cs:22 | for a screen two or more rows high the middle row is one of its rows |
| ScreenExtensions.MidpointDependsOnlyOnRows | MouseUnSnag/Extensions/ScreenExtensions.cs:22 | screens with equal Top and Bottom have the same middle row |
| ScreenExtensions.MidpointExamples | MouseUnSnag.Tests/Extensions/ScreenExtensionsTests.cs:13-27 | the three (top, bottom) cases give 1008, 1012 and 1080 |
| ScreenExtensions.MidpointTruncatesTowardZero | MouseUnSnag/Extensions/ScreenExtensions.cs:22 | an odd negative sum rounds toward zero (-3/2 is -1) |
| StaticStuff.Sign | MouseUnSnag/MouseUnSnag.cs:37-40 | equals PointExtensions.Sign |
| StaticStuff.Max | MouseUnSnag/MouseUnSnag.cs:42-43 | no smaller than any of the three arguments and equal to one of them |
| StaticStuff.Direction | MouseUnSnag/MouseUnSnag.cs:45-47 | components -1, 0 or 1, and equal to PointExtensions.Direction |
| StaticStuff.OutsideXDistance | MouseUnSnag/MouseUnSnag.cs:54-55 | equals RectangleExtensions.OutsideXDistance |
| StaticStuff.OutsideYDistance | MouseUnSnag/MouseUnSnag.cs:57-58 | equals RectangleExtensions.OutsideYDistance |
| StaticStuff.OutsideDistance | MouseUnSnag/MouseUnSnag.cs:60-61 | equals RectangleExtensions.OutsideDistance |
| StaticStuff.ClosestBoundaryPoint | MouseUnSnag/MouseUnSnag.cs:69-72 | equals RectangleExtensions.ClosestBoundaryPoint, and lies within both spans of a rectangle with pixels |
| StaticStuff.OutsideDirection | MouseUnSnag/MouseUnSnag.cs:77 | equals RectangleExtensions.OutsideDirection; (0,0) iff within both spans |
| StaticStuff.ContainsY | MouseUnSnag/MouseUnSnag.cs:79-80 | for a rectangle with rows, holds exactly when the vertical outside distance is zero |
| StaticStuff.ContainsX | MouseUnSnag/MouseUnSnag.cs:82 | for a rectangle with columns, holds exactly when the horizontal outside distance is zero |
| StaticStuff.ContainsBothAxes | MouseUnSnag/MouseUnSnag.cs:80-82 | ContainsX and ContainsY together are exactly Rectangle.Contains |
| ScreenSets.WhichScreen | MouseUnSnag/ScreenSet.cs:38-41 | Some(i): screen i contains the point and no earlier screen does; None exactly when no screen contains it |
| ScreenSets.WhichScreenIsFirstContaining | MouseUnSnag/ScreenSet.cs:41 | the first containing screen is the one returned |
| ScreenSets.NearestCandidate | MouseUnSnag/ScreenSet.cs:155-165 | among the first n screens, the candidate first in a stable sort by distance; None iff there is no candidate |
| ScreenSets.ScreenInDirection | MouseUnSnag/ScreenSet.cs:152-165 | the nearest other screen abutting the cursor screen on the side of the push, the earliest on a tie; None iff none abuts; never the cursor screen; None when the mouse is still inside; the abutting edge per direction, X before Y |
| ScreenSets.NearestCandidateUnique | MouseUnSnag/ScreenSet.cs:164-165 | the ordering picks at most one screen |
| ScreenSets.SoleCandidateChosen | MouseUnSnag/ScreenSet.cs:155-165 | a lone abutting screen is chosen |
| ScreenSets.NeighbourUnderMouseIsChosen | MouseUnSnag/ScreenSet.cs:155-165 | in an arrangement without overlaps, an abutting screen that holds the mouse is the one chosen |
| ScreenSets.RoundHalfEven | MouseUnSnag/ScreenSet.cs:145 | Math.Round: within half a unit of the exact quotient, and even on a tie |
| ScreenSets.RoundHalfEvenUnique | MouseUnSnag/ScreenSet.cs:145 | those two properties determine the rounded value |
| ScreenSets.ComputeAdjustment | MouseUnSnag/ScreenSet.cs:139-149 | X is the mouse's; Y is the nearest row to the one at the cursor's inch offset from the middle row |
| ScreenSets.RemapWholeInches | MouseUnSnag/ScreenSet.cs:144-148 | k inches off the cursor screen's middle lands exactly k inches off the target's middle |
| ScreenSets.RemapSameDpi | MouseUnSnag/ScreenSet.cs:144-148 | between equal DPIs the pixel offset from the middle row is kept |
| ScreenSets.ClosestInY | MouseUnSnag/ScreenSet.cs:53-65 | a list position whose row gap to the cursor is no larger than any other's, and strictly smaller than every earlier one's |
| ScreenSets.ClosestInYExtend | MouseUnSnag/ScreenSet.cs:57-65 | one more screen takes over only with a strictly smaller gap |
| ScreenSets.WrapTarget | MouseUnSnag/ScreenSet.cs:49-72 | with no horizontal component the cursor itself |
| ScreenSets.WrapTargetLands | MouseUnSnag/ScreenSet.cs:66 | on the chosen edge screen: its Left column moving right, its last column moving left, the cursor's row clamped into it |
| ScreenSets.AdjustedPoint | MouseUnSnag/ScreenSet.cs:116-137 | an empty set leaves the cursor; a mouse on a screen keeps its X; a jump screen receives the point inside it; with no jump screen and no horizontal wrap the cursor stays |
| ScreenSets.EmptySetKeepsCursor | MouseUnSnag/ScreenSet.cs:116-137 | with no screens and wrapping off, GetAdjustedPoint is defined and returns the cursor |
| ScreenSets.JumpsIffNeighbourInDirection | MouseUnSnag/ScreenSet.cs:92-103 | jump iff the cursor is on a screen, the mouse is not on that screen, and a screen lies in the mouse's direction |
| ScreenSets.JumpIgnoresPreviousMouse | MouseUnSnag/ScreenSet.cs:93-99 | the decision is the same for every previous mouse point |
| ScreenSets.NoJumpOnSameScreen | MouseUnSnag/ScreenSet.cs:99-103 | cursor and mouse over the same screen (or both over none): no jump |
| ScreenSets.JumpNeedsNoWrap | MouseUnSnag/ScreenSet.cs:99-104 | after a jump decision GetAdjustedPoint is defined and does not depend on the edge lists or the wrap flag |
| ScreenSets.ScreenSet.constructor | MouseUnSnag/ScreenSet.cs:23-30 | the screens are kept in order; the edge lists are empty, wrapping is off, the previous mouse is (0,0) |
| ScreenSets.ScreenSet.WrapPoint | MouseUnSnag/ScreenSet.cs:49-72 | the search loop returns WrapTarget |
| ScreenSets.ScreenSet.GetAdjustedPoint | MouseUnSnag/ScreenSet.cs:116-137 | returns AdjustedPoint for the current configuration |
| ScreenSets.ScreenSet.CheckJumpCursor | MouseUnSnag/ScreenSet.cs:89-114 | the previous mouse becomes the mouse; jumped is the guard's outcome; on a jump the new cursor is the adjusted point, otherwise the cursor |
| ScreenSetVectors.ReferenceWellFormed | MouseUnSnag.Tests/ScreenSetTests.cs:17-33 | the four test monitors have pixels and do not overlap |
| ScreenSetVectors.ReferenceMidpoints | MouseUnSnag.Tests/ScreenSetTests.cs:19-22 | middle rows 1008 (left screen) and 1080 (large screen) |
| ScreenSetVectors.LeftColumn | MouseUnSnag.Tests/ScreenSetTests.cs:103-108 | column -1 is on the left screen exactly for its rows 468..1547 |
| ScreenSetVectors.LargeScreenColumn | MouseUnSnag.Tests/ScreenSetTests.cs:163-168 | column 1 is on the large screen for rows 0..2159 |
| ScreenSetVectors.RightNeighbourOfLeftScreen | MouseUnSnag/ScreenSet.cs:155-165 | pushing right off the left screen finds the large screen |
| ScreenSetVectors.LeftNeighbourOfLargeScreen | MouseUnSnag/ScreenSet.cs:155-165 | pushing left off the large screen finds the left screen |
| ScreenSetVectors.LeftToLarge | MouseUnSnag.Tests/ScreenSetTests.cs:103-114 | left to large lands on the rounded row (y-1008)*163/91+1080 |
| ScreenSetVectors.LargeToLeftOnScreen | MouseUnSnag.Tests/ScreenSetTests.cs:163-174 | large to left, mouse on the left screen: the rounded row (y-1080)*91/163+1008 |
| ScreenSetVectors.LargeToLeftOffScreen | MouseUnSnag.Tests/ScreenSetTests.cs:163-174 | large to left, mouse on no screen: that row clamped into 468..1547 |
| ScreenSetVectors.AdjustsFromLeftScreen | MouseUnSnag.Tests/ScreenSetTests.cs:65-102 | rows 468, 1008, 1547 land on 113, 1080, 2045 |
| ScreenSetVectors.AdjustsFromLargeScreen | MouseUnSnag.Tests/ScreenSetTests.cs:117-162 | rows 0, 113, 1084, 2045, 2159 land on 468, 468, 1010, 1547, 1547 |
| ScreenSetVectors.LargeToLeftAtRow1547 | MouseUnSnag/ScreenSet.cs:120-125 | (1,1547) with mouse (-1,1547) lands on row 1269 |
| ScreenSetVectors.ShouldNotJump | MouseUnSnag.Tests/ScreenSetTests.cs:176-192 | the three off-the-outer-edge motions do not jump, whatever the previous mouse |
| ScreenSetVectors.NoNeighbour | MouseUnSnag.Tests/ScreenSetTests.cs:176-179 | leaving the left screen beyond its outer edges finds no neighbour |
| ScreenSetVectors.StuckPushJumps | MouseUnSnag/ScreenSet.cs:89-104 | (-1,468) pushed to (1,468) jumps to (1,113), whatever the previous mouse |

## Left out

- The parameterless ScreenSet constructor, which reads the OS screen list. It is I/O: the host supplies the screens to the other constructor.
- Screen.cs (the Windows.Forms-backed screen) and GetDpi (Win32 calls). A screen here is just index, bounds and DPI.
- SetCursorPos, MouseEvents.cs, Program.cs and the Windows/ bindings: hooks, cursor movement and process setup are I/O.
- BoundingBox and ToString: diagnostics only.
- The jump counter `_nJumps` and the Debug.WriteLine in CheckJumpCursor: logging only.
- The filling of LeftMost, RightMost, TopMost and BottomMost. The constructor leaves them empty and no modelled code adds to them. They are fields the wrap search reads; TopMost and BottomMost are never read.
- PointExtensions.DistanceSquared: DistanceTo's square root is replaced by the squared distance. Both order screens alike, but ties and near-ties of the floating-point square root are not modelled.
- ScreenSets.ComputeAdjustment: uses the exact rational offset and round-half-to-even. The source rounds a double, which can differ at the last bit of near-tie values.
- ScreenSets.RoundHalfEven: the (int) cast of a double outside the 32-bit range is not modelled.
- 32-bit wrap-around: all arithmetic is on unbounded integers. Coordinates and sums such as Left+Width are taken to stay inside the int range. Math.Abs(int.MinValue) is not modelled.
- ScreenSets.ScreenSet.WrapPoint: requires the searched list to be non-empty and every row gap to be below int.MaxValue. The source needs less. It dereferences null only when the list is empty or when every gap reaches int.MaxValue, because its `<` test then never picks a screen. The model's bound is stronger than that.
- ScreenSets.ScreenSet.GetAdjustedPoint: requires the cursor to be on a screen, or the set to be empty with wrapping off. With wrapping taken it also requires the wrap list to meet WrapPoint's bound. The source dereferences null in every other case.
- ScreenSets.ScreenSet.CheckJumpCursor: requires the cursor to be on a screen, or the mouse to be on none. The source dereferences null otherwise.
- ScreenSets.ScreenInDirection: takes the position of the cursor's screen in the list. It does not take an arbitrary screen object, and screen identity is list position, not reference identity.
- Dpi: only positive DPI values are modelled; the source takes a uint, and zero would divide by zero.
