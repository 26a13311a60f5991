/** `useDragToClose`: the direction rules, the visual offset and the release
    decision shared by the drawer's drag hooks, and the hook's own drag
    state. The touch and mouse handlers of the hook are line for line the
    same; each pair is one method here. */
module DragToClose {

  datatype Position = Top | Bottom | Left | Right

  predicate IsHorizontal(p: Position)
  {
    p == Left || p == Right
  }

  /** `isDragExpanding(delta)`: down for a top drawer, right for a left one,
      left for a right one, up for a bottom one. */
  predicate IsExpanding(p: Position, delta: real)
  {
    match p
    case Top => delta > 0.0
    case Left => delta > 0.0
    case Right => delta < 0.0
    case Bottom => delta < 0.0
  }

  /** `isDragCollapsing(delta)`: the opposite directions. */
  predicate IsCollapsing(p: Position, delta: real)
  {
    match p
    case Top => delta < 0.0
    case Left => delta < 0.0
    case Right => delta > 0.0
    case Bottom => delta > 0.0
  }

  function Abs(x: real): real { if x < 0.0 then -x else x }

  /** The coordinate a drawer at `p` is dragged along. */
  function Axis(p: Position, x: real, y: real): real
  {
    if IsHorizontal(p) then x else y
  }

  /** `calculateOffset`: negative while expanding towards an existing larger
      breakpoint, positive while collapsing, 0 otherwise. `count` is the
      number of breakpoints, `index` the current one. */
  function Offset(p: Position, count: int, index: int, delta: real): (o: real)
  {
    if count > 1 then
      if IsExpanding(p, delta) then (if index < count - 1 then -Abs(delta) else 0.0)
      else if IsCollapsing(p, delta) then Abs(delta)
      else 0.0
    else if IsCollapsing(p, delta) then Abs(delta)
    else 0.0
  }

  const DefaultThreshold: real := 100.0

  /** What a release asks of the drawer. */
  datatype Decision = Stay | GoTo(index: int) | Dismiss

  /** The release table: past the threshold, expanding moves up one
      breakpoint if there is one; collapsing closes from the first
      breakpoint, and from the last one when auto-jump holds, and otherwise
      moves down one. */
  function ReleaseDecision(p: Position, delta: real, threshold: real, index: int, count: int,
                           shouldAutoJump: bool): (d: Decision)
  {
    if Abs(delta) > threshold then
      if IsExpanding(p, delta) then (if index + 1 < count then GoTo(index + 1) else Stay)
      else if IsCollapsing(p, delta) then
        (if index > 0 then (if shouldAutoJump && index == count - 1 then Dismiss else GoTo(index - 1))
         else Dismiss)
      else Stay
    else Stay
  }

  // ----- Properties of the rules -----

  /** Every non-zero delta is exactly one of expanding and collapsing; zero
      is neither. */
  lemma DirectionsExclusive(p: Position, delta: real)
    ensures !(IsExpanding(p, delta) && IsCollapsing(p, delta))
    ensures delta == 0.0 ==> !IsExpanding(p, delta) && !IsCollapsing(p, delta)
    ensures delta != 0.0 ==> IsExpanding(p, delta) || IsCollapsing(p, delta)
  {
  }

  /** Opposite deltas swap the two directions. */
  lemma DirectionsMirror(p: Position, delta: real)
    ensures IsExpanding(p, delta) <==> IsCollapsing(p, -delta)
  {
  }

  /** The offset is `-|delta|` exactly when expanding with a larger
      breakpoint available, `|delta|` exactly when collapsing, and 0
      otherwise; with one breakpoint it is never negative. */
  lemma OffsetRule(p: Position, count: int, index: int, delta: real)
    ensures Offset(p, count, index, delta) < 0.0 <==>
      count > 1 && IsExpanding(p, delta) && index < count - 1
    ensures Offset(p, count, index, delta) > 0.0 <==> IsCollapsing(p, delta)
    ensures Offset(p, count, index, delta) < 0.0 ==> Offset(p, count, index, delta) == -Abs(delta)
    ensures Offset(p, count, index, delta) > 0.0 ==> Offset(p, count, index, delta) == Abs(delta)
    ensures count <= 1 ==> Offset(p, count, index, delta) >= 0.0
  {
    DirectionsExclusive(p, delta);
  }

  /** A release within the threshold asks for nothing. */
  lemma ShortReleaseStays(p: Position, delta: real, threshold: real, index: int, count: int, autoJump: bool)
    requires Abs(delta) <= threshold
    ensures ReleaseDecision(p, delta, threshold, index, count, autoJump) == Stay
  {
  }

  /** An expanding release never closes, and asks only for the next
      breakpoint when it exists. */
  lemma ExpandingReleaseRule(p: Position, delta: real, threshold: real, index: int, count: int, autoJump: bool)
    requires IsExpanding(p, delta)
    ensures ReleaseDecision(p, delta, threshold, index, count, autoJump) != Dismiss
    ensures ReleaseDecision(p, delta, threshold, index, count, autoJump) != Stay <==>
      Abs(delta) > threshold && index + 1 < count
    ensures ReleaseDecision(p, delta, threshold, index, count, autoJump).GoTo? ==>
      ReleaseDecision(p, delta, threshold, index, count, autoJump).index == index + 1
  {
    DirectionsExclusive(p, delta);
  }

  /** A collapsing release past the threshold closes at the first
      breakpoint, and at the last one under auto-jump; otherwise it goes
      one breakpoint down. */
  lemma CollapsingReleaseRule(p: Position, delta: real, threshold: real, index: int, count: int, autoJump: bool)
    requires IsCollapsing(p, delta) && Abs(delta) > threshold
    ensures ReleaseDecision(p, delta, threshold, index, count, autoJump) ==
      if index <= 0 || (autoJump && index == count - 1) then Dismiss else GoTo(index - 1)
  {
    DirectionsExclusive(p, delta);
  }

  /** From a breakpoint in range, a requested breakpoint is in range too. */
  lemma ReleaseTargetInRange(p: Position, delta: real, threshold: real, index: int, count: int, autoJump: bool)
    requires 0 <= index < count
    ensures var d := ReleaseDecision(p, delta, threshold, index, count, autoJump);
      d.GoTo? ==> 0 <= d.index < count && d.index != index
  {
  }

  datatype DragState = DragState(isDragging: bool, startX: real, startY: real,
                                 currentX: real, currentY: real, offset: real)

  /** The hook's state for one drawer content. */
  class DragToCloseHook {
    const position: Position
    const threshold: real
    var isVisible: bool
    var isDragging: bool
    var startX: real
    var startY: real
    var currentX: real
    var currentY: real
    var offset: real

    function Current(): DragState
      reads this
    {
      DragState(isDragging, startX, startY, currentX, currentY, offset)
    }

    constructor (position: Position, threshold: real, isVisible: bool)
      ensures this.position == position && this.threshold == threshold && this.isVisible == isVisible
      ensures Current() == DragState(false, 0.0, 0.0, 0.0, 0.0, 0.0)
    {
      this.position := position;
      this.threshold := threshold;
      this.isVisible := isVisible;
      isDragging := false;
      startX := 0.0;
      startY := 0.0;
      currentX := 0.0;
      currentY := 0.0;
      offset := 0.0;
    }

    /** The visibility prop changes; hiding resets the offset and the drag. */
    method VisibilityChanged(visible: bool)
      modifies this
      ensures isVisible == visible
      ensures visible ==> Current() == old(Current())
      ensures !visible ==> Current() == old(Current()).(isDragging := false, offset := 0.0)
    {
      isVisible := visible;
      if !visible {
        offset := 0.0;
        isDragging := false;
      }
    }

    /** `handleTouchStart` / `handleMouseDown`: ignored while hidden; records
      the press on the drag axis only. */
    method Start(x: real, y: real)
      modifies this
      ensures isVisible == old(isVisible)
      ensures !isVisible ==> Current() == old(Current())
      ensures isVisible && IsHorizontal(position) ==>
        Current() == old(Current()).(isDragging := true, startX := x, currentX := x)
      ensures isVisible && !IsHorizontal(position) ==>
        Current() == old(Current()).(isDragging := true, startY := y, currentY := y)
    {
      if !isVisible {
        return;
      }
      if IsHorizontal(position) {
        startX := x;
        currentX := x;
      } else {
        startY := y;
        currentY := y;
      }
      isDragging := true;
    }

    /** `handleTouchMove` / `handleMouseMove`. */
    method Move(x: real, y: real, count: int, index: int)
      modifies this
      ensures isVisible == old(isVisible)
      ensures !(isDragging && isVisible) ==> Current() == old(Current())
      ensures old(isDragging) && isVisible && IsHorizontal(position) ==>
        Current() == old(Current()).(currentX := x, offset := Offset(position, count, index, x - startX))
      ensures old(isDragging) && isVisible && !IsHorizontal(position) ==>
        Current() == old(Current()).(currentY := y, offset := Offset(position, count, index, y - startY))
    {
      if !isDragging || !isVisible {
        return;
      }
      if IsHorizontal(position) {
        currentX := x;
        offset := Offset(position, count, index, x - startX);
      } else {
        currentY := y;
        offset := Offset(position, count, index, y - startY);
      }
    }

    /** `handleTouchEnd` / `handleMouseUp`: the release decision from the
      axis delta; the drag ends and the offset returns to 0. */
    method End(count: int, index: int, shouldAutoJump: bool) returns (d: Decision)
      modifies this
      ensures isVisible == old(isVisible)
      ensures !old(isDragging) ==> Current() == old(Current()) && d == Stay
      ensures old(isDragging) ==>
        Current() == old(Current()).(isDragging := false, offset := 0.0) &&
        d == ReleaseDecision(position, Axis(position, currentX, currentY) - Axis(position, startX, startY),
                             threshold, index, count, shouldAutoJump)
    {
      if !isDragging {
        return Stay;
      }
      isDragging := false;
      var startCoord := if IsHorizontal(position) then startX else startY;
      var endCoord := if IsHorizontal(position) then currentX else currentY;
      d := ReleaseDecision(position, endCoord - startCoord, threshold, index, count, shouldAutoJump);
      offset := 0.0;
    }
  }
}
