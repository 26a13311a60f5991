/** `useGlobalDragGestures`: drags that may start anywhere inside the
    drawer content. On top of the shared direction and release rules it
    keeps two latches that tell a tap from a drag: `active` once the pointer
    has gone more than 15px from the press, `hadGesture` once it has gone
    more than 40px. Distances are compared squared (225 and 1600). */
module GlobalDrag {
  import opened Common
  import opened DragToClose

  datatype GestureState = GestureState(
    isDragging: bool,
    startX: real, startY: real,
    currentX: real, currentY: real,
    active: bool,          // isDragGestureActive
    hadGesture: bool,      // hadDragGesture
    distSq: real,          // dragDistance, squared
    offset: real,
    hasStartElement: bool) // dragStartElement != null

  const Idle: GestureState := GestureState(false, 0.0, 0.0, 0.0, 0.0, false, false, 0.0, 0.0, false)

  const ActiveDistSq: real := 225.0    // 15px
  const GestureDistSq: real := 1600.0  // 40px

  /** A start is taken only while the drawer is visible, the hook enabled
      and the target inside the content element. */
  predicate CanStart(visible: bool, enabled: bool, inContent: bool)
  {
    visible && enabled && inContent
  }

  /** The press as the handlers record it: only the drag axis's start and
      current coordinate are written; the other axis keeps whatever an
      earlier gesture (or the initial 0) left there. */
  function StartedAsWritten(s: GestureState, p: Position, x: real, y: real): (t: GestureState)
  {
    var t := s.(isDragging := true, active := false, hadGesture := false, distSq := 0.0,
                hasStartElement := true);
    if IsHorizontal(p) then t.(startX := x, currentX := x) else t.(startY := y, currentY := y)
  }

  /** The press with both coordinates recorded, so that the distance is
      measured from where the pointer went down. */
  function Started(s: GestureState, x: real, y: real): (t: GestureState)
  {
    s.(isDragging := true, startX := x, startY := y, currentX := x, currentY := y,
       active := false, hadGesture := false, distSq := 0.0, hasStartElement := true)
  }

  function DistSqFromStart(s: GestureState, x: real, y: real): real
  {
    (x - s.startX) * (x - s.startX) + (y - s.startY) * (y - s.startY)
  }

  /** A move: ignored unless dragging and visible; updates the axis
      coordinate, the distance, both latches and the offset. */
  function Moved(s: GestureState, p: Position, count: int, index: int, x: real, y: real, visible: bool): (t: GestureState)
  {
    if !s.isDragging || !visible then s
    else
      var d := DistSqFromStart(s, x, y);
      var axisStart := Axis(p, s.startX, s.startY);
      var t := s.(distSq := d,
                  active := s.active || d > ActiveDistSq,
                  hadGesture := s.hadGesture || d > GestureDistSq,
                  offset := Offset(p, count, index, Axis(p, x, y) - axisStart));
      if IsHorizontal(p) then t.(currentX := x) else t.(currentY := y)
  }

  /** A release's new state, its decision, and whether it leaves a timer to
      clear `hadGesture` later. */
  datatype Release = Release(next: GestureState, decision: Decision, timer: bool)

  /** A release: ignored unless dragging; the decision is taken only for an
      active gesture past the threshold; `active`, the offset and the start
      element are cleared; `hadGesture` clears now when the last distance
      was at most 40px, otherwise when the timer fires. */
  function Released(s: GestureState, p: Position, threshold: real, count: int, index: int,
                    shouldAutoJump: bool): (r: Release)
  {
    if !s.isDragging then Release(s, Stay, false)
    else
      var delta := Axis(p, s.currentX, s.currentY) - Axis(p, s.startX, s.startY);
      var d := if s.active && Abs(delta) > threshold
               then ReleaseDecision(p, delta, threshold, index, count, shouldAutoJump) else Stay;
      var far := s.distSq > GestureDistSq;
      Release(s.(isDragging := false, offset := 0.0, hasStartElement := false, active := false,
                 hadGesture := if far then s.hadGesture else false, distSq := 0.0),
              d, far)
  }

  /** The visibility effect on hide. */
  function Hidden(s: GestureState): (t: GestureState)
  {
    s.(offset := 0.0, isDragging := false, active := false, hadGesture := false, hasStartElement := false)
  }

  /** `handleGlobalInteraction`: a click is swallowed while either latch or
      the drag itself is on. */
  predicate SuppressesClick(s: GestureState)
  {
    s.active || s.hadGesture || s.isDragging
  }

  /** During a drag each latch is on once the last measured distance is past
      its bound. */
  predicate Latched(s: GestureState)
  {
    s.isDragging ==> (s.distSq > ActiveDistSq ==> s.active) && (s.distSq > GestureDistSq ==> s.hadGesture)
  }

  // ----- Properties -----

  /** Every transition keeps the latches in step with the distance. */
  lemma TransitionsKeepLatched(s: GestureState, p: Position, count: int, index: int, x: real, y: real,
                               visible: bool, threshold: real, autoJump: bool)
    requires Latched(s)
    ensures Latched(Started(s, x, y)) && Latched(StartedAsWritten(s, p, x, y))
    ensures Latched(Moved(s, p, count, index, x, y, visible))
    ensures Latched(Released(s, p, threshold, count, index, autoJump).next)
    ensures Latched(Hidden(s))
  {
  }

  /** The latches never drop during a drag: once on, moves keep them on. */
  lemma LatchesAreSticky(s: GestureState, p: Position, count: int, index: int, x: real, y: real, visible: bool)
    ensures s.active ==> Moved(s, p, count, index, x, y, visible).active
    ensures s.hadGesture ==> Moved(s, p, count, index, x, y, visible).hadGesture
    ensures s.isDragging && visible ==>
      (Moved(s, p, count, index, x, y, visible).active <==> s.active || DistSqFromStart(s, x, y) > ActiveDistSq) &&
      (Moved(s, p, count, index, x, y, visible).hadGesture <==> s.hadGesture || DistSqFromStart(s, x, y) > GestureDistSq)
  {
  }

  /** With the press recorded in full, a pointer that stays within 15px of
      it latches nothing, so a tap is never taken for a drag. */
  lemma TapLatchesNothing(s: GestureState, p: Position, count: int, index: int,
                          x: real, y: real, x2: real, y2: real)
    requires (x2 - x) * (x2 - x) + (y2 - y) * (y2 - y) <= ActiveDistSq
    ensures var t := Moved(Started(s, x, y), p, count, index, x2, y2, true);
      !t.active && !t.hadGesture
  {
  }

  /** A release changes the drawer only for an active gesture past the
      threshold, and then follows the shared release table; so a release
      that never became active (a tap) never closes the drawer. */
  lemma ReleaseIsGated(s: GestureState, p: Position, threshold: real, count: int, index: int, autoJump: bool)
    ensures var r := Released(s, p, threshold, count, index, autoJump);
      var delta := Axis(p, s.currentX, s.currentY) - Axis(p, s.startX, s.startY);
      (r.decision != Stay ==> s.isDragging && s.active && Abs(delta) > threshold) &&
      (s.isDragging && s.active ==> r.decision == ReleaseDecision(p, delta, threshold, index, count, autoJump)) &&
      (!s.active ==> r.decision == Stay)
  {
  }

  /** After a release nothing is dragging or active and the offset is 0;
      `hadGesture` is still on exactly when the last distance exceeded 40px,
      and then a timer is left to clear it. */
  lemma ReleaseResets(s: GestureState, p: Position, threshold: real, count: int, index: int, autoJump: bool)
    requires Latched(s) && s.isDragging
    ensures var r := Released(s, p, threshold, count, index, autoJump);
      !r.next.isDragging && !r.next.active && r.next.offset == 0.0 && !r.next.hasStartElement &&
      (r.next.hadGesture <==> s.distSq > GestureDistSq) &&
      (r.timer <==> s.distSq > GestureDistSq) &&
      (SuppressesClick(r.next) <==> s.distSq > GestureDistSq)
  {
  }

  /** Hiding clears the offset, the drag, both latches and the start
      element, and lets clicks through. */
  lemma HiddenResets(s: GestureState)
    ensures var t := Hidden(s);
      t.offset == 0.0 && !t.isDragging && !t.active && !t.hadGesture && !t.hasStartElement &&
      !SuppressesClick(t)
  {
  }

  /** With the press recorded on the drag axis only, a one-pixel wobble of a
      press far from x = 0 on a bottom drawer latches both flags (the
      distance is taken from the stale x = 0), and the click that follows
      the release is swallowed. With the full press recorded the same
      wobble latches nothing and the click goes through. */
  lemma StaleStartSwallowsTap(s: GestureState, count: int, index: int, threshold: real, autoJump: bool)
    requires s.startX == 0.0 && !s.isDragging
    ensures var t := Moved(StartedAsWritten(s, Bottom, 300.0, 500.0), Bottom, count, index, 300.0, 501.0, true);
      t.active && t.hadGesture && SuppressesClick(Released(t, Bottom, threshold, count, index, autoJump).next)
    ensures var t := Moved(Started(s, 300.0, 500.0), Bottom, count, index, 300.0, 501.0, true);
      !t.active && !t.hadGesture && !SuppressesClick(Released(t, Bottom, threshold, count, index, autoJump).next)
  {
    var a := StartedAsWritten(s, Bottom, 300.0, 500.0);
    assert a.startX == 0.0 && a.startY == 500.0;
    assert DistSqFromStart(a, 300.0, 501.0) == 90001.0;
    var b := Started(s, 300.0, 500.0);
    assert DistSqFromStart(b, 300.0, 501.0) == 1.0;
  }

  // ----- isInteractiveElement -----

  datatype Element = Element(tag: string, role: Option<string>, hasOnClick: bool, tabIndex: int,
                             attributes: set<string>, classes: set<string>)

  const InteractiveTags: seq<string> := ["BUTTON", "INPUT", "SELECT", "TEXTAREA", "A", "DIV"]
  const InteractiveRoles: seq<string> := ["button", "link", "textbox", "combobox", "listbox"]

  predicate HasMarker(e: Element)
  {
    "data-magic-drawer-trigger" in e.attributes || "data-interactive" in e.attributes
      || "interactive" in e.classes
  }

  /** `isInteractiveElement(e)`: checked in order tag, role, handler or
      focusability, marker. */
  function IsInteractive(e: Element): (b: bool)
  {
    if e.tag in InteractiveTags then true
    else if e.role.Some? && e.role.value != "" && e.role.value in InteractiveRoles then true
    else if e.hasOnClick || e.tabIndex >= 0 then true
    else HasMarker(e)
  }

  /** The element is interactive exactly when one of the four tests holds. */
  lemma InteractiveIff(e: Element)
    ensures IsInteractive(e) <==>
      e.tag in InteractiveTags || (e.role.Some? && e.role.value in InteractiveRoles) ||
      e.hasOnClick || e.tabIndex >= 0 || HasMarker(e)
  {
    if e.role.Some? && e.role.value in InteractiveRoles {
      assert e.role.value != "";
    }
  }

  /** Because `DIV` is in the tag list, every `div` counts as interactive. */
  lemma EveryDivIsInteractive(e: Element)
    requires e.tag == "DIV"
    ensures IsInteractive(e)
  {
    assert InteractiveTags[5] == "DIV";
  }

  /** The state of the hook for one drawer content. A press records only
      the drag axis's start, as the handlers do, so the off-axis start keeps
      what an earlier gesture left. `hadGestureTimers` counts the 50ms
      timers that will clear `hadGesture`. */
  class GlobalDragHook {
    const position: Position
    const threshold: real
    const enabled: bool
    var isVisible: bool
    var isDragging: bool
    var startX: real
    var startY: real
    var currentX: real
    var currentY: real
    var active: bool
    var hadGesture: bool
    var distSq: real
    var offset: real
    var hasStartElement: bool
    var hadGestureTimers: nat

    function Current(): GestureState
      reads this
    {
      GestureState(isDragging, startX, startY, currentX, currentY, active, hadGesture, distSq, offset,
                   hasStartElement)
    }

    constructor (position: Position, threshold: real, enabled: bool, isVisible: bool)
      ensures this.position == position && this.threshold == threshold && this.enabled == enabled
      ensures this.isVisible == isVisible
      ensures Current() == Idle && hadGestureTimers == 0
    {
      this.position := position;
      this.threshold := threshold;
      this.enabled := enabled;
      this.isVisible := isVisible;
      isDragging := false;
      startX := 0.0;
      startY := 0.0;
      currentX := 0.0;
      currentY := 0.0;
      active := false;
      hadGesture := false;
      distSq := 0.0;
      offset := 0.0;
      hasStartElement := false;
      hadGestureTimers := 0;
    }

    method SetFields(g: GestureState)
      modifies this
      ensures Current() == g
      ensures isVisible == old(isVisible) && hadGestureTimers == old(hadGestureTimers)
    {
      isDragging := g.isDragging;
      startX := g.startX;
      startY := g.startY;
      currentX := g.currentX;
      currentY := g.currentY;
      active := g.active;
      hadGesture := g.hadGesture;
      distSq := g.distSq;
      offset := g.offset;
      hasStartElement := g.hasStartElement;
    }

    /** The visibility prop changes; hiding resets the gesture. */
    method VisibilityChanged(visible: bool)
      modifies this
      ensures isVisible == visible && hadGestureTimers == old(hadGestureTimers)
      ensures Current() == if visible then old(Current()) else Hidden(old(Current()))
    {
      if !visible {
        SetFields(Hidden(Current()));
      }
      isVisible := visible;
    }

    /** `handleTouchStart` / `handleMouseDown`. */
    method Start(x: real, y: real, inContent: bool)
      modifies this
      ensures isVisible == old(isVisible) && hadGestureTimers == old(hadGestureTimers)
      ensures Current() == if CanStart(isVisible, enabled, inContent)
                           then StartedAsWritten(old(Current()), position, x, y)
                           else old(Current())
    {
      if !isVisible || !enabled || !inContent {
        return;
      }
      SetFields(StartedAsWritten(Current(), position, x, y));
    }

    /** `handleTouchMove` / `handleMouseMove`. */
    method Move(x: real, y: real, count: int, index: int)
      modifies this
      ensures isVisible == old(isVisible) && hadGestureTimers == old(hadGestureTimers)
      ensures Current() == Moved(old(Current()), position, count, index, x, y, isVisible)
    {
      if !isDragging || !isVisible {
        return;
      }
      var d := DistSqFromStart(Current(), x, y);
      distSq := d;
      if d > ActiveDistSq && !active {
        active := true;
      }
      if d > GestureDistSq && !hadGesture {
        hadGesture := true;
      }
      offset := Offset(position, count, index, Axis(position, x, y) - Axis(position, startX, startY));
      if IsHorizontal(position) {
        currentX := x;
      } else {
        currentY := y;
      }
    }

    /** `handleTouchEnd` / `handleMouseUp`. */
    method End(count: int, index: int, shouldAutoJump: bool) returns (d: Decision)
      modifies this
      ensures isVisible == old(isVisible)
      ensures var r := Released(old(Current()), position, threshold, count, index, shouldAutoJump);
        Current() == r.next && d == r.decision &&
        hadGestureTimers == old(hadGestureTimers) + (if r.timer then 1 else 0)
    {
      var r := Released(Current(), position, threshold, count, index, shouldAutoJump);
      SetFields(r.next);
      d := r.decision;
      if r.timer {
        hadGestureTimers := hadGestureTimers + 1;
      }
    }

    /** A 50ms timer clears `hadGesture`, whatever gesture is under way. */
    method HadGestureTimerFires()
      requires hadGestureTimers > 0
      modifies this
      ensures Current() == old(Current()).(hadGesture := false)
      ensures isVisible == old(isVisible) && hadGestureTimers == old(hadGestureTimers) - 1
    {
      hadGesture := false;
      hadGestureTimers := hadGestureTimers - 1;
    }

    /** `handleGlobalInteraction` on a click: whether it is swallowed. */
    method ClickIsSuppressed() returns (b: bool)
      ensures b == SuppressesClick(Current())
    {
      b := active || hadGesture || isDragging;
    }
  }
}
