/** `MagicDrawer`: the open flag, the current breakpoint index and the
    height, changed by the breakpoint setters, open/close/toggle, the
    trigger-attribute dispatch, the Escape key and the auto-jump effect.
    The `onOpen`, `onClose` and `onBreakpointChange` callbacks are returned
    as events, in the order the source calls them. */
module MagicDrawer {
  import opened Common
  import opened DragToClose

  datatype Event = OnOpen | OnClose | OnBreakpointChange(index: int, size: real)

  datatype DrawerState = DrawerState(height: real, isOpen: bool, index: int)

  /** A transition's new state and the callbacks it fires. */
  datatype Step = Step(next: DrawerState, events: seq<Event>)

  /** `sizeBreakpoints.length > 0 ? sizeBreakpoints : [height]`. */
  function Breakpoints(sizes: seq<real>, height: real): (b: seq<real>)
    ensures |b| >= 1
    ensures |sizes| > 0 ==> b == sizes
    ensures |sizes| == 0 ==> b == [height]
  {
    if |sizes| > 0 then sizes else [height]
  }

  /** `Math.max(0, Math.min(i, n - 1))`. */
  function ClampIndex(i: int, n: int): (c: int)
    requires n >= 1
    ensures 0 <= c < n
    ensures 0 <= i < n ==> c == i
    ensures i < 0 ==> c == 0
    ensures i >= n ==> c == n - 1
  {
    if i < 0 then 0 else if i > n - 1 then n - 1 else i
  }

  predicate InRange(bps: seq<real>, s: DrawerState)
  {
    0 <= s.index < |bps|
  }

  function Initial(bps: seq<real>, defaultOpen: bool): (s: DrawerState)
    requires |bps| >= 1
    ensures InRange(bps, s)
  {
    DrawerState(bps[0], defaultOpen, 0)
  }

  /** `setBreakpointIndex(i)`: store the clamped index and its height, and
      report both (even when nothing changed). */
  function WithIndex(bps: seq<real>, s: DrawerState, i: int): (st: Step)
    requires |bps| >= 1
  {
    var c := ClampIndex(i, |bps|);
    Step(s.(height := bps[c], index := c), [OnBreakpointChange(c, bps[c])])
  }

  /** `moveToNextBreakpoint()`. */
  function MoveNext(bps: seq<real>, s: DrawerState): (st: Step)
    requires |bps| >= 1
  {
    var next := if s.index + 1 < |bps| - 1 then s.index + 1 else |bps| - 1;
    if next != s.index then WithIndex(bps, s, next) else Step(s, [])
  }

  /** `moveToPreviousBreakpoint()`. */
  function MovePrevious(bps: seq<real>, s: DrawerState): (st: Step)
    requires |bps| >= 1
  {
    var prev := if s.index - 1 > 0 then s.index - 1 else 0;
    if prev != s.index then WithIndex(bps, s, prev) else Step(s, [])
  }

  /** `openDrawer()`: from closed, open at the last breakpoint when the
      space is short and at the first otherwise; on an open drawer, nothing. */
  function Open(bps: seq<real>, s: DrawerState, shouldAutoJump: bool): (st: Step)
    requires |bps| >= 1
  {
    if s.isOpen then Step(s, [])
    else
      var i := if shouldAutoJump then |bps| - 1 else 0;
      Step(DrawerState(bps[i], true, i),
           [OnOpen] + (if i != 0 then [OnBreakpointChange(i, bps[i])] else []))
  }

  /** `closeDrawer()`. */
  function Close(s: DrawerState): (st: Step)
  {
    if s.isOpen then Step(s.(isOpen := false), [OnClose]) else Step(s, [])
  }

  /** `toggleDrawer()`: flip the open flag only. */
  function Toggle(s: DrawerState): (st: Step)
  {
    Step(s.(isOpen := !s.isOpen), [if s.isOpen then OnClose else OnOpen])
  }

  datatype Action = OpenAction | CloseAction | ToggleAction

  /** `getAttribute('data-magic-drawer-action') || 'toggle'` and the switch
      over it: a missing or empty attribute, or any unknown value, toggles. */
  function ActionOf(attribute: Option<string>): (a: Action)
    ensures a == OpenAction <==> attribute == Some("open")
    ensures a == CloseAction <==> attribute == Some("close")
  {
    match attribute
    case None => ToggleAction
    case Some(v) => if v == "open" then OpenAction else if v == "close" then CloseAction else ToggleAction
  }

  function Dispatch(bps: seq<real>, s: DrawerState, a: Action, shouldAutoJump: bool): (st: Step)
    requires |bps| >= 1
  {
    match a
    case OpenAction => Open(bps, s, shouldAutoJump)
    case CloseAction => Close(s)
    case ToggleAction => Toggle(s)
  }

  /** The Escape handler. */
  function KeyDown(s: DrawerState, key: string): (st: Step)
  {
    if key == "Escape" && s.isOpen then Close(s) else Step(s, [])
  }

  /** The auto-jump effect: an open drawer with several breakpoints jumps to
      the last one when space is short. */
  function AutoJump(bps: seq<real>, s: DrawerState, shouldAutoJump: bool): (st: Step)
    requires |bps| >= 1
  {
    if s.isOpen && shouldAutoJump && |bps| > 1 && s.index != |bps| - 1
    then WithIndex(bps, s, |bps| - 1)
    else Step(s, [])
  }

  /** How the content wires a gesture's release to the drawer: a requested
      breakpoint goes to `setBreakpointIndex`, a close to `closeDrawer`. */
  function ApplyRelease(bps: seq<real>, s: DrawerState, d: Decision): (st: Step)
    requires |bps| >= 1
  {
    match d
    case Stay => Step(s, [])
    case GoTo(i) => WithIndex(bps, s, i)
    case Dismiss => Close(s)
  }

  // ----- Properties -----

  /** The stored index is the clamp of the request, the height its size,
      and nothing else changes. */
  lemma WithIndexClamps(bps: seq<real>, s: DrawerState, i: int)
    requires |bps| >= 1
    ensures var st := WithIndex(bps, s, i);
      InRange(bps, st.next) && st.next.height == bps[st.next.index] &&
      st.next.isOpen == s.isOpen &&
      (0 <= i < |bps| ==> st.next.index == i) &&
      (i < 0 ==> st.next.index == 0) && (i >= |bps| ==> st.next.index == |bps| - 1) &&
      st.events == [OnBreakpointChange(st.next.index, st.next.height)]
  {
  }

  /** Setting the same index twice is the same as once. */
  lemma WithIndexIdempotent(bps: seq<real>, s: DrawerState, i: int)
    requires |bps| >= 1
    ensures WithIndex(bps, WithIndex(bps, s, i).next, i).next == WithIndex(bps, s, i).next
  {
  }

  /** The moves keep the index in range, go one step, and do nothing at the
      ends. */
  lemma MovesStayInRange(bps: seq<real>, s: DrawerState)
    requires |bps| >= 1 && InRange(bps, s)
    ensures InRange(bps, MoveNext(bps, s).next) && InRange(bps, MovePrevious(bps, s).next)
    ensures s.index == |bps| - 1 ==> MoveNext(bps, s) == Step(s, [])
    ensures s.index < |bps| - 1 ==> MoveNext(bps, s).next.index == s.index + 1
    ensures s.index == 0 ==> MovePrevious(bps, s) == Step(s, [])
    ensures s.index > 0 ==> MovePrevious(bps, s).next.index == s.index - 1
  {
  }

  /** A move up and a move back down return to the same breakpoint. */
  lemma NextThenPrevious(bps: seq<real>, s: DrawerState)
    requires |bps| >= 1 && InRange(bps, s) && s.index < |bps| - 1
    ensures MovePrevious(bps, MoveNext(bps, s).next).next.index == s.index
    ensures MovePrevious(bps, MoveNext(bps, s).next).next.height == bps[s.index]
  {
  }

  /** Opening a closed drawer picks the first or, when space is short, the
      last breakpoint; opening an open drawer does nothing. */
  lemma OpenRule(bps: seq<real>, s: DrawerState, shouldAutoJump: bool)
    requires |bps| >= 1
    ensures s.isOpen ==> Open(bps, s, shouldAutoJump) == Step(s, [])
    ensures !s.isOpen ==>
      var t := Open(bps, s, shouldAutoJump).next;
      t.isOpen && t.index == (if shouldAutoJump then |bps| - 1 else 0) && t.height == bps[t.index] &&
      Open(bps, s, shouldAutoJump).events[0] == OnOpen
  {
  }

  /** Closing is idempotent and changes only the open flag. */
  lemma CloseIdempotent(s: DrawerState)
    ensures Close(s).next == s.(isOpen := false)
    ensures Close(Close(s).next) == Step(Close(s).next, [])
    ensures Close(s).events == (if s.isOpen then [OnClose] else [])
  {
  }

  /** Toggling keeps the index and the height, and two toggles cancel. */
  lemma ToggleKeepsBreakpoint(s: DrawerState)
    ensures Toggle(s).next.index == s.index && Toggle(s).next.height == s.height
    ensures Toggle(s).next.isOpen == !s.isOpen
    ensures Toggle(Toggle(s).next).next == s
  {
  }

  /** Toggling a closed drawer open keeps the breakpoint it had, whereas
      `openDrawer` resets it. */
  lemma ToggleOpenKeepsIndex(bps: seq<real>, s: DrawerState)
    requires |bps| >= 1 && !s.isOpen
    ensures Toggle(s).next.index == s.index && Open(bps, s, false).next.index == 0
  {
  }

  /** The trigger actions: `open` opens, `close` closes, anything else toggles. */
  lemma TriggerDispatch(bps: seq<real>, s: DrawerState, attribute: Option<string>, shouldAutoJump: bool)
    requires |bps| >= 1
    ensures attribute == Some("open") ==>
      Dispatch(bps, s, ActionOf(attribute), shouldAutoJump) == Open(bps, s, shouldAutoJump)
    ensures attribute == Some("close") ==>
      Dispatch(bps, s, ActionOf(attribute), shouldAutoJump) == Close(s)
    ensures attribute != Some("open") && attribute != Some("close") ==>
      Dispatch(bps, s, ActionOf(attribute), shouldAutoJump) == Toggle(s)
  {
  }

  /** The auto-jump effect fires exactly under its four conditions, lands on
      the last breakpoint, and running it again changes nothing. */
  lemma AutoJumpRule(bps: seq<real>, s: DrawerState, shouldAutoJump: bool)
    requires |bps| >= 1
    ensures var st := AutoJump(bps, s, shouldAutoJump);
      (st.events != [] <==> s.isOpen && shouldAutoJump && |bps| > 1 && s.index != |bps| - 1) &&
      (st.events != [] ==> st.next.index == |bps| - 1 && st.next.height == bps[|bps| - 1]) &&
      AutoJump(bps, st.next, shouldAutoJump) == Step(st.next, [])
  {
  }

  /** Applying a release keeps the index in range. */
  lemma ApplyReleaseInRange(bps: seq<real>, s: DrawerState, d: Decision)
    requires |bps| >= 1 && InRange(bps, s)
    ensures InRange(bps, ApplyRelease(bps, s, d).next)
  {
  }

  /** One drawer. `Valid` is the range invariant on the index. */
  class Drawer {
    const breakpoints: seq<real>
    var height: real
    var isOpen: bool
    var index: int

    function Current(): DrawerState
      reads this
    {
      DrawerState(height, isOpen, index)
    }

    ghost predicate Valid()
      reads this
    {
      |breakpoints| >= 1 && InRange(breakpoints, Current())
    }

    constructor (sizeBreakpoints: seq<real>, height: real, defaultOpen: bool)
      ensures breakpoints == Breakpoints(sizeBreakpoints, height)
      ensures Current() == Initial(breakpoints, defaultOpen)
      ensures Valid()
    {
      breakpoints := Breakpoints(sizeBreakpoints, height);
      this.height := Breakpoints(sizeBreakpoints, height)[0];
      isOpen := defaultOpen;
      index := 0;
    }

    /** `setHeight(h)`: only the height. */
    method SetHeight(h: real)
      requires Valid()
      modifies this
      ensures Current() == old(Current()).(height := h)
      ensures Valid()
    {
      height := h;
    }

    method SetBreakpointIndex(i: int) returns (events: seq<Event>)
      requires Valid()
      modifies this
      ensures Step(Current(), events) == WithIndex(breakpoints, old(Current()), i)
      ensures Valid()
    {
      var c := if 0 > (if i < |breakpoints| - 1 then i else |breakpoints| - 1) then 0
               else (if i < |breakpoints| - 1 then i else |breakpoints| - 1);
      height := breakpoints[c];
      index := c;
      events := [OnBreakpointChange(c, breakpoints[c])];
    }

    method MoveToNextBreakpoint() returns (events: seq<Event>)
      requires Valid()
      modifies this
      ensures Step(Current(), events) == MoveNext(breakpoints, old(Current()))
      ensures Valid()
    {
      var next := if index + 1 < |breakpoints| - 1 then index + 1 else |breakpoints| - 1;
      if next != index {
        events := SetBreakpointIndex(next);
      } else {
        events := [];
      }
    }

    method MoveToPreviousBreakpoint() returns (events: seq<Event>)
      requires Valid()
      modifies this
      ensures Step(Current(), events) == MovePrevious(breakpoints, old(Current()))
      ensures Valid()
    {
      var prev := if index - 1 > 0 then index - 1 else 0;
      if prev != index {
        events := SetBreakpointIndex(prev);
      } else {
        events := [];
      }
    }

    method OpenDrawer(shouldAutoJump: bool) returns (events: seq<Event>)
      requires Valid()
      modifies this
      ensures Step(Current(), events) == Open(breakpoints, old(Current()), shouldAutoJump)
      ensures Valid()
    {
      if isOpen {
        return [];
      }
      var i := if shouldAutoJump then |breakpoints| - 1 else 0;
      events := [OnOpen];
      if i != 0 {
        events := events + [OnBreakpointChange(i, breakpoints[i])];
      }
      isOpen := true;
      index := i;
      height := breakpoints[i];
    }

    method CloseDrawer() returns (events: seq<Event>)
      requires Valid()
      modifies this
      ensures Step(Current(), events) == Close(old(Current()))
      ensures Valid()
    {
      if isOpen {
        isOpen := false;
        events := [OnClose];
      } else {
        events := [];
      }
    }

    method ToggleDrawer() returns (events: seq<Event>)
      requires Valid()
      modifies this
      ensures Step(Current(), events) == Toggle(old(Current()))
      ensures Valid()
    {
      events := [if isOpen then OnClose else OnOpen];
      isOpen := !isOpen;
    }

    /** A click on an element carrying `data-magic-drawer-trigger` for this
      drawer, with the given action attribute. */
    method HandleTriggerClick(attribute: Option<string>, shouldAutoJump: bool) returns (events: seq<Event>)
      requires Valid()
      modifies this
      ensures Step(Current(), events) == Dispatch(breakpoints, old(Current()), ActionOf(attribute), shouldAutoJump)
      ensures Valid()
    {
      var action := if attribute == Some("open") then OpenAction
                    else if attribute == Some("close") then CloseAction
                    else ToggleAction;
      match action
      case OpenAction => events := OpenDrawer(shouldAutoJump);
      case CloseAction => events := CloseDrawer();
      case ToggleAction => events := ToggleDrawer();
    }

    method HandleKeyDown(key: string) returns (events: seq<Event>)
      requires Valid()
      modifies this
      ensures Step(Current(), events) == KeyDown(old(Current()), key)
      ensures Valid()
    {
      if key == "Escape" && isOpen {
        events := CloseDrawer();
      } else {
        events := [];
      }
    }

    method AutoJumpEffect(shouldAutoJump: bool) returns (events: seq<Event>)
      requires Valid()
      modifies this
      ensures Step(Current(), events) == AutoJump(breakpoints, old(Current()), shouldAutoJump)
      ensures Valid()
    {
      if isOpen && shouldAutoJump && |breakpoints| > 1 && index != |breakpoints| - 1 {
        events := SetBreakpointIndex(|breakpoints| - 1);
      } else {
        events := [];
      }
    }

    /** A gesture's release reaching the drawer. */
    method Release(d: Decision) returns (events: seq<Event>)
      requires Valid()
      modifies this
      ensures Step(Current(), events) == ApplyRelease(breakpoints, old(Current()), d)
      ensures Valid()
    {
      match d
      case Stay => events := [];
      case GoTo(i) => events := SetBreakpointIndex(i);
      case Dismiss => events := CloseDrawer();
    }
  }
}
