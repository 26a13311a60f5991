/** `StackScreen`: where one screen of a stack navigator is drawn, and the
    `onShown`/`onHidden` callbacks fired when its visibility changes. */
module StackScreen {
  import opened Common
  import opened StackNavigator

  /** `array.indexOf(x)`: the first position of `x`, or -1. */
  function IndexOf(s: seq<string>, x: string): (k: int)
    ensures -1 <= k < |s|
    ensures k == -1 <==> x !in s
    ensures k >= 0 ==> s[k] == x && x !in s[..k]
  {
    if |s| == 0 then -1
    else if s[0] == x then 0
    else
      var k := IndexOf(s[1..], x);
      assert k >= 0 ==> s[..k + 1] == [s[0]] + s[1..][..k];
      if k == -1 then -1 else k + 1
  }

  datatype Transform = SlideLeft | Center | SlideRight   // -100%, 0%, 100%

  datatype Placement =
    | NotRendered
    | Rendered(isVisible: bool, transform: Transform, zIndex: int)

  /** `screenState` for the screen `id` in the navigator's state. */
  function Place(id: string, current: string, stack: seq<string>, animating: seq<string>,
                 pending: Option<string>): (p: Placement)
    ensures p.NotRendered? <==> id !in stack && id !in animating
  {
    var stackIndex := IndexOf(stack, id);
    var currentIndex := IndexOf(stack, current);
    var isAnimating := id in animating;
    var isPending := pending == Some(id);
    if stackIndex == -1 && !isAnimating then NotRendered
    else
      var transform :=
        if isAnimating then SlideRight
        else if isPending then SlideRight
        else if stackIndex < currentIndex then SlideLeft
        else if stackIndex > currentIndex then SlideRight
        else Center;
      Rendered(current == id && !isPending && !isAnimating, transform,
               (if stackIndex != -1 then stackIndex else 999) + 1)
  }

  /** Animating and pending screens sit off to the right, whatever their place
      in the stack; otherwise screens below the current one sit left, those
      above it right, and the current one in the middle. */
  lemma TransformRule(id: string, current: string, stack: seq<string>, animating: seq<string>,
                      pending: Option<string>)
    requires id in stack || id in animating
    ensures var p := Place(id, current, stack, animating, pending);
      (id in animating || pending == Some(id) ==> p.transform == SlideRight) &&
      (id !in animating && pending != Some(id) && id in stack && current in stack ==>
        (p.transform == SlideLeft <==> IndexOf(stack, id) < IndexOf(stack, current)) &&
        (p.transform == Center <==> id == current) &&
        (p.transform == SlideRight <==> IndexOf(stack, id) > IndexOf(stack, current)))
  {
    if id in stack && current in stack && IndexOf(stack, id) == IndexOf(stack, current) {
      assert stack[IndexOf(stack, id)] == id && stack[IndexOf(stack, current)] == current;
    }
  }

  /** Only the current screen can be visible, and only when it is neither
      pending nor animating out. */
  lemma VisibleIffSettledCurrent(id: string, current: string, stack: seq<string>,
                                 animating: seq<string>, pending: Option<string>)
    ensures var p := Place(id, current, stack, animating, pending);
      (p.Rendered? && p.isVisible) <==>
        id == current && id in stack && id !in animating && pending != Some(id)
  {
  }

  /** The z-index follows the stack position, 1000 for a screen that has
      left the stack and is only animating out. */
  lemma ZIndexRule(id: string, current: string, stack: seq<string>, animating: seq<string>,
                   pending: Option<string>)
    requires id in stack || id in animating
    ensures var p := Place(id, current, stack, animating, pending);
      (id in stack ==> p.zIndex == IndexOf(stack, id) + 1 && 1 <= p.zIndex <= |stack|) &&
      (id !in stack ==> p.zIndex == 1000)
  {
  }

  /** In a navigator state, at most the navigator's current screen is visible. */
  lemma AtMostCurrentVisible(s: NavState, id: string)
    requires Inv(s)
    ensures var p := Place(id, CurrentScreen(s), s.stack, s.animating, s.pending);
      p.Rendered? && p.isVisible ==> id == CurrentScreen(s)
  {
  }

  /** The screen pushed last is drawn off to the right until the frame passes,
      then in the middle and visible. */
  lemma PushedScreenSlidesIn(s: NavState, id: string)
    requires Inv(s) && id != "" && id !in s.stack && id !in s.animating
    ensures var t := Pushed(s, id);
      Place(id, CurrentScreen(t), t.stack, t.animating, t.pending) == Rendered(false, SlideRight, |s.stack| + 1)
    ensures var t := FrameElapsed(Pushed(s, id));
      Place(id, CurrentScreen(t), t.stack, t.animating, t.pending) == Rendered(true, Center, |s.stack| + 1)
  {
    var t := Pushed(s, id);
    IndexOfAppended(s.stack, id);
    PushShowsAfterFrame(s, id);
  }

  lemma IndexOfAppended(s: seq<string>, x: string)
    requires x !in s
    ensures IndexOf(s + [x], x) == |s|
  {
    assert (s + [x])[|s|] == x;
    assert (s + [x])[..|s|] == s;
  }

  // ----- The visibility effect -----

  datatype Callback = OnShown | OnHidden

  /** The callback the effect fires when visibility goes from `was` to `now`. */
  function VisibilityCallback(was: bool, now: bool): (cb: Option<Callback>)
    ensures cb == Some(OnShown) <==> now && !was
    ensures cb == Some(OnHidden) <==> !now && was
    ensures cb == None <==> now == was
  {
    if now && !was then Some(OnShown) else if !now && was then Some(OnHidden) else None
  }

  /** The callbacks fired over a run of effects starting from `was`. */
  function Callbacks(was: bool, run: seq<bool>): seq<Callback>
    decreases |run|
  {
    if |run| == 0 then []
    else
      (match VisibilityCallback(was, run[0]) case Some(cb) => [cb] case None => [])
      + Callbacks(run[0], run[1..])
  }

  /** Over any run the callbacks alternate, beginning with `onShown` from a
      hidden start and with `onHidden` from a visible one. */
  lemma {:induction false} CallbacksAlternate(was: bool, run: seq<bool>)
    ensures var cbs := Callbacks(was, run);
      (|cbs| > 0 ==> cbs[0] == (if was then OnHidden else OnShown)) &&
      (forall i :: 0 <= i < |cbs| - 1 ==> cbs[i] != cbs[i + 1])
    decreases |run|
  {
    if |run| > 0 {
      CallbacksAlternate(run[0], run[1..]);
      var rest := Callbacks(run[0], run[1..]);
      var cbs := Callbacks(was, run);
      if VisibilityCallback(was, run[0]).Some? {
        assert cbs == [VisibilityCallback(was, run[0]).value] + rest;
        forall i | 0 <= i < |cbs| - 1
          ensures cbs[i] != cbs[i + 1]
        {
          if i > 0 {
            assert cbs[i] == rest[i - 1] && cbs[i + 1] == rest[i];
          }
        }
      } else {
        assert cbs == rest;
      }
    }
  }

  /** The remembered visibility of one mounted screen (`wasVisibleRef`). */
  class VisibilityTracker {
    var wasVisible: bool

    constructor ()
      ensures !wasVisible
    {
      wasVisible := false;
    }

    /** The effect after a render with placement `p`. */
    method Observe(p: Placement) returns (cb: Option<Callback>)
      modifies this
      ensures wasVisible == (p.Rendered? && p.isVisible)
      ensures cb == VisibilityCallback(old(wasVisible), wasVisible)
    {
      var isVisible := p.Rendered? && p.isVisible;
      if isVisible && !wasVisible {
        cb := Some(OnShown);
      } else if !isVisible && wasVisible {
        cb := Some(OnHidden);
      } else {
        cb := None;
      }
      wasVisible := isVisible;
    }
  }
}
