/** `StackNavigator`: a stack of screen ids with push, pop and reset, a
    pending screen that keeps a freshly pushed screen off-screen for one
    frame, and the list of popped screens still animating out. The frame
    timer, the 300ms cleanup timers and the intersection observer are
    explicit "fires" methods; `onStackChange` is returned to the caller. */
module StackNavigator {
  import opened Common

  datatype NavState = NavState(stack: seq<string>, animating: seq<string>, pending: Option<string>)

  /** What every reachable state satisfies: the stack is never empty, and a
      pending screen is the top of a stack of at least two. */
  predicate Inv(s: NavState)
  {
    |s.stack| >= 1 &&
    (s.pending.Some? ==> |s.stack| >= 2 && s.pending.value == s.stack[|s.stack| - 1])
  }

  function Initial(initialScreen: string): (s: NavState)
    ensures Inv(s)
  {
    NavState([initialScreen], [], None)
  }

  /** `pushScreen(id)`: append, and mark the new top as pending. */
  function Pushed(s: NavState, id: string): (r: NavState)
  {
    NavState(s.stack + [id], s.animating, Some(id))
  }

  /** `popScreen()`: a no-op on a stack of one; otherwise drop the top, add
      it to the animating list and clear the pending screen. */
  function Popped(s: NavState): (r: NavState)
  {
    if |s.stack| <= 1 then s
    else NavState(s.stack[..|s.stack| - 1], s.animating + [s.stack[|s.stack| - 1]], None)
  }

  /** The one-frame timer after a push. */
  function FrameElapsed(s: NavState): (r: NavState)
  {
    s.(pending := None)
  }

  /** The cleanup timer of a pop: drop every occurrence of that id. */
  function CleanedUp(s: NavState, popped: string): (r: NavState)
  {
    s.(animating := Without(s.animating, popped))
  }

  /** JavaScript truthiness of `pendingScreen`: null and "" are false. */
  predicate PendingTruthy(s: NavState)
  {
    s.pending.Some? && s.pending.value != ""
  }

  /** `currentScreen`: the screen below the top while a (truthy) screen is
      pending, the top otherwise. */
  function CurrentScreen(s: NavState): (c: string)
    requires Inv(s)
    ensures c in s.stack
  {
    if PendingTruthy(s) then s.stack[|s.stack| - 2] else s.stack[|s.stack| - 1]
  }

  predicate CanGoBack(s: NavState)
  {
    |s.stack| > 1
  }

  // ----- Properties of the transitions -----

  /** Every transition keeps the invariant, so the stack is never empty. */
  lemma TransitionsKeepInv(s: NavState, id: string, popped: string, initialScreen: string)
    requires Inv(s)
    ensures Inv(Pushed(s, id)) && Inv(Popped(s)) && Inv(FrameElapsed(s)) && Inv(CleanedUp(s, popped))
    ensures Inv(Initial(initialScreen))
  {
  }

  /** A push appends exactly `id`, makes it pending and leaves the animating
      list alone. */
  lemma PushAppends(s: NavState, id: string)
    ensures Pushed(s, id).stack == s.stack + [id]
    ensures Pushed(s, id).stack[..|s.stack|] == s.stack
    ensures Pushed(s, id).pending == Some(id)
    ensures Pushed(s, id).animating == s.animating
  {
  }

  /** A pop on a stack of two or more removes exactly the last screen and
      hands it to the animating list; on a stack of one it does nothing. */
  lemma PopRemovesLast(s: NavState)
    ensures |s.stack| <= 1 ==> Popped(s) == s
    ensures |s.stack| > 1 ==>
      Popped(s).stack + [s.stack[|s.stack| - 1]] == s.stack &&
      Popped(s).animating == s.animating + [s.stack[|s.stack| - 1]] &&
      Popped(s).pending == None
  {
  }

  /** A push followed at once by a pop gives back the stack, and the pushed
      screen animates out. */
  lemma PushThenPop(s: NavState, id: string)
    requires Inv(s)
    ensures Popped(Pushed(s, id)).stack == s.stack
    ensures Popped(Pushed(s, id)).animating == s.animating + [id]
    ensures Popped(Pushed(s, id)).pending == None
  {
    assert (s.stack + [id])[..|s.stack|] == s.stack;
  }

  /** The cleanup timer removes the popped id from the animating list and
      changes nothing else. */
  lemma CleanupOnlyAnimating(s: NavState, popped: string)
    ensures CleanedUp(s, popped).stack == s.stack && CleanedUp(s, popped).pending == s.pending
    ensures popped !in CleanedUp(s, popped).animating
    ensures forall x :: x != popped ==> (x in CleanedUp(s, popped).animating <==> x in s.animating)
  {
  }

  /** During the frame after a push of a non-empty id the current screen is
      still the old top; once the frame passes it is the new screen. */
  lemma PushShowsAfterFrame(s: NavState, id: string)
    requires Inv(s) && id != ""
    ensures CurrentScreen(Pushed(s, id)) == CurrentScreen(s.(pending := None))
    ensures CurrentScreen(FrameElapsed(Pushed(s, id))) == id
  {
    assert Pushed(s, id).stack[|s.stack| - 1] == s.stack[|s.stack| - 1];
  }

  /** Pushing "" is never pending in the truthiness sense: it is current at once. */
  lemma PushEmptyIdIsCurrentAtOnce(s: NavState)
    requires Inv(s)
    ensures CurrentScreen(Pushed(s, "")) == ""
  {
  }

  /** `canGoBack` holds exactly when a pop would do something. */
  lemma CanGoBackIffPopChanges(s: NavState)
    requires Inv(s)
    ensures CanGoBack(s) <==> Popped(s).stack != s.stack
  {
    if CanGoBack(s) {
      assert |Popped(s).stack| < |s.stack|;
    }
  }

  /** The navigator object. `frameTimerArmed` is `timeoutRef`: the push's
      one-frame timer; `cleanupTimers` are the pops' cleanup timers, each
      holding the id it will remove. */
  class Navigator {
    const initialScreen: string
    const resetOnHidden: bool
    var stack: seq<string>
    var animating: seq<string>
    var pending: Option<string>
    var frameTimerArmed: bool
    var cleanupTimers: seq<string>

    function Current(): NavState
      reads this
    {
      NavState(stack, animating, pending)
    }

    ghost predicate Valid()
      reads this
    {
      Inv(Current())
    }

    constructor (initialScreen: string, resetOnHidden: bool)
      ensures this.initialScreen == initialScreen && this.resetOnHidden == resetOnHidden
      ensures Current() == Initial(initialScreen)
      ensures !frameTimerArmed && cleanupTimers == []
      ensures Valid()
    {
      this.initialScreen := initialScreen;
      this.resetOnHidden := resetOnHidden;
      stack := [initialScreen];
      animating := [];
      pending := None;
      frameTimerArmed := false;
      cleanupTimers := [];
    }

    /** `pushScreen(id)`: replaces any running frame timer with a new one;
      returns the stack passed to `onStackChange`. */
    method Push(id: string) returns (notified: seq<string>)
      requires Valid()
      modifies this
      ensures Current() == Pushed(old(Current()), id)
      ensures notified == stack
      ensures frameTimerArmed && cleanupTimers == old(cleanupTimers)
      ensures Valid()
    {
      stack := stack + [id];
      pending := Some(id);
      frameTimerArmed := true;
      notified := stack;
    }

    /** `popScreen()`: returns the stack passed to `onStackChange`, if any,
      and schedules the popped screen's cleanup. */
    method Pop() returns (notified: Option<seq<string>>)
      requires Valid()
      modifies this
      ensures Current() == Popped(old(Current()))
      ensures |old(stack)| <= 1 ==> notified == None && cleanupTimers == old(cleanupTimers)
      ensures |old(stack)| > 1 ==>
        notified == Some(stack) && cleanupTimers == old(cleanupTimers) + [old(stack)[|old(stack)| - 1]]
      ensures frameTimerArmed == old(frameTimerArmed)
      ensures Valid()
    {
      if |stack| <= 1 {
        return None;
      }
      var popped := stack[|stack| - 1];
      stack := stack[..|stack| - 1];
      animating := animating + [popped];
      pending := None;
      cleanupTimers := cleanupTimers + [popped];
      notified := Some(stack);
    }

    /** `resetStack()` and `goToRoot()`: cancels the frame timer but not the
      cleanup timers; returns the stack passed to `onStackChange`. */
    method Reset() returns (notified: seq<string>)
      modifies this
      ensures Current() == Initial(initialScreen)
      ensures notified == [initialScreen]
      ensures !frameTimerArmed && cleanupTimers == old(cleanupTimers)
      ensures Valid()
    {
      stack := [initialScreen];
      animating := [];
      pending := None;
      frameTimerArmed := false;
      notified := stack;
    }

    /** The push's frame timer fires. */
    method FrameTimerFires()
      requires Valid() && frameTimerArmed
      modifies this
      ensures Current() == FrameElapsed(old(Current()))
      ensures !frameTimerArmed && cleanupTimers == old(cleanupTimers)
      ensures Valid()
    {
      pending := None;
      frameTimerArmed := false;
    }

    /** The `k`-th outstanding cleanup timer fires. */
    method CleanupTimerFires(k: nat)
      requires Valid() && k < |cleanupTimers|
      modifies this
      ensures Current() == CleanedUp(old(Current()), old(cleanupTimers)[k])
      ensures cleanupTimers == old(cleanupTimers)[..k] + old(cleanupTimers)[k + 1..]
      ensures frameTimerArmed == old(frameTimerArmed)
      ensures Valid()
    {
      animating := Without(animating, cleanupTimers[k]);
      cleanupTimers := cleanupTimers[..k] + cleanupTimers[k + 1..];
    }

    /** The intersection observer reports the container: leaving the
      viewport resets the stack when `resetOnHidden` is set. */
    method VisibilityChanged(intersecting: bool) returns (notified: Option<seq<string>>)
      requires Valid()
      modifies this
      ensures resetOnHidden && !intersecting ==>
        Current() == Initial(initialScreen) && notified == Some([initialScreen])
      ensures !(resetOnHidden && !intersecting) ==>
        Current() == old(Current()) && notified == None && frameTimerArmed == old(frameTimerArmed)
      ensures cleanupTimers == old(cleanupTimers)
      ensures Valid()
    {
      if resetOnHidden && !intersecting {
        var n := Reset();
        notified := Some(n);
      } else {
        notified := None;
      }
    }

    /** `currentScreen` and `canGoBack` as the context exposes them. */
    method Derived() returns (current: string, canGoBack: bool)
      requires Valid()
      ensures current == CurrentScreen(Current()) && current in stack
      ensures canGoBack <==> |stack| > 1
    {
      current := if pending.Some? && pending.value != "" then stack[|stack| - 2] else stack[|stack| - 1];
      canGoBack := |stack| > 1;
    }
  }
}
