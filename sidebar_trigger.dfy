/** `SidebarTrigger`: how a trigger finds the sidebar it toggles (its own
    provider's context first, then the global registry, then up to three
    timed retries) and what a click on it does. */
module SidebarTrigger {
  import opened Common
  import opened SidebarRegistry

  const MaxRetries: nat := 3

  /** What the trigger renders for the sidebar `target`. */
  datatype View =
    | Ready(target: string)        // an enabled button bound to a toggle
    | Loading(target: string)      // disabled, pulsing; a retry is scheduled
    | Unavailable(target: string)  // disabled, "not found"

  /** The lookup order of one render: the context when the trigger sits
      inside the provider with that id, otherwise the registry, otherwise
      loading while fewer than three retries have run, otherwise not found. */
  function Resolve(target: string, insideProvider: bool, registered: bool, retryCount: nat): (v: View)
    ensures v.target == target
    ensures v.Ready? <==> insideProvider || registered
    ensures v.Loading? <==> !insideProvider && !registered && retryCount < MaxRetries
    ensures v.Unavailable? <==> !insideProvider && !registered && retryCount >= MaxRetries
  {
    if insideProvider || registered then Ready(target)
    else if retryCount < MaxRetries then Loading(target)
    else Unavailable(target)
  }

  /** The attributes a caller passes besides `sidebarId`, `className` and
      `onClick`; each button spreads them after its own, so a key the caller
      gives wins. `None` is a key the caller leaves out; `Some(b)` is one it
      gives, with `b` its truthiness (an explicit `undefined` is
      `Some(false)`). A given `title` is `Some(Some(t))`, and an explicit
      `title={undefined}` is `Some(None)`: it removes the button's own
      title. */
  datatype CallerProps = CallerProps(disabled: Option<bool>, title: Option<Option<string>>)

  const NoProps: CallerProps := CallerProps(None, None)

  /** The button's `disabled`: the caller's when given, otherwise set on
      the loading and not-found buttons only. */
  predicate Disabled(v: View, props: CallerProps)
  {
    match props.disabled
    case Some(b) => b
    case None => !v.Ready?
  }

  /** The button's `title` attribute, `None` when it has none: the caller's
      when given, otherwise the waiting or giving-up text; the ready button
      has none of its own. */
  function Title(v: View, props: CallerProps): (t: Option<string>)
    ensures props.title.Some? ==> t == props.title.value
    ensures props.title.None? ==> (t.None? <==> v.Ready?)
    ensures props.title.None? && v.Loading? ==> t == Some("Loading sidebar \"" + v.target + "\"...")
    ensures props.title.None? && v.Unavailable? ==> t == Some("Sidebar \"" + v.target + "\" not found")
  {
    if props.title.Some? then props.title.value
    else match v
      case Ready(_) => None
      case Loading(id) => Some("Loading sidebar \"" + id + "\"...")
      case Unavailable(id) => Some("Sidebar \"" + id + "\" not found")
  }

  datatype ClickEffect = CallerOnClick | ToggleSidebar(id: string)

  /** A click: only the ready button has a handler, which calls the
      caller's `onClick` first, when there is one, then the toggle. A
      disabled button receives no click. */
  function Click(v: View, props: CallerProps, hasOnClick: bool): (effects: seq<ClickEffect>)
    ensures effects == [] <==> Disabled(v, props) || !v.Ready?
    ensures effects != [] ==> effects[|effects| - 1] == ToggleSidebar(v.target)
    ensures effects != [] ==> (hasOnClick <==> |effects| == 2)
    ensures effects != [] && hasOnClick ==> effects[0] == CallerOnClick
  {
    if Disabled(v, props) || !v.Ready? then []
    else (if hasOnClick then [CallerOnClick] else []) + [ToggleSidebar(v.target)]
  }

  /** Without caller attributes only the ready button is enabled and it
      alone has no title. */
  lemma DefaultButtons(v: View, hasOnClick: bool)
    ensures Disabled(v, NoProps) <==> !v.Ready?
    ensures Title(v, NoProps).None? <==> v.Ready?
    ensures v.Ready? ==>
      Click(v, NoProps, hasOnClick) == (if hasOnClick then [CallerOnClick] else []) + [ToggleSidebar(v.target)]
  {
  }

  /** The caller's attributes override the trigger's own: `disabled` makes a
      ready trigger inert, a given title replaces the waiting and
      not-found texts and appears on the ready button too, and an explicit
      `title={undefined}` leaves a button with no title at all. */
  lemma CallerPropsWin(v: View, title: string, hasOnClick: bool)
    ensures Click(v, CallerProps(Some(true), None), hasOnClick) == []
    ensures Title(v, CallerProps(None, Some(Some(title)))) == Some(title)
    ensures Title(v, CallerProps(None, Some(None))) == None
    ensures !v.Ready? ==>
      !Disabled(v, CallerProps(Some(false), None)) && Click(v, CallerProps(Some(false), None), hasOnClick) == []
  {
  }

  /** Once the retries are used up a trigger for an unregistered sidebar
      stays unavailable, however often it renders again. */
  lemma RetriesExhausted(target: string, retryCount: nat, more: nat)
    requires retryCount >= MaxRetries
    ensures Resolve(target, false, false, retryCount + more) == Unavailable(target)
  {
  }

  /** A sidebar that registers late is picked up by the next render, before
      or after the retries run out. */
  lemma LateRegistrationResolves(target: string, retryCount: nat)
    ensures Resolve(target, false, true, retryCount) == Ready(target)
  {
  }

  datatype TriggerState = TriggerState(retryCount: nat, pendingRetries: nat)

  /** One mounted trigger: its retry counter and the retry timers it has
      scheduled that have not fired yet. */
  class Trigger {
    const sidebarId: string
    var retryCount: nat
    var pendingRetries: nat

    function Current(): TriggerState
      reads this
    {
      TriggerState(retryCount, pendingRetries)
    }

    constructor (sidebarId: string)
      ensures this.sidebarId == sidebarId
      ensures Current() == TriggerState(0, 0)
    {
      this.sidebarId := sidebarId;
      retryCount := 0;
      pendingRetries := 0;
    }

    /** One render. A loading render schedules one more 100ms retry timer. */
    method Render(insideProvider: bool, registry: Registry) returns (v: View)
      modifies this
      ensures v == Resolve(sidebarId, insideProvider, sidebarId in registry.entries, old(retryCount))
      ensures retryCount == old(retryCount)
      ensures pendingRetries == old(pendingRetries) + (if v.Loading? then 1 else 0)
    {
      var registered := registry.IsAvailable(sidebarId);
      if insideProvider || registered {
        v := Ready(sidebarId);
      } else if retryCount < MaxRetries {
        pendingRetries := pendingRetries + 1;
        v := Loading(sidebarId);
      } else {
        v := Unavailable(sidebarId);
      }
    }

    /** A retry timer fires: `setRetryCount(prev => prev + 1)`. */
    method RetryTimerFires()
      requires pendingRetries > 0
      modifies this
      ensures Current() == TriggerState(old(retryCount) + 1, old(pendingRetries) - 1)
    {
      retryCount := retryCount + 1;
      pendingRetries := pendingRetries - 1;
    }
  }
}
