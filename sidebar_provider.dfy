/** `SidebarProvider` and `SidebarResizer`: the per-sidebar state the
    provider keeps (open flags, width, resizing flag), the toggle, the width
    setter, the mount-time hydration, the register effects, and the
    resizer's drag arithmetic. State is taken as committed between actions. */
module SidebarProvider {
  import opened Common
  import opened SidebarWidth
  import opened SidebarRegistry

  /** The provider's state as a value. `setterBound` is whether the effect
      that stores `setOpen` in `setOpenRef` has run yet. */
  datatype ProviderState = ProviderState(
    open: bool,
    openMobile: bool,
    isMobile: bool,
    width: Width,
    isResizing: bool,
    setterBound: bool)

  /** The state of a freshly mounted provider. Only the width cookie is read
      back on mount; the open cookie is never read, so `open` starts at
      `defaultOpen`. */
  function Initial(defaultOpen: bool, isMobile: bool): (s: ProviderState)
    ensures s.open == defaultOpen && !s.openMobile && !s.isResizing && !s.setterBound
    ensures s.width == Text(DefaultSidebarWidth)
  {
    ProviderState(defaultOpen, false, isMobile, Text(DefaultSidebarWidth), false, false)
  }

  /** `toggleSidebar()`: on mobile flip `openMobile`; otherwise flip `open`
      through `setOpenRef`, which does nothing before the ref is bound. */
  function Toggled(s: ProviderState): (r: ProviderState)
    ensures r.isMobile == s.isMobile && r.width == s.width
    ensures r.isResizing == s.isResizing && r.setterBound == s.setterBound
  {
    if s.isMobile then s.(openMobile := !s.openMobile)
    else if s.setterBound then s.(open := !s.open)
    else s
  }

  /** On mobile only `openMobile` is negated; on desktop only `open`. */
  lemma ToggleNegatesOnlyOne(s: ProviderState)
    ensures s.isMobile ==> Toggled(s).openMobile == !s.openMobile && Toggled(s).open == s.open
    ensures !s.isMobile && s.setterBound ==>
      Toggled(s).open == !s.open && Toggled(s).openMobile == s.openMobile
    ensures !s.isMobile && !s.setterBound ==> Toggled(s) == s
  {
  }

  /** Two toggles give back the state the first one started from. */
  lemma ToggleTwiceRestores(s: ProviderState)
    ensures Toggled(Toggled(s)) == s
  {
  }

  /** The controls the register effects publish. */
  function ControlsOf(s: ProviderState): (c: Controls)
    ensures c.open == s.open
    ensures c.state == Expanded <==> s.open
  {
    Controls(s.open, StateOf(s.open))
  }

  /** The provider object of the sidebar `id`. */
  class Provider {
    const id: string
    var open: bool
    var openMobile: bool
    var isMobile: bool
    var width: Width
    var isResizing: bool
    var setterBound: bool

    function Current(): ProviderState
      reads this
    {
      ProviderState(open, openMobile, isMobile, width, isResizing, setterBound)
    }

    constructor (id: string, defaultOpen: bool, isMobile: bool)
      ensures this.id == id
      ensures Current() == Initial(defaultOpen, isMobile)
    {
      this.id := id;
      open := defaultOpen;
      openMobile := false;
      this.isMobile := isMobile;
      width := Text(DefaultSidebarWidth);
      isResizing := false;
      setterBound := false;
    }

    /** The effect `setOpenRef.current = setOpen`. */
    method BindOpenSetter()
      modifies this
      ensures Current() == old(Current()).(setterBound := true)
    {
      setterBound := true;
    }

    /** `setOpen(value)`; the cookie it writes is not modelled. */
    method SetOpen(value: bool)
      modifies this
      ensures Current() == old(Current()).(open := value)
    {
      open := value;
    }

    method SetOpenMobile(value: bool)
      modifies this
      ensures Current() == old(Current()).(openMobile := value)
    {
      openMobile := value;
    }

    /** `useIsMobile()` reporting a new viewport class. */
    method SetViewport(mobile: bool)
      modifies this
      ensures Current() == old(Current()).(isMobile := mobile)
    {
      isMobile := mobile;
    }

    method Toggle()
      modifies this
      ensures Current() == Toggled(old(Current()))
    {
      if isMobile {
        openMobile := !openMobile;
      } else if setterBound {
        open := !open;
      }
    }

    /** `setSidebarWidth(w)`: parse, clamp to [12, 32], store in rem. */
    method SetWidth(w: Width)
      modifies this
      ensures Current() == old(Current()).(width := StoredWidth(w))
      ensures width.RemValue? && 12.0 <= width.rem <= 32.0
    {
      StoredWidthClamped(w);
      width := StoredWidth(w);
    }

    method SetResizing(b: bool)
      modifies this
      ensures Current() == old(Current()).(isResizing := b)
    {
      isResizing := b;
    }

    /** The mount effect that reads `sidebar_width_<id>` from the cookie and
      assigns the value unparsed. */
    method HydrateWidth(cookie: string)
      modifies this
      ensures Current() == old(Current()).(width := HydratedWidth(old(width), cookie, id))
    {
      width := HydratedWidth(width, cookie, id);
    }

    /** The register effect: publish these controls under `id`. */
    method Publish(registry: Registry)
      requires registry.Invariant()
      modifies registry
      ensures registry.Current() == Registered(old(registry.Current()), id, ControlsOf(Current()))
      ensures registry.Invariant()
    {
      registry.Register(id, ControlsOf(Current()));
    }

    /** The register effect's cleanup on unmount. */
    method Unpublish(registry: Registry)
      requires registry.Invariant()
      modifies registry
      ensures registry.Current() == Deleted(old(registry.Current()), id)
      ensures registry.Invariant()
    {
      registry.Delete(id);
    }

    /** The refresh effect: re-publish only while still registered. */
    method RefreshIn(registry: Registry)
      requires registry.Invariant()
      modifies registry
      ensures registry.Current() == Refreshed(old(registry.Current()), id, ControlsOf(Current()))
      ensures registry.Invariant()
    {
      registry.Refresh(id, ControlsOf(Current()));
    }
  }

  // ----- SidebarResizer -----

  datatype Side = Left | Right

  /** The pixel delta as the sidebar grows: inverted for a right-side sidebar. */
  function Adjusted(side: Side, deltaX: real): real
  {
    if side == Right then -deltaX else deltaX
  }

  /** The width a mousemove at `clientX` sets, in rem. The resizer clamps to
      [12, 32] itself before `setSidebarWidth` parses and clamps again. */
  function ResizedWidth(side: Side, startX: real, startWidth: real, clientX: real): (v: real)
    ensures 12.0 <= v <= 32.0
  {
    ClampRem(startWidth + Adjusted(side, clientX - startX) / 16.0)
  }

  /** Inside the bounds, a move of `d` pixels grows a left sidebar by `d/16`
      rem and a right sidebar by `-d/16` rem; at the bounds it stops. */
  lemma ResizeFollowsPointer(side: Side, startX: real, startWidth: real, d: real)
    ensures var grown := startWidth + (if side == Left then d else -d) / 16.0;
      12.0 <= grown <= 32.0 ==> ResizedWidth(side, startX, startWidth, startX + d) == grown
    ensures var grown := startWidth + (if side == Left then d else -d) / 16.0;
      (grown < 12.0 ==> ResizedWidth(side, startX, startWidth, startX + d) == 12.0) &&
      (grown > 32.0 ==> ResizedWidth(side, startX, startWidth, startX + d) == 32.0)
  {
    assert (startX + d) - startX == d;
  }

  /** A right-side sidebar mirrors a left one. */
  lemma ResizeSidesMirror(startX: real, startWidth: real, d: real)
    ensures ResizedWidth(Right, startX, startWidth, startX + d) == ResizedWidth(Left, startX, startWidth, startX - d)
  {
    assert (startX + d) - startX == d;
    assert (startX - d) - startX == -d;
  }

  /** From the default width, dragging a left sidebar 160px to the right
      makes it 26rem. */
  lemma ResizeFromDefault(startX: real)
    ensures ResizedWidth(Left, startX, StartWidthOf(Text(DefaultSidebarWidth)), startX + 160.0) == 26.0
  {
    WidthConstants();
    ResizeFollowsPointer(Left, startX, 16.0, 160.0);
  }

  datatype ResizerState = ResizerState(dragging: bool, startX: real, startWidth: real)

  /** One `SidebarResizer` attached to its provider. */
  class Resizer {
    const provider: Provider
    const side: Side
    const isDraggable: bool
    var dragging: bool
    var startX: real
    var startWidth: real

    function Current(): ResizerState
      reads this
    {
      ResizerState(dragging, startX, startWidth)
    }

    constructor (provider: Provider, side: Side, isDraggable: bool)
      ensures this.provider == provider && this.side == side && this.isDraggable == isDraggable
      ensures Current() == ResizerState(false, 0.0, 0.0)
    {
      this.provider := provider;
      this.side := side;
      this.isDraggable := isDraggable;
      dragging := false;
      startX := 0.0;
      startWidth := 0.0;
    }

    /** `handleMouseDown`: ignored when not draggable; otherwise start a drag
      from the number in the current width, whatever its unit, or 16. */
    method MouseDown(clientX: real)
      modifies this, provider
      ensures !isDraggable ==> Current() == old(Current()) && provider.Current() == old(provider.Current())
      ensures isDraggable ==>
        Current() == ResizerState(true, clientX, StartWidthOf(old(provider.width))) &&
        provider.Current() == old(provider.Current()).(isResizing := true)
    {
      if !isDraggable {
        return;
      }
      dragging := true;
      provider.SetResizing(true);
      startX := clientX;
      startWidth := StartWidthOf(provider.width);
    }

    /** `handleMouseMove`: ignored unless dragging; otherwise set the width
      that follows the pointer. */
    method MouseMove(clientX: real)
      modifies provider
      ensures !dragging ==> provider.Current() == old(provider.Current())
      ensures dragging ==>
        provider.Current() == old(provider.Current()).(width := RemValue(ResizedWidth(side, startX, startWidth, clientX)))
    {
      if !dragging {
        return;
      }
      var deltaX := clientX - startX;
      var adjusted := if side == Right then -deltaX else deltaX;
      var clamped := ClampRem(startWidth + adjusted / 16.0);
      StoredWidthKeepsInRange(clamped);
      provider.SetWidth(RemValue(clamped));
    }

    /** `handleMouseUp`: end the drag. */
    method MouseUp()
      modifies this, provider
      ensures Current() == old(Current()).(dragging := false)
      ensures provider.Current() == old(provider.Current()).(isResizing := false)
    {
      dragging := false;
      provider.SetResizing(false);
    }
  }
}
