# crush-ui interaction core in Dafny

This project models the state logic inside the crush-ui React component
library that is not presentation. It covers:

- **Sidebar** (`atoms/sidebar/sidebar.tsx`):
  - the global registry that lets a trigger outside a provider reach the sidebar,
  - the provider's open and width state, its toggle, the width setter (parse then clamp to [12rem, 32rem]), and the width read back from the cookie on mount,
  - the resizer's drag arithmetic,
  - how a trigger resolves its sidebar, with up to three retries,
  - the readers of the CSS custom properties (`getSidebarState`, `isSidebarOpen`, `isSidebarMobile`, `getAllSidebarIds`).
- **StackNavigator**: the screen stack; the pending screen that keeps a pushed screen off-screen for one frame; the popped screens still animating out; and where `StackScreen` draws each screen, with its `onShown`/`onHidden` callbacks.
- **MagicDrawer**: the open flag and the breakpoint state machine, plus the two drag hooks:
  - `useDragToClose`,
  - `useGlobalDragGestures`, with its tap/drag latches and click suppression.

  It also covers `useSpaceDetection`, which decides whether the drawer jumps to its largest breakpoint.
- **File-name helpers**: `getFileExtension`, `getFileIcon` and the zero case of `formatFileSize`. These exist as identical copies in `FileTree/fileUtils.ts` and `file-tree/file-tree.types.ts` (lines 59-89 there). The rows below cite the first copy, and every statement holds for the second one word for word (its `iconMap[ext]` lookup is at line 88).

How the source is mapped:

- **Components with state are classes** (`Registry`, `Provider`, `Resizer`, `Trigger`, `Navigator`, `VisibilityTracker`, `Drawer`, `DragToCloseHook`, `GlobalDragHook`, `SpaceDetector`). Each class's state is tied to pure transition functions (through `Current()` where the class keeps several fields), and the properties are proved as lemmas about those functions.
- **Callbacks** (`onOpen`, `onClose`, `onBreakpointChange`, `onStackChange`, `onShown`, `onHidden`) are returned by the methods as values, in the order the source calls them.
- **Timers** are explicit `...Fires` methods.
- **Inputs from the outside world are parameters**: the window size, the computed root font size, `document.cookie` and the computed style.
- **JavaScript numbers are reals.**

## Model

| member | source | states |
|---|---|---|
| SidebarRegistry.StateOf | packages/core/src/components/atoms/sidebar/sidebar.tsx:223 | the state is `expanded` exactly when the sidebar is open |
| SidebarRegistry.Message | packages/core/src/components/atoms/sidebar/sidebar.tsx:108-112 | the not-found message names the id, then lists the present ids joined by `, ` |
| SidebarRegistry.Registered | packages/core/src/components/atoms/sidebar/sidebar.tsx:101-103 | after `set`, the id maps to the new controls; the key set gains the id; every other entry is unchanged |
| SidebarRegistry.Deleted | packages/core/src/components/atoms/sidebar/sidebar.tsx:320 | after `delete`, the id is gone; the key set loses exactly the id; the other entries are unchanged |
| SidebarRegistry.Lookup | packages/core/src/components/atoms/sidebar/sidebar.tsx:106-114 | `getSidebarControls` succeeds exactly when the id is registered |
| SidebarRegistry.RegisteredValid | packages/core/src/components/atoms/sidebar/sidebar.tsx:101-103 | registering keeps the insertion order duplicate-free and in step with the map |
| SidebarRegistry.DeletedValid | packages/core/src/components/atoms/sidebar/sidebar.tsx:320 | deleting keeps the insertion order duplicate-free and in step with the map |
| SidebarRegistry.RegisterThenLookup | packages/core/src/components/atoms/sidebar/sidebar.tsx:101-114 | a lookup right after registering returns the registered controls |
| SidebarRegistry.ReregisterOverwrites | packages/core/src/components/atoms/sidebar/sidebar.tsx:101-103 | registering twice is registering once with the last controls; the id keeps its first position |
| SidebarRegistry.DeleteThenLookup | packages/core/src/components/atoms/sidebar/sidebar.tsx:106-114 | after a delete, the lookup fails; its error lists exactly the remaining ids, duplicate-free and in insertion order |
| SidebarRegistry.DeleteKeepsOthers | packages/core/src/components/atoms/sidebar/sidebar.tsx:117-119 | deleting one id changes no other id's availability or controls |
| SidebarRegistry.RegisterKeepsOthers | packages/core/src/components/atoms/sidebar/sidebar.tsx:101-103 | registering one id changes no other id's availability or controls |
| SidebarRegistry.RefreshNeverResurrects | packages/core/src/components/atoms/sidebar/sidebar.tsx:325-335 | the refresh effect re-registers only an id that is present; it never brings back a deleted one |
| SidebarRegistry.Registry.Register | packages/core/src/components/atoms/sidebar/sidebar.tsx:101-103 | the registry object's new contents are `Registered` of the old ones; the invariant is kept |
| SidebarRegistry.Registry.Delete | packages/core/src/components/atoms/sidebar/sidebar.tsx:320 | the new contents are `Deleted` of the old ones; the invariant is kept |
| SidebarRegistry.Registry.Get | packages/core/src/components/atoms/sidebar/sidebar.tsx:106-114 | returns the stored controls, or the error carrying the id and the present ids in order |
| SidebarRegistry.Registry.IsAvailable | packages/core/src/components/atoms/sidebar/sidebar.tsx:117-119 | true exactly when the id is present |
| SidebarRegistry.Registry.Refresh | packages/core/src/components/atoms/sidebar/sidebar.tsx:325-335 | the new contents are `Refreshed` of the old ones |
| SidebarWidth.UnitOf | packages/core/src/components/atoms/sidebar/sidebar.tsx:247 | a recognised unit is one of `rem`, `px`, `em`, read back from its own text |
| SidebarWidth.ParseLengthSound | packages/core/src/components/atoms/sidebar/sidebar.tsx:247 | every match of `^(\d+(?:\.\d+)?)(rem\|px\|em)$` is well formed and is exactly the text matched |
| SidebarWidth.ParseLengthComplete | packages/core/src/components/atoms/sidebar/sidebar.tsx:247 | every well-formed length text matches and gives back its parts (with ParseLengthSound, this is an iff) |
| SidebarWidth.ParseRejectsSignedOrEmpty | packages/core/src/components/atoms/sidebar/sidebar.tsx:247 | empty or signed texts never match |
| SidebarWidth.RemOfPx | packages/core/src/components/atoms/sidebar/sidebar.tsx:248-252 | a px width reads as its value divided by 16 |
| SidebarWidth.RemOfRemOrEm | packages/core/src/components/atoms/sidebar/sidebar.tsx:248-254 | an em or rem width reads as its value |
| SidebarWidth.RemOfUnmatched | packages/core/src/components/atoms/sidebar/sidebar.tsx:256 | a text that does not match (including empty and negative ones) reads as 16 |
| SidebarWidth.WidthConstants | packages/core/src/components/atoms/sidebar/sidebar.tsx:47-53 | the bound constants read as 12 and 32, the default width as 16 |
| SidebarWidth.ClampRem | packages/core/src/components/atoms/sidebar/sidebar.tsx:1154 | the resizer's clamp lands in [12, 32], is the identity inside it, and gives the bound outside it |
| SidebarWidth.StoredWidthClamped | packages/core/src/components/atoms/sidebar/sidebar.tsx:258-266 | `setSidebarWidth` always stores a rem width in [12, 32]: the clamp of the argument's value, read with the same parser as the bound constants |
| SidebarWidth.StoredWidthIdempotent | packages/core/src/components/atoms/sidebar/sidebar.tsx:242-266 | storing a stored width again changes nothing |
| SidebarWidth.StoredWidthKeepsInRange | packages/core/src/components/atoms/sidebar/sidebar.tsx:1154-1157 | a rem width already in range is stored unchanged, so the resizer's string passes through the setter intact |
| SidebarWidth.FirstRowWithPrefix | packages/core/src/components/atoms/sidebar/sidebar.tsx:234 | `find` returns the first row that starts with the prefix, or none |
| SidebarWidth.SingleRowValue | packages/core/src/components/atoms/sidebar/sidebar.tsx:232-235 | a cookie with the single row `key=value` gives `value` |
| SidebarWidth.PrefixRowMatchesOtherSidebar | packages/core/src/components/atoms/sidebar/sidebar.tsx:234 | as written, sidebar `id` reads the width row of sidebar `id + suffix`; with the full key compared, it reads nothing |
| SidebarWidth.ExactRowKeyDeterminesId | packages/core/src/components/atoms/sidebar/sidebar.tsx:234 | under full-key matching, a row names exactly one id: the text between `sidebar_width_` and the first `=` |
| SidebarWidth.ExactRowKeyUnique | packages/core/src/components/atoms/sidebar/sidebar.tsx:234 | under full-key matching, two ids never read the same row |
| SidebarWidth.HydratedWidth | packages/core/src/components/atoms/sidebar/sidebar.tsx:231-240 | the mount effect as written: the non-empty value of the first row that starts with `sidebar_width_<id>` replaces the width as it is; otherwise the width is unchanged |
| SidebarWidth.HydratedWidthExact | packages/core/src/components/atoms/sidebar/sidebar.tsx:231-240 | the corrected mount effect: the same, with the row's key `sidebar_width_<id>=` compared in full |
| SidebarWidth.HydrationAdoptsRow | packages/core/src/components/atoms/sidebar/sidebar.tsx:231-240 | under either read, the row under the sidebar's own key becomes its width |
| SidebarWidth.HydrationCrossesSidebars | packages/core/src/components/atoms/sidebar/sidebar.tsx:234-239 | as written, sidebar `id` adopts the width saved by sidebar `id + suffix`; with the full key it keeps its width |
| SidebarWidth.HydrationIsUnclamped | packages/core/src/components/atoms/sidebar/sidebar.tsx:237-239 | hydration bypasses the clamp: a saved `100rem` gives a width of 100 rem, above the maximum |
| SidebarProvider.Initial | packages/core/src/components/atoms/sidebar/sidebar.tsx:139-162 | a new provider is open as `defaultOpen`, closed on mobile, not resizing, with the default width, and with the setter ref not yet bound |
| SidebarProvider.Toggled | packages/core/src/components/atoms/sidebar/sidebar.tsx:185-203 | a toggle changes only the open flags |
| SidebarProvider.ToggleNegatesOnlyOne | packages/core/src/components/atoms/sidebar/sidebar.tsx:185-203 | on mobile only `openMobile` flips; on desktop only `open` flips, through the ref; before the ref is bound nothing changes |
| SidebarProvider.ToggleTwiceRestores | packages/core/src/components/atoms/sidebar/sidebar.tsx:185-203 | two toggles give back the starting state |
| SidebarProvider.ControlsOf | packages/core/src/components/atoms/sidebar/sidebar.tsx:309-314 | the published controls carry the open flag and its state |
| SidebarProvider.Provider.constructor | packages/core/src/components/atoms/sidebar/sidebar.tsx:139-162 | the fields start as `Initial` says |
| SidebarProvider.Provider.Toggle | packages/core/src/components/atoms/sidebar/sidebar.tsx:185-203 | the new state is `Toggled` of the old one |
| SidebarProvider.Provider.SetWidth | packages/core/src/components/atoms/sidebar/sidebar.tsx:242-270 | only the width changes, to `StoredWidth` of the argument: a rem width in [12, 32] |
| SidebarProvider.Provider.HydrateWidth | packages/core/src/components/atoms/sidebar/sidebar.tsx:231-240 | only the width changes, to the value found in the cookie |
| SidebarProvider.Provider.SetOpen | packages/core/src/components/atoms/sidebar/sidebar.tsx:164-177 | only `open` changes |
| SidebarProvider.Provider.BindOpenSetter | packages/core/src/components/atoms/sidebar/sidebar.tsx:180-182 | only the binding of the setter ref changes |
| SidebarProvider.Provider.Publish | packages/core/src/components/atoms/sidebar/sidebar.tsx:308-316 | the register effect registers the provider's controls under its id |
| SidebarProvider.Provider.Unpublish | packages/core/src/components/atoms/sidebar/sidebar.tsx:319-321 | the cleanup deletes the provider's id |
| SidebarProvider.Provider.RefreshIn | packages/core/src/components/atoms/sidebar/sidebar.tsx:325-335 | the refresh effect re-registers only while the id is registered |
| SidebarProvider.ResizedWidth | packages/core/src/components/atoms/sidebar/sidebar.tsx:1146-1155 | every width the resizer sets lies in [12, 32] |
| SidebarProvider.ResizeFollowsPointer | packages/core/src/components/atoms/sidebar/sidebar.tsx:1146-1155 | inside the bounds, a move of `d` px changes a left sidebar by `d/16` rem and a right one by `-d/16` rem; past the bounds it stops at the bound |
| SidebarProvider.ResizeSidesMirror | packages/core/src/components/atoms/sidebar/sidebar.tsx:1147-1150 | a right sidebar moved by `d` ends where a left one moved by `-d` does |
| SidebarProvider.ResizeFromDefault | packages/core/src/components/atoms/sidebar/sidebar.tsx:1129-1155 | from the default width, a 160px drag of a left sidebar lands on 26rem |
| SidebarProvider.Resizer.MouseDown | packages/core/src/components/atoms/sidebar/sidebar.tsx:1118-1140 | ignored when not draggable; otherwise starts dragging from the pointer and the current width's number, and sets resizing |
| SidebarProvider.Resizer.MouseMove | packages/core/src/components/atoms/sidebar/sidebar.tsx:1142-1174 | ignored unless dragging; otherwise the width becomes `ResizedWidth` |
| SidebarProvider.Resizer.MouseUp | packages/core/src/components/atoms/sidebar/sidebar.tsx:1176-1188 | the drag ends and resizing clears |
| SidebarTrigger.Resolve | packages/core/src/components/atoms/sidebar/sidebar.tsx:564-623 | ready exactly when inside the provider or registered; loading exactly when neither and under three retries; unavailable otherwise |
| SidebarTrigger.Title | packages/core/src/components/atoms/sidebar/sidebar.tsx:585-616 | a caller's `title` key wins on every button, an explicit `undefined` included; without the key, only the loading and not-found buttons carry a title, naming the sidebar |
| SidebarTrigger.Click | packages/core/src/components/atoms/sidebar/sidebar.tsx:645-660 | a click has an effect exactly on an enabled ready button (the caller's `disabled` wins over the button's own); it calls the caller's `onClick` first when there is one, then toggles its sidebar |
| SidebarTrigger.DefaultButtons | packages/core/src/components/atoms/sidebar/sidebar.tsx:585-660 | without caller attributes, only the ready button is enabled, it alone has no title, and its click is the optional `onClick` then the toggle |
| SidebarTrigger.CallerPropsWin | packages/core/src/components/atoms/sidebar/sidebar.tsx:595-657 | because `{...props}` comes last: a caller's `disabled` makes a ready trigger inert, a caller's title replaces the trigger's own (and an explicit `undefined` title removes it), and enabling a loading button still gives no handler |
| SidebarTrigger.RetriesExhausted | packages/core/src/components/atoms/sidebar/sidebar.tsx:579-622 | once three retries have run, an unregistered sidebar stays unavailable |
| SidebarTrigger.LateRegistrationResolves | packages/core/src/components/atoms/sidebar/sidebar.tsx:574-577 | a sidebar that registers late is found on the next render |
| SidebarTrigger.Trigger.Render | packages/core/src/components/atoms/sidebar/sidebar.tsx:561-600 | the view is `Resolve` over the live registry; each loading render schedules one retry timer |
| SidebarTrigger.Trigger.RetryTimerFires | packages/core/src/components/atoms/sidebar/sidebar.tsx:580-582 | the retry count goes up by one |
| SidebarCss.IdOf | packages/core/src/components/atoms/sidebar/sidebar.tsx:1288 | the id is the property name with the prefix removed |
| SidebarCss.CollectedMember | packages/core/src/components/atoms/sidebar/sidebar.tsx:1280-1293 | an id is collected exactly when some property passes the filter and names it |
| SidebarCss.CollectedNoDuplicates | packages/core/src/components/atoms/sidebar/sidebar.tsx:1289-1291 | collected ids never repeat |
| SidebarCss.CollectedExtends | packages/core/src/components/atoms/sidebar/sidebar.tsx:1280-1293 | scanning more properties only appends ids (first-seen order) |
| SidebarCss.GetAllSidebarIds | packages/core/src/components/atoms/sidebar/sidebar.tsx:1274-1296 | the loop returns the collected ids: duplicate-free, first-seen order, exactly the non-empty ids of the width properties that pass the filter |
| SidebarCss.MarkedIdsAreMissed | packages/core/src/components/atoms/sidebar/sidebar.tsx:1282-1287 | a sidebar whose id contains `-px` is never listed |
| SidebarCss.PrefixedIdsAreMissed | packages/core/src/components/atoms/sidebar/sidebar.tsx:1282-1288 | the prefix ends in `-`, so an id that merely starts with `px`, `vw` or `icon-` is never listed either |
| SidebarCss.Trim | packages/core/src/components/atoms/sidebar/sidebar.tsx:1254 | the trimmed value has no white space at either end and holds only characters of the input |
| SidebarCss.TrimPadded | packages/core/src/components/atoms/sidebar/sidebar.tsx:1254 | white space `a` and `b` around a text `t` that neither starts nor ends with white space: trimming `a + t + b` gives exactly `t` |
| SidebarCss.GetSidebarState | packages/core/src/components/atoms/sidebar/sidebar.tsx:1261-1264 | expanded exactly when the trimmed variable is `expanded` |
| SidebarCss.ReadersRecoverState | packages/core/src/components/atoms/sidebar/sidebar.tsx:346-350 | the readers return the state, open and mobile values the provider's effect wrote |
| StackNavigator.Initial | packages/core/src/components/organisms/StackNavigator/StackNavigator.tsx:45-49 | the initial state satisfies the stack invariant |
| StackNavigator.CurrentScreen | packages/core/src/components/organisms/StackNavigator/StackNavigator.tsx:163-166 | the current screen is always on the stack |
| StackNavigator.TransitionsKeepInv | packages/core/src/components/organisms/StackNavigator/StackNavigator.tsx:56-128 | push, pop, the frame timer and cleanup keep the stack non-empty and a pending screen on top of a stack of at least two |
| StackNavigator.PushAppends | packages/core/src/components/organisms/StackNavigator/StackNavigator.tsx:63-70 | a push appends exactly the id, makes it pending and leaves the animating list |
| StackNavigator.PopRemovesLast | packages/core/src/components/organisms/StackNavigator/StackNavigator.tsx:84-98 | a pop on a stack of two or more removes exactly the top, hands it to the animating list and clears pending; on a stack of one it changes nothing |
| StackNavigator.PushThenPop | packages/core/src/components/organisms/StackNavigator/StackNavigator.tsx:56-98 | a pop right after a push gives back the stack, and the pushed screen animates out |
| StackNavigator.CleanupOnlyAnimating | packages/core/src/components/organisms/StackNavigator/StackNavigator.tsx:101-108 | the cleanup timer removes every copy of the popped id from the animating list and changes nothing else |
| StackNavigator.PushShowsAfterFrame | packages/core/src/components/organisms/StackNavigator/StackNavigator.tsx:74-79 | during the frame the old top stays current; after it, the pushed screen is current |
| StackNavigator.PushEmptyIdIsCurrentAtOnce | packages/core/src/components/organisms/StackNavigator/StackNavigator.tsx:164-166 | a pushed `""` is falsy as pending, so it is current at once |
| StackNavigator.CanGoBackIffPopChanges | packages/core/src/components/organisms/StackNavigator/StackNavigator.tsx:167 | `canGoBack` holds exactly when a pop would change the stack |
| StackNavigator.Navigator.Push | packages/core/src/components/organisms/StackNavigator/StackNavigator.tsx:56-82 | the new state is `Pushed`; the frame timer is armed; `onStackChange` receives the new stack |
| StackNavigator.Navigator.Pop | packages/core/src/components/organisms/StackNavigator/StackNavigator.tsx:84-112 | the new state is `Popped`; a real pop notifies and schedules the cleanup of the popped id |
| StackNavigator.Navigator.Reset | packages/core/src/components/organisms/StackNavigator/StackNavigator.tsx:115-128 | back to the initial stack; the frame timer is cancelled and `[initialScreen]` is notified |
| StackNavigator.Navigator.FrameTimerFires | packages/core/src/components/organisms/StackNavigator/StackNavigator.tsx:74-79 | the pending screen clears |
| StackNavigator.Navigator.CleanupTimerFires | packages/core/src/components/organisms/StackNavigator/StackNavigator.tsx:101-108 | the timer's id leaves the animating list |
| StackNavigator.Navigator.VisibilityChanged | packages/core/src/components/organisms/StackNavigator/StackNavigator.tsx:131-160 | leaving the viewport resets the stack when `resetOnHidden` is set; otherwise nothing changes |
| StackNavigator.Navigator.Derived | packages/core/src/components/organisms/StackNavigator/StackNavigator.tsx:163-167 | `currentScreen` and `canGoBack` as exposed |
| StackScreen.IndexOf | packages/core/src/components/organisms/StackNavigator/StackScreen.tsx:29-30 | `indexOf` gives the first position of the id, or -1 exactly when it is absent |
| StackScreen.Place | packages/core/src/components/organisms/StackNavigator/StackScreen.tsx:36-38 | a screen is rendered exactly when it is on the stack or animating |
| StackScreen.TransformRule | packages/core/src/components/organisms/StackNavigator/StackScreen.tsx:41-51 | animating and pending screens sit right; otherwise below-current sits left, current in the middle, above-current right |
| StackScreen.VisibleIffSettledCurrent | packages/core/src/components/organisms/StackNavigator/StackScreen.tsx:55 | visible exactly when the screen is current, on the stack, not pending and not animating |
| StackScreen.ZIndexRule | packages/core/src/components/organisms/StackNavigator/StackScreen.tsx:57 | z-index is the stack position plus one, or 1000 for a screen only animating out |
| StackScreen.AtMostCurrentVisible | packages/core/src/components/organisms/StackNavigator/StackScreen.tsx:33-55 | only the navigator's current screen can be visible |
| StackScreen.PushedScreenSlidesIn | packages/core/src/components/organisms/StackNavigator/StackScreen.tsx:43-57 | a pushed screen is off to the right and hidden during the frame, then centred and visible |
| StackScreen.VisibilityCallback | packages/core/src/components/organisms/StackNavigator/StackScreen.tsx:62-75 | `onShown` exactly on hidden-to-visible, `onHidden` exactly on visible-to-hidden, nothing otherwise |
| StackScreen.CallbacksAlternate | packages/core/src/components/organisms/StackNavigator/StackScreen.tsx:62-75 | over any run of renders the callbacks alternate, starting with `onShown` from hidden |
| StackScreen.VisibilityTracker.Observe | packages/core/src/components/organisms/StackNavigator/StackScreen.tsx:62-75 | fires `VisibilityCallback` of the remembered and new visibility, then remembers the new one |
| MagicDrawer.Breakpoints | packages/core/src/components/organisms/magic-drawer/magic-drawer.tsx:32 | the breakpoint list is never empty: the given sizes, or `[height]` |
| MagicDrawer.ClampIndex | packages/core/src/components/organisms/magic-drawer/magic-drawer.tsx:58 | the clamped index is in range, equals an in-range request, and gives the nearer end otherwise |
| MagicDrawer.Initial | packages/core/src/components/organisms/magic-drawer/magic-drawer.tsx:34-38 | the initial index is in range |
| MagicDrawer.ActionOf | packages/core/src/components/organisms/magic-drawer/magic-drawer.tsx:143-157 | `open` and `close` select those actions; anything else, missing or empty included, toggles |
| MagicDrawer.WithIndexClamps | packages/core/src/components/organisms/magic-drawer/magic-drawer.tsx:56-70 | `setBreakpointIndex` stores the clamped index and its size, keeps the open flag, and reports both |
| MagicDrawer.WithIndexIdempotent | packages/core/src/components/organisms/magic-drawer/magic-drawer.tsx:56-70 | setting the same index twice is setting it once |
| MagicDrawer.MovesStayInRange | packages/core/src/components/organisms/magic-drawer/magic-drawer.tsx:72-87 | next and previous move one step inside the range and do nothing at the ends |
| MagicDrawer.NextThenPrevious | packages/core/src/components/organisms/magic-drawer/magic-drawer.tsx:72-87 | next then previous returns to the same breakpoint and size |
| MagicDrawer.OpenRule | packages/core/src/components/organisms/magic-drawer/magic-drawer.tsx:89-111 | opening a closed drawer picks the first breakpoint, or the last under auto-jump, and fires `onOpen` first; on an open drawer it does nothing |
| MagicDrawer.CloseIdempotent | packages/core/src/components/organisms/magic-drawer/magic-drawer.tsx:113-121 | closing changes only the open flag, fires `onClose` only when open, and a second close does nothing |
| MagicDrawer.ToggleKeepsBreakpoint | packages/core/src/components/organisms/magic-drawer/magic-drawer.tsx:123-133 | toggling flips only the open flag, and two toggles cancel |
| MagicDrawer.ToggleOpenKeepsIndex | packages/core/src/components/organisms/magic-drawer/magic-drawer.tsx:89-133 | toggling a closed drawer open keeps its breakpoint, whereas `openDrawer` resets it |
| MagicDrawer.TriggerDispatch | packages/core/src/components/organisms/magic-drawer/magic-drawer.tsx:143-157 | a trigger click opens, closes or toggles by its action attribute |
| MagicDrawer.AutoJumpRule | packages/core/src/components/organisms/magic-drawer/magic-drawer.tsx:178-195 | the auto-jump effect fires exactly under its four conditions, lands on the last breakpoint, and a second run does nothing |
| MagicDrawer.ApplyReleaseInRange | packages/core/src/components/organisms/magic-drawer/magic-drawer.tsx:214-223 | a gesture's release keeps the index in range |
| MagicDrawer.Drawer.constructor | packages/core/src/components/organisms/magic-drawer/magic-drawer.tsx:32-38 | the drawer starts at the first breakpoint's size with `defaultOpen` |
| MagicDrawer.Drawer.SetHeight | packages/core/src/components/organisms/magic-drawer/magic-drawer.tsx:49-54 | only the height changes |
| MagicDrawer.Drawer.SetBreakpointIndex | packages/core/src/components/organisms/magic-drawer/magic-drawer.tsx:56-70 | state and events are `WithIndex` |
| MagicDrawer.Drawer.MoveToNextBreakpoint | packages/core/src/components/organisms/magic-drawer/magic-drawer.tsx:72-80 | state and events are `MoveNext` |
| MagicDrawer.Drawer.MoveToPreviousBreakpoint | packages/core/src/components/organisms/magic-drawer/magic-drawer.tsx:82-87 | state and events are `MovePrevious` |
| MagicDrawer.Drawer.OpenDrawer | packages/core/src/components/organisms/magic-drawer/magic-drawer.tsx:89-111 | state and events are `Open` |
| MagicDrawer.Drawer.CloseDrawer | packages/core/src/components/organisms/magic-drawer/magic-drawer.tsx:113-121 | state and events are `Close` |
| MagicDrawer.Drawer.ToggleDrawer | packages/core/src/components/organisms/magic-drawer/magic-drawer.tsx:123-133 | state and events are `Toggle` |
| MagicDrawer.Drawer.HandleTriggerClick | packages/core/src/components/organisms/magic-drawer/magic-drawer.tsx:136-163 | state and events are the dispatch of the action attribute |
| MagicDrawer.Drawer.HandleKeyDown | packages/core/src/components/organisms/magic-drawer/magic-drawer.tsx:166-175 | Escape closes an open drawer; any other key does nothing |
| MagicDrawer.Drawer.AutoJumpEffect | packages/core/src/components/organisms/magic-drawer/magic-drawer.tsx:178-195 | state and events are `AutoJump` |
| MagicDrawer.Drawer.Release | packages/core/src/components/organisms/magic-drawer/magic-drawer.tsx:214-223 | a release decision goes to `setBreakpointIndex` or `closeDrawer` |
| DragToClose.DirectionsExclusive | packages/core/src/components/organisms/MagicDrawer/useDragToClose.ts:42-69 | a non-zero delta is exactly one of expanding and collapsing; zero is neither |
| DragToClose.DirectionsMirror | packages/core/src/components/organisms/MagicDrawer/useDragToClose.ts:42-69 | negating the delta swaps expanding and collapsing |
| DragToClose.OffsetRule | packages/core/src/components/organisms/MagicDrawer/useDragToClose.ts:72-101 | the offset is `-\|delta\|` exactly when expanding towards an existing larger breakpoint, `\|delta\|` exactly when collapsing, else 0; it is never negative with one breakpoint |
| DragToClose.ShortReleaseStays | packages/core/src/components/organisms/MagicDrawer/useDragToClose.ts:161 | a release within the threshold asks for nothing |
| DragToClose.ExpandingReleaseRule | packages/core/src/components/organisms/MagicDrawer/useDragToClose.ts:162-169 | an expanding release never closes, and moves up one only past the threshold with a larger breakpoint |
| DragToClose.CollapsingReleaseRule | packages/core/src/components/organisms/MagicDrawer/useDragToClose.ts:170-186 | a collapsing release past the threshold closes at the first breakpoint, and at the last under auto-jump; otherwise it goes down one |
| DragToClose.ReleaseTargetInRange | packages/core/src/components/organisms/MagicDrawer/useDragToClose.ts:161-186 | a requested breakpoint is in range and differs from the current one |
| DragToClose.DragToCloseHook.VisibilityChanged | packages/core/src/components/organisms/MagicDrawer/useDragToClose.ts:34-39 | hiding resets the offset and the drag |
| DragToClose.DragToCloseHook.Start | packages/core/src/components/organisms/MagicDrawer/useDragToClose.ts:103-120 | ignored while hidden; otherwise records the axis start and current and starts dragging |
| DragToClose.DragToCloseHook.Move | packages/core/src/components/organisms/MagicDrawer/useDragToClose.ts:122-147 | ignored unless dragging and visible; otherwise updates the axis current and the offset |
| DragToClose.DragToCloseHook.End | packages/core/src/components/organisms/MagicDrawer/useDragToClose.ts:149-191 | ignored unless dragging; otherwise returns the release decision for the axis delta, ends the drag and zeroes the offset |
| GlobalDrag.TransitionsKeepLatched | packages/core/src/components/organisms/MagicDrawer/useGlobalDragGestures.ts:210-230 | during a drag, every transition (both press variants, move, release, hide) keeps each latch on whenever the last measured distance is past its bound (15px for `active`, 40px for `hadGesture`) |
| GlobalDrag.LatchesAreSticky | packages/core/src/components/organisms/MagicDrawer/useGlobalDragGestures.ts:218-230 | during a drag a latch, once on, stays on; a move sets it exactly when it was on or the distance passes its bound |
| GlobalDrag.TapLatchesNothing | packages/core/src/components/organisms/MagicDrawer/useGlobalDragGestures.ts:213-230 | with the full press recorded, a move within 15px of it latches nothing |
| GlobalDrag.ReleaseIsGated | packages/core/src/components/organisms/MagicDrawer/useGlobalDragGestures.ts:257-282 | a release changes the drawer only for an active gesture past the threshold, and then follows the shared release table |
| GlobalDrag.ReleaseResets | packages/core/src/components/organisms/MagicDrawer/useGlobalDragGestures.ts:284-316 | after a release nothing is dragging or active and the offset is 0; `hadGesture` and its 50ms timer remain exactly when the last distance exceeded 40px |
| GlobalDrag.HiddenResets | packages/core/src/components/organisms/MagicDrawer/useGlobalDragGestures.ts:44-52 | hiding clears the offset, the drag, both latches and the start element, and lets clicks through |
| GlobalDrag.StaleStartSwallowsTap | packages/core/src/components/organisms/MagicDrawer/useGlobalDragGestures.ts:176-182 | as written, a one-pixel wobble far from x = 0 on a bottom drawer latches both flags and swallows the next click; with the full press recorded it latches nothing |
| GlobalDrag.InteractiveIff | packages/core/src/components/organisms/MagicDrawer/useGlobalDragGestures.ts:85-128 | an element is interactive exactly when its tag, role, handler or focusability, or marker says so |
| GlobalDrag.EveryDivIsInteractive | packages/core/src/components/organisms/MagicDrawer/useGlobalDragGestures.ts:86-93 | every `div` counts as interactive |
| GlobalDrag.GlobalDragHook.VisibilityChanged | packages/core/src/components/organisms/MagicDrawer/useGlobalDragGestures.ts:44-52 | hiding applies `Hidden` |
| GlobalDrag.GlobalDragHook.Start | packages/core/src/components/organisms/MagicDrawer/useGlobalDragGestures.ts:160-194 | only when visible, enabled and inside the content: starts a drag with both latches off and the distance 0, recording the start and current coordinate of the drag axis only (`StartedAsWritten`) |
| GlobalDrag.GlobalDragHook.Move | packages/core/src/components/organisms/MagicDrawer/useGlobalDragGestures.ts:196-242 | the new state is `Moved` |
| GlobalDrag.GlobalDragHook.End | packages/core/src/components/organisms/MagicDrawer/useGlobalDragGestures.ts:244-325 | the new state and the decision are `Released`; a far drag leaves one more `hadGesture` timer |
| GlobalDrag.GlobalDragHook.HadGestureTimerFires | packages/core/src/components/organisms/MagicDrawer/useGlobalDragGestures.ts:311-313 | the timer clears `hadGesture` |
| GlobalDrag.GlobalDragHook.ClickIsSuppressed | packages/core/src/components/organisms/MagicDrawer/useGlobalDragGestures.ts:544-555 | a click is swallowed exactly while a latch or the drag is on |
| SpaceDetection.AvailableSpace | packages/core/src/components/organisms/magic-drawer/hooks/useSpaceDetection.ts:50-63 | the window height for top and bottom drawers, the width for left and right ones |
| SpaceDetection.RootFontSize | packages/core/src/components/organisms/magic-drawer/hooks/useSpaceDetection.ts:33-38 | never 0: a parsed non-zero size is kept; NaN and 0 fall back to 16 |
| SpaceDetection.Calculate | packages/core/src/components/organisms/magic-drawer/hooks/useSpaceDetection.ts:66-86 | disabled gives `{false, 0, 0}`; enabled gives the available space, with the rems times the font size equal to it |
| SpaceDetection.AutoJumpBelow500 | packages/core/src/components/organisms/magic-drawer/hooks/useSpaceDetection.ts:75-79 | for a positive font size, auto-jump holds exactly when fewer than 500 pixels are available |
| SpaceDetection.FallbackFontIs16 | packages/core/src/components/organisms/magic-drawer/hooks/useSpaceDetection.ts:37-45 | with the fallback font, the rems are the pixels over 16 and auto-jump is the 500px rule |
| SpaceDetection.SpaceDetector.constructor | packages/core/src/components/organisms/magic-drawer/hooks/useSpaceDetection.ts:26-30 | the result starts as `{false, 0, 0}` |
| SpaceDetection.SpaceDetector.WindowChanged | packages/core/src/components/organisms/magic-drawer/hooks/useSpaceDetection.ts:89-114 | recomputes only when enabled; disabled detection keeps the initial result |
| SpaceDetection.SpaceDetector.OpenChanged | packages/core/src/components/organisms/magic-drawer/hooks/useSpaceDetection.ts:117-122 | recomputes only when open and enabled |
| FileUtils.ExtensionAfterLastDot | packages/core/src/components/organisms/FileTree/fileUtils.ts:2-4 | the extension is the lower-cased text after the last `.` |
| FileUtils.ExtensionWithoutDot | packages/core/src/components/organisms/FileTree/fileUtils.ts:3 | a name without a `.` gives the whole name lower-cased |
| FileUtils.ExtensionAfterTrailingDot | packages/core/src/components/organisms/FileTree/fileUtils.ts:3 | a name ending in `.` gives `''` |
| FileUtils.ExtensionIsDotFreeLower | packages/core/src/components/organisms/FileTree/fileUtils.ts:3 | the extension never holds a `.` and is already lower case |
| FileUtils.ExtensionIgnoresCase | packages/core/src/components/organisms/FileTree/fileUtils.ts:3 | names equal up to letter case have the same extension |
| FileUtils.SplitConcat | packages/core/src/components/organisms/FileTree/fileUtils.ts:3 | splitting `a.b` on `.` is splitting `a` and `b` apart |
| FileUtils.SplitPiecesAvoid | packages/core/src/components/organisms/FileTree/fileUtils.ts:3 | no piece of a split holds the separator |
| FileUtils.FileIcon | packages/core/src/components/organisms/FileTree/fileUtils.ts:16-34 | the icon is a glyph of the table or the default page glyph |
| FileUtils.IconTable | packages/core/src/components/organisms/FileTree/fileUtils.ts:18-33 | a listed extension gets its glyph; any other gets the default |
| FileUtils.IconMapEntries | packages/core/src/components/organisms/FileTree/fileUtils.ts:18-32 | the table has the thirteen listed entries with their glyphs, all non-empty |
| FileUtils.IconIgnoresCase | packages/core/src/components/organisms/FileTree/fileUtils.ts:17 | the icon does not depend on the case of the name |
| FileUtils.FileIconAsWritten | packages/core/src/components/organisms/FileTree/fileUtils.ts:33 | the object lookup yields an inherited member exactly for an unlisted extension naming one |
| FileUtils.InheritedMemberHasNoGlyph | packages/core/src/components/organisms/FileTree/fileUtils.ts:33 | as written, `x.constructor` and `x.__proto__` get the inherited member, not a glyph; with own keys only, they get the default |
| FileUtils.AsWrittenAgreesOffPrototype | packages/core/src/components/organisms/FileTree/fileUtils.ts:33 | off those names the two lookups agree |
| FileUtils.FormatFileSize | packages/core/src/components/organisms/FileTree/fileUtils.ts:8 | zero bytes is `0 B` |

## Left out

- MagicDrawer.Drawer.Release: `magic-drawer-content.tsx` and `useDrawerAnimator.ts` import the hook copies under `magic-drawer/hooks/`, which are not part of this model; the release decision assumes those copies decide as the modelled `MagicDrawer/` hooks do.
- Controlled mode of `SidebarProvider` (`open`/`onOpenChange` props, sidebar.tsx:143-172): the model covers the uncontrolled provider only.
- Cookie writes (`sidebar_state_<id>`, `sidebar_width_<id>`) are out: they are I/O. Only the width read on mount is modelled. The open-state cookie `sidebar_state_<id>` is written at sidebar.tsx:174 and never read, so `open` starts at `defaultOpen` (sidebar.tsx:139, 162).
- The `-px` and `-vw` CSS variables and the other `setProperty` writes are out: they are floating-point string formatting. The model writes only the state, open and mobile variables that the readers consume. `getSidebarWidth` is the generic reader with `width`.
- The keyboard shortcut listener, and adding and removing event listeners: I/O wiring.
- The resizer's `querySelector` and inline-style patching, and the cursor and user-select styles: DOM writes.
- `toggleSidebar is falsy` and `is not a function` in the trigger (sidebar.tsx:627-642): they cannot happen once the controls come from a provider, so the model drops them.
- `useSidebar`/`getSidebarContext` throwing outside a provider: itself modelled only as `insideProvider` in `SidebarTrigger.Resolve`.
- Stale closures of React hooks, and the batching of state updates: each action sees committed state.
- `GlobalDrag`: `Date.now` (`dragStartTime` is written but never read), `preventDefault`/`stopPropagation`, the `data-drag-started` attribute and the `__preventClick` listener, and the 150ms and 300ms pointer-event timers. These are DOM bookkeeping. Click suppression is modelled as the `handleGlobalInteraction` predicate.
- `GlobalDrag.Moved`: `Math.sqrt` is replaced by comparing squared distances with 225 and 1600, which is equivalent for the non-negative distances involved.
- `DragToClose`: `startOffset` is written but never read, so it is not modelled.
- `formatFileSize` for non-zero sizes (`Math.log`, `toFixed`): floating point. `FileUtils.FormatFileSize` answers `None` for those.
- `FileUtils.FileExtension`: `toLowerCase` is modelled for ASCII letters only; other letters are kept as they are.
- `SidebarCss.Trim`: only ASCII white space is trimmed.
- `SpaceDetection`: the window size and the parsed root font size are parameters; `getComputedStyle` is not modelled.
- JavaScript numbers are exact reals here: double rounding (for example in `v / 16` or in printing `${v}rem`) is not modelled.
- Other organisms (`isDrawerOpen`, `getDrawerIds`, `createDynamicTrigger`, `useDrawerAnimator`), JSX rendering, class strings and variants are not part of this model.

## Findings

The classes `Provider` and `GlobalDragHook` run the code as written (`HydratedWidth`, `StartedAsWritten`). The corrected definitions `HydratedWidthExact` and `Started` stand beside them, and the intended property is proved about each. For the icon, `FileIconAsWritten` is the object lookup as written, and `FileIcon` is the own-key lookup; the two agree on every extension except `constructor` and `__proto__`.

| source | as written | input that shows it | evidently intended | confidence | as-written member | corrected member |
|---|---|---|---|---|---|---|
| packages/core/src/components/atoms/sidebar/sidebar.tsx:234 | the cookie row is found with `row.startsWith('sidebar_width_' + id)` | sidebars `a` and `ab`, cookie `sidebar_width_ab=20rem`: sidebar `a` adopts `20rem` | match the full key `sidebar_width_<id>=` | not executed | SidebarWidth.PrefixRowMatchesOtherSidebar | SidebarWidth.ExactRowKeyUnique |
| packages/core/src/components/organisms/MagicDrawer/useGlobalDragGestures.ts:176-182 | a press records only the drag axis's start, but the move distance (lines 213-216) uses both `startX` and `startY` | bottom drawer, `startX` still 0, press at (300, 500) then a move to (300, 501): the distance is 300, both latches set, the following click is swallowed | record both coordinates of the press | not executed | GlobalDrag.StaleStartSwallowsTap | GlobalDrag.TapLatchesNothing |
| packages/core/src/components/organisms/FileTree/fileUtils.ts:33 | `iconMap[ext]` on an object literal also finds inherited `Object.prototype` members (same at file-tree/file-tree.types.ts:88) | `report.constructor`: the result is the `Object` function, not a string | look up own keys only and fall back to the page glyph | not executed | FileUtils.FileIconAsWritten | FileUtils.InheritedMemberHasNoGlyph |
