# Peek Top Bar: a Dafny model of the hot edge and panel reveal logic

Peek Top Bar is a GNOME Shell extension. Over a fullscreen window it lets the user reveal the
top panel by pushing the pointer against the top edge of the primary monitor. The panel hides
again once the pointer leaves it. This project models the extension's decision layer, all of
which lives in `extension.js`:

- `hot_edge.dfy` (module `HotEdge`): the `PeekHotEdge` actor as a class. It holds the
  active flag and the slot for the panel leave-event handler id. Its events are methods:
  pressure trigger, panel leave, the hover fallback's enter and leave, the unguarded
  deactivation, and destroy. What the edge does to the world goes into an effect log: each
  trigger-action and leave-action invocation, and each handler connected on or disconnected
  from the panel. The edge's geometry and barrier line are functions of the monitor.
- `panel_manager.dfy` (module `PanelManager`): `WaylandPanelManager` as a class over the
  panel box (`visible`, `translation_y`, `height`). It also keeps the invisible menu's open
  flag and the list of `open()`/`close()` calls made on that menu. Each ease is modelled by
  the value it ends at.
- `status_area.dfy` (module `StatusArea`): `isAnyPanelMenuOpen` and `toggleAnyIndicator` over
  the sequence of status-area indicators. An indicator may have no menu.
- `leave_policy.dfy` (module `LeavePolicy`): the fullscreen/overview test of the trigger and
  leave closures of `setupHotEdge`, as pure functions. `Choose` is that test for one reading
  of the flags. `Leave` applies it twice: once when the leave action runs, and once when the
  200 ms delay expires, with the flags read again. Its outcome says whether `hidePanel` is
  called; `hidePanel`'s completion reads the fullscreen flag a third time.
- `peek_top_bar.dfy` (module `PeekTopBar`): the wiring. It connects the edge's callbacks to the
  closures, models the pending settle decisions of the delay, and models the idle callback
  that runs after a status-area menu opens or closes.

Everything the shell supplies is a parameter of the step that reads it: the fullscreen and
overview flags, the status area, and whether the pointer is over the panel or the edge.

Three properties hold in the model and are worth knowing:

- The edge's `_deactivate` has no guard, and the menu idle callback calls it directly. So the
  leave action can run on an edge that is already idle. `Deactivate` states that the
  trigger/leave alternation survives exactly when the edge was active. `LeaveActionOnIdleEdge`
  shows a fresh edge whose only callback is a leave action. Outside fullscreen, that leave
  action toggles the first closed status-area menu open and closed again
  (`IdleCallbackTogglesMenuOnIdleEdge`). Each of those toggles is a menu open-state change,
  and such a change is what schedules the idle callback. The model does not follow signals,
  so it does not decide whether this repeats.
- A settle decision is not cancelled by a new trigger. If a fullscreen leave schedules one and
  the edge is triggered again within the 200 ms, the old decision still calls `hidePanel`.
  The panel is then hidden while the edge stays active, and further pressure is ignored
  until a panel leave (`StaleSettleHidesPanelOfActiveEdge`).
- While the edge lives, it is active exactly when its handler slot is filled, and that handler
  is its only one on the panel (`PeekHotEdge.Valid`). So the inner
  `if (!this._panelLeaveHandlerId)` test of `_onPressureTrigger` always passes.

## Notes on the code

- Leaving is the panel's `leave-event` together with a pointer hit test: the edge lets go when
  the pointer is over neither the panel nor the edge and no status-area menu is open.
- Pressure is accumulated by the shell's `Layout.PressureBarrier`, which the edge creates with
  threshold 150 and timeout 1000 and whose `trigger` signal calls `_onPressureTrigger`.
- `destroy` does not clear the handler slot, so a second `destroy` disconnects the same id
  again (`DestroyTwiceDisconnectsStaleId`).

## Model

| member | source | states |
|---|---|---|
| StatusArea.AnyPanelMenuOpen | extension.js:216-219 | true exactly when some indicator has a menu that is open |
| StatusArea.ClosedPositions | extension.js:223 | the filter keeps exactly the indicators whose menu exists and is closed, in enumeration order |
| StatusArea.FirstClosedTwice | extension.js:221-228 | no toggle when no menu is closed; otherwise two toggles, both of the first indicator with a closed menu |
| StatusArea.ToggleAnyIndicator | extension.js:221-228 | toggles the first closed menu twice (FirstClosedTwice); between the toggles the status area is the input with that one menu flipped open, so a menu is open; afterwards every indicator is as it was |
| LeavePolicy.Choose | extension.js:281-291 | chooses to dismiss exactly when the monitor is fullscreen and the overview is not showing, and otherwise to toggle an indicator |
| LeavePolicy.Leave | extension.js:280-293 | hidePanel is called exactly when both readings (at the leave and at expiry) are fullscreen without overview; a toggle comes at once exactly when the first reading is not |
| LeavePolicy.DeferredLeaveReadsLiveFlags | extension.js:286-292 | once deferred, the outcome depends only on the flags read at expiry |
| LeavePolicy.LeaveOutsideFullscreenTogglesAtOnce | extension.js:281-284 | a leave outside fullscreen toggles at once, whatever comes later |
| LeavePolicy.HideOnlyWhereTriggerShows | extension.js:276-292 | hidePanel is called only under flags where a trigger would show the panel |
| HotEdge.EdgeRect | extension.js:19-30 | the edge actor spans the monitor's full width at its top, one pixel high |
| HotEdge.BarrierAlong | extension.js:60-70 | the barrier is horizontal at the actor's y and as wide as the actor |
| HotEdge.PeekHotEdge.constructor | extension.js:19-74 | a new edge is idle with an empty handler slot; it has a barrier along its top only when the backend supports barriers |
| HotEdge.PeekHotEdge.ConnectPanelLeave | extension.js:81-83 | connecting on the panel yields a fresh positive id and records it |
| HotEdge.PeekHotEdge.OnPressureTrigger | extension.js:76-85 | an idle edge becomes active, invokes the trigger action once and connects one leave handler; an active edge changes nothing; the trigger/leave alternation is kept |
| HotEdge.PeekHotEdge.OnEnterFallback | extension.js:97-99 | the hover enter event behaves as a pressure trigger |
| HotEdge.PeekHotEdge.OnPanelLeave | extension.js:87-95 | deactivates exactly when the pointer is over neither panel nor edge, the edge is active and no menu is open; otherwise nothing changes |
| HotEdge.PeekHotEdge.OnLeaveFallback | extension.js:101-103 | the hover leave event behaves as a panel leave |
| HotEdge.PeekHotEdge.Deactivate | extension.js:105-113 | leaves the edge idle with an empty slot and no handler; invokes the leave action once in every case; keeps the alternation exactly when the edge was active |
| HotEdge.PeekHotEdge.Destroy | extension.js:115-132 | disconnects the handler and removes the barrier, but keeps the stale id in the slot and the active flag as they were; the id it disconnects is still connected exactly on the first destroy |
| HotEdge.DestroyTwiceDisconnectsStaleId | extension.js:115-117 | destroying an active edge twice disconnects the same id twice, the second time when it is no longer connected |
| HotEdge.LeaveActionOnIdleEdge | extension.js:259-262 | deactivating a fresh edge directly yields a lone leave action, which breaks the alternation |
| HotEdge.TriggerThenLeave | extension.js:76-95 | trigger, repeated trigger, then leave give one trigger action and one leave action, and no handler is left connected |
| PanelManager.WaylandPanelManager.constructor | extension.js:138-155 | the invisible menu starts closed, with no calls made; its button is in the panel |
| PanelManager.WaylandPanelManager.OpenInvisibleMenu | extension.js:157-160 | the menu ends open; open() is called only on a closed menu |
| PanelManager.WaylandPanelManager.CloseInvisibleMenu | extension.js:162-165 | the menu ends closed; close() is called only on an open menu |
| PanelManager.WaylandPanelManager.ShowPanel | extension.js:167-181 | the invisible menu ends open, with open() called only if it was closed; the panel ends visible at translation 0 |
| PanelManager.WaylandPanelManager.HidePanel | extension.js:183-205 | out of fullscreen at completion, the panel returns to translation 0 with its visibility and the menu untouched; otherwise it ends invisible at translation 0 with the menu closed |
| PanelManager.WaylandPanelManager.Dispose | extension.js:207-213 | closes and destroys the menu, removes its button, leaves the panel visible at translation 0 |
| PanelManager.OpenCloseIdempotent | extension.js:157-165 | opening twice calls open() once; closing twice calls close() once |
| PanelManager.ShowThenHide | extension.js:167-205 | a show followed by a hide that completes in fullscreen leaves the panel hidden at rest, after exactly one open() and one close() |
| PeekTopBar.Extension.constructor | extension.js:248-252 | enabling gives a panel manager with a closed menu and an idle edge with no effects |
| PeekTopBar.Extension.RunTriggerAction | extension.js:276-279 | the panel is shown when the monitor is fullscreen and is untouched otherwise |
| PeekTopBar.Extension.ApplyToggleAnyIndicator | extension.js:282 | records the toggles toggleAnyIndicator makes |
| PeekTopBar.Extension.RunLeaveAction | extension.js:280-293 | toggles at once when Choose says toggle; otherwise schedules one settle decision and toggles nothing |
| PeekTopBar.Extension.SettleExpires | extension.js:286-292 | consumes one pending decision; on a fresh reading, either toggles and leaves the panel alone, or hides the panel as HidePanel does |
| PeekTopBar.Extension.PressureTrigger | extension.js:76-85 | an idle edge is triggered, fills its slot with a fresh handler id, and the panel is shown (with open() called only on a closed menu) only in fullscreen; on an active edge nothing changes |
| PeekTopBar.Extension.PanelLeave | extension.js:87-95 | when the edge lets go, its effects gain the leave action and the disconnect of the leave handler, in that order, the id counter is untouched, and the leave closure runs; otherwise nothing changes |
| PeekTopBar.Extension.MenuStateChangedIdle | extension.js:258-264 | when no menu is open and the pointer is off the panel, the edge is deactivated whatever its state: its effects gain the leave action and, if a leave handler was connected, its disconnect; the id counter is untouched; the leave closure runs; otherwise nothing changes |
| PeekTopBar.StaleSettleHidesPanelOfActiveEdge | extension.js:286-292 | leave, re-trigger within the delay, then the old settle decision: the panel ends hidden while the edge is active |
| PeekTopBar.RevealDismissCycle | extension.js:76-95 | trigger, leave and settle in fullscreen make exactly one open() and one close() and leave the panel hidden at rest; a later trigger connects a handler with a new id |
| PeekTopBar.IdleCallbackThenTriggerUsesNewId | extension.js:258-264 | trigger, idle callback, trigger outside fullscreen: the idle callback disconnects the handler the first trigger connected, and the second trigger connects one with a different id |
| PeekTopBar.IdleCallbackTogglesMenuOnIdleEdge | extension.js:258-264 | outside fullscreen, on an idle edge, the idle callback adds a lone leave action and toggles the closed menu twice |

## Left out

- The shell's objects (Clutter actors, Meta.Barrier, Layout.PressureBarrier, PopupMenu, the layout manager's chrome and hot-corner lists) are foreign. Their effects are flags, logs and parameters.
- Pressure accumulation is done by the shell's PressureBarrier. Its threshold (150) and timeout (1000 ms) are only passed to it, so the model has no accumulator.
- Ease curves and durations (250 ms and 100 ms) are not modelled. Each ease is its end value, and the onComplete steps run at once with the flags of completion time supplied.
- The timers (`delay`, `Glib.timeout_add`, `Glib.idle_add`) are not modelled as time. A delayed decision is a pending count plus a later step with fresh flags.
- Pointer hit testing (`global.get_pointer`, `get_actor_at_pos`, `contains`) is reduced to booleans.
- Signal emission is not modelled. In particular, the model does not follow the menus' `open-state-changed` signals, which schedule the idle callback.
- `enable`/`disable` signal wiring is not modelled, and neither is `setupHotEdge`'s destroy-and-recreate on `hot-corners-changed` or the reset of `_updateHotCorners`. These are lifecycle glue. So the model does not capture a settle delay that expires after `disable` has cleared the panel manager.
- HotEdge.EdgeRect: the centring arithmetic is in reals with EDGE_WIDTH_PERCENT = 1.0, which is exact in floating point too. Rounding for other percentages is not modelled.
- The shell's hot-corner teardown (`_updateHotCorners`, reached through lines 296 and 316), which destroys the edge a second time, is lifecycle glue and is not modelled; `Destroy` itself may be called on a destroyed edge and states what that second call does.
- PeekTopBar.Extension.PressureTrigger: runs the trigger closure after the edge has connected its leave handler. The source runs it between setting the flag and connecting. The two touch disjoint state.
- PeekTopBar.Extension.PanelLeave: runs the leave closure after the edge has disconnected its handler. The source runs it before the disconnect. The two touch disjoint state.
- PeekTopBar.Extension.MenuStateChangedIdle: same ordering as PanelLeave.
- PanelManager.WaylandPanelManager.ShowPanel: its contract gives the end state only. That the invisible menu is opened before the panel is moved and shown is in its body, not its contract.
