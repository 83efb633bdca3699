/**
 * The extension's wiring of the hot edge to the panel manager: the trigger
 * and leave closures built by setupHotEdge, the settle delay of the leave
 * closure, and the idle callback that runs after a status-area menu opens or
 * closes.
 *
 * The shell's live state is supplied at each step as it is read then: the
 * fullscreen and overview flags, the status area, and where the pointer is.
 * The 200 ms delay is a count of scheduled decisions; each expiry is a step
 * of its own, with the flags as they are at that moment.
 */
module PeekTopBar {
  import opened StatusArea
  import opened LeavePolicy
  import Wrappers
  import HotEdge
  import PanelManager

  class Extension {
    const edge: HotEdge.PeekHotEdge
    const manager: PanelManager.WaylandPanelManager
    /** Positions of the status-area indicators whose menu toggle() ran, in order. */
    var menuToggles: seq<nat>
    /** Leave decisions waiting for their delay to expire. */
    var pendingSettles: nat

    ghost predicate Valid()
      reads this, edge, manager
    {
      edge.Valid() && !edge.destroyed && manager.Valid() && !manager.menuDestroyed
    }

    /**
     * `enable` and the first `setupHotEdge`: a panel manager over `panel`,
     * and a hot edge along the top of `monitor`.
     */
    constructor (monitor: HotEdge.Monitor, barrierSupport: bool, panel: PanelManager.PanelBox)
      ensures Valid() && fresh(edge) && fresh(manager)
      ensures manager.panel == panel && !manager.menuOpen && manager.menuCalls == []
      ensures edge.monitor == monitor && !edge.isActive && edge.effects == []
      ensures menuToggles == [] && pendingSettles == 0
    {
      manager := new PanelManager.WaylandPanelManager(panel);
      edge := new HotEdge.PeekHotEdge(monitor, barrierSupport);
      menuToggles := [];
      pendingSettles := 0;
    }

    /** The trigger closure: reveal the panel if the monitor is fullscreen. */
    method RunTriggerAction(f: ShellFlags)
      requires Valid()
      modifies manager`menuOpen, manager`menuCalls, manager.panel
      ensures Valid()
      ensures TriggerShowsPanel(f) ==>
                manager.panel.visible && manager.panel.translationY == 0 && manager.menuOpen &&
                manager.menuCalls == old(manager.menuCalls) + (if old(manager.menuOpen) then [] else [PanelManager.Open])
      ensures !TriggerShowsPanel(f) ==> unchanged(manager, manager.panel)
    {
      if f.inFullscreen {
        manager.ShowPanel();
      }
    }

    /** toggleAnyIndicator, with the toggles appended to `menuToggles`. */
    method ApplyToggleAnyIndicator(statusArea: seq<Indicator>)
      modifies this`menuToggles
      ensures menuToggles == old(menuToggles) + FirstClosedTwice(statusArea)
    {
      var after, toggled, midway := ToggleAnyIndicator(statusArea);
      menuToggles := menuToggles + toggled;
    }

    /**
     * The leave closure at event time: toggle an indicator at once when the
     * panel is not to be hidden, or schedule the settle decision.
     */
    method RunLeaveAction(f: ShellFlags, statusArea: seq<Indicator>)
      requires Valid()
      modifies this`menuToggles, this`pendingSettles
      ensures Valid()
      ensures Choose(f) == ToggleIndicator ==>
                pendingSettles == old(pendingSettles) && menuToggles == old(menuToggles) + FirstClosedTwice(statusArea)
      ensures Choose(f) == DismissPanel ==>
                pendingSettles == old(pendingSettles) + 1 && menuToggles == old(menuToggles)
    {
      if !f.inFullscreen || f.inOverview {
        ApplyToggleAnyIndicator(statusArea);
        return;
      }
      pendingSettles := pendingSettles + 1;
    }

    /**
     * The settle delay expires: the leave closure reads the flags again and
     * either toggles an indicator or hides the panel.
     * `fullscreenAtHideEnd` is the fullscreen flag when the hide ease completes.
     */
    method SettleExpires(f: ShellFlags, statusArea: seq<Indicator>, fullscreenAtHideEnd: bool)
      requires Valid() && pendingSettles > 0
      modifies this`menuToggles, this`pendingSettles, manager`menuOpen, manager`menuCalls, manager.panel
      ensures Valid() && pendingSettles == old(pendingSettles) - 1
      ensures Choose(f) == ToggleIndicator ==> unchanged(manager, manager.panel)
      ensures Choose(f) == ToggleIndicator ==> menuToggles == old(menuToggles) + FirstClosedTwice(statusArea)
      ensures Choose(f) == DismissPanel ==> menuToggles == old(menuToggles) && manager.panel.translationY == 0
      ensures Choose(f) == DismissPanel && fullscreenAtHideEnd ==>
                !manager.panel.visible && !manager.menuOpen &&
                manager.menuCalls == old(manager.menuCalls) + (if old(manager.menuOpen) then [PanelManager.Close] else [])
      ensures Choose(f) == DismissPanel && !fullscreenAtHideEnd ==>
                manager.panel.visible == old(manager.panel.visible) &&
                manager.menuOpen == old(manager.menuOpen) && manager.menuCalls == old(manager.menuCalls)
    {
      pendingSettles := pendingSettles - 1;
      if !f.inFullscreen || f.inOverview {
        ApplyToggleAnyIndicator(statusArea);
      } else {
        manager.HidePanel(fullscreenAtHideEnd);
      }
    }

    /**
     * The barrier's pressure trigger (or the fallback's enter event): an idle
     * edge becomes active and the trigger closure runs; an active edge ignores it.
     */
    method PressureTrigger(f: ShellFlags)
      requires Valid()
      modifies edge, manager`menuOpen, manager`menuCalls, manager.panel
      ensures Valid() && edge.isActive
      ensures old(edge.isActive) ==> unchanged(edge, manager, manager.panel)
      ensures !old(edge.isActive) ==>
                edge.leaveHandler == Wrappers.Some(old(edge.nextHandlerId)) &&
                edge.nextHandlerId == old(edge.nextHandlerId) + 1 &&
                edge.effects == old(edge.effects) + [HotEdge.Invoked(HotEdge.TriggerAction), HotEdge.Connected(old(edge.nextHandlerId))]
      ensures !old(edge.isActive) && TriggerShowsPanel(f) ==>
                manager.panel.visible && manager.panel.translationY == 0 && manager.menuOpen &&
                manager.menuCalls == old(manager.menuCalls) + (if old(manager.menuOpen) then [] else [PanelManager.Open])
      ensures !TriggerShowsPanel(f) ==> unchanged(manager, manager.panel)
    {
      var triggered := edge.OnPressureTrigger();
      if triggered {
        RunTriggerAction(f);
      }
    }

    /**
     * The panel's leave-event (or the fallback's leave event): when the edge
     * lets go, the leave closure runs with the flags of this moment.
     */
    method PanelLeave(overPanel: bool, overEdge: bool, f: ShellFlags, statusArea: seq<Indicator>)
      requires Valid()
      modifies edge, this`menuToggles, this`pendingSettles
      ensures Valid() && edge.nextHandlerId == old(edge.nextHandlerId)
      ensures var left := !overPanel && !overEdge && old(edge.isActive) && !AnyPanelMenuOpen(statusArea);
              (left ==> !edge.isActive && edge.leaveHandler.None? &&
                         edge.effects == old(edge.effects) + [HotEdge.Invoked(HotEdge.LeaveAction),
                                                              HotEdge.Disconnected(old(edge.leaveHandler).value)] &&
                         HotEdge.Callbacks(edge.effects) == HotEdge.Callbacks(old(edge.effects)) + [HotEdge.LeaveAction]) &&
              (!left ==> unchanged(edge) && menuToggles == old(menuToggles) && pendingSettles == old(pendingSettles)) &&
              (left && Choose(f) == DismissPanel ==> pendingSettles == old(pendingSettles) + 1 && menuToggles == old(menuToggles)) &&
              (left && Choose(f) == ToggleIndicator ==>
                 pendingSettles == old(pendingSettles) && menuToggles == old(menuToggles) + FirstClosedTwice(statusArea))
    {
      var left := edge.OnPanelLeave(overPanel, overEdge, statusArea);
      if left {
        var rest := [HotEdge.Disconnected(old(edge.leaveHandler).value)];
        assert edge.effects == old(edge.effects) + ([HotEdge.Invoked(HotEdge.LeaveAction)] + rest);
        HotEdge.CallbacksAppend(old(edge.effects), [HotEdge.Invoked(HotEdge.LeaveAction)] + rest);
        HotEdge.CallbacksOfStep(HotEdge.LeaveAction, rest);
        RunLeaveAction(f, statusArea);
      }
    }

    /**
     * The idle callback queued when a status-area menu opens or closes: if no
     * menu is open and the pointer is not over the panel, the edge is
     * deactivated, whether or not it was active, and the leave closure runs.
     */
    method MenuStateChangedIdle(overPanel: bool, f: ShellFlags, statusArea: seq<Indicator>)
      requires Valid()
      modifies edge, this`menuToggles, this`pendingSettles
      ensures Valid() && edge.nextHandlerId == old(edge.nextHandlerId)
      ensures var fires := !AnyPanelMenuOpen(statusArea) && !overPanel;
              (fires ==> !edge.isActive && edge.leaveHandler.None? &&
                         edge.effects == old(edge.effects) + [HotEdge.Invoked(HotEdge.LeaveAction)] +
                           (if old(edge.leaveHandler).Some? then [HotEdge.Disconnected(old(edge.leaveHandler).value)] else []) &&
                         HotEdge.Callbacks(edge.effects) == HotEdge.Callbacks(old(edge.effects)) + [HotEdge.LeaveAction]) &&
              (!fires ==> unchanged(edge) && menuToggles == old(menuToggles) && pendingSettles == old(pendingSettles)) &&
              (fires && Choose(f) == DismissPanel ==> pendingSettles == old(pendingSettles) + 1 && menuToggles == old(menuToggles)) &&
              (fires && Choose(f) == ToggleIndicator ==>
                 pendingSettles == old(pendingSettles) && menuToggles == old(menuToggles) + FirstClosedTwice(statusArea))
    {
      if !AnyPanelMenuOpen(statusArea) && !overPanel {
        edge.Deactivate();
        var rest := if old(edge.leaveHandler).Some? then [HotEdge.Disconnected(old(edge.leaveHandler).value)] else [];
        assert edge.effects == old(edge.effects) + ([HotEdge.Invoked(HotEdge.LeaveAction)] + rest);
        HotEdge.CallbacksAppend(old(edge.effects), [HotEdge.Invoked(HotEdge.LeaveAction)] + rest);
        HotEdge.CallbacksOfStep(HotEdge.LeaveAction, rest);
        RunLeaveAction(f, statusArea);
      }
    }
  }

  /**
   * Outside fullscreen, with the pointer away from the panel and every menu
   * closed, the idle callback on an idle edge runs the leave action and
   * toggles the first indicator's menu open and closed again: two more
   * open-state changes of a status-area menu.
   */
  method IdleCallbackTogglesMenuOnIdleEdge(m: HotEdge.Monitor, barrierSupport: bool, h: nat)
    returns (toggles: seq<nat>, callbacks: seq<HotEdge.Callback>)
    ensures toggles == [0, 0] && callbacks == [HotEdge.LeaveAction]
  {
    var box := new PanelManager.PanelBox(h, true, 0);
    var ext := new Extension(m, barrierSupport, box);
    var area := [Indicator(Wrappers.Some(Menu(false)))];
    assert HasClosedMenu(area[0]) && !AnyPanelMenuOpen(area);
    ext.MenuStateChangedIdle(false, ShellFlags(false, false), area);
    assert IsFirstClosed(area, FirstClosedTwice(area)[0]);
    toggles, callbacks := ext.menuToggles, HotEdge.Callbacks(ext.edge.effects);
    assert HotEdge.Callbacks([]) == [];
  }

  /**
   * A fullscreen leave schedules a settle decision; a new trigger before it
   * expires reactivates the edge and shows the panel; the old decision then
   * hides the panel while the edge stays active, so further pressure on the
   * edge is ignored until a leave.
   */
  method StaleSettleHidesPanelOfActiveEdge(m: HotEdge.Monitor, barrierSupport: bool, h: nat)
    returns (panelVisible: bool, edgeActive: bool)
    ensures !panelVisible && edgeActive
  {
    var box := new PanelManager.PanelBox(h, true, 0);
    var ext := new Extension(m, barrierSupport, box);
    var fullscreen := ShellFlags(true, false);
    ext.PressureTrigger(fullscreen);
    assert !AnyPanelMenuOpen([]);
    ext.PanelLeave(false, false, fullscreen, []);
    assert ext.pendingSettles == 1;
    ext.PressureTrigger(fullscreen);
    assert box.visible;
    ext.SettleExpires(fullscreen, [], true);
    panelVisible, edgeActive := box.visible, ext.edge.isActive;
  }

  /**
   * A full reveal and dismiss over a fullscreen monitor: trigger, leave, and
   * the settle decision with fullscreen still on. The invisible menu gets one
   * open() and one close(), the panel ends hidden at rest, and the edge is
   * idle. A second trigger connects a handler with a new id.
   */
  method RevealDismissCycle(m: HotEdge.Monitor, barrierSupport: bool, h: nat)
    returns (calls: seq<PanelManager.MenuCall>, panelVisible: bool, panelOffset: int, firstId: nat, secondId: nat)
    ensures calls == [PanelManager.Open, PanelManager.Close]
    ensures !panelVisible && panelOffset == 0
    ensures firstId != secondId
  {
    var box := new PanelManager.PanelBox(h, false, 0);
    var ext := new Extension(m, barrierSupport, box);
    var fullscreen := ShellFlags(true, false);
    ext.PressureTrigger(fullscreen);
    firstId := ext.edge.leaveHandler.value;
    assert !AnyPanelMenuOpen([]);
    ext.PanelLeave(false, false, fullscreen, []);
    ext.SettleExpires(fullscreen, [], true);
    calls, panelVisible, panelOffset := ext.manager.menuCalls, box.visible, box.translationY;
    ext.PressureTrigger(fullscreen);
    secondId := ext.edge.leaveHandler.value;
  }

  /**
   * The idle callback on an active edge disconnects the leave handler the
   * trigger connected; the next trigger connects a handler with a new id.
   */
  method IdleCallbackThenTriggerUsesNewId(m: HotEdge.Monitor, barrierSupport: bool, h: nat)
    returns (firstId: nat, secondId: nat, log: seq<HotEdge.Effect>)
    ensures firstId != secondId
    ensures log == [HotEdge.Invoked(HotEdge.TriggerAction), HotEdge.Connected(firstId),
                    HotEdge.Invoked(HotEdge.LeaveAction), HotEdge.Disconnected(firstId),
                    HotEdge.Invoked(HotEdge.TriggerAction), HotEdge.Connected(secondId)]
  {
    var box := new PanelManager.PanelBox(h, true, 0);
    var ext := new Extension(m, barrierSupport, box);
    var desktop := ShellFlags(false, false);
    ext.PressureTrigger(desktop);
    firstId := ext.edge.leaveHandler.value;
    assert !AnyPanelMenuOpen([]);
    ext.MenuStateChangedIdle(false, desktop, []);
    ext.PressureTrigger(desktop);
    secondId := ext.edge.leaveHandler.value;
    log := ext.edge.effects;
  }
}
