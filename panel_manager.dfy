/**
 * WaylandPanelManager: reveals and dismisses the top panel's box over
 * fullscreen windows. An invisible popup menu, anchored to a hidden button in
 * the panel, is held open while the panel is revealed so that the shell stacks
 * the panel above fullscreen content.
 *
 * Each `ease` is modelled by the value it ends at: the model has no
 * intermediate frames and no durations.
 */
module PanelManager {
  /** Main.layoutManager.panelBox: its visibility and vertical translation; its height is read only. */
  class PanelBox {
    var visible: bool
    var translationY: int
    const height: nat

    constructor (h: nat, v: bool, t: int)
      ensures height == h && visible == v && translationY == t
    {
      height := h;
      visible := v;
      translationY := t;
    }
  }

  datatype MenuCall = Open | Close

  /** Menu calls that start with open() and alternate with close(). */
  predicate OpenCloseAlternate(calls: seq<MenuCall>) {
    forall i :: 0 <= i < |calls| ==> calls[i] == (if i % 2 == 0 then Open else Close)
  }

  class WaylandPanelManager {
    const panel: PanelBox
    /** `_dummyMenu.isOpen`. */
    var menuOpen: bool
    /** The open() and close() calls made on the invisible menu, in order. */
    var menuCalls: seq<MenuCall>
    /** `_dummyButton` is a child of the panel's right box. */
    var buttonInPanel: bool
    /** `_dummyMenu` has been destroyed. */
    var menuDestroyed: bool

    /**
     * The guarded open and close never open an open menu nor close a closed
     * one: the calls alternate, and the menu is open after an odd number.
     */
    ghost predicate Valid()
      reads this
    {
      OpenCloseAlternate(menuCalls) && (menuOpen <==> |menuCalls| % 2 == 1) &&
      (menuDestroyed ==> !menuOpen)
    }

    /** `constructor` and `_createInvisibleMenu`. */
    constructor (p: PanelBox)
      ensures Valid()
      ensures panel == p && !menuOpen && menuCalls == [] && buttonInPanel && !menuDestroyed
    {
      panel := p;
      menuOpen := false;
      menuCalls := [];
      buttonInPanel := true;
      menuDestroyed := false;
    }

    /** `_openInvisibleMenu`: opens the menu only if it is closed. */
    method OpenInvisibleMenu()
      requires Valid() && !menuDestroyed
      modifies this`menuOpen, this`menuCalls
      ensures Valid() && menuOpen
      ensures menuCalls == old(menuCalls) + (if old(menuOpen) then [] else [Open])
    {
      if !menuOpen {
        menuOpen := true;
        menuCalls := menuCalls + [Open];
      }
    }

    /** `_closeInvisibleMenu`: closes the menu only if it is open. */
    method CloseInvisibleMenu()
      requires Valid()
      modifies this`menuOpen, this`menuCalls
      ensures Valid() && !menuOpen
      ensures menuCalls == old(menuCalls) + (if old(menuOpen) then [Close] else [])
    {
      if menuOpen {
        menuOpen := false;
        menuCalls := menuCalls + [Close];
      }
    }

    /**
     * `showPanel`: opens the invisible menu, places the panel one panel
     * height above its resting place, makes it visible and eases it to rest.
     */
    method ShowPanel()
      requires Valid() && !menuDestroyed
      modifies this`menuOpen, this`menuCalls, panel
      ensures Valid() && menuOpen
      ensures menuCalls == old(menuCalls) + (if old(menuOpen) then [] else [Open])
      ensures panel.visible && panel.translationY == 0
    {
      OpenInvisibleMenu();
      panel.translationY := -(panel.height as int);
      panel.visible := true;
      // ease to translation_y 0; onComplete sets 0 again
      panel.translationY := 0;
    }

    /**
     * `hidePanel`: eases the panel one height up; on completion, if the
     * primary monitor has left fullscreen meanwhile, eases it back to rest
     * and leaves it visible; otherwise hides it, puts it back to rest and
     * closes the invisible menu. `fullscreenAtCompletion` is the primary
     * monitor's fullscreen flag when the first ease completes.
     */
    method HidePanel(fullscreenAtCompletion: bool)
      requires Valid()
      modifies this`menuOpen, this`menuCalls, panel
      ensures Valid() && panel.translationY == 0
      ensures !fullscreenAtCompletion ==>
                panel.visible == old(panel.visible) &&
                menuOpen == old(menuOpen) && menuCalls == old(menuCalls)
      ensures fullscreenAtCompletion ==>
                !panel.visible && !menuOpen &&
                menuCalls == old(menuCalls) + (if old(menuOpen) then [Close] else [])
    {
      // ease to translation_y -height
      panel.translationY := -(panel.height as int);
      if !fullscreenAtCompletion {
        // re-entry ease to translation_y 0; onComplete sets 0 again
        panel.translationY := 0;
        return;
      }
      panel.visible := false;
      panel.translationY := 0;
      CloseInvisibleMenu();
    }

    /**
     * `dispose`: closes and destroys the invisible menu, removes its button,
     * and leaves the panel visible at rest.
     */
    method Dispose()
      requires Valid() && !menuDestroyed
      modifies this, panel
      ensures Valid() && menuDestroyed && !menuOpen && !buttonInPanel
      ensures menuCalls == old(menuCalls) + (if old(menuOpen) then [Close] else [])
      ensures panel.visible && panel.translationY == 0
    {
      CloseInvisibleMenu();
      menuDestroyed := true;
      buttonInPanel := false;
      panel.visible := true;
      panel.translationY := 0;
    }
  }

  /**
   * Opening the invisible menu twice calls open() at most once, and closing
   * it twice calls close() at most once.
   */
  method OpenCloseIdempotent(h: nat) returns (opensAfterTwo: nat, closesAfterTwo: nat)
    ensures opensAfterTwo == 1 && closesAfterTwo == 1
  {
    var box := new PanelBox(h, false, 0);
    var manager := new WaylandPanelManager(box);
    manager.OpenInvisibleMenu();
    manager.OpenInvisibleMenu();
    opensAfterTwo := |manager.menuCalls|;
    manager.CloseInvisibleMenu();
    manager.CloseInvisibleMenu();
    closesAfterTwo := |manager.menuCalls| - opensAfterTwo;
  }

  /**
   * A show followed by a hide that completes in fullscreen leaves the panel
   * hidden at rest and the invisible menu closed, after exactly one open and
   * one close.
   */
  method ShowThenHide(h: nat, visible: bool, offset: int) returns (panelVisible: bool, panelOffset: int, calls: seq<MenuCall>)
    ensures !panelVisible && panelOffset == 0 && calls == [Open, Close]
  {
    var box := new PanelBox(h, visible, offset);
    var manager := new WaylandPanelManager(box);
    manager.ShowPanel();
    manager.HidePanel(true);
    panelVisible, panelOffset, calls := box.visible, box.translationY, manager.menuCalls;
  }
}
