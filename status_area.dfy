/**
 * The panel's status area as isAnyPanelMenuOpen and toggleAnyIndicator see it:
 * the values of statusArea in their enumeration order. An indicator may have
 * no menu; a menu is open or closed.
 */
module StatusArea {
  import opened Wrappers

  datatype Menu = Menu(isOpen: bool)
  datatype Indicator = Indicator(menu: Option<Menu>)

  /** `indicator.menu?.isOpen` is truthy. */
  predicate HasOpenMenu(ind: Indicator) {
    ind.menu.Some? && ind.menu.value.isOpen
  }

  /** `ind.menu && !ind.menu.isOpen`: the filter of toggleAnyIndicator. */
  predicate HasClosedMenu(ind: Indicator) {
    ind.menu.Some? && !ind.menu.value.isOpen
  }

  /** isAnyPanelMenuOpen: `some` over the indicators. */
  function AnyPanelMenuOpen(inds: seq<Indicator>): (r: bool)
    ensures r <==> exists i :: 0 <= i < |inds| && HasOpenMenu(inds[i])
  {
    if inds == [] then false
    else
      assert forall i :: 0 < i < |inds| ==> inds[i] == inds[1..][i - 1];
      HasOpenMenu(inds[0]) || AnyPanelMenuOpen(inds[1..])
  }

  /**
   * The positions kept by `filter(ind => ind.menu && !ind.menu.isOpen)`:
   * exactly the indicators with a closed menu, in enumeration order.
   */
  function ClosedPositions(inds: seq<Indicator>): (ps: seq<nat>)
    ensures forall k: nat :: k in ps <==> k < |inds| && HasClosedMenu(inds[k])
    ensures forall a, b :: 0 <= a < b < |ps| ==> ps[a] < ps[b]
  {
    if inds == [] then []
    else
      var n := |inds| - 1;
      var front := ClosedPositions(inds[..n]);
      forall a | 0 <= a < |front|
        ensures front[a] < n
      {
        assert front[a] in front;
      }
      front + (if HasClosedMenu(inds[n]) then [n] else [])
  }

  /** Position `k` is the first indicator whose menu is closed (`closed[0]`). */
  predicate IsFirstClosed(inds: seq<Indicator>, k: nat) {
    k < |inds| && HasClosedMenu(inds[k]) &&
    forall j :: 0 <= j < k ==> !HasClosedMenu(inds[j])
  }

  /** PopupMenu.toggle: an open menu closes, a closed one opens. */
  function Toggled(ind: Indicator): (r: Indicator)
    requires ind.menu.Some?
    ensures r.menu.Some? && r.menu.value.isOpen == !ind.menu.value.isOpen
  {
    Indicator(Some(Menu(!ind.menu.value.isOpen)))
  }

  /**
   * The menu toggles toggleAnyIndicator makes, by position: the first
   * indicator with a closed menu, twice; none when no menu is closed.
   */
  function FirstClosedTwice(inds: seq<Indicator>): (t: seq<nat>)
    ensures t == [] <==> forall i :: 0 <= i < |inds| ==> !HasClosedMenu(inds[i])
    ensures t != [] ==> |t| == 2 && t[0] == t[1] && IsFirstClosed(inds, t[0])
  {
    var closed := ClosedPositions(inds);
    if closed == [] then
      assert forall i :: 0 <= i < |inds| && HasClosedMenu(inds[i]) ==> i in closed;
      []
    else
      var k := closed[0];
      assert k in closed;
      assert forall j :: 0 <= j < k && HasClosedMenu(inds[j]) ==> j in closed;
      [k, k]
  }

  /**
   * toggleAnyIndicator: toggles the menu of the first indicator whose menu is
   * closed, twice. `toggled` lists the positions whose menu was toggled, in
   * order; `midway` is the status area between the two toggles. Every menu
   * ends as it was.
   */
  method ToggleAnyIndicator(inds: seq<Indicator>) returns (after: seq<Indicator>, toggled: seq<nat>, midway: seq<Indicator>)
    ensures after == inds
    ensures toggled == FirstClosedTwice(inds)
    ensures toggled != [] ==> toggled[0] < |inds| && inds[toggled[0]].menu.Some? &&
                              midway == inds[toggled[0] := Toggled(inds[toggled[0]])]
    ensures toggled != [] ==> AnyPanelMenuOpen(midway)
    ensures toggled == [] ==> midway == inds
  {
    after, toggled := inds, [];
    var closed := ClosedPositions(inds);
    if |closed| > 0 {
      var k := closed[0];
      assert k in closed;
      after := after[k := Toggled(after[k])];
      toggled := toggled + [k];
      midway := after;
      assert HasOpenMenu(midway[k]);
      after := after[k := Toggled(after[k])];
      toggled := toggled + [k];
    } else {
      midway := after;
    }
  }
}
