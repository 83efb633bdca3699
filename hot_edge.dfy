/**
 * PeekHotEdge: a one-pixel-high actor along the top of the primary monitor.
 * A pressure barrier under it (or, without barrier support, plain enter and
 * leave events on the actor) triggers it; the panel's leave-event, connected
 * while the edge is active, releases it. The edge invokes two callbacks, the
 * trigger action and the leave action, and keeps two pieces of state: the
 * active flag and the id of its leave-event handler on the panel.
 *
 * What the edge does to the world is recorded in `effects`: each callback
 * invocation and each handler connected on or disconnected from the panel.
 */
module HotEdge {
  import opened Wrappers
  import StatusArea

  /** The geometry of a monitor, in layout pixels. */
  datatype Monitor = Monitor(x: int, y: int, width: int, height: int)

  /** The share of the monitor's width the edge spans. */
  const EdgeWidthPercent: real := 1.0

  datatype Rect = Rect(x: real, y: real, width: real, height: real)

  /**
   * A barrier segment. The edge's barrier lets the pointer cross it only
   * moving down (positive y); upward motion is blocked.
   */
  datatype Barrier = Barrier(x1: real, x2: real, y1: real, y2: real)

  /** The edge actor's geometry: centred, EdgeWidthPercent of the width, one pixel high, at the monitor's top. */
  function EdgeRect(m: Monitor): (r: Rect)
    ensures r.x == m.x as real && r.width == m.width as real
    ensures r.y == m.y as real && r.height == 1.0
  {
    var width := m.width as real * EdgeWidthPercent;
    Rect(m.x as real + (m.width as real - width) / 2.0, m.y as real, width, 1.0)
  }

  /** The barrier drawn along the top of an actor: horizontal, as wide as the actor. */
  function BarrierAlong(r: Rect): (b: Barrier)
    ensures b.y1 == b.y2 == r.y
    ensures b.x1 == r.x && b.x2 - b.x1 == r.width
  {
    Barrier(r.x, r.x + r.width, r.y, r.y)
  }

  datatype Callback = TriggerAction | LeaveAction

  datatype Effect = Invoked(cb: Callback) | Connected(id: nat) | Disconnected(id: nat)

  /** The callback invocations among the effects, in order. */
  function Callbacks(es: seq<Effect>): seq<Callback> {
    if es == [] then []
    else
      var last := es[|es| - 1];
      Callbacks(es[..|es| - 1]) + (if last.Invoked? then [last.cb] else [])
  }

  lemma {:induction false} CallbacksAppend(es: seq<Effect>, more: seq<Effect>)
    ensures Callbacks(es + more) == Callbacks(es) + Callbacks(more)
    decreases |more|
  {
    if more == [] {
      assert es + more == es;
    } else {
      var n := |more| - 1;
      CallbacksAppend(es, more[..n]);
      assert (es + more)[..|es + more| - 1] == es + more[..n];
    }
  }

  /** An invocation followed by a handler connect or disconnect holds one callback. */
  lemma CallbacksOfStep(c: Callback, es: seq<Effect>)
    requires |es| <= 1 && forall e :: e in es ==> !e.Invoked?
    ensures Callbacks([Invoked(c)] + es) == [c]
  {
    var s := [Invoked(c)] + es;
    assert [Invoked(c)][..0] == [];
    assert Callbacks([Invoked(c)]) == [c];
    if es != [] {
      assert es[0] in es;
      assert s[..1] == [Invoked(c)];
    }
  }

  /** Appending an invocation and at most one handler effect appends one callback. */
  lemma CallbacksAfterStep(es: seq<Effect>, c: Callback, rest: seq<Effect>)
    requires |rest| <= 1 && forall e :: e in rest ==> !e.Invoked?
    ensures Callbacks(es + [Invoked(c)] + rest) == Callbacks(es) + [c]
  {
    assert es + [Invoked(c)] + rest == es + ([Invoked(c)] + rest);
    CallbacksAppend(es, [Invoked(c)] + rest);
    CallbacksOfStep(c, rest);
  }

  /** Callbacks that start with the trigger action and alternate with the leave action. */
  predicate Alternating(cs: seq<Callback>) {
    forall i :: 0 <= i < |cs| ==> cs[i] == (if i % 2 == 0 then TriggerAction else LeaveAction)
  }

  /**
   * A leave action appended to alternating callbacks keeps them alternating
   * exactly when the last one was a trigger action.
   */
  lemma LeaveKeepsAlternation(cs: seq<Callback>, active: bool)
    requires Alternating(cs) && (active <==> |cs| % 2 == 1)
    ensures Alternating(cs + [LeaveAction]) <==> active
  {
    if !active {
      assert (cs + [LeaveAction])[|cs|] == LeaveAction;
    }
  }

  /** The connected-handler set that a handler slot stands for. */
  function HandlerSet(slot: Option<nat>): set<nat> {
    if slot.Some? then {slot.value} else {}
  }

  class PeekHotEdge {
    const monitor: Monitor
    const rect: Rect
    /** The pressure barrier, or None in fallback hover mode. */
    const barrier: Option<Barrier>
    /** The barrier is registered with the pressure barrier. */
    var barrierAttached: bool
    var isActive: bool
    /** `_panelLeaveHandlerId`: the id of the panel leave-event handler, if any. */
    var leaveHandler: Option<nat>
    /** The leave-event handlers of this edge that are connected on the panel. */
    var panelHandlers: set<nat>
    /** The id the panel hands out on its next connect; signal ids are positive. */
    var nextHandlerId: nat
    var effects: seq<Effect>
    var destroyed: bool

    /**
     * While the edge lives, it is active exactly when its handler slot is
     * filled, and that handler is the only one it has on the panel.
     */
    ghost predicate Valid()
      reads this
    {
      0 < nextHandlerId &&
      (forall h :: h in panelHandlers ==> 0 < h < nextHandlerId) &&
      (leaveHandler.Some? ==> 0 < leaveHandler.value < nextHandlerId) &&
      if destroyed then
        panelHandlers == {} && !barrierAttached
      else
        (isActive <==> leaveHandler.Some?) &&
        panelHandlers == HandlerSet(leaveHandler) &&
        barrierAttached == barrier.Some?
    }

    /**
     * The discipline a two-state edge is expected to keep: trigger and leave
     * actions alternate, starting with a trigger, and the edge is active
     * exactly after an unmatched trigger.
     */
    ghost predicate CallbacksAlternate()
      reads this
    {
      Alternating(Callbacks(effects)) && (isActive <==> |Callbacks(effects)| % 2 == 1)
    }

    /** `_init` and `_setupPressureBarrier`: `barrierSupport` is the backend's BARRIERS capability. */
    constructor (m: Monitor, barrierSupport: bool)
      ensures Valid() && CallbacksAlternate()
      ensures monitor == m && rect == EdgeRect(m)
      ensures barrier == (if barrierSupport then Some(BarrierAlong(rect)) else None)
      ensures !isActive && leaveHandler == None && effects == [] && !destroyed
    {
      monitor := m;
      rect := EdgeRect(m);
      barrier := if barrierSupport then Some(BarrierAlong(EdgeRect(m))) else None;
      barrierAttached := barrierSupport;
      isActive := false;
      leaveHandler := None;
      panelHandlers := {};
      nextHandlerId := 1;
      effects := [];
      destroyed := false;
    }

    /** Connects a leave-event handler on the panel and returns its fresh id. */
    method ConnectPanelLeave() returns (id: nat)
      requires 0 < nextHandlerId
      modifies this`panelHandlers, this`nextHandlerId, this`effects
      ensures id == old(nextHandlerId) && nextHandlerId == id + 1
      ensures panelHandlers == old(panelHandlers) + {id}
      ensures effects == old(effects) + [Connected(id)]
    {
      id := nextHandlerId;
      nextHandlerId := nextHandlerId + 1;
      panelHandlers := panelHandlers + {id};
      effects := effects + [Connected(id)];
    }

    /**
     * `_onPressureTrigger`: an idle edge becomes active, runs the trigger
     * action once and connects its leave handler; an active edge ignores it.
     */
    method OnPressureTrigger() returns (triggered: bool)
      requires Valid() && !destroyed
      modifies this
      ensures Valid() && !destroyed && isActive
      ensures triggered == !old(isActive)
      ensures old(isActive) ==> unchanged(this)
      ensures !old(isActive) ==>
                leaveHandler == Some(old(nextHandlerId)) &&
                panelHandlers == {old(nextHandlerId)} &&
                effects == old(effects) + [Invoked(TriggerAction), Connected(old(nextHandlerId))]
      ensures nextHandlerId == old(nextHandlerId) + (if old(isActive) then 0 else 1)
      ensures barrierAttached == old(barrierAttached)
      ensures old(CallbacksAlternate()) ==> CallbacksAlternate()
    {
      triggered := false;
      if !isActive {
        triggered := true;
        isActive := true;
        effects := effects + [Invoked(TriggerAction)];
        if leaveHandler.None? {
          var id := ConnectPanelLeave();
          leaveHandler := Some(id);
        }
        CallbacksAppend(old(effects), [Invoked(TriggerAction)] + [Connected(old(nextHandlerId))]);
        CallbacksOfStep(TriggerAction, [Connected(old(nextHandlerId))]);
      }
    }

    /** `_onEnterFallback`: the hover fallback's enter event triggers the edge. */
    method OnEnterFallback() returns (triggered: bool)
      requires Valid() && !destroyed
      modifies this
      ensures Valid() && !destroyed && isActive
      ensures triggered == !old(isActive)
      ensures old(isActive) ==> unchanged(this)
      ensures !old(isActive) ==>
                leaveHandler == Some(old(nextHandlerId)) &&
                panelHandlers == {old(nextHandlerId)} &&
                effects == old(effects) + [Invoked(TriggerAction), Connected(old(nextHandlerId))]
      ensures nextHandlerId == old(nextHandlerId) + (if old(isActive) then 0 else 1)
      ensures barrierAttached == old(barrierAttached)
      ensures old(CallbacksAlternate()) ==> CallbacksAlternate()
    {
      triggered := OnPressureTrigger();
    }

    /**
     * `_deactivate`, unguarded: clears the active flag, runs the leave action
     * and disconnects the leave handler if one is connected, whatever the
     * state was. It keeps the alternation of callbacks exactly when the edge
     * was active; on an idle edge it runs a second leave action in a row.
     */
    method Deactivate()
      requires Valid() && !destroyed
      modifies this
      ensures Valid() && !destroyed
      ensures !isActive && leaveHandler == None && panelHandlers == {}
      ensures effects == old(effects) + [Invoked(LeaveAction)] +
                (if old(leaveHandler).Some? then [Disconnected(old(leaveHandler).value)] else [])
      ensures nextHandlerId == old(nextHandlerId) && barrierAttached == old(barrierAttached)
      ensures old(CallbacksAlternate()) ==> (CallbacksAlternate() <==> old(isActive))
    {
      isActive := false;
      effects := effects + [Invoked(LeaveAction)];
      if leaveHandler.Some? {
        panelHandlers := panelHandlers - {leaveHandler.value};
        effects := effects + [Disconnected(leaveHandler.value)];
        leaveHandler := None;
      }
      ghost var rest := if old(leaveHandler).Some? then [Disconnected(old(leaveHandler).value)] else [];
      CallbacksAfterStep(old(effects), LeaveAction, rest);
      if old(CallbacksAlternate()) {
        LeaveKeepsAlternation(Callbacks(old(effects)), old(isActive));
      }
    }

    /**
     * `_onPanelLeave`: deactivates exactly when the pointer is over neither
     * the panel nor the edge, the edge is active and no panel menu is open;
     * otherwise nothing changes.
     */
    method OnPanelLeave(overPanel: bool, overEdge: bool, statusArea: seq<StatusArea.Indicator>) returns (left: bool)
      requires Valid() && !destroyed
      modifies this
      ensures Valid() && !destroyed
      ensures left <==> !overPanel && !overEdge && old(isActive) && !StatusArea.AnyPanelMenuOpen(statusArea)
      ensures !left ==> unchanged(this)
      ensures left ==>
                !isActive && leaveHandler == None && panelHandlers == {} &&
                effects == old(effects) + [Invoked(LeaveAction), Disconnected(old(leaveHandler).value)]
      ensures nextHandlerId == old(nextHandlerId) && barrierAttached == old(barrierAttached)
      ensures old(CallbacksAlternate()) ==> CallbacksAlternate()
    {
      var isStillOver := overPanel || overEdge;
      left := false;
      if !isStillOver && isActive && !StatusArea.AnyPanelMenuOpen(statusArea) {
        left := true;
        Deactivate();
      }
    }

    /** `_onLeaveFallback`: the hover fallback's leave event goes through the panel-leave test. */
    method OnLeaveFallback(overPanel: bool, overEdge: bool, statusArea: seq<StatusArea.Indicator>) returns (left: bool)
      requires Valid() && !destroyed
      modifies this
      ensures Valid() && !destroyed
      ensures left <==> !overPanel && !overEdge && old(isActive) && !StatusArea.AnyPanelMenuOpen(statusArea)
      ensures !left ==> unchanged(this)
      ensures left ==>
                !isActive && leaveHandler == None && panelHandlers == {} &&
                effects == old(effects) + [Invoked(LeaveAction), Disconnected(old(leaveHandler).value)]
      ensures nextHandlerId == old(nextHandlerId) && barrierAttached == old(barrierAttached)
      ensures old(CallbacksAlternate()) ==> CallbacksAlternate()
    {
      left := OnPanelLeave(overPanel, overEdge, statusArea);
    }

    /**
     * `destroy`: disconnects the leave handler if there is one, removes the
     * barrier. The handler slot keeps its stale id and the active flag is left
     * as it was, so a second destroy disconnects that id again, when it is no
     * longer connected.
     */
    method Destroy()
      requires Valid()
      modifies this
      ensures Valid() && destroyed
      ensures panelHandlers == {} && !barrierAttached
      ensures isActive == old(isActive) && leaveHandler == old(leaveHandler)
      ensures nextHandlerId == old(nextHandlerId)
      ensures effects == old(effects) +
                (if old(leaveHandler).Some? then [Disconnected(old(leaveHandler).value)] else [])
      ensures old(leaveHandler).Some? ==>
                (old(leaveHandler).value in old(panelHandlers) <==> !old(destroyed))
    {
      if leaveHandler.Some? {
        panelHandlers := panelHandlers - {leaveHandler.value};
        effects := effects + [Disconnected(leaveHandler.value)];
      }
      barrierAttached := false;
      destroyed := true;
    }
  }

  /**
   * A fresh edge that is deactivated directly, as the menu-closed idle
   * callback of the extension does, runs the leave action without ever having
   * run the trigger action.
   */
  method LeaveActionOnIdleEdge(m: Monitor, barrierSupport: bool) returns (cs: seq<Callback>, active: bool)
    ensures cs == [LeaveAction] && !active
    ensures !Alternating(cs)
  {
    var edge := new PeekHotEdge(m, barrierSupport);
    edge.Deactivate();
    cs, active := Callbacks(edge.effects), edge.isActive;
    CallbacksOfStep(LeaveAction, []);
    assert edge.effects == [Invoked(LeaveAction)] + [];
    assert cs[0] != TriggerAction;
  }

  /**
   * An active edge destroyed twice, as the extension's own destroy and the
   * shell's hot-corner teardown both do: the second destroy disconnects the
   * same id again, after it was already disconnected.
   */
  method DestroyTwiceDisconnectsStaleId(m: Monitor, barrierSupport: bool) returns (disconnects: seq<Effect>, connectedBeforeSecond: set<nat>)
    ensures |disconnects| == 2 && disconnects[0] == disconnects[1] && disconnects[0].Disconnected?
    ensures disconnects[1].id !in connectedBeforeSecond
  {
    var edge := new PeekHotEdge(m, barrierSupport);
    var id := edge.nextHandlerId;
    var t := edge.OnPressureTrigger();
    assert edge.leaveHandler == Some(id) && |edge.effects| == 2;
    edge.Destroy();
    connectedBeforeSecond := edge.panelHandlers;
    edge.Destroy();
    disconnects := edge.effects[2..];
  }

  /** A trigger followed by a panel leave with nothing holding the panel: one trigger action, then one leave action. */
  method TriggerThenLeave(m: Monitor, barrierSupport: bool) returns (cs: seq<Callback>, active: bool, handlers: set<nat>)
    ensures cs == [TriggerAction, LeaveAction] && !active && handlers == {}
  {
    var edge := new PeekHotEdge(m, barrierSupport);
    var id := edge.nextHandlerId;
    var t := edge.OnPressureTrigger();
    var again := edge.OnPressureTrigger();
    assert !again;
    var left := edge.OnPanelLeave(false, false, []);
    assert edge.effects == [Invoked(TriggerAction), Connected(id), Invoked(LeaveAction), Disconnected(id)];
    cs, active, handlers := Callbacks(edge.effects), edge.isActive, edge.panelHandlers;
    var first := [Invoked(TriggerAction)] + [Connected(id)];
    var second := [Invoked(LeaveAction)] + [Disconnected(id)];
    assert edge.effects == first + second;
    CallbacksAppend(first, second);
    CallbacksOfStep(TriggerAction, [Connected(id)]);
    CallbacksOfStep(LeaveAction, [Disconnected(id)]);
  }
}
