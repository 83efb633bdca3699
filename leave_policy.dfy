/**
 * The decisions taken by the trigger and leave closures that setupHotEdge
 * hands to the hot edge. Both read the shell's live flags: whether the primary
 * monitor is in fullscreen, and whether the overview is showing. The leave
 * closure reads them twice: when the leave action runs, and again when its
 * 200 ms delay expires. The two readings are independent inputs.
 */
module LeavePolicy {
  datatype ShellFlags = ShellFlags(inFullscreen: bool, inOverview: bool)

  /** What the leave closure chooses on one reading of the flags. */
  datatype LeaveChoice = ToggleIndicator | DismissPanel

  /**
   * What a leave action finally did, once both readings are in. HidePanelCalled
   * means hidePanel was called; its completion reads fullscreen once more.
   */
  datatype LeaveOutcome = ToggledAtOnce | ToggledAfterDelay | HidePanelCalled

  /** The trigger closure reveals the panel only over a fullscreen monitor. */
  predicate TriggerShowsPanel(f: ShellFlags) {
    f.inFullscreen
  }

  /**
   * The one test of the leave closure, applied at event time and at expiry:
   * outside fullscreen, or in the overview, an indicator is toggled instead of
   * the panel being hidden.
   */
  function Choose(f: ShellFlags): (c: LeaveChoice)
    ensures c == DismissPanel <==> f.inFullscreen && !f.inOverview
  {
    if !f.inFullscreen || f.inOverview then ToggleIndicator else DismissPanel
  }

  /**
   * The leave closure as a whole: the first reading decides between toggling
   * at once and waiting; after the wait the second reading decides again,
   * between toggling and hiding.
   */
  function Leave(atEvent: ShellFlags, atExpiry: ShellFlags): (o: LeaveOutcome)
    ensures o == HidePanelCalled <==>
              atEvent.inFullscreen && !atEvent.inOverview && atExpiry.inFullscreen && !atExpiry.inOverview
    ensures o == ToggledAtOnce <==> !atEvent.inFullscreen || atEvent.inOverview
  {
    match Choose(atEvent)
    case ToggleIndicator => ToggledAtOnce
    case DismissPanel =>
      match Choose(atExpiry)
      case ToggleIndicator => ToggledAfterDelay
      case DismissPanel => HidePanelCalled
  }

  /**
   * Once a leave has been deferred, what happens at expiry depends on the
   * flags read at expiry only, not on the values seen at event time.
   */
  lemma DeferredLeaveReadsLiveFlags(e1: ShellFlags, e2: ShellFlags, x: ShellFlags)
    requires Choose(e1) == DismissPanel && Choose(e2) == DismissPanel
    ensures Leave(e1, x) == Leave(e2, x)
    ensures Leave(e1, x) == (if Choose(x) == DismissPanel then HidePanelCalled else ToggledAfterDelay)
  {
  }

  /**
   * A leave while the monitor is not fullscreen toggles an indicator at once:
   * no delay, no dismiss, whatever the flags are afterwards.
   */
  lemma LeaveOutsideFullscreenTogglesAtOnce(e: ShellFlags, x: ShellFlags)
    requires !e.inFullscreen
    ensures Leave(e, x) == ToggledAtOnce
  {
  }

  /**
   * Trigger and leave agree: a leave calls hidePanel only under flags at
   * which a trigger would have shown the panel.
   */
  lemma HideOnlyWhereTriggerShows(e: ShellFlags, x: ShellFlags)
    requires Leave(e, x) == HidePanelCalled
    ensures TriggerShowsPanel(e) && TriggerShowsPanel(x)
  {
  }
}
