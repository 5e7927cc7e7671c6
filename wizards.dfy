/**
 * The error bookkeeping of a wizard page made of several UI parts
 * (`PartsWizardPage`): each part reports its status through change events,
 * the page remembers the status of each part whose latest report is
 * non-OK, shows one status
 * and allows finishing only when the status it shows is OK.
 */
module Wizards {
  import opened Wrappers

  /** The severities of an `IStatus`. */
  datatype Severity = Ok | Info | Warning | Error | Cancel

  /** The parts of an `IStatus` the page looks at; the message may be null. */
  datatype Status = Status(severity: Severity, message: Option<string>) {
    /** `IStatus.isOK()`. */
    predicate IsOK() {
      severity == Ok
    }
  }

  /** `Status.OK_STATUS`. */
  const OkStatus: Status := Status(Ok, Some("OK"))

  /** The error text shown for an ERROR status without a message. */
  const UnknownErrorMessage: string := "Unknown error. Unable to complete the operation."

  /** The message types of a dialog page (`IMessageProvider.NONE`, `INFORMATION`, `WARNING`). */
  const NoMessageType: int := 0
  const InformationType: int := 1
  const WarningType: int := 2

  /** A UI part: only its identity matters to the page. */
  class UIPart {
    constructor ()
    {
    }
  }

  /**
   * A `PartChangeEvent`: its source part and status, both possibly null.
   * `wizardButtons` is none for a plain event and holds
   * `updateWizardButtons()` for a `WizardPartChangeEvent`.
   */
  datatype PartChangeEvent = PartChangeEvent(source: UIPart?, status: Option<Status>, wizardButtons: Option<bool>)

  /** The status `handleChange` starts from: the event's, or OK for a null status. */
  function EventStatus(event: PartChangeEvent): (s: Status)
    ensures event.status.Some? ==> s == event.status.value
    ensures s.IsOK() <==> event.status.None? || event.status.value.IsOK()
  {
    if event.status.None? then OkStatus else event.status.value
  }

  /** Whether `handleChange` refreshes the wizard buttons for this event. */
  function UpdatesButtons(event: PartChangeEvent): (b: bool)
    ensures b <==> event.wizardButtons != Some(false)
  {
    match event.wizardButtons
    case None => true
    case Some(update) => update
  }

  /** The statuses the page tracks, one per part. */
  type PartStatusMap = map<UIPart, Status>

  /** The page invariant: only non-OK statuses are ever tracked. */
  predicate NoOkStatus(m: PartStatusMap) {
    forall p :: p in m ==> !m[p].IsOK()
  }

  /**
   * The tracked statuses after an event: an OK (or null) status removes
   * the source's entry; a non-OK status from a non-null source becomes that
   * source's entry; a non-OK status from a null source changes nothing.
   */
  function NextPartStatus(m: PartStatusMap, event: PartChangeEvent): (r: PartStatusMap)
    ensures forall p :: p in m && p != event.source ==> p in r && r[p] == m[p]
    ensures EventStatus(event).IsOK() ==> event.source !in r && forall p :: p in r ==> p in m
    ensures !EventStatus(event).IsOK() && event.source != null ==>
              event.source in r && r[event.source] == EventStatus(event) &&
              forall p :: p in r ==> p in m || p == event.source
    ensures !EventStatus(event).IsOK() && event.source == null ==> r == m
    ensures NoOkStatus(m) ==> NoOkStatus(r)
  {
    var status := EventStatus(event);
    if status.IsOK() then map p | p in m && p != event.source :: m[p]
    else if event.source != null then m[event.source := status]
    else m
  }

  /** A null status is handled exactly as `Status.OK_STATUS` would be. */
  lemma NullStatusActsAsOk(m: PartStatusMap, event: PartChangeEvent)
    requires event.status.None?
    ensures NextPartStatus(m, event) == NextPartStatus(m, event.(status := Some(OkStatus)))
    ensures EventStatus(event) == EventStatus(event.(status := Some(OkStatus)))
  {
  }

  /**
   * The status `handleChange` hands to `update`: after an OK event, some
   * remaining entry's status if any part is still tracked, the event's own
   * otherwise; after a non-OK event, the event's.
   */
  ghost predicate IsShownStatus(tracked: PartStatusMap, eventStatus: Status, shown: Status): (b: bool)
    ensures b ==> shown == eventStatus || shown in tracked.Values
    ensures !eventStatus.IsOK() ==> (b <==> shown == eventStatus)
    ensures eventStatus.IsOK() && tracked == map[] ==> (b <==> shown == eventStatus)
    ensures eventStatus.IsOK() && tracked != map[] ==> (b <==> shown in tracked.Values)
  {
    if eventStatus.IsOK() && tracked != map[] then exists p :: p in tracked && tracked[p] == shown
    else shown == eventStatus
  }

  /**
   * Whatever entry is picked, the status shown after an event is OK exactly
   * when the event is OK and no part is tracked any more.
   */
  lemma {:induction false} ShownStatusDecidesCompletion(m: PartStatusMap, event: PartChangeEvent, shown: Status)
    requires NoOkStatus(m)
    requires IsShownStatus(NextPartStatus(m, event), EventStatus(event), shown)
    ensures shown.IsOK() <==> EventStatus(event).IsOK() && NextPartStatus(m, event) == map[]
  {
    var r := NextPartStatus(m, event);
    if EventStatus(event).IsOK() && r != map[] {
      var p :| p in r && r[p] == shown;
      assert !r[p].IsOK();
    }
  }

  /** The tracked statuses after a sequence of events, starting from none. */
  function Tracked(events: seq<PartChangeEvent>): (r: PartStatusMap)
    ensures NoOkStatus(r)
    decreases |events|
  {
    if events == [] then map[]
    else NextPartStatus(Tracked(events[..|events| - 1]), events[|events| - 1])
  }

  /** The index of the last event whose source is `p`, or -1. */
  function LastReport(events: seq<PartChangeEvent>, p: UIPart): (i: int)
    ensures -1 <= i < |events|
    ensures i >= 0 ==> events[i].source == p
    ensures forall j :: i < j < |events| ==> events[j].source != p
    decreases |events|
  {
    if events == [] then -1
    else if events[|events| - 1].source == p then |events| - 1
    else LastReport(events[..|events| - 1], p)
  }

  /**
   * Errors are atomic per part: a part is tracked exactly when its latest
   * event carries a non-OK status, and it is tracked with that status.
   */
  lemma {:induction false} TrackedIsLastReport(events: seq<PartChangeEvent>, p: UIPart)
    ensures p in Tracked(events) <==> LastReport(events, p) >= 0 && !EventStatus(events[LastReport(events, p)]).IsOK()
    ensures p in Tracked(events) ==> Tracked(events)[p] == EventStatus(events[LastReport(events, p)])
    decreases |events|
  {
    if events != [] {
      var n := |events| - 1;
      TrackedIsLastReport(events[..n], p);
      if events[n].source != p {
        assert LastReport(events, p) == LastReport(events[..n], p);
      }
    }
  }

  /**
   * After a sequence of events the page can finish exactly when the last
   * event is OK and every part's latest report is OK.
   */
  lemma CompleteAfterEvents(events: seq<PartChangeEvent>)
    requires events != []
    ensures (EventStatus(events[|events| - 1]).IsOK() && Tracked(events) == map[]) <==>
            EventStatus(events[|events| - 1]).IsOK() &&
            forall p: UIPart :: LastReport(events, p) >= 0 ==> EventStatus(events[LastReport(events, p)]).IsOK()
  {
    forall p: UIPart
      ensures p in Tracked(events) <==> LastReport(events, p) >= 0 && !EventStatus(events[LastReport(events, p)]).IsOK()
    {
      TrackedIsLastReport(events, p);
    }
    if Tracked(events) != map[] {
      var p :| p in Tracked(events);
      assert LastReport(events, p) >= 0 && !EventStatus(events[LastReport(events, p)]).IsOK();
    }
  }

  /** The message state of a dialog page (`DialogPage`): the error message, and the message with its type. */
  datatype Messages = Messages(errorMessage: Option<string>, message: Option<string>, messageType: int)

  /**
   * The messages `update` leaves for a status: OK clears the error
   * message; ERROR shows its message, or a fixed text when it has none;
   * INFO and WARNING set a message of that type; CANCEL changes nothing.
   */
  function Display(m: Messages, status: Status): (r: Messages)
    ensures status.IsOK() ==> r == m.(errorMessage := None)
    ensures status.severity == Error ==>
              r.errorMessage.Some? && r.message == m.message && r.messageType == m.messageType &&
              (status.message.Some? ==> r.errorMessage == status.message) &&
              (status.message.None? ==> r.errorMessage == Some(UnknownErrorMessage))
    ensures status.severity == Info ==> r == m.(message := status.message, messageType := InformationType)
    ensures status.severity == Warning ==> r == m.(message := status.message, messageType := WarningType)
    ensures status.severity == Cancel ==> r == m
  {
    match status.severity
    case Ok => m.(errorMessage := None)
    case Error => m.(errorMessage := Some(if status.message.Some? then status.message.value else UnknownErrorMessage))
    case Info => m.(message := status.message, messageType := InformationType)
    case Warning => m.(message := status.message, messageType := WarningType)
    case Cancel => m
  }

  /**
   * Only an OK status clears a shown error message: INFO, WARNING and
   * CANCEL leave it in place, and ERROR replaces it.
   */
  lemma OnlyOkClearsError(m: Messages, status: Status)
    ensures Display(m, status).errorMessage.None? ==> status.IsOK() || m.errorMessage.None?
  {
  }

  class PartsWizardPage {
    var canFinish: bool
    var partStatus: PartStatusMap
    /** What `setErrorMessage` and `setMessage` last recorded. */
    var messages: Messages
    /** How many times the wizard container's buttons were refreshed. */
    var buttonRefreshes: nat

    predicate Valid()
      reads this
    {
      NoOkStatus(partStatus)
    }

    constructor ()
      ensures Valid()
      ensures !canFinish && partStatus == map[]
      ensures messages == Messages(None, None, NoMessageType) && buttonRefreshes == 0
    {
      canFinish := false;
      partStatus := map[];
      messages := Messages(None, None, NoMessageType);
      buttonRefreshes := 0;
    }

    /** `isPageComplete`. */
    method IsPageComplete() returns (complete: bool)
      ensures complete == canFinish
    {
      complete := canFinish;
    }

    /**
     * `update`: the page can finish iff the status is OK; the status is
     * displayed; the buttons are refreshed when asked.
     */
    method Update(updateButtons: bool, status: Status)
      modifies this
      ensures canFinish == status.IsOK()
      ensures partStatus == old(partStatus)
      ensures messages == Display(old(messages), status)
      ensures buttonRefreshes == if updateButtons then old(buttonRefreshes) + 1 else old(buttonRefreshes)
    {
      canFinish := status.IsOK();
      messages := Display(messages, status);
      if updateButtons {
        buttonRefreshes := buttonRefreshes + 1;
      }
    }

    /**
     * `handleChange`: updates the tracked statuses for the event, then
     * shows the event's status or, after an OK event, one of the remaining
     * parts' statuses; `shown` is the status handed to `update`.
     */
    method HandleChange(event: PartChangeEvent) returns (ghost shown: Status)
      requires Valid()
      modifies this
      ensures Valid()
      ensures partStatus == NextPartStatus(old(partStatus), event)
      ensures IsShownStatus(partStatus, EventStatus(event), shown)
      ensures canFinish <==> EventStatus(event).IsOK() && partStatus == map[]
      ensures messages == Display(old(messages), shown)
      ensures buttonRefreshes == if UpdatesButtons(event) then old(buttonRefreshes) + 1 else old(buttonRefreshes)
    {
      ghost var before := partStatus;
      var status := EventStatus(event);
      if status.IsOK() {
        partStatus := map p | p in partStatus && p != event.source :: partStatus[p];
        // The first entry of the map's iteration order, if any.
        if partStatus != map[] {
          var p :| p in partStatus;
          status := partStatus[p];
        }
      } else if event.source != null {
        partStatus := partStatus[event.source := status];
      }
      shown := status;
      ShownStatusDecidesCompletion(before, event, shown);
      Update(UpdatesButtons(event), status);
    }
  }
}
