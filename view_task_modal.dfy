/** The one-line text the task details view shows for an activity entry. */
module ViewTaskModal {
  import opened Wrappers
  import opened JsString
  import opened Domain
  import opened ActivityLogModel
  import opened TaskStore

  /** An entry as the client receives it: the action is always present
      (the schema requires it); the other paths may be missing. */
  datatype LogView = LogView(actionType: string, oldStatus: Option<string>, newStatus: Option<string>, details: Option<string>)

  /** A stored entry as the API delivers it. */
  function ViewOf(e: ActivityLog): LogView {
    var f := ToFields(e);
    LogView(ActionName(e.actionType), f.oldStatus, f.newStatus, f.details)
  }

  /** A status change with both statuses shows `old → new`; anything else
      shows its details when they are non-empty, and its action otherwise. */
  function FormatActivityText(log: LogView): (text: string)
    ensures log.actionType != "" ==> text != ""
    ensures log.actionType == "Status Changed" && Truthy(log.oldStatus) && Truthy(log.newStatus) ==>
      text == log.oldStatus.value + " → " + log.newStatus.value
    ensures !(log.actionType == "Status Changed" && Truthy(log.oldStatus) && Truthy(log.newStatus)) ==>
      (Truthy(log.details) ==> text == log.details.value) &&
      (!Truthy(log.details) ==> text == log.actionType)
  {
    if log.actionType == "Status Changed" && Truthy(log.oldStatus) && Truthy(log.newStatus) then
      log.oldStatus.value + " → " + log.newStatus.value
    else
      OrElse(log.details, log.actionType)
  }

  /** On the entries the controller writes: a status change reads `old →
      new` with the statuses' wire names, and every other entry reads as
      its details, which are never empty. */
  lemma ServerEntryText(e: ActivityLog)
    requires EntryWellFormed(e)
    ensures e.actionType == StatusChanged ==>
      FormatActivityText(ViewOf(e)) == StatusName(e.oldStatus.value) + " → " + StatusName(e.newStatus.value)
    ensures e.actionType != StatusChanged ==> FormatActivityText(ViewOf(e)) == e.details.value
    ensures FormatActivityText(ViewOf(e)) != ""
  {
  }

  /** A status change missing either status falls back to details or action. */
  lemma IncompleteStatusChangeFallsBack(log: LogView)
    requires log.actionType == "Status Changed"
    requires !Truthy(log.oldStatus) || !Truthy(log.newStatus)
    ensures FormatActivityText(log) == OrElse(log.details, "Status Changed")
  {
  }
}
