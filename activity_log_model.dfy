/** The ActivityLog record schema: a required reference to a Task, a
    required action from a closed enumeration, optional old and new
    statuses from the status enumeration, optional free-text details, and
    creation and update timestamps maintained by the store. */
module ActivityLogModel {
  import opened Wrappers
  import opened Domain

  /** A document as handed to the store for insertion, before the schema is
      applied: every path may be missing and the enum paths are plain strings. */
  datatype LogFields = LogFields(
    taskId: Option<TaskId>,
    actionType: Option<string>,
    oldStatus: Option<string>,
    newStatus: Option<string>,
    details: Option<string>)

  /** A stored entry: the schema's enum paths are closed types here, so an
      entry with an out-of-range action or status cannot be represented. */
  datatype ActivityLog = ActivityLog(
    taskId: TaskId,
    actionType: ActionType,
    oldStatus: Option<Status>,
    newStatus: Option<Status>,
    details: Option<string>,
    createdAt: nat,
    updatedAt: nat)

  /** An optional enum path: a missing value passes, a present one must be
      one of the enumerated strings (the outer None is a validation failure). */
  function OptionalStatus(w: Option<string>): (r: Option<Option<Status>>)
    ensures r.None? <==> w.Some? && ParseStatus(w.value).None?
    ensures r == Some(None) <==> w.None?
  {
    match w
    case None => Some(None)
    case Some(v) =>
      match ParseStatus(v)
      case Some(s) => Some(Some(s))
      case None => None
  }

  /** Schema validation and insertion at store time `now`: None is a
      validation error, and nothing is stored in that case. */
  function ValidateLog(f: LogFields, now: nat): (r: Option<ActivityLog>)
    ensures r.Some? <==>
      && f.taskId.Some?
      && f.actionType.Some? && ParseAction(f.actionType.value).Some?
      && (f.oldStatus.Some? ==> ParseStatus(f.oldStatus.value).Some?)
      && (f.newStatus.Some? ==> ParseStatus(f.newStatus.value).Some?)
    ensures r.Some? ==> r.value.createdAt == now && r.value.updatedAt == now
  {
    var o := OptionalStatus(f.oldStatus);
    var n := OptionalStatus(f.newStatus);
    if f.taskId.Some? && f.actionType.Some? && ParseAction(f.actionType.value).Some? && o.Some? && n.Some? then
      Some(ActivityLog(f.taskId.value, ParseAction(f.actionType.value).value, o.value, n.value, f.details, now, now))
    else
      None
  }

  /** The stored entry as a document with wire strings, as the API returns it. */
  function ToFields(e: ActivityLog): LogFields {
    LogFields(
      Some(e.taskId),
      Some(ActionName(e.actionType)),
      if e.oldStatus.Some? then Some(StatusName(e.oldStatus.value)) else None,
      if e.newStatus.Some? then Some(StatusName(e.newStatus.value)) else None,
      e.details)
  }

  /** Validation keeps every supplied value and loses nothing: a validated
      entry serialises back to the document it came from, and every entry
      whose timestamps agree is the validation of its own document. */
  lemma ValidateRoundTrip(f: LogFields, now: nat, e: ActivityLog)
    ensures ValidateLog(f, now) == Some(e) ==> ToFields(e) == f
    ensures e.createdAt == e.updatedAt ==> ValidateLog(ToFields(e), e.createdAt) == Some(e)
  {
    WireNamesRoundTrip(Pending, Low, Created);
    if e.oldStatus.Some? { WireNamesRoundTrip(e.oldStatus.value, Low, Created); }
    if e.newStatus.Some? { WireNamesRoundTrip(e.newStatus.value, Low, Created); }
    WireNamesRoundTrip(Pending, Low, e.actionType);
  }
}
