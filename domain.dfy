/** The closed enumerations shared by the Task and ActivityLog records, and
    the exact strings each value has on the wire and in the database. */
module Domain {
  import opened Wrappers

  /** Database identifier of a Task. */
  type TaskId = nat

  datatype Status = Pending | InProgress | Completed

  datatype Priority = Low | Medium | High

  datatype ActionType = Created | Updated | Deleted | StatusChanged

  function StatusName(s: Status): string {
    match s
    case Pending => "Pending"
    case InProgress => "In Progress"
    case Completed => "Completed"
  }

  /** Reads a status from its wire string; None for any string outside the enum. */
  function ParseStatus(w: string): (r: Option<Status>)
    ensures r.Some? ==> StatusName(r.value) == w
  {
    if w == "Pending" then Some(Pending)
    else if w == "In Progress" then Some(InProgress)
    else if w == "Completed" then Some(Completed)
    else None
  }

  function PriorityName(p: Priority): string {
    match p
    case Low => "Low"
    case Medium => "Medium"
    case High => "High"
  }

  function ParsePriority(w: string): (r: Option<Priority>)
    ensures r.Some? ==> PriorityName(r.value) == w
  {
    if w == "Low" then Some(Low)
    else if w == "Medium" then Some(Medium)
    else if w == "High" then Some(High)
    else None
  }

  function ActionName(a: ActionType): string {
    match a
    case Created => "Created"
    case Updated => "Updated"
    case Deleted => "Deleted"
    case StatusChanged => "Status Changed"
  }

  function ParseAction(w: string): (r: Option<ActionType>)
    ensures r.Some? ==> ActionName(r.value) == w
  {
    if w == "Created" then Some(Created)
    else if w == "Updated" then Some(Updated)
    else if w == "Deleted" then Some(Deleted)
    else if w == "Status Changed" then Some(StatusChanged)
    else None
  }

  /** Every enum value reads back from its own wire string, so the names are
      pairwise distinct and the parsers accept exactly the enumerated strings. */
  lemma WireNamesRoundTrip(s: Status, p: Priority, a: ActionType)
    ensures ParseStatus(StatusName(s)) == Some(s)
    ensures ParsePriority(PriorityName(p)) == Some(p)
    ensures ParseAction(ActionName(a)) == Some(a)
  {
  }
}
