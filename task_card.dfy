/** The task card's decisions: which status the advance button moves a
    task to, what request that button sends, and when the card and its due
    date are marked past due. */
module TaskCard {
  import opened Wrappers
  import opened Domain
  import opened StatusMachine
  import opened TaskStore
  import opened LifecycleProperties

  /** The status the advance button offers, or none. */
  function NextStatus(status: string): (next: Option<string>)
    ensures next.Some? <==> ParseStatus(status).Some? && ParseStatus(status).value != Completed
    ensures next.Some? ==>
      ParseStatus(next.value).Some? && Rank(ParseStatus(next.value).value) == Rank(ParseStatus(status).value) + 1
  {
    if status == "Pending" then Some("In Progress")
    else if status == "In Progress" then Some("Completed")
    else None
  }

  /** The client's next status is always a change the server accepts, and
      every change the server accepts to a different status is the one the
      client offers: the two tables agree. */
  lemma NextStatusAgreesWithServer(status: string, target: string)
    ensures NextStatus(status).Some? ==>
      NextStatus(status).value != status && IsValidStatusTransition(status, NextStatus(status).value)
    ensures target != status && IsValidStatusTransition(status, target) ==> NextStatus(status) == Some(target)
    ensures NextStatus(status).None? <==> AllowedFrom(status) == []
  {
  }

  /** The request the advance button sends: this task's id and the next status. */
  datatype StatusChangeRequest = StatusChangeRequest(id: TaskId, status: string)

  /** The advance button, when the card shows one, and what it sends. */
  function AdvanceButton(t: Task): (button: Option<StatusChangeRequest>)
    ensures button.Some? <==> t.status != Completed
    ensures button.Some? ==> button.value.id == t.id && StatusName(t.status) != button.value.status
  {
    match NextStatus(StatusName(t.status))
    case Some(next) => Some(StatusChangeRequest(t.id, next))
    case None => None
  }

  const NoOtherKeys := Patch(None, None, None, None, None, {})

  /** Pressing the advance button on a stored task passes the server's
      status check; when the save goes through, the task moves one step
      forward and exactly one Status Changed entry is appended, with no
      Updated entry. */
  lemma AdvanceButtonIsAccepted(db: Db, id: TaskId, accept: Task -> bool)
    requires Invariant(db) && id in db.tasks
    requires AdvanceButton(db.tasks[id]).Some?
    ensures var req := UpdateRequest(Some(AdvanceButton(db.tasks[id]).value.status), NoOtherKeys);
      var step := UpdateTask(db, id, req, accept);
      && (step.reply.Ok? || step.reply == Err(ValidationFailed))
      && (step.reply.Ok? ==>
            && Rank(step.reply.value.status) == Rank(db.tasks[id].status) + 1
            && |step.db.logs| == |db.logs| + 1
            && step.db.logs[|db.logs|].actionType == StatusChanged
            && step.db.logs[|db.logs|].oldStatus == Some(db.tasks[id].status)
            && step.db.logs[|db.logs|].newStatus == Some(step.reply.value.status))
  {
    var task := db.tasks[id];
    var req := UpdateRequest(Some(AdvanceButton(task).value.status), NoOtherKeys);
    UpdateAppendsInOrder(db, id, req, accept);
    var step := UpdateTask(db, id, req, accept);
    if step.reply.Ok? {
      UpdateMergesSuppliedKeys(db, id, req, accept);
    }
  }

  /** The card's past-due styling: the card and the "(Past Due)" marker
      only for a task that is past due and not Completed; the due-date text
      for any past-due task. Whether the date has passed is an input. */
  datatype PastDueMarks = PastDueMarks(card: bool, dueText: bool, marker: bool)

  function PastDue(pastDue: bool, status: string): (marks: PastDueMarks)
    ensures marks.card <==> pastDue && status != "Completed"
    ensures marks.marker <==> marks.card
    ensures marks.dueText <==> pastDue
  {
    var highlight := pastDue && status != "Completed";
    PastDueMarks(highlight, pastDue, highlight)
  }
}
