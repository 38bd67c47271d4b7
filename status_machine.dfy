/** The task status state machine: the fixed transition table, the
    predicate that accepts a requested change, and the message that
    explains a rejection. Statuses arrive as request strings, so the table
    and the predicate work on wire names; lemmas restate them on the closed
    enumeration. */
module StatusMachine {
  import opened Wrappers
  import opened Domain

  /** The transition table, looked up by a status's wire name; None for a
      key the table does not have. */
  function TransitionTable(oldStatus: string): (r: Option<seq<string>>)
    ensures r.Some? <==> ParseStatus(oldStatus).Some?
    ensures r.Some? ==> |r.value| <= 1
    ensures r.Some? ==> forall w | w in r.value ::
      ParseStatus(w).Some? && Rank(ParseStatus(w).value) == Rank(ParseStatus(oldStatus).value) + 1
  {
    if oldStatus == "Pending" then Some(["In Progress"])
    else if oldStatus == "In Progress" then Some(["Completed"])
    else if oldStatus == "Completed" then Some([])
    else None
  }

  /** The successors listed for `oldStatus`, or none when the table lacks the key. */
  function AllowedFrom(oldStatus: string): seq<string> {
    match TransitionTable(oldStatus)
    case Some(next) => next
    case None => []
  }

  /** A requested change is accepted when it changes nothing or when the
      table lists the new status as a successor of the old one. */
  predicate IsValidStatusTransition(oldStatus: string, newStatus: string)
    ensures oldStatus == newStatus ==> IsValidStatusTransition(oldStatus, newStatus)
    ensures IsValidStatusTransition(oldStatus, newStatus) && oldStatus != newStatus ==>
      && ParseStatus(oldStatus).Some? && ParseStatus(newStatus).Some?
      && Rank(ParseStatus(newStatus).value) == Rank(ParseStatus(oldStatus).value) + 1
  {
    oldStatus == newStatus || newStatus in AllowedFrom(oldStatus)
  }

  /** Position of a status along the lifecycle. */
  function Rank(s: Status): nat {
    match s
    case Pending => 0
    case InProgress => 1
    case Completed => 2
  }

  /** On the enumeration, a change is accepted exactly when it keeps the
      status or moves it one step forward: Pending to In Progress, or In
      Progress to Completed. Nothing moves backwards or skips a step. */
  lemma TransitionsStepForward(a: Status, b: Status)
    ensures IsValidStatusTransition(StatusName(a), StatusName(b)) <==> (a == b || Rank(b) == Rank(a) + 1)
    ensures a != b && IsValidStatusTransition(StatusName(a), StatusName(b)) ==>
      (a, b) == (Pending, InProgress) || (a, b) == (InProgress, Completed)
  {
  }

  /** On arbitrary strings: every same-status pair is accepted, and the only
      accepted pairs of distinct strings are the two forward steps, so
      Completed and any string outside the table have no successor. */
  lemma TransitionTableOnStrings(oldStatus: string, newStatus: string)
    ensures IsValidStatusTransition(oldStatus, newStatus) <==>
      || oldStatus == newStatus
      || (oldStatus == "Pending" && newStatus == "In Progress")
      || (oldStatus == "In Progress" && newStatus == "Completed")
    ensures oldStatus == "Completed" || ParseStatus(oldStatus).None? ==>
      (IsValidStatusTransition(oldStatus, newStatus) <==> newStatus == oldStatus)
  {
  }

  /** A status string accepted from a stored status is itself a status. */
  lemma AcceptedTargetIsStatus(a: Status, newStatus: string)
    requires IsValidStatusTransition(StatusName(a), newStatus)
    ensures ParseStatus(newStatus).Some?
    ensures Rank(ParseStatus(newStatus).value) - Rank(a) in {0, 1}
  {
  }

  function Join(parts: seq<string>, sep: string): string {
    if parts == [] then ""
    else if |parts| == 1 then parts[0]
    else parts[0] + sep + Join(parts[1..], sep)
  }

  /** The listed successors joined by ", ", or "none" when that text is
      empty (no successors, or a key the table lacks). */
  function AllowedText(oldStatus: string): (text: string)
    ensures text == "none" <==> AllowedFrom(oldStatus) == []
    ensures AllowedFrom(oldStatus) != [] ==> text == AllowedFrom(oldStatus)[0]
  {
    match TransitionTable(oldStatus)
    case Some(next) => if Join(next, ", ") != "" then Join(next, ", ") else "none"
    case None => "none"
  }

  /** The error text of a rejected update. */
  function RejectionMessage(oldStatus: string, newStatus: string): (message: string)
    ensures var head := "Invalid status transition: " + oldStatus + " → " + newStatus + ". Allowed: ";
      && |message| == |head| + |AllowedText(oldStatus)|
      && message[..|head|] == head
      && message[|head|..] == AllowedText(oldStatus)
  {
    "Invalid status transition: " + oldStatus + " → " + newStatus + ". Allowed: " + AllowedText(oldStatus)
  }

  /** A rejection names the pair `old → new` and the successors of the old
      status, or "none" for Completed. */
  lemma RejectionListsSuccessors(a: Status, newStatus: string)
    ensures RejectionMessage(StatusName(a), newStatus) ==
      "Invalid status transition: " + StatusName(a) + " → " + newStatus + ". Allowed: " +
      (match a
       case Pending => "In Progress"
       case InProgress => "Completed"
       case Completed => "none")
  {
  }
}
