/** What the task controller's operations guarantee, stated over the store
    value: the invariant every operation keeps, the writes each operation
    makes and in which order, and what the two listings return. */
module LifecycleProperties {
  import opened Wrappers
  import opened JsString
  import opened Domain
  import opened ActivityLogModel
  import opened StatusMachine
  import opened TaskStore

  /** The entry a given action writes, as the store holds it. */
  function Entry(id: TaskId, action: ActionType, oldStatus: Option<Status>, newStatus: Option<Status>, details: string, at: nat): ActivityLog {
    ActivityLog(id, action, oldStatus, newStatus, Some(details), at, at)
  }

  /** Appending a well-formed entry for an allocated id keeps the invariant. */
  lemma AppendKeepsInvariant(db: Db, f: LogFields)
    requires Invariant(db)
    requires ValidateLog(f, db.clock).Some?
    requires EntryWellFormed(ValidateLog(f, db.clock).value)
    requires f.taskId.value < db.nextId
    ensures Invariant(Append(db, f))
  {
    var e := ValidateLog(f, db.clock).value;
    LogsGrow(db.logs, e, db.nextId, db.clock);
    TasksLater(db.tasks, db.nextId, db.clock);
  }

  lemma LogsGrow(logs: seq<ActivityLog>, e: ActivityLog, nextId: TaskId, clock: nat)
    requires LogsWellFormed(logs, nextId, clock)
    requires EntryWellFormed(e) && e.taskId < nextId && e.createdAt == clock
    ensures LogsWellFormed(logs + [e], nextId, clock + 1)
  {
    var logs' := logs + [e];
    assert forall i | 0 <= i < |logs| :: logs'[i] == logs[i];
  }

  lemma TasksLater(tasks: map<TaskId, Task>, nextId: TaskId, clock: nat)
    requires TasksWellFormed(tasks, nextId, clock)
    ensures TasksWellFormed(tasks, nextId, clock + 1)
  {
  }

  lemma LogsLater(logs: seq<ActivityLog>, nextId: TaskId, clock: nat, nextId': TaskId)
    requires LogsWellFormed(logs, nextId, clock) && nextId <= nextId'
    ensures LogsWellFormed(logs, nextId', clock + 1)
  {
  }

  /** Storing a new task under the next id, created now, keeps the task part. */
  lemma InsertKeepsTasks(tasks: map<TaskId, Task>, nextId: TaskId, clock: nat, t: Task)
    requires TasksWellFormed(tasks, nextId, clock)
    requires t.id == nextId && t.createdAt == t.updatedAt == clock
    ensures TasksWellFormed(tasks[t.id := t], nextId + 1, clock + 1)
  {
  }

  /** Re-saving a stored task with its creation time kept keeps the task part. */
  lemma ReplaceKeepsTasks(tasks: map<TaskId, Task>, nextId: TaskId, clock: nat, t: Task)
    requires TasksWellFormed(tasks, nextId, clock)
    requires t.id in tasks && t.createdAt == tasks[t.id].createdAt && t.updatedAt == clock
    ensures TasksWellFormed(tasks[t.id := t], nextId, clock + 1)
  {
  }

  lemma CreatePreservesInvariant(db: Db, fields: NewTask, accept: Task -> bool)
    requires Invariant(db)
    ensures Invariant(CreateTask(db, fields, accept).db)
  {
    var task := NewRecord(fields, db.nextId, db.clock);
    if accept(task) {
      var saved := db.(tasks := db.tasks[task.id := task], nextId := db.nextId + 1, clock := db.clock + 1);
      InsertKeepsTasks(db.tasks, db.nextId, db.clock, task);
      LogsLater(db.logs, db.nextId, db.clock, db.nextId + 1);
      AppendKeepsInvariant(saved, CreatedFields(task));
    }
  }

  /** Logging an accepted status change of a stored task keeps the invariant. */
  lemma StatusLogKeepsInvariant(db: Db, id: TaskId, newStatus: string)
    requires Invariant(db) && id in db.tasks
    requires newStatus != StatusName(db.tasks[id].status)
    requires IsValidStatusTransition(StatusName(db.tasks[id].status), newStatus)
    ensures ValidateLog(StatusChangedFields(id, StatusName(db.tasks[id].status), newStatus), db.clock).Some?
    ensures Invariant(Append(db, StatusChangedFields(id, StatusName(db.tasks[id].status), newStatus)))
  {
    var a := db.tasks[id].status;
    AcceptedTargetIsStatus(a, newStatus);
    TransitionsStepForward(a, ParseStatus(newStatus).value);
    AppendKeepsInvariant(db, StatusChangedFields(id, StatusName(a), newStatus));
  }

  /** Saving a re-stamped stored task, then perhaps logging the detail
      update, keeps the invariant. */
  lemma SaveKeepsInvariant(logged: Db, saved: Task, logUpdate: bool)
    requires Invariant(logged)
    requires saved.id in logged.tasks && saved.createdAt == logged.tasks[saved.id].createdAt
    requires saved.updatedAt == logged.clock
    ensures var stored := logged.(tasks := logged.tasks[saved.id := saved], clock := logged.clock + 1);
      Invariant(if logUpdate then Append(stored, UpdatedFields(saved.id)) else stored)
  {
    var stored := logged.(tasks := logged.tasks[saved.id := saved], clock := logged.clock + 1);
    ReplaceKeepsTasks(logged.tasks, logged.nextId, logged.clock, saved);
    LogsLater(logged.logs, logged.nextId, logged.clock, logged.nextId);
    if logUpdate {
      AppendKeepsInvariant(stored, UpdatedFields(saved.id));
    }
  }

  lemma UpdatePreservesInvariant(db: Db, id: TaskId, req: UpdateRequest, accept: Task -> bool)
    requires Invariant(db)
    ensures Invariant(UpdateTask(db, id, req, accept).db)
  {
    if id in db.tasks {
      var task := db.tasks[id];
      var oldStatus := StatusName(task.status);
      if !(ChangesStatus(task, req) && !IsValidStatusTransition(oldStatus, req.status.value)) {
        var logged := db;
        if ChangesStatus(task, req) {
          StatusLogKeepsInvariant(db, id, req.status.value);
          logged := Append(db, StatusChangedFields(id, oldStatus, req.status.value));
        }
        var merged := Merge(task, req.fields);
        var applied := if Truthy(req.status) then merged.(status := TargetStatus(task.status, req.status.value)) else merged;
        var saved := applied.(updatedAt := logged.clock);
        var r := UpdateTask(db, id, req, accept);
        if accept(saved) {
          var stored := logged.(tasks := logged.tasks[id := saved], clock := logged.clock + 1);
          assert r.db == if HasOtherKeys(req.fields) then Append(stored, UpdatedFields(id)) else stored;
          assert logged.tasks == db.tasks;
          SaveKeepsInvariant(logged, saved, HasOtherKeys(req.fields));
        } else {
          assert r.db == logged;
        }
      }
    }
  }

  lemma DeletePreservesInvariant(db: Db, id: TaskId)
    requires Invariant(db)
    ensures Invariant(DeleteTask(db, id).db)
  {
    if id in db.tasks {
      AppendKeepsInvariant(db, DeletedFields(db.tasks[id]));
    }
  }

  // ---- Lookups of a missing id ----

  /** A missing id is NotFound for get, update and delete, with no write. */
  lemma MissingIdChangesNothing(db: Db, id: TaskId, req: UpdateRequest, accept: Task -> bool)
    requires id !in db.tasks
    ensures GetTaskById(db, id) == Err(NotFound)
    ensures UpdateTask(db, id, req, accept) == Step(db, Err(NotFound))
    ensures DeleteTask(db, id) == Step(db, Err(NotFound))
  {
  }

  // ---- Create ----

  /** A created task gets the next id, the requested fields and the
      defaults (Medium, Pending), and exactly one Created entry naming its
      title follows it; a record the schema rejects writes nothing. */
  lemma CreateWritesTaskThenEntry(db: Db, fields: NewTask, accept: Task -> bool)
    requires Invariant(db)
    ensures var step := CreateTask(db, fields, accept);
      && (step.reply.Err? ==> step == Step(db, Err(ValidationFailed)))
      && (step.reply.Ok? ==>
            var t := step.reply.value;
            && t.id == db.nextId && t.id !in db.tasks
            && t.title == fields.title && t.description == fields.description
            && t.category == fields.category && t.dueDate == fields.dueDate
            && t.priority == (if fields.priority.Some? then fields.priority.value else Medium)
            && t.status == (if fields.status.Some? then fields.status.value else Pending)
            && step.db.tasks == db.tasks[t.id := t]
            && step.db.logs == db.logs + [Entry(t.id, Created, None, None, "Task \"" + fields.title + "\" created", db.clock + 1)])
  {
  }

  // ---- Update ----

  /** The Status Changed entry an update appends: one when the request
      changes the status, none otherwise. */
  function StatusEntries(db: Db, id: TaskId, req: UpdateRequest): seq<ActivityLog>
    requires id in db.tasks
  {
    var task := db.tasks[id];
    if ChangesStatus(task, req) && IsValidStatusTransition(StatusName(task.status), req.status.value) then
      [Entry(id, StatusChanged, Some(task.status), Some(TargetStatus(task.status, req.status.value)),
             "Status changed from " + StatusName(task.status) + " to " + req.status.value, db.clock)]
    else []
  }

  /** The record an update that passes the status check hands to the
      save: the stored task with the supplied fields copied over, the
      requested status when one is given, and the time of the save, which
      comes after the Status Changed entry when there is one. */
  function SavedRecord(db: Db, id: TaskId, req: UpdateRequest): Task
    requires id in db.tasks
    requires var task := db.tasks[id];
      !(ChangesStatus(task, req) && !IsValidStatusTransition(StatusName(task.status), req.status.value))
  {
    var task := db.tasks[id];
    var merged := Merge(task, req.fields);
    var applied := if Truthy(req.status) then merged.(status := TargetStatus(task.status, req.status.value)) else merged;
    applied.(updatedAt := db.clock + |StatusEntries(db, id, req)|)
  }

  /** The Updated entry an update appends after saving: one when keys
      other than `status` were supplied, none otherwise. */
  function DetailEntries(db: Db, id: TaskId, req: UpdateRequest): seq<ActivityLog>
    requires id in db.tasks
  {
    if HasOtherKeys(req.fields) then
      [Entry(id, Updated, None, None, "Task details updated", db.clock + |StatusEntries(db, id, req)| + 1)]
    else []
  }

  /** A request whose truthy status differs from the stored one and is not
      a listed successor is rejected with the message naming the pair, and
      nothing at all is written, not even the other supplied fields. Every
      other request for a stored task gets past the status check. */
  lemma RejectedTransitionWritesNothing(db: Db, id: TaskId, req: UpdateRequest, accept: Task -> bool)
    requires id in db.tasks
    ensures var task := db.tasks[id];
      var step := UpdateTask(db, id, req, accept);
      (step.reply.Err? && step.reply.error.InvalidTransition?) <==>
        (ChangesStatus(task, req) && !IsValidStatusTransition(StatusName(task.status), req.status.value))
    ensures var task := db.tasks[id];
      ChangesStatus(task, req) && !IsValidStatusTransition(StatusName(task.status), req.status.value) ==>
        UpdateTask(db, id, req, accept) ==
          Step(db, Err(InvalidTransition(RejectionMessage(StatusName(task.status), req.status.value))))
  {
  }

  /** An update that passes the status check saves exactly when the
      schema accepts the merged record, and then replies with it. It
      appends, in this order, one Status Changed entry per real status
      change and then one Updated entry when other keys were supplied. A
      failed save comes after the Status Changed entry, which stays, and
      leaves the tasks unchanged. */
  lemma UpdateAppendsInOrder(db: Db, id: TaskId, req: UpdateRequest, accept: Task -> bool)
    requires id in db.tasks
    requires var task := db.tasks[id];
      !(ChangesStatus(task, req) && !IsValidStatusTransition(StatusName(task.status), req.status.value))
    ensures var step := UpdateTask(db, id, req, accept);
      && (step.reply.Ok? <==> accept(SavedRecord(db, id, req)))
      && (step.reply.Ok? ==> step.reply.value == SavedRecord(db, id, req))
      && (step.reply.Ok? || step.reply == Err(ValidationFailed))
      && (step.reply.Ok? ==> step.db.logs == db.logs + StatusEntries(db, id, req) + DetailEntries(db, id, req))
      && (step.reply.Err? ==> step.db.logs == db.logs + StatusEntries(db, id, req) && step.db.tasks == db.tasks)
  {
    var task := db.tasks[id];
    if ChangesStatus(task, req) {
      AcceptedTargetIsStatus(task.status, req.status.value);
    }
  }

  /** A saved update copies exactly the supplied fields onto the stored
      task, sets the status only when a truthy one was given, keeps the id
      and creation time, and touches no other task. */
  lemma UpdateMergesSuppliedKeys(db: Db, id: TaskId, req: UpdateRequest, accept: Task -> bool)
    requires Invariant(db) && id in db.tasks
    requires UpdateTask(db, id, req, accept).reply.Ok?
    ensures var task := db.tasks[id];
      var step := UpdateTask(db, id, req, accept);
      var saved := step.reply.value;
      && step.db.tasks == db.tasks[id := saved]
      && saved.id == id && saved.createdAt == task.createdAt
      && saved.title == (if req.fields.title.Some? then req.fields.title.value else task.title)
      && saved.description == (if req.fields.description.Some? then req.fields.description.value else task.description)
      && saved.category == (if req.fields.category.Some? then req.fields.category.value else task.category)
      && saved.priority == (if req.fields.priority.Some? then req.fields.priority.value else task.priority)
      && saved.dueDate == (if req.fields.dueDate.Some? then req.fields.dueDate.value else task.dueDate)
      && (Truthy(req.status) ==> StatusName(saved.status) == req.status.value)
      && (!Truthy(req.status) ==> saved.status == task.status)
  {
  }

  /** A stored status only ever stays or moves one step forward. */
  lemma StatusNeverMovesBackward(db: Db, id: TaskId, req: UpdateRequest, accept: Task -> bool)
    requires Invariant(db) && id in db.tasks
    ensures var step := UpdateTask(db, id, req, accept);
      id in step.db.tasks &&
      Rank(step.db.tasks[id].status) - Rank(db.tasks[id].status) in {0, 1}
  {
    var task := db.tasks[id];
    var step := UpdateTask(db, id, req, accept);
    if step.reply.Ok? {
      UpdateMergesSuppliedKeys(db, id, req, accept);
      if Truthy(req.status) {
        AcceptedTargetIsStatus(task.status, req.status.value);
        TransitionsStepForward(task.status, step.reply.value.status);
      }
    } else if !(ChangesStatus(task, req) && !IsValidStatusTransition(StatusName(task.status), req.status.value)) {
      UpdateAppendsInOrder(db, id, req, accept);
    }
  }

  // ---- Delete ----

  /** Deleting a stored task appends one Deleted entry naming its title and
      removes only that task; every earlier entry, including the task's
      own, stays as it was. */
  lemma DeleteKeepsLogs(db: Db, id: TaskId)
    requires Invariant(db) && id in db.tasks
    ensures var step := DeleteTask(db, id);
      && step.reply == Ok(())
      && step.db.tasks == db.tasks - {id}
      && step.db.logs == db.logs + [Entry(id, Deleted, None, None, "Task \"" + db.tasks[id].title + "\" deleted", db.clock)]
      && step.db.logs[..|db.logs|] == db.logs
  {
  }

  // ---- Activity listing ----

  ghost predicate Ascending(s: seq<ActivityLog>) {
    forall i, j | 0 <= i < j < |s| :: s[i].createdAt < s[j].createdAt
  }

  /** Filtering keeps exactly the matching entries, in their order. */
  lemma {:induction false} FilterKeepsOrder(logs: seq<ActivityLog>, taskId: Option<TaskId>)
    ensures forall e | e in FilterLogs(logs, taskId) :: e in logs && MatchesLog(e, taskId)
    ensures forall e | e in logs && MatchesLog(e, taskId) :: e in FilterLogs(logs, taskId)
    ensures Ascending(logs) ==> Ascending(FilterLogs(logs, taskId))
  {
    if logs != [] {
      FilterKeepsOrder(logs[1..], taskId);
      var rest := FilterLogs(logs[1..], taskId);
      var head := if MatchesLog(logs[0], taskId) then [logs[0]] else [];
      assert FilterLogs(logs, taskId) == head + rest;
      if Ascending(logs) {
        AscendingTail(logs);
        forall e | e in rest ensures logs[0].createdAt < e.createdAt {
          var k :| 1 <= k < |logs| && logs[k] == e;
        }
        if head != [] {
          AscendingCons(logs[0], rest);
        }
      }
    }
  }

  lemma AscendingTail(s: seq<ActivityLog>)
    requires s != [] && Ascending(s)
    ensures Ascending(s[1..])
  {
    forall i, j | 0 <= i < j < |s| - 1 ensures s[1..][i].createdAt < s[1..][j].createdAt {
      assert s[1..][i] == s[i + 1] && s[1..][j] == s[j + 1];
    }
  }

  lemma AscendingCons(x: ActivityLog, s: seq<ActivityLog>)
    requires Ascending(s)
    requires forall e | e in s :: x.createdAt < e.createdAt
    ensures Ascending([x] + s)
  {
    forall i, j | 0 <= i < j < |s| + 1 ensures ([x] + s)[i].createdAt < ([x] + s)[j].createdAt {
      assert ([x] + s)[j] == s[j - 1];
      if i > 0 {
        assert ([x] + s)[i] == s[i - 1];
      }
    }
  }

  lemma {:induction false} ReverseAt<T>(s: seq<T>, i: nat)
    requires i < |s|
    ensures Reverse(s)[i] == s[|s| - 1 - i]
  {
    if i < |s| - 1 {
      ReverseAt(s[1..], i);
    }
  }

  /** The activity listing holds only matching entries, newest first, at
      most 100 of them; it holds every matching entry when there are at
      most 100, and otherwise every matching entry left out is older than
      everything listed. */
  lemma ActivityListingNewestFirst(db: Db, taskId: Option<TaskId>)
    requires Invariant(db)
    ensures var r := GetActivityLogs(db, taskId);
      && |r| <= ActivityLimit
      && (forall i | 0 <= i < |r| :: r[i] in db.logs && MatchesLog(r[i], taskId))
      && (forall i, j | 0 <= i < j < |r| :: r[i].createdAt > r[j].createdAt)
      && (forall e | e in db.logs && MatchesLog(e, taskId) ::
            e in r || (|r| == ActivityLimit && e.createdAt < r[|r| - 1].createdAt))
  {
    var f := FilterLogs(db.logs, taskId);
    LogsAscending(db);
    FilterKeepsOrder(db.logs, taskId);
    NewestOfAscending(f, GetActivityLogs(db, taskId));
  }

  /** The newest-first cut of an ascending sequence: its entries come from
      the sequence, strictly descending, and anything left out is older
      than the last entry of a full cut. */
  lemma NewestOfAscending(f: seq<ActivityLog>, r: seq<ActivityLog>)
    requires Ascending(f)
    requires r == Reverse(f)[..Min(ActivityLimit, |f|)]
    ensures |r| <= ActivityLimit
    ensures forall i | 0 <= i < |r| :: r[i] in f
    ensures forall i, j | 0 <= i < j < |r| :: r[i].createdAt > r[j].createdAt
    ensures forall e | e in f :: e in r || (|r| == ActivityLimit && e.createdAt < r[|r| - 1].createdAt)
  {
    ListingReversesFilter(f, r);
    forall i, j | 0 <= i < j < |r| ensures r[i].createdAt > r[j].createdAt {
      assert r[i] == f[|f| - 1 - i] && r[j] == f[|f| - 1 - j];
    }
    forall e | e in f
      ensures e in r || (|r| == ActivityLimit && e.createdAt < r[|r| - 1].createdAt)
    {
      var k :| 0 <= k < |f| && f[k] == e;
      if |f| - 1 - k < |r| {
        assert r[|f| - 1 - k] == e;
      } else {
        assert r[|r| - 1] == f[|f| - |r|];
      }
    }
  }

  lemma LogsAscending(db: Db)
    requires Invariant(db)
    ensures Ascending(db.logs)
  {
  }

  /** Position `i` of the listing is position `|f| - 1 - i` of the filtered log. */
  lemma ListingReversesFilter(f: seq<ActivityLog>, r: seq<ActivityLog>)
    requires r == Reverse(f)[..Min(ActivityLimit, |f|)]
    ensures |r| == Min(ActivityLimit, |f|)
    ensures forall i | 0 <= i < |r| :: r[i] == f[|f| - 1 - i]
  {
    forall i | 0 <= i < |r| ensures r[i] == f[|f| - 1 - i] {
      ReverseAt(f, i);
    }
  }
}
