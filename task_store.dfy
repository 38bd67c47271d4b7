/** The two stores the task controller writes (tasks and activity-log
    entries) as one value, and every controller operation as a function of
    that value: what each one replies and what the stores hold afterwards.
    Store time is a counter that each write that stamps a time (saving a
    task, appending a log entry) advances by one; removing a task does not.
    Task ids are handed out in increasing order. */
module TaskStore {
  import opened Wrappers
  import opened JsString
  import opened Domain
  import opened ActivityLogModel
  import opened StatusMachine

  datatype Task = Task(
    id: TaskId,
    title: string,
    description: string,
    category: string,
    priority: Priority,
    status: Status,
    dueDate: string,
    createdAt: nat,
    updatedAt: nat)

  /** The body of a create request; an omitted priority or status takes the
      schema default (Medium, Pending). */
  datatype NewTask = NewTask(
    title: string,
    description: string,
    category: string,
    priority: Option<Priority>,
    status: Option<Status>,
    dueDate: string)

  /** The keys of an update request other than `status`. `extraKeys` holds
      keys the Task record does not store: the store ignores them, but they
      still count as supplied keys. */
  datatype Patch = Patch(
    title: Option<string>,
    description: Option<string>,
    category: Option<string>,
    priority: Option<Priority>,
    dueDate: Option<string>,
    extraKeys: set<string>)

  datatype UpdateRequest = UpdateRequest(status: Option<string>, fields: Patch)

  datatype Failure = NotFound | InvalidTransition(message: string) | ValidationFailed

  datatype Db = Db(tasks: map<TaskId, Task>, logs: seq<ActivityLog>, clock: nat, nextId: TaskId)

  /** The stores after an operation, and its reply. */
  datatype Step<T> = Step(db: Db, reply: Result<T, Failure>)

  const EmptyDb := Db(map[], [], 0, 0)

  /** An entry as the controller writes it: timestamps agree, details are
      present and non-empty, and old and new statuses appear exactly on status changes,
      where they record a forward step of the lifecycle. */
  predicate EntryWellFormed(e: ActivityLog) {
    && e.updatedAt == e.createdAt
    && e.details.Some? && e.details.value != ""
    && (e.actionType == StatusChanged ==>
          e.oldStatus.Some? && e.newStatus.Some? && Rank(e.newStatus.value) == Rank(e.oldStatus.value) + 1)
    && (e.actionType != StatusChanged ==> e.oldStatus.None? && e.newStatus.None?)
  }

  /** What every operation keeps true of the stores: tasks sit under their
      own id, ids below `nextId`; later ids were created later; every
      timestamp lies in the past; entries are well formed, refer to an id
      that was handed out, and were appended in time order. */
  ghost predicate Invariant(db: Db) {
    TasksWellFormed(db.tasks, db.nextId, db.clock) && LogsWellFormed(db.logs, db.nextId, db.clock)
  }

  ghost predicate TasksWellFormed(tasks: map<TaskId, Task>, nextId: TaskId, clock: nat) {
    && (forall id | id in tasks ::
          && id < nextId
          && tasks[id].id == id
          && tasks[id].createdAt <= tasks[id].updatedAt < clock)
    && (forall a, b | a in tasks && b in tasks && a < b :: tasks[a].createdAt < tasks[b].createdAt)
  }

  ghost predicate LogsWellFormed(logs: seq<ActivityLog>, nextId: TaskId, clock: nat) {
    && (forall i | 0 <= i < |logs| ::
          && EntryWellFormed(logs[i])
          && logs[i].taskId < nextId
          && logs[i].createdAt < clock)
    && (forall i, j | 0 <= i < j < |logs| :: logs[i].createdAt < logs[j].createdAt)
  }

  // ---- Appending to the activity log ----

  /** Inserts a log document at the current store time. */
  function Append(db: Db, f: LogFields): Db
    requires ValidateLog(f, db.clock).Some?
  {
    db.(logs := db.logs + [ValidateLog(f, db.clock).value], clock := db.clock + 1)
  }

  function CreatedFields(t: Task): LogFields {
    LogFields(Some(t.id), Some("Created"), None, None, Some("Task \"" + t.title + "\" created"))
  }

  function StatusChangedFields(id: TaskId, oldStatus: string, newStatus: string): LogFields {
    LogFields(Some(id), Some("Status Changed"), Some(oldStatus), Some(newStatus),
              Some("Status changed from " + oldStatus + " to " + newStatus))
  }

  function UpdatedFields(id: TaskId): LogFields {
    LogFields(Some(id), Some("Updated"), None, None, Some("Task details updated"))
  }

  function DeletedFields(t: Task): LogFields {
    LogFields(Some(t.id), Some("Deleted"), None, None, Some("Task \"" + t.title + "\" deleted"))
  }

  // ---- Create ----

  /** The record a create request builds, with the schema defaults applied. */
  function NewRecord(fields: NewTask, id: TaskId, now: nat): Task {
    Task(id, fields.title, fields.description, fields.category,
         if fields.priority.Some? then fields.priority.value else Medium,
         if fields.status.Some? then fields.status.value else Pending,
         fields.dueDate, now, now)
  }

  /** Saves the new task, then appends its Created entry. `accept` is the
      Task schema's validation on save; a rejected record writes nothing. */
  function CreateTask(db: Db, fields: NewTask, accept: Task -> bool): (r: Step<Task>)
    ensures r.reply.Err? <==> !accept(NewRecord(fields, db.nextId, db.clock))
    ensures r.reply.Err? ==> r == Step(db, Err(ValidationFailed))
    ensures r.reply.Ok? ==>
      && r.reply.value.id == db.nextId
      && r.db.tasks == db.tasks[db.nextId := r.reply.value]
      && |r.db.logs| == |db.logs| + 1 && r.db.logs[..|db.logs|] == db.logs
  {
    var task := NewRecord(fields, db.nextId, db.clock);
    if !accept(task) then
      Step(db, Err(ValidationFailed))
    else
      var saved := db.(tasks := db.tasks[task.id := task], nextId := db.nextId + 1, clock := db.clock + 1);
      Step(Append(saved, CreatedFields(task)), Ok(task))
  }

  // ---- Update ----

  /** Copies each supplied field onto the task; unknown keys change nothing. */
  function Merge(t: Task, p: Patch): (m: Task)
    ensures m.id == t.id && m.status == t.status && m.createdAt == t.createdAt && m.updatedAt == t.updatedAt
    ensures m.title == (if p.title.Some? then p.title.value else t.title)
    ensures m.description == (if p.description.Some? then p.description.value else t.description)
    ensures m.category == (if p.category.Some? then p.category.value else t.category)
    ensures m.priority == (if p.priority.Some? then p.priority.value else t.priority)
    ensures m.dueDate == (if p.dueDate.Some? then p.dueDate.value else t.dueDate)
    ensures !HasOtherKeys(p) ==> m == t
  {
    t.(title := if p.title.Some? then p.title.value else t.title,
       description := if p.description.Some? then p.description.value else t.description,
       category := if p.category.Some? then p.category.value else t.category,
       priority := if p.priority.Some? then p.priority.value else t.priority,
       dueDate := if p.dueDate.Some? then p.dueDate.value else t.dueDate)
  }

  /** The request has at least one key besides `status`. */
  predicate HasOtherKeys(p: Patch) {
    p.title.Some? || p.description.Some? || p.category.Some? || p.priority.Some? || p.dueDate.Some? || p.extraKeys != {}
  }

  /** The status an accepted request string names. */
  function TargetStatus(current: Status, requested: string): (s: Status)
    requires IsValidStatusTransition(StatusName(current), requested)
    ensures StatusName(s) == requested
  {
    AcceptedTargetIsStatus(current, requested);
    ParseStatus(requested).value
  }

  /** A truthy status that differs from the stored one. */
  predicate ChangesStatus(task: Task, req: UpdateRequest) {
    Truthy(req.status) && req.status.value != StatusName(task.status)
  }

  /** Looks the task up; checks a requested status change against the
      transition table; appends the Status Changed entry; merges the other
      fields and the status onto the task and saves it; then appends an
      Updated entry when other keys were supplied. A failed save happens
      after the Status Changed entry was appended, and that entry stays. */
  function UpdateTask(db: Db, id: TaskId, req: UpdateRequest, accept: Task -> bool): (r: Step<Task>)
    ensures id !in db.tasks ==> r == Step(db, Err(NotFound))
  {
    if id !in db.tasks then
      Step(db, Err(NotFound))
    else
      var task := db.tasks[id];
      var oldStatus := StatusName(task.status);
      if ChangesStatus(task, req) && !IsValidStatusTransition(oldStatus, req.status.value) then
        Step(db, Err(InvalidTransition(RejectionMessage(oldStatus, req.status.value))))
      else
        var logged :=
          if ChangesStatus(task, req) then
            (AcceptedTargetIsStatus(task.status, req.status.value);
             Append(db, StatusChangedFields(id, oldStatus, req.status.value)))
          else db;
        var merged := Merge(task, req.fields);
        var applied := if Truthy(req.status) then merged.(status := TargetStatus(task.status, req.status.value)) else merged;
        var saved := applied.(updatedAt := logged.clock);
        if !accept(saved) then
          Step(logged, Err(ValidationFailed))
        else
          var stored := logged.(tasks := logged.tasks[id := saved], clock := logged.clock + 1);
          Step(if HasOtherKeys(req.fields) then Append(stored, UpdatedFields(id)) else stored, Ok(saved))
  }

  /** An update touches only the one task: on success it replaces that task
      (keeping its id), on failure the tasks are as before; the log keeps
      every earlier entry and gains at most two. */
  lemma UpdateTaskEffects(db: Db, id: TaskId, req: UpdateRequest, accept: Task -> bool)
    ensures var r := UpdateTask(db, id, req, accept);
      && |db.logs| <= |r.db.logs| <= |db.logs| + 2 && r.db.logs[..|db.logs|] == db.logs
      && (r.reply.Ok? ==> id in db.tasks && r.db.tasks == db.tasks[id := r.reply.value] && r.reply.value.id == db.tasks[id].id)
      && (r.reply.Err? ==> r.db.tasks == db.tasks)
  {
    if id in db.tasks {
      var task := db.tasks[id];
      var oldStatus := StatusName(task.status);
      if !(ChangesStatus(task, req) && !IsValidStatusTransition(oldStatus, req.status.value)) {
        var logged := db;
        if ChangesStatus(task, req) {
          AcceptedTargetIsStatus(task.status, req.status.value);
          logged := Append(db, StatusChangedFields(id, oldStatus, req.status.value));
        }
        assert logged.logs[..|db.logs|] == db.logs;
        assert logged.tasks == db.tasks;
      }
    }
  }

  // ---- Delete ----

  /** Appends the Deleted entry, then removes the task. */
  function DeleteTask(db: Db, id: TaskId): (r: Step<()>)
    ensures id !in db.tasks ==> r == Step(db, Err(NotFound))
    ensures id in db.tasks ==>
      && r.reply == Ok(())
      && r.db.tasks == db.tasks - {id}
      && |r.db.logs| == |db.logs| + 1 && r.db.logs[..|db.logs|] == db.logs
  {
    if id !in db.tasks then
      Step(db, Err(NotFound))
    else
      var logged := Append(db, DeletedFields(db.tasks[id]));
      Step(logged.(tasks := logged.tasks - {id}), Ok(()))
  }

  // ---- Reads ----

  function GetTaskById(db: Db, id: TaskId): (r: Result<Task, Failure>)
    ensures r.Ok? <==> id in db.tasks
    ensures r.Ok? ==> r.value == db.tasks[id]
    ensures r.Err? ==> r.error == NotFound
  {
    if id in db.tasks then Ok(db.tasks[id]) else Err(NotFound)
  }

  /** The equality filter of a task listing. */
  datatype TaskFilter = TaskFilter(status: Option<string>, priority: Option<string>)

  /** A query parameter constrains the listing only when it is truthy. */
  function BuildTaskFilter(status: Option<string>, priority: Option<string>): (f: TaskFilter)
    ensures f.status.Some? <==> Truthy(status)
    ensures f.priority.Some? <==> Truthy(priority)
    ensures f.status.Some? ==> f.status == status
    ensures f.priority.Some? ==> f.priority == priority
  {
    TaskFilter(if Truthy(status) then status else None, if Truthy(priority) then priority else None)
  }

  predicate MatchesTask(t: Task, f: TaskFilter) {
    && (f.status.Some? ==> StatusName(t.status) == f.status.value)
    && (f.priority.Some? ==> PriorityName(t.priority) == f.priority.value)
  }

  /** The stored tasks with an id below `n` that match `f`, newest first. */
  function NewestTasks(db: Db, f: TaskFilter, n: nat): (r: seq<Task>)
    requires TasksWellFormed(db.tasks, db.nextId, db.clock) && n <= db.nextId
    ensures forall i | 0 <= i < |r| :: r[i].id < n && r[i].id in db.tasks && db.tasks[r[i].id] == r[i] && MatchesTask(r[i], f)
    ensures forall id | id in db.tasks && id < n && MatchesTask(db.tasks[id], f) :: db.tasks[id] in r
    ensures forall i, j | 0 <= i < j < |r| :: r[i].createdAt > r[j].createdAt
  {
    if n == 0 then
      []
    else
      var rest := NewestTasks(db, f, n - 1);
      if n - 1 in db.tasks && MatchesTask(db.tasks[n - 1], f) then
        var t := db.tasks[n - 1];
        assert forall j | 0 <= j < |rest| :: rest[j].createdAt < t.createdAt;
        [t] + rest
      else
        rest
  }

  /** The listing: exactly the stored tasks that match the truthy query
      parameters, each once, in strictly decreasing creation time. */
  function GetTasks(db: Db, status: Option<string>, priority: Option<string>): (r: seq<Task>)
    requires Invariant(db)
    ensures forall i | 0 <= i < |r| :: r[i].id in db.tasks && db.tasks[r[i].id] == r[i] && MatchesTask(r[i], BuildTaskFilter(status, priority))
    ensures forall id | id in db.tasks && MatchesTask(db.tasks[id], BuildTaskFilter(status, priority)) :: db.tasks[id] in r
    ensures forall i, j | 0 <= i < j < |r| :: r[i].createdAt > r[j].createdAt
  {
    NewestTasks(db, BuildTaskFilter(status, priority), db.nextId)
  }

  /** The activity listing's filter: one task's entries, or all of them. */
  predicate MatchesLog(e: ActivityLog, taskId: Option<TaskId>) {
    taskId.Some? ==> e.taskId == taskId.value
  }

  function FilterLogs(logs: seq<ActivityLog>, taskId: Option<TaskId>): seq<ActivityLog> {
    if logs == [] then []
    else (if MatchesLog(logs[0], taskId) then [logs[0]] else []) + FilterLogs(logs[1..], taskId)
  }

  function Reverse<T>(s: seq<T>): (r: seq<T>)
    ensures |r| == |s|
  {
    if s == [] then [] else Reverse(s[1..]) + [s[0]]
  }

  function Min(a: nat, b: nat): nat {
    if a <= b then a else b
  }

  const ActivityLimit: nat := 100

  /** Walks the log from its newest entry, collecting up to `k` matching ones:
      the same as reversing the matching entries and keeping the first `k`. */
  function NewestLogs(logs: seq<ActivityLog>, taskId: Option<TaskId>, k: nat): (r: seq<ActivityLog>)
    ensures r == Reverse(FilterLogs(logs, taskId))[..Min(k, |FilterLogs(logs, taskId)|)]
  {
    if logs == [] || k == 0 then
      []
    else
      var prefix := logs[..|logs| - 1];
      var last := logs[|logs| - 1];
      assert logs == prefix + [last];
      FilterSnoc(prefix, last, taskId);
      var rest := if MatchesLog(last, taskId) then NewestLogs(prefix, taskId, k - 1) else NewestLogs(prefix, taskId, k);
      if MatchesLog(last, taskId) then
        var fp := FilterLogs(prefix, taskId);
        ReverseSnoc(fp, last);
        assert ([last] + Reverse(fp))[..Min(k, |fp| + 1)] == [last] + Reverse(fp)[..Min(k - 1, |fp|)];
        [last] + rest
      else
        assert FilterLogs(logs, taskId) == FilterLogs(prefix, taskId) + [];
        assert FilterLogs(prefix, taskId) + [] == FilterLogs(prefix, taskId);
        rest
  }

  lemma {:induction false} FilterSnoc(s: seq<ActivityLog>, x: ActivityLog, taskId: Option<TaskId>)
    ensures FilterLogs(s + [x], taskId) == FilterLogs(s, taskId) + (if MatchesLog(x, taskId) then [x] else [])
  {
    if s == [] {
      assert [] + [x] == [x];
    } else {
      var t := s + [x];
      assert t[0] == s[0] && t[1..] == s[1..] + [x];
      FilterSnoc(s[1..], x, taskId);
      var head := if MatchesLog(s[0], taskId) then [s[0]] else [];
      assert FilterLogs(t, taskId) == head + FilterLogs(t[1..], taskId);
      assert FilterLogs(s, taskId) == head + FilterLogs(s[1..], taskId);
    }
  }

  lemma {:induction false} ReverseSnoc<T>(s: seq<T>, x: T)
    ensures Reverse(s + [x]) == [x] + Reverse(s)
  {
    if s == [] {
      assert [] + [x] == [x];
    } else {
      assert (s + [x])[1..] == s[1..] + [x];
      ReverseSnoc(s[1..], x);
    }
  }

  /** The activity listing: the newest matching entries first, at most 100. */
  function GetActivityLogs(db: Db, taskId: Option<TaskId>): (r: seq<ActivityLog>)
    ensures r == Reverse(FilterLogs(db.logs, taskId))[..Min(ActivityLimit, |FilterLogs(db.logs, taskId)|)]
  {
    NewestLogs(db.logs, taskId, ActivityLimit)
  }
}
