/** The task controller's mutating operations, written step by step over
    the two stores they change: a map of tasks by id and the sequence of
    activity-log entries. Each method ends in the state, and gives the
    reply, that the matching function of TaskStore describes, and keeps the
    store invariant. */
module TaskController {
  import opened Wrappers
  import opened JsString
  import opened Domain
  import opened ActivityLogModel
  import opened StatusMachine
  import opened TaskStore
  import opened LifecycleProperties

  class Controller {
    var tasks: map<TaskId, Task>
    var logs: seq<ActivityLog>
    var clock: nat
    var nextId: TaskId

    function State(): Db
      reads this
    {
      Db(tasks, logs, clock, nextId)
    }

    ghost predicate Valid()
      reads this
    {
      Invariant(State())
    }

    constructor ()
      ensures Valid() && State() == EmptyDb
    {
      tasks, logs, clock, nextId := map[], [], 0, 0;
    }

    /** Inserts one log document, stamped with the current store time. */
    method AppendLog(f: LogFields)
      requires ValidateLog(f, clock).Some?
      modifies this
      ensures State() == Append(old(State()), f)
    {
      var e := ValidateLog(f, clock).value;
      logs := logs + [e];
      clock := clock + 1;
    }

    /** Builds the record, saves it, then logs its creation. */
    method CreateTask(fields: NewTask, accept: Task -> bool) returns (r: Result<Task, Failure>)
      requires Valid()
      modifies this
      ensures Valid()
      ensures Step(State(), r) == TaskStore.CreateTask(old(State()), fields, accept)
    {
      CreatePreservesInvariant(State(), fields, accept);
      var task := NewRecord(fields, nextId, clock);
      if !accept(task) {
        return Err(ValidationFailed);
      }
      tasks := tasks[task.id := task];
      nextId := nextId + 1;
      clock := clock + 1;
      AppendLog(CreatedFields(task));
      r := Ok(task);
    }

    /** Fetches the task, checks a requested status change, logs it, merges
        the supplied fields and the status, saves, and logs the detail
        update. */
    method UpdateTask(id: TaskId, req: UpdateRequest, accept: Task -> bool) returns (r: Result<Task, Failure>)
      requires Valid()
      modifies this
      ensures Valid()
      ensures Step(State(), r) == TaskStore.UpdateTask(old(State()), id, req, accept)
    {
      ghost var db0 := State();
      ghost var spec := TaskStore.UpdateTask(db0, id, req, accept);
      UpdatePreservesInvariant(db0, id, req, accept);
      if id !in tasks {
        return Err(NotFound);
      }
      var task := tasks[id];
      var oldStatus := StatusName(task.status);
      if Truthy(req.status) && req.status.value != oldStatus {
        if !IsValidStatusTransition(oldStatus, req.status.value) {
          assert spec == Step(db0, Err(InvalidTransition(RejectionMessage(oldStatus, req.status.value))));
          return Err(InvalidTransition(RejectionMessage(oldStatus, req.status.value)));
        }
        AcceptedTargetIsStatus(task.status, req.status.value);
        AppendLog(StatusChangedFields(id, oldStatus, req.status.value));
      }
      ghost var logged := State();
      assert logged == (if ChangesStatus(db0.tasks[id], req) then Append(db0, StatusChangedFields(id, oldStatus, req.status.value)) else db0);
      var current := task;
      task := Merge(task, req.fields);
      if Truthy(req.status) {
        task := task.(status := TargetStatus(current.status, req.status.value));
      }
      task := task.(updatedAt := clock);
      if !accept(task) {
        assert spec == Step(logged, Err(ValidationFailed));
        return Err(ValidationFailed);
      }
      tasks := tasks[id := task];
      clock := clock + 1;
      ghost var stored := State();
      assert stored == logged.(tasks := logged.tasks[id := task], clock := logged.clock + 1);
      assert spec == Step(if HasOtherKeys(req.fields) then Append(stored, UpdatedFields(id)) else stored, Ok(task));
      if HasOtherKeys(req.fields) {
        AppendLog(UpdatedFields(id));
      }
      r := Ok(task);
    }

    /** Fetches the task, logs its deletion, then removes it. */
    method DeleteTask(id: TaskId) returns (r: Result<(), Failure>)
      requires Valid()
      modifies this
      ensures Valid()
      ensures Step(State(), r) == TaskStore.DeleteTask(old(State()), id)
    {
      DeletePreservesInvariant(State(), id);
      if id !in tasks {
        return Err(NotFound);
      }
      var task := tasks[id];
      AppendLog(DeletedFields(task));
      tasks := tasks - {id};
      r := Ok(());
    }
  }
}
