/** The task database of src/jcx/api/task/task_db.py: the same selection and
    progress rules as task.py, failures raised as ValueError, and a guarded
    `task_start` that records the worker. */
module TaskDb {
  import opened Rs
  import opened Table
  import opened TaskTypes
  import Task

  /** The record `task_start` writes back for the fetched status `s`: only a
      NOT_STARTED status can start; it becomes IN_PROGRESS with both times set
      to the one clock reading and the worker recorded. */
  function StartStep(s: StatusInfo, worker: Optional<string>, now: Datetime): (r: Result<StatusInfo>)
    ensures r.Ok? <==> s.status == NotStarted
    ensures r.Err? ==> r.error == InvalidState
    ensures r.Ok? ==> r.value.status == InProgress && Runnable(r.value) == s.enabled
    ensures r.Ok? ==> r.value.startTime == Val(now) && r.value.updateTime == r.value.startTime
    ensures r.Ok? ==> r.value.worker == worker
    ensures r.Ok? ==> r.value.id == s.id && r.value.progress == s.progress && r.value.enabled == s.enabled
  {
    if s.status == NotStarted then
      var s1 := s.(status := InProgress);
      var s2 := s1.(startTime := Val(now));
      var s3 := s2.(updateTime := s2.startTime);
      Ok(s3.(worker := worker))
    else Err(InvalidState)
  }

  /** A started task cannot be started again, and a later progress update
      keeps the start time and worker that `task_start` recorded. */
  lemma StartedKeepsStartTime(s: StatusInfo, worker: Optional<string>, now: Datetime, progress: int, later: Datetime)
    requires StartStep(s, worker, now).Ok?
    ensures StartStep(StartStep(s, worker, now).value, worker, later) == Err(InvalidState)
    ensures var u := Task.ProgressStep(StartStep(s, worker, now).value, progress, later);
            u.Ok? ==> u.value.startTime == Val(now) && u.value.worker == worker
  {
  }

  class TaskDb {
    var taskTab: Table<TaskInfo>
    var statusTab: Table<StatusInfo>

    ghost predicate Valid()
      reads this
    {
      taskTab.Valid() && statusTab.Valid() && TasksKeyed(taskTab) && StatusesKeyed(statusTab)
    }

    /** The `task` and `status` tables of `db_url`. The source's constructor
        only stores the url and table names and never opens the tables; the
        model starts from tables that exist. */
    constructor (tasks: Table<TaskInfo>, statuses: Table<StatusInfo>)
      requires tasks.Valid() && statuses.Valid() && TasksKeyed(tasks) && StatusesKeyed(statuses)
      ensures Valid() && taskTab == tasks && statusTab == statuses
    {
      taskTab := tasks;
      statusTab := statuses;
    }

    /** `find_task`: the first status in table order that is enabled and not
        past IN_PROGRESS, with its task. */
    method FindTask() returns (r: Result<Option<(TaskInfo, StatusInfo)>>)
      requires Valid()
      ensures r == Selection(taskTab, statusTab.Records())
      ensures r.Ok? && r.value.Some? ==> Runnable(r.value.value.1) && r.value.value.0.id == r.value.value.1.id
    {
      var records := statusTab.Records();
      for i := 0 to |records|
        invariant forall j :: 0 <= j < i ==> !Runnable(records[j])
      {
        var status := records[i];
        if !status.enabled || status.status.Code() > InProgress.Code() {
          continue;
        }
        var task := taskTab.Get(status.id);
        if task.Null? {
          return Err(NotFound);
        }
        return Ok(Some((task.value, status)));
      }
      return Ok(Null);
    }

    /** `task_start`: start a NOT_STARTED task for `worker`; any other status
        raises and nothing is written. */
    method TaskStart(taskId: int, worker: Optional<string>, now: Datetime) returns (r: Outcome)
      requires Valid()
      modifies this
      ensures Valid() && taskTab == old(taskTab)
      ensures taskId !in old(statusTab.rows) ==> r == Fail(NotFound) && statusTab == old(statusTab)
      ensures taskId in old(statusTab.rows) ==>
                var step := StartStep(old(statusTab.rows[taskId]), worker, now);
                r == OutcomeOf(step) && statusTab == Committed(old(statusTab), step)
      ensures old(AllProgressInRange(statusTab)) ==> AllProgressInRange(statusTab)
    {
      var got := statusTab.Get(taskId);
      if got.Null? {
        return Fail(NotFound);
      }
      var status := got.value;
      if status.status == NotStarted {
        status := status.(status := InProgress);
        status := status.(startTime := Val(now));
        status := status.(updateTime := status.startTime);
        status := status.(worker := worker);
        CommittedKeepsInvariants(statusTab, Ok(status));
        statusTab := statusTab.Upsert(status.id, status);
        r := Pass;
      } else {
        r := Fail(InvalidState);
      }
    }

    /** `task_done`: `update_progress(task_id, 100)`. */
    method TaskDone(taskId: int, now: Datetime) returns (r: Outcome)
      requires Valid()
      modifies this
      ensures Valid() && taskTab == old(taskTab)
      ensures taskId !in old(statusTab.rows) ==> r == Fail(NotFound) && statusTab == old(statusTab)
      ensures taskId in old(statusTab.rows) ==>
                var step := Task.ProgressStep(old(statusTab.rows[taskId]), 100, now);
                r == OutcomeOf(step) && statusTab == Committed(old(statusTab), step)
      ensures r == Pass ==>
                taskId in statusTab.rows && statusTab.rows[taskId].status == Completed
                && statusTab.rows[taskId].progress == 100
      ensures old(AllProgressInRange(statusTab)) ==> AllProgressInRange(statusTab)
    {
      r := UpdateProgress(taskId, 100, now);
    }

    /** `task_error`: mark the status ERROR, whatever its state. */
    method TaskError(taskId: int, now: Datetime) returns (r: Outcome)
      requires Valid()
      modifies this
      ensures Valid() && taskTab == old(taskTab)
      ensures taskId !in old(statusTab.rows) ==> r == Fail(NotFound) && statusTab == old(statusTab)
      ensures taskId in old(statusTab.rows) ==>
                r == Pass && statusTab == old(statusTab).Upsert(taskId, Task.ErrorStep(old(statusTab.rows[taskId]), now))
      ensures old(AllProgressInRange(statusTab)) ==> AllProgressInRange(statusTab)
    {
      var got := statusTab.Get(taskId);
      if got.Null? {
        return Fail(NotFound);
      }
      var status := got.value;
      status := status.(status := Error);
      status := status.(updateTime := Val(now));
      CommittedKeepsInvariants(statusTab, Ok(status));
      statusTab := statusTab.Upsert(status.id, status);
      r := Pass;
    }

    /** `update_progress`: raise on a COMPLETED or ERROR status, then on a
        progress outside [0,100]; otherwise mutate the status field by field
        and put it back. */
    method UpdateProgress(taskId: int, progress: int, now: Datetime) returns (r: Outcome)
      requires Valid()
      modifies this
      ensures Valid() && taskTab == old(taskTab)
      ensures taskId !in old(statusTab.rows) ==> r == Fail(NotFound) && statusTab == old(statusTab)
      ensures taskId in old(statusTab.rows) ==>
                var step := Task.ProgressStep(old(statusTab.rows[taskId]), progress, now);
                r == OutcomeOf(step) && statusTab == Committed(old(statusTab), step)
      ensures old(AllProgressInRange(statusTab)) ==> AllProgressInRange(statusTab)
    {
      var got := statusTab.Get(taskId);
      if got.Null? {
        return Fail(NotFound);
      }
      var status := got.value;
      if status.status.Code() >= Completed.Code() {
        return Fail(InvalidState);
      }
      if !(0 <= progress <= 100) {
        return Fail(InvalidArgument);
      }
      if status.status == NotStarted {
        status := status.(status := InProgress);
      }
      if status.status == InProgress && progress == 100 {
        status := status.(status := Completed);
      }
      status := status.(progress := progress);
      status := status.(updateTime := Val(now));
      if status.startTime.None? {
        status := status.(startTime := status.updateTime);
      }
      CommittedKeepsInvariants(statusTab, Ok(status));
      statusTab := statusTab.Upsert(status.id, status);
      r := Pass;
    }
  }
}
