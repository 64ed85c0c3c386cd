/** The REST task client of src/jcx/api/task/task_client.py. Every operation
    fetches a status from the store, reassigns its fields and puts it back;
    each request to the store can fail. There is no terminal-state guard. */
module TaskClient {
  import opened Rs
  import opened Table
  import opened TaskTypes
  import Task

  /** The filter `find_task` sends with its list query: `status` equal to
      NOT_STARTED's value and `enabled` true. */
  predicate Pending(s: StatusInfo): (r: bool)
    ensures r <==> s.enabled && s.status == NotStarted
    ensures r ==> Runnable(s)
  {
    s.status.Code() == NotStarted.Code() && s.enabled
  }

  /** The record `update_progress` puts back for the fetched status `s`: the
      new progress and time always; an explicit `status` wins; otherwise
      progress 100 completes the task unless it is in ERROR. Whatever the
      current status, the update goes through. */
  function ProgressStep(s: StatusInfo, progress: int, status: Optional<TaskStatus>, now: Datetime): (r: StatusInfo)
    ensures r.progress == progress && r.updateTime == Val(now)
    ensures status.Val? ==> r.status == status.value
    ensures status.None? && progress == 100 && s.status != Error ==> r.status == Completed
    ensures status.None? && (progress != 100 || s.status == Error) ==> r.status == s.status
    ensures r.id == s.id && r.enabled == s.enabled && r.startTime == s.startTime && r.worker == s.worker
  {
    var s1 := s.(progress := progress);
    var s2 := s1.(updateTime := Val(now));
    if status.Val? then s2.(status := status.value)
    else if progress == 100 && s2.status != Error then s2.(status := Completed)
    else s2
  }

  /** The record `task_start` puts back: IN_PROGRESS at progress 0 with two
      separate clock readings, from any status; the worker is not recorded. */
  function StartStep(s: StatusInfo, startNow: Datetime, updateNow: Datetime): (r: StatusInfo)
    ensures r.status == InProgress && r.progress == 0
    ensures r.startTime == Val(startNow) && r.updateTime == Val(updateNow)
    ensures r.id == s.id && r.enabled == s.enabled && r.worker == s.worker
  {
    var s1 := s.(status := InProgress);
    var s2 := s1.(progress := 0);
    var s3 := s2.(startTime := Val(startNow));
    s3.(updateTime := Val(updateNow))
  }

  /** `task_done` is `update_progress(id, 100, COMPLETED)`: from any status,
      even ERROR, it leaves COMPLETED at 100. */
  lemma DoneCompletes(s: StatusInfo, now: Datetime)
    ensures ProgressStep(s, 100, Val(Completed), now).status == Completed
    ensures ProgressStep(s, 100, Val(Completed), now).progress == 100
  {
  }

  class TaskClient {
    var taskTab: Table<TaskInfo>
    var statusTab: Table<StatusInfo>

    ghost predicate Valid()
      reads this
    {
      taskTab.Valid() && statusTab.Valid() && TasksKeyed(taskTab) && StatusesKeyed(statusTab)
    }

    /** A client of the service whose `task` and `status` collections hold
        these tables. */
    constructor (tasks: Table<TaskInfo>, statuses: Table<StatusInfo>)
      requires tasks.Valid() && statuses.Valid() && TasksKeyed(tasks) && StatusesKeyed(statuses)
      ensures Valid() && taskTab == tasks && statusTab == statuses
    {
      taskTab := tasks;
      statusTab := statuses;
    }

    /** `get_task_status`: GET one status. The service answers with the
        stored record, or the request fails; an unknown id always fails. */
    method GetTaskStatus(taskId: int) returns (r: Result<StatusInfo>)
      requires Valid()
      ensures r.Ok? ==> statusTab.Get(taskId) == Some(r.value) && r.value.id == taskId
      ensures statusTab.Get(taskId).Null? ==> r == Err(NotFound)
      ensures r.Err? ==> r.error == NotFound || r.error == Transport
      ensures taskId in statusTab.rows && r.Err? ==> r.error == Transport
    {
      var delivered: bool := *;
      if taskId !in statusTab.rows {
        return Err(NotFound);
      }
      if !delivered {
        return Err(Transport);
      }
      return Ok(statusTab.rows[taskId]);
    }

    /** GET one task, as `find_task` does for the status it picked. */
    method GetTask(taskId: int) returns (r: Result<TaskInfo>)
      requires Valid()
      ensures r.Ok? ==> taskTab.Get(taskId) == Some(r.value) && r.value.id == taskId
      ensures taskTab.Get(taskId).Null? ==> r == Err(NotFound)
      ensures r.Err? ==> r.error == NotFound || r.error == Transport
      ensures taskId in taskTab.rows && r.Err? ==> r.error == Transport
    {
      var delivered: bool := *;
      if taskId !in taskTab.rows {
        return Err(NotFound);
      }
      if !delivered {
        return Err(Transport);
      }
      return Ok(taskTab.rows[taskId]);
    }

    /** GET the status collection with the `find_task` filter: the service
        lists the matching statuses in table order, or the request fails. */
    method ListPending() returns (r: Result<seq<StatusInfo>>)
      requires Valid()
      ensures r.Ok? ==> r.value == Filter(statusTab.Records(), Pending)
      ensures r.Err? ==> r.error == Transport
    {
      var delivered: bool := *;
      if !delivered {
        return Err(Transport);
      }
      return Ok(Filter(statusTab.Records(), Pending));
    }

    /** PUT one status: the service stores it under its id and echoes it, or
        the request fails and nothing is stored. */
    method PutStatus(status: StatusInfo) returns (r: Result<StatusInfo>)
      requires Valid()
      modifies this
      ensures Valid() && taskTab == old(taskTab)
      ensures r.Ok? ==> r.value == status && statusTab == old(statusTab).Upsert(status.id, status)
      ensures r.Err? ==> r.error == Transport && statusTab == old(statusTab)
    {
      var delivered: bool := *;
      if !delivered {
        return Err(Transport);
      }
      CommittedKeepsInvariants(statusTab, Ok(status));
      statusTab := statusTab.Upsert(status.id, status);
      return Ok(status);
    }

    /** `find_task`: the first status that is NOT_STARTED and enabled, with
        its task; an error when there is none, when the task cannot be
        fetched, or when a request fails. */
    method FindTask() returns (r: Result<(TaskInfo, StatusInfo)>)
      requires Valid()
      ensures var records := statusTab.Records(); var first := FirstWhere(records, Pending);
              && (r.Ok? ==> first.Some? && r.value.1 == records[first.value]
                            && taskTab.Get(r.value.1.id) == Some(r.value.0))
              && (first.Null? ==> r.Err?)
              && (first.Some? && records[first.value].id !in taskTab.rows ==> r.Err?)
      ensures r.Ok? ==> Pending(r.value.1) && r.value.0.id == r.value.1.id
      ensures var records := statusTab.Records(); var first := FirstWhere(records, Pending);
              r.Err? ==>
                || r.error == Transport
                || (first.Null? && r.error == NoRunnableTask)
                || (first.Some? && records[first.value].id !in taskTab.rows && r.error == NotFound)
    {
      var statusResult := ListPending();
      if statusResult.Err? {
        return Err(statusResult.error);
      }
      var statuses := statusResult.value;
      FilterHead(statusTab.Records(), Pending);
      if |statuses| == 0 {
        return Err(NoRunnableTask);
      }
      var firstStatus := statuses[0];
      var taskResult := GetTask(firstStatus.id);
      if taskResult.Err? {
        return Err(taskResult.error);
      }
      return Ok((taskResult.value, firstStatus));
    }

    /** `task_start`: from any status, IN_PROGRESS at progress 0 with fresh
        start and update times. */
    method TaskStart(taskId: int, worker: Optional<string>, startNow: Datetime, updateNow: Datetime)
      returns (r: Result<StatusInfo>)
      requires Valid()
      modifies this
      ensures Valid() && taskTab == old(taskTab)
      ensures r.Err? ==> statusTab == old(statusTab)
      ensures taskId !in old(statusTab.rows) ==> r == Err(NotFound)
      ensures taskId in old(statusTab.rows) && r.Err? ==> r.error == Transport
      ensures r.Ok? ==>
                taskId in old(statusTab.rows)
                && r.value == StartStep(old(statusTab.rows[taskId]), startNow, updateNow)
                && statusTab == old(statusTab).Upsert(taskId, r.value)
      ensures old(AllProgressInRange(statusTab)) ==> AllProgressInRange(statusTab)
    {
      var statusResult := GetTaskStatus(taskId);
      if statusResult.Err? {
        return statusResult;
      }
      var status := statusResult.value;
      status := status.(status := InProgress);
      status := status.(progress := 0);
      status := status.(startTime := Val(startNow));
      status := status.(updateTime := Val(updateNow));
      r := PutStatus(status);
    }

    /** `task_done`: `update_progress(task_id, 100, COMPLETED)`. */
    method TaskDone(taskId: int, now: Datetime) returns (r: Result<StatusInfo>)
      requires Valid()
      modifies this
      ensures Valid() && taskTab == old(taskTab)
      ensures r.Err? ==> statusTab == old(statusTab)
      ensures taskId !in old(statusTab.rows) ==> r == Err(NotFound)
      ensures taskId in old(statusTab.rows) && r.Err? ==> r.error == Transport
      ensures r.Ok? ==>
                taskId in old(statusTab.rows)
                && r.value == ProgressStep(old(statusTab.rows[taskId]), 100, Val(Completed), now)
                && statusTab == old(statusTab).Upsert(taskId, r.value)
      ensures r.Ok? ==> r.value.status == Completed && r.value.progress == 100
      ensures old(AllProgressInRange(statusTab)) ==> AllProgressInRange(statusTab)
    {
      r := UpdateProgress(taskId, 100, Val(Completed), now);
    }

    /** `task_error`: mark the status ERROR, whatever its state. */
    method TaskError(taskId: int, now: Datetime) returns (r: Result<StatusInfo>)
      requires Valid()
      modifies this
      ensures Valid() && taskTab == old(taskTab)
      ensures r.Err? ==> statusTab == old(statusTab)
      ensures taskId !in old(statusTab.rows) ==> r == Err(NotFound)
      ensures taskId in old(statusTab.rows) && r.Err? ==> r.error == Transport
      ensures r.Ok? ==>
                taskId in old(statusTab.rows)
                && r.value == Task.ErrorStep(old(statusTab.rows[taskId]), now)
                && statusTab == old(statusTab).Upsert(taskId, r.value)
      ensures old(AllProgressInRange(statusTab)) ==> AllProgressInRange(statusTab)
    {
      var statusResult := GetTaskStatus(taskId);
      if statusResult.Err? {
        return statusResult;
      }
      var status := statusResult.value;
      status := status.(status := Error);
      status := status.(updateTime := Val(now));
      r := PutStatus(status);
    }

    /** `update_progress`: reject a progress outside [0,100] before any
        request; otherwise fetch, reassign and put back, whatever the current
        status. */
    method UpdateProgress(taskId: int, progress: int, status: Optional<TaskStatus>, now: Datetime)
      returns (r: Result<StatusInfo>)
      requires Valid()
      modifies this
      ensures Valid() && taskTab == old(taskTab)
      ensures !ProgressInRange(progress) ==> r == Err(InvalidArgument)
      ensures r.Err? ==> statusTab == old(statusTab)
      ensures ProgressInRange(progress) && taskId !in old(statusTab.rows) ==> r == Err(NotFound)
      ensures ProgressInRange(progress) && taskId in old(statusTab.rows) && r.Err? ==> r.error == Transport
      ensures r.Ok? ==>
                ProgressInRange(progress) && taskId in old(statusTab.rows)
                && r.value == ProgressStep(old(statusTab.rows[taskId]), progress, status, now)
                && statusTab == old(statusTab).Upsert(taskId, r.value)
      ensures old(AllProgressInRange(statusTab)) ==> AllProgressInRange(statusTab)
    {
      if !(0 <= progress <= 100) {
        return Err(InvalidArgument);
      }
      var statusResult := GetTaskStatus(taskId);
      if statusResult.Err? {
        return statusResult;
      }
      var statusInfo := statusResult.value;
      statusInfo := statusInfo.(progress := progress);
      statusInfo := statusInfo.(updateTime := Val(now));
      if status.Val? {
        statusInfo := statusInfo.(status := status.value);
      } else if progress == 100 && statusInfo.status != Error {
        statusInfo := statusInfo.(status := Completed);
      }
      r := PutStatus(statusInfo);
    }
  }
}
