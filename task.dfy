/** The generic task database of src/jcx/api/task/task.py: a task table of any
    record type and a status table, with failures reported by `assert`. */
module Task {
  import opened Rs
  import opened Table
  import opened TaskTypes

  /** The record `update_progress` writes back for the fetched status `s`,
      or the assertion that stops it. The status check comes before the
      range check. */
  function ProgressStep(s: StatusInfo, progress: int, now: Datetime): (r: Result<StatusInfo>)
    ensures r.Err? <==> s.status.Terminal() || !ProgressInRange(progress)
    ensures s.status.Terminal() ==> r == Err(InvalidState)
    ensures !s.status.Terminal() && !ProgressInRange(progress) ==> r == Err(InvalidArgument)
    ensures r.Ok? ==> r.value.progress == progress && ProgressInRange(r.value.progress)
    ensures r.Ok? ==> r.value.status == (if progress == 100 then Completed else InProgress)
    ensures r.Ok? ==> r.value.updateTime == Val(now)
    ensures r.Ok? ==> r.value.startTime.Val?
    ensures r.Ok? && s.startTime.Val? ==> r.value.startTime == s.startTime
    ensures r.Ok? && s.startTime.None? ==> r.value.startTime == r.value.updateTime
    ensures r.Ok? ==> r.value.id == s.id && r.value.enabled == s.enabled && r.value.worker == s.worker
  {
    if !(s.status.Code() < Completed.Code()) then Err(InvalidState)
    else if !(0 <= progress <= 100) then Err(InvalidArgument)
    else
      var s1 := if s.status == NotStarted then s.(status := InProgress) else s;
      var s2 := if s1.status == InProgress && progress == 100 then s1.(status := Completed) else s1;
      var s3 := s2.(progress := progress, updateTime := Val(now));
      Ok(if s3.startTime.None? then s3.(startTime := s3.updateTime) else s3)
  }

  /** The record `task_error` writes back: ERROR from any state, stamped with
      the time, everything else kept. */
  function ErrorStep(s: StatusInfo, now: Datetime): (r: StatusInfo)
    ensures r.status == Error && !Runnable(r)
    ensures r.updateTime == Val(now)
    ensures r.id == s.id && r.progress == s.progress && r.enabled == s.enabled
    ensures r.startTime == s.startTime && r.worker == s.worker
  {
    var s1 := s.(status := Error);
    s1.(updateTime := Val(now))
  }

  /** `task_done` is `update_progress(id, 100)`: it succeeds exactly on a
      NOT_STARTED or IN_PROGRESS status and leaves it COMPLETED at 100. */
  lemma DoneCompletes(s: StatusInfo, now: Datetime)
    ensures ProgressStep(s, 100, now).Ok? <==> !s.status.Terminal()
    ensures ProgressStep(s, 100, now).Ok? ==>
              ProgressStep(s, 100, now).value.status == Completed
              && ProgressStep(s, 100, now).value.progress == 100
              && !Runnable(ProgressStep(s, 100, now).value)
  {
  }

  /** A status that `task_done` or `task_error` produced cannot be updated
      any more. */
  lemma FinishedIsFinal(s: StatusInfo, progress: int, now: Datetime, later: Datetime)
    ensures ProgressStep(s, 100, now).Ok? ==>
              ProgressStep(ProgressStep(s, 100, now).value, progress, later) == Err(InvalidState)
    ensures ProgressStep(ErrorStep(s, now), progress, later) == Err(InvalidState)
  {
  }

  class TaskDb<TaskRecord> {
    var taskTab: Table<TaskRecord>
    var statusTab: Table<StatusInfo>

    ghost predicate Valid()
      reads this
    {
      taskTab.Valid() && statusTab.Valid() && StatusesKeyed(statusTab)
    }

    /** The tables as loaded from `db_dir`; loading itself is file I/O. */
    constructor (tasks: Table<TaskRecord>, statuses: Table<StatusInfo>)
      requires tasks.Valid() && statuses.Valid() && StatusesKeyed(statuses)
      ensures Valid() && taskTab == tasks && statusTab == statuses
    {
      taskTab := tasks;
      statusTab := statuses;
    }

    /** `find_task`: scan the statuses in table order and return the first
        runnable one with its task. */
    method FindTask() returns (r: Result<Option<(TaskRecord, StatusInfo)>>)
      requires Valid()
      ensures r == Selection(taskTab, statusTab.Records())
      ensures r.Ok? && r.value.Some? ==> Runnable(r.value.value.1)
    {
      var records := statusTab.Records();
      var i := 0;
      while i < |records|
        invariant 0 <= i <= |records|
        invariant forall j :: 0 <= j < i ==> !Runnable(records[j])
      {
        var status := records[i];
        if !status.enabled || status.status.Code() > InProgress.Code() {
          i := i + 1;
          continue;
        }
        var task := taskTab.Get(status.id);
        if task.Null? {
          return Err(NotFound);
        }
        return Ok(Some((task.value, status)));
      }
      return Ok(Null);
    }

    /** `task_done`: `update_progress(task_id, 100)`. */
    method TaskDone(taskId: int, now: Datetime) returns (r: Outcome)
      requires Valid()
      modifies this
      ensures Valid() && taskTab == old(taskTab)
      ensures taskId !in old(statusTab.rows) ==> r == Fail(NotFound) && statusTab == old(statusTab)
      ensures taskId in old(statusTab.rows) ==>
                var step := ProgressStep(old(statusTab.rows[taskId]), 100, now);
                r == OutcomeOf(step) && statusTab == Committed(old(statusTab), step)
      ensures r == Pass ==>
                taskId in statusTab.rows && statusTab.rows[taskId].status == Completed
                && statusTab.rows[taskId].progress == 100
      ensures old(AllProgressInRange(statusTab)) ==> AllProgressInRange(statusTab)
    {
      r := UpdateProgress(taskId, 100, now);
    }

    /** `task_error`: mark the status ERROR, whatever its state. */
    method TaskError(taskId: int, now: Datetime) returns (r: Outcome)
      requires Valid()
      modifies this
      ensures Valid() && taskTab == old(taskTab)
      ensures taskId !in old(statusTab.rows) ==> r == Fail(NotFound) && statusTab == old(statusTab)
      ensures taskId in old(statusTab.rows) ==>
                r == Pass && statusTab == old(statusTab).Upsert(taskId, ErrorStep(old(statusTab.rows[taskId]), now))
      ensures old(AllProgressInRange(statusTab)) ==> AllProgressInRange(statusTab)
    {
      var got := statusTab.Get(taskId);
      if got.Null? {
        return Fail(NotFound);
      }
      var status := got.value;
      status := status.(status := Error);
      status := status.(updateTime := Val(now));
      CommittedKeepsInvariants(statusTab, Ok(status));
      statusTab := statusTab.Upsert(status.id, status);
      r := Pass;
    }

    /** `update_progress`: fetch the status, check it, mutate it field by
        field and write it back. */
    method UpdateProgress(taskId: int, progress: int, now: Datetime) returns (r: Outcome)
      requires Valid()
      modifies this
      ensures Valid() && taskTab == old(taskTab)
      ensures taskId !in old(statusTab.rows) ==> r == Fail(NotFound) && statusTab == old(statusTab)
      ensures taskId in old(statusTab.rows) ==>
                var step := ProgressStep(old(statusTab.rows[taskId]), progress, now);
                r == OutcomeOf(step) && statusTab == Committed(old(statusTab), step)
      ensures old(AllProgressInRange(statusTab)) ==> AllProgressInRange(statusTab)
    {
      var got := statusTab.Get(taskId);
      if got.Null? {
        return Fail(NotFound);
      }
      var status := got.value;
      if !(status.status.Code() < Completed.Code()) {
        return Fail(InvalidState);
      }
      if !(0 <= progress <= 100) {
        return Fail(InvalidArgument);
      }
      if status.status == NotStarted {
        status := status.(status := InProgress);
      }
      if status.status == InProgress && progress == 100 {
        status := status.(status := Completed);
      }
      status := status.(progress := progress);
      status := status.(updateTime := Val(now));
      if status.startTime.None? {
        status := status.(startTime := status.updateTime);
      }
      CommittedKeepsInvariants(statusTab, Ok(status));
      statusTab := statusTab.Upsert(status.id, status);
      r := Pass;
    }
  }

  /** The single-task scenario of the repository's tests: a task with a
      default status is found NOT_STARTED at 0; a progress report of 50
      starts it; `task_done` completes it; the search then finds nothing. */
  method OperationsScenario(t: TaskInfo, now: Datetime, later: Datetime)
    returns (found: Result<Option<(TaskInfo, StatusInfo)>>, updated: StatusInfo,
             completed: StatusInfo, last: Result<Option<(TaskInfo, StatusInfo)>>)
    requires t.id == 1
    ensures found == Ok(Some((t, DefaultStatus(1))))
    ensures found.value.value.0.id == 1
    ensures updated.progress == 50 && updated.status == InProgress && updated.startTime == Val(now)
    ensures completed.status == Completed && completed.progress == 100 && completed.startTime == Val(now)
    ensures last == Ok(Null)
  {
    var db := new TaskDb(Table([1], map[1 := t]), Table([1], map[1 := DefaultStatus(1)]));
    assert db.statusTab.Records() == [DefaultStatus(1)];
    found := db.FindTask();
    SelectionIs(db.taskTab, [DefaultStatus(1)], 0);

    var r := db.UpdateProgress(1, 50, now);
    updated := db.statusTab.rows[1];
    r := db.TaskDone(1, later);
    completed := db.statusTab.rows[1];
    assert db.statusTab.Records() == [completed];
    last := db.FindTask();
  }

  /** The error scenario of the repository's tests: `task_error` on a
      default status leaves it ERROR, and the search then finds nothing. */
  method ErrorScenario(t: TaskInfo, now: Datetime)
    returns (failed: StatusInfo, last: Result<Option<(TaskInfo, StatusInfo)>>)
    requires t.id == 2
    ensures failed.status == Error && failed.id == 2
    ensures last == Ok(Null)
  {
    var db := new TaskDb(Table([2], map[2 := t]), Table([2], map[2 := DefaultStatus(2)]));
    var r := db.TaskError(2, now);
    failed := db.statusTab.rows[2];
    assert db.statusTab.Records() == [failed];
    last := db.FindTask();
  }

  /** The multiple-task scenario of the repository's tests: tasks 1, 2, 3;
      task 2 already IN_PROGRESS, task 3 disabled. The search finds 1; after
      1 is done it finds 2 (still runnable); once 3 is enabled and 2 is done
      it finds 3. The task records `t1`, `t2`, `t3` carry the ids they are
      stored under. */
  method MultipleTasksScenario(t1: TaskInfo, t2: TaskInfo, t3: TaskInfo, now: Datetime)
    returns (first: Result<Option<(TaskInfo, StatusInfo)>>, second: Result<Option<(TaskInfo, StatusInfo)>>,
             third: Result<Option<(TaskInfo, StatusInfo)>>)
    requires t1.id == 1 && t2.id == 2 && t3.id == 3
    ensures first.Ok? && first.value.Some? && first.value.value.0 == t1 && first.value.value.1.id == 1
    ensures second.Ok? && second.value.Some? && second.value.value.0 == t2 && second.value.value.1.id == 2
    ensures third.Ok? && third.value.Some? && third.value.value.0 == t3 && third.value.value.1.id == 3
    ensures first.value.value.0.id == 1 && second.value.value.0.id == 2 && third.value.value.0.id == 3
  {
    var tasks := Table([1, 2, 3], map[1 := t1, 2 := t2, 3 := t3]);
    var s1 := DefaultStatus(1);
    var s2 := DefaultStatus(2).(status := InProgress);
    var s3 := DefaultStatus(3).(enabled := false);
    var statuses := Table([1, 2, 3], map[1 := s1, 2 := s2, 3 := s3]);
    var db := new TaskDb(tasks, statuses);

    first := db.FindTask();
    assert statuses.Records() == [s1, s2, s3];
    assert first == Ok(Some((t1, s1)));

    var d1;
    d1, second := FinishFirstFindSecond(db, t2, now);
    third := FinishSecondFindThird(db, t3, d1, s3, now);
  }

  /** The middle of the scenario: finish task 1, and the search finds task 2,
      which is IN_PROGRESS already. */
  method FinishFirstFindSecond(db: TaskDb<TaskInfo>, t2: TaskInfo, now: Datetime)
    returns (d1: StatusInfo, found: Result<Option<(TaskInfo, StatusInfo)>>)
    requires db.Valid() && db.taskTab.Get(2) == Some(t2)
    requires db.statusTab == Table([1, 2, 3], map[1 := DefaultStatus(1),
               2 := DefaultStatus(2).(status := InProgress), 3 := DefaultStatus(3).(enabled := false)])
    modifies db
    ensures db.Valid() && db.taskTab == old(db.taskTab) && d1.id == 1 && d1.status == Completed
    ensures db.statusTab == Table([1, 2, 3], map[1 := d1,
              2 := DefaultStatus(2).(status := InProgress), 3 := DefaultStatus(3).(enabled := false)])
    ensures found == Ok(Some((t2, DefaultStatus(2).(status := InProgress))))
  {
    var s1, s2, s3 := DefaultStatus(1), DefaultStatus(2).(status := InProgress), DefaultStatus(3).(enabled := false);
    var done := db.TaskDone(1, now);
    d1 := ProgressStep(s1, 100, now).value;
    assert ProgressStep(s1, 100, now) == Ok(d1);
    assert done == Pass && d1.status == Completed && d1.id == 1;
    assert db.statusTab == Table([1, 2, 3], map[1 := d1, 2 := s2, 3 := s3]);
    assert db.statusTab.Records() == [d1, s2, s3];
    SelectionIs(db.taskTab, [d1, s2, s3], 1);
    found := db.FindTask();
  }

  /** The second half of the scenario: enable task 3 directly in the status
      table, finish task 2, and the search finds task 3. */
  method FinishSecondFindThird(db: TaskDb<TaskInfo>, t3: TaskInfo, d1: StatusInfo, s3: StatusInfo, now: Datetime)
    returns (found: Result<Option<(TaskInfo, StatusInfo)>>)
    requires db.Valid() && db.taskTab.Get(3) == Some(t3)
    requires d1.id == 1 && d1.status == Completed && s3 == DefaultStatus(3).(enabled := false)
    requires db.statusTab == Table([1, 2, 3], map[1 := d1, 2 := DefaultStatus(2).(status := InProgress), 3 := s3])
    modifies db
    ensures found == Ok(Some((t3, s3.(enabled := true))))
  {
    var s2 := DefaultStatus(2).(status := InProgress);
    var e3 := s3.(enabled := true);
    db.statusTab := db.statusTab.Upsert(3, e3);
    var done := db.TaskDone(2, now);
    var d2 := ProgressStep(s2, 100, now).value;
    assert ProgressStep(s2, 100, now) == Ok(d2);
    assert done == Pass && d2.status == Completed && d2.id == 2;
    assert db.statusTab == Table([1, 2, 3], map[1 := d1, 2 := d2, 3 := e3]);
    assert db.statusTab.Records() == [d1, d2, e3];
    SelectionIs(db.taskTab, [d1, d2, e3], 2);
    found := db.FindTask();
  }
}
