/** Where the three copies of the lifecycle engine agree and where they part:
    task.py and task_db.py share one selection rule and one progress rule;
    task_client.py selects fewer statuses, has no terminal-state guard, does
    not promote NOT_STARTED, and starts a task from any status. */
module Divergence {
  import opened Rs
  import opened Table
  import opened TaskTypes
  import Task
  import TaskDb
  import TaskClient

  /** The client's filter is strictly narrower than the search of task.py and
      task_db.py: every pending status is runnable, and an enabled
      IN_PROGRESS status is runnable without being pending. */
  lemma PendingNarrowsRunnable(s: StatusInfo)
    ensures TaskClient.Pending(s) ==> Runnable(s)
    ensures s.enabled && s.status == InProgress ==> Runnable(s) && !TaskClient.Pending(s)
  {
  }

  /** Over the same records, the two selections meet exactly when the first
      runnable status is NOT_STARTED; otherwise the client's pick, if any,
      comes later. */
  lemma SelectionsCompared(records: seq<StatusInfo>)
    ensures FirstWhere(records, Runnable).Null? ==> FirstWhere(records, TaskClient.Pending).Null?
    ensures FirstWhere(records, TaskClient.Pending).Some? ==>
              FirstWhere(records, Runnable).Some?
              && FirstWhere(records, Runnable).value <= FirstWhere(records, TaskClient.Pending).value
    ensures FirstWhere(records, Runnable).Some? ==>
              (records[FirstWhere(records, Runnable).value].status == NotStarted
               <==> FirstWhere(records, TaskClient.Pending) == FirstWhere(records, Runnable))
  {
  }

  /** The scenario in which the copies pick different tasks: an enabled
      IN_PROGRESS status ahead of a NOT_STARTED one. task.py and task_db.py
      resume the first; the client skips it for the second. */
  lemma InProgressFirst(a: StatusInfo, b: StatusInfo)
    requires a.enabled && a.status == InProgress && b == DefaultStatus(b.id)
    ensures FirstWhere([a, b], Runnable) == Some(0)
    ensures FirstWhere([a, b], TaskClient.Pending) == Some(1)
  {
    assert [a, b][1..] == [b];
  }

  /** task.py and task_db.py refuse to update a COMPLETED or ERROR status;
      the client overwrites its progress and update time. */
  lemma TerminalGuardOnlyInDb(s: StatusInfo, progress: int, status: Optional<TaskStatus>, now: Datetime)
    requires s.status.Terminal() && ProgressInRange(progress)
    ensures Task.ProgressStep(s, progress, now) == Err(InvalidState)
    ensures TaskClient.ProgressStep(s, progress, status, now).progress == progress
    ensures TaskClient.ProgressStep(s, progress, status, now).updateTime == Val(now)
  {
  }

  /** At progress 100 without an explicit status the client keeps ERROR, but
      its `task_done` (explicit COMPLETED) turns an ERROR task into a
      COMPLETED one, which task.py and task_db.py refuse. */
  lemma ErrorAtHundred(s: StatusInfo, now: Datetime)
    requires s.status == Error
    ensures TaskClient.ProgressStep(s, 100, None, now).status == Error
    ensures TaskClient.ProgressStep(s, 100, Val(Completed), now).status == Completed
    ensures Task.ProgressStep(s, 100, now) == Err(InvalidState)
  {
  }

  /** A first progress report below 100 starts a NOT_STARTED task in task.py
      and task_db.py (IN_PROGRESS, start time set), while the client leaves it
      NOT_STARTED without a start time, so its own `find_task` can still pick
      it. */
  lemma ClientDoesNotPromote(s: StatusInfo, progress: int, now: Datetime)
    requires s.status == NotStarted && s.startTime.None? && 0 <= progress < 100
    ensures Task.ProgressStep(s, progress, now).Ok?
    ensures Task.ProgressStep(s, progress, now).value.status == InProgress
    ensures Task.ProgressStep(s, progress, now).value.startTime == Val(now)
    ensures TaskClient.ProgressStep(s, progress, None, now).status == NotStarted
    ensures TaskClient.ProgressStep(s, progress, None, now).startTime.None?
    ensures s.enabled ==> TaskClient.Pending(TaskClient.ProgressStep(s, progress, None, now))
  {
  }

  /** task_db.py starts only a NOT_STARTED task and records its worker; the
      client restarts any task, even a COMPLETED or ERROR one, back to
      IN_PROGRESS at 0 and drops the worker argument. */
  lemma StartCompared(s: StatusInfo, worker: Optional<string>, startNow: Datetime, updateNow: Datetime)
    ensures s.status != NotStarted ==> TaskDb.StartStep(s, worker, startNow) == Err(InvalidState)
    ensures s.status == NotStarted ==> TaskDb.StartStep(s, worker, startNow).value.worker == worker
    ensures TaskClient.StartStep(s, startNow, updateNow).worker == s.worker
    ensures s.enabled && s.status.Terminal() ==>
              !Runnable(s) && Runnable(TaskClient.StartStep(s, startNow, updateNow))
              && TaskClient.StartStep(s, startNow, updateNow).progress == 0
  {
  }
}
