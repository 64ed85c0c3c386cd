/** The data model shared by the three copies of the task/status lifecycle
    engine: the status enumeration, the status record, the task record, and
    the errors the operations report. */
module TaskTypes {
  import opened Rs
  import opened Table

  /** `TaskStatus`, an IntEnum ordered by its codes 0 < 1 < 2 < 3. */
  datatype TaskStatus = NotStarted | InProgress | Completed | Error {

    /** The enum's integer value. */
    function Code(): int {
      match this
      case NotStarted => 0
      case InProgress => 1
      case Completed => 2
      case Error => 3
    }

    /** COMPLETED and ERROR, the states at or past COMPLETED. */
    predicate Terminal() {
      Code() >= Completed.Code()
    }
  }

  /** `TaskStatus(code)`: the member with that value; an unknown code raises
      ValueError. */
  function StatusOf(code: int): (r: Result<TaskStatus>)
    ensures r.Ok? <==> 0 <= code <= 3
    ensures r.Ok? ==> r.value.Code() == code
    ensures r.Err? ==> r.error == InvalidArgument
  {
    if code == 0 then Ok(NotStarted)
    else if code == 1 then Ok(InProgress)
    else if code == 2 then Ok(Completed)
    else if code == 3 then Ok(Error)
    else Err(InvalidArgument)
  }

  /** Each member is found again from its code. */
  lemma CodeRoundTrip(s: TaskStatus)
    ensures StatusOf(s.Code()) == Ok(s)
  {
  }

  /** The order of the codes puts exactly COMPLETED and ERROR at or past
      COMPLETED. */
  lemma TerminalMembers(s: TaskStatus)
    ensures s.Terminal() <==> s == Completed || s == Error
    ensures !s.Terminal() <==> s.Code() <= InProgress.Code()
  {
  }

  /** An opaque reading of the wall clock (`now_sh_dt()`). */
  datatype Datetime = Datetime(ticks: int)

  /** `StatusInfo`: the mutable execution state of the task with the same id.
      `worker` is `worker` in task.py and `worker_id` in task_db.py. */
  datatype StatusInfo = StatusInfo(
    id: int,
    status: TaskStatus,
    progress: int,
    startTime: Optional<Datetime>,
    updateTime: Optional<Datetime>,
    enabled: bool,
    worker: Optional<string>)

  /** `StatusInfo(id=id)`: every field at its declared default. */
  function DefaultStatus(id: int): (s: StatusInfo)
    ensures s.id == id && s.status == NotStarted && s.progress == 0 && ProgressInRange(s.progress)
    ensures s.enabled && s.startTime.None? && s.updateTime.None? && s.worker.None?
  {
    StatusInfo(id, NotStarted, 0, None, None, true, None)
  }

  /** `TaskInfo` of task_db.py and task_client.py (`type` is `kind` here). */
  datatype TaskInfo = TaskInfo(
    id: int,
    name: string,
    kind: int,
    createdAt: Datetime,
    desc: Optional<string>,
    data: string)

  /** Why an operation did not complete. `NotFound`: `unwrap()` of a missing
      record, or the store has no such id; `InvalidState`: the status forbids
      the operation; `InvalidArgument`: progress outside [0,100] or an unknown
      status code; `Transport`: the request to the store failed;
      `NoRunnableTask`: the client's `find_task` found nothing to run. */
  datatype Failure = NotFound | InvalidState | InvalidArgument | Transport | NoRunnableTask

  datatype Result<T> = Ok(value: T) | Err(error: Failure)

  /** The result of an operation that returns nothing or raises. */
  datatype Outcome = Pass | Fail(error: Failure)

  predicate ProgressInRange(p: int) {
    0 <= p <= 100
  }

  /** The selection rule of `find_task` in task.py and task_db.py: skip a
      status that is disabled or past IN_PROGRESS. */
  predicate Runnable(s: StatusInfo): (r: bool)
    ensures r <==> s.enabled && (s.status == NotStarted || s.status == InProgress)
  {
    !(!s.enabled || s.status.Code() > InProgress.Code())
  }

  /** Every status is stored under its own id. */
  ghost predicate StatusesKeyed(t: Table<StatusInfo>) {
    forall k :: k in t.rows ==> t.rows[k].id == k
  }

  /** Every task is stored under its own id. */
  ghost predicate TasksKeyed(t: Table<TaskInfo>) {
    forall k :: k in t.rows ==> t.rows[k].id == k
  }

  /** The store-wide invariant `0 <= progress <= 100`. */
  ghost predicate AllProgressInRange(t: Table<StatusInfo>) {
    forall k :: k in t.rows ==> ProgressInRange(t.rows[k].progress)
  }

  /** The status table after an operation whose fetch-and-mutate step gave
      `step`: the new record is upserted on success, nothing is written on
      failure. */
  function Committed(t: Table<StatusInfo>, step: Result<StatusInfo>): (t': Table<StatusInfo>)
    requires t.Valid()
    ensures t'.Valid()
    ensures step.Err? ==> t' == t
    ensures step.Ok? ==> t'.Get(step.value.id) == Some(step.value)
    ensures forall k :: step.Err? || k != step.value.id ==> t'.Get(k) == t.Get(k)
  {
    if step.Ok? then t.Upsert(step.value.id, step.value) else t
  }

  /** The outcome an operation reports for its step. */
  function OutcomeOf(step: Result<StatusInfo>): Outcome {
    if step.Ok? then Pass else Fail(step.error)
  }

  /** A write keeps the table keyed and, when the new record's progress is in
      range, keeps every progress in range. */
  lemma CommittedKeepsInvariants(t: Table<StatusInfo>, step: Result<StatusInfo>)
    requires t.Valid() && StatusesKeyed(t)
    ensures StatusesKeyed(Committed(t, step))
    ensures AllProgressInRange(t) && (step.Ok? ==> ProgressInRange(step.value.progress))
            ==> AllProgressInRange(Committed(t, step))
  {
    var t' := Committed(t, step);
    forall k | k in t'.rows
      ensures t'.rows[k].id == k
      ensures AllProgressInRange(t) && (step.Ok? ==> ProgressInRange(step.value.progress))
              ==> ProgressInRange(t'.rows[k].progress)
    {
      assert t'.Get(k) == Some(t'.rows[k]);
      if step.Err? || k != step.value.id {
        assert t.Get(k) == Some(t'.rows[k]);
      }
    }
  }

  /** What `find_task` of task.py and task_db.py returns for `statuses` in
      table order: the first runnable status paired with the task of the same
      id, `Null` when no status is runnable, and `NotFound` (`unwrap()` of a
      missing task) when that task is absent. */
  function Selection<R>(tasks: Table<R>, statuses: seq<StatusInfo>): (r: Result<Option<(R, StatusInfo)>>)
    ensures r.Ok? && r.value.Some? ==>
              Runnable(r.value.value.1) && r.value.value.1 in statuses
              && tasks.Get(r.value.value.1.id) == Some(r.value.value.0)
    ensures r == Ok(Null) <==> forall j :: 0 <= j < |statuses| ==> !Runnable(statuses[j])
    ensures var first := FirstWhere(statuses, Runnable);
            && (r.Err? <==> first.Some? && statuses[first.value].id !in tasks.rows)
            && (r.Err? ==> r.error == NotFound)
            && (r.Ok? && r.value.Some? ==> first.Some? && r.value.value.1 == statuses[first.value])
  {
    match FirstWhere(statuses, Runnable)
    case Null => Ok(Null)
    case Some(i) =>
      match tasks.Get(statuses[i].id)
      case Null => Err(NotFound)
      case Some(task) => Ok(Some((task, statuses[i])))
  }

  /** The selection is the first runnable status, whatever follows it. */
  lemma SelectionIs<R>(tasks: Table<R>, statuses: seq<StatusInfo>, k: nat)
    requires k < |statuses| && Runnable(statuses[k])
    requires forall j :: 0 <= j < k ==> !Runnable(statuses[j])
    requires statuses[k].id in tasks.rows
    ensures Selection(tasks, statuses) == Ok(Some((tasks.rows[statuses[k].id], statuses[k])))
  {
    FirstWhereIs(statuses, Runnable, k);
  }

  /** Overwriting a status with one that is not runnable (COMPLETED, ERROR or
      disabled) takes that task out of the search: the search never returns
      its id, and when it was the selected task the search moves on to a
      later status or to none. */
  lemma FinishedNoLongerSelected(t: Table<StatusInfo>, s: StatusInfo)
    requires t.Valid() && StatusesKeyed(t)
    requires s.id in t.rows && !Runnable(s)
    ensures var after := t.Upsert(s.id, s).Records();
            FirstWhere(after, Runnable).Some? ==> after[FirstWhere(after, Runnable).value].id != s.id
    ensures var before := t.Records(); var after := t.Upsert(s.id, s).Records();
            FirstWhere(before, Runnable).Some? && before[FirstWhere(before, Runnable).value].id == s.id
            ==> FirstWhere(after, Runnable).Null? || FirstWhere(after, Runnable).value > FirstWhere(before, Runnable).value
  {
    var before, after := t.Records(), t.Upsert(s.id, s).Records();
    assert |after| == |before| == |t.order|;
    forall j | 0 <= j < |after| && Runnable(after[j])
      ensures after[j].id != s.id && t.order[j] != s.id
    {
      if t.order[j] != s.id {
        assert after[j] == before[j] == t.rows[t.order[j]];
      }
    }
    if FirstWhere(before, Runnable).Some? && before[FirstWhere(before, Runnable).value].id == s.id {
      var i := FirstWhere(before, Runnable).value;
      assert t.order[i] == s.id;
      forall j | 0 <= j <= i
        ensures !Runnable(after[j])
      {
        if j < i {
          assert t.order[j] != t.order[i];
          assert after[j] == before[j];
        }
      }
    }
  }
}
