# Task/status lifecycle engine of jcx, in Dafny

The jcx repository tracks long-running analysis tasks. Each task has a
`TaskInfo` record and a `StatusInfo` record with the same id. The status record
holds the lifecycle state: `status` (NOT_STARTED < IN_PROGRESS < COMPLETED <
ERROR), `progress`, `start_time`, `update_time`, `enabled` and the worker.
A worker asks for the next runnable task, reports its progress, and marks the
task done or failed. Each mutating operation (`task_start`, `task_done`,
`task_error`, `update_progress`) fetches one status record, reassigns its
fields one by one, and writes it back to an ordered record store; `find_task`
only reads.

The engine exists in three copies that disagree with each other:

- `src/jcx/api/task/task.py` is a generic `TaskDb` over file-backed tables. It fails by `assert`.
- `src/jcx/api/task/task_db.py` is a second `TaskDb`. It fails by `ValueError` and adds a guarded `task_start`.
- `src/jcx/api/task/task_client.py` is a REST `TaskClient`. It has no terminal-state guard, uses a narrower selection filter, starts tasks unconditionally, and can fail on every request.

`jcx/rs/rs.py` converts between Python's `T | None` and rustshed's `Option`.

The project has these modules:

- `Rs` (`rs.dfy`): the two option types, the three conversions, and their round trips.
- `Table` (`table.dfy`): the record store. It is an ordered table keyed by id, with `get`, ordered `records()` and upsert. It also holds the linear search (`FirstWhere`) and the list filter (`Filter`) that the copies use.
- `TaskTypes` (`task_types.dfy`): the shared data model, the error kinds, the selection rule of `find_task` for task.py and task_db.py, and the table invariants.
- `Task`, `TaskDb` and `TaskClient` (`task.dfy`, `task_db.dfy`, `task_client.dfy`): one class per copy. The class fields hold the task and status tables. Each method is imperative and follows its source method statement by statement. Its `ensures` ties the new tables to a specification function of the fetched record (`ProgressStep`, `ErrorStep`, `StartStep`). Each lifecycle method (`task_start`, `task_done`, `task_error`, `update_progress`) also keeps the store invariant `0 <= progress <= 100`.
- `Divergence` (`divergence.dfy`): lemmas that state where the copies agree and where they part.

Two source facts are modelled as inputs rather than computed:

- A clock reading (`now_sh_dt()`) is an opaque `Datetime` parameter.
- Whether a REST request reaches the service is a nondeterministic choice inside the client's store helpers.

## Model

| member | source | states |
|---|---|---|
| Rs.RsOption | jcx/rs/rs.py:12-16 | `rs_option` gives `Null` exactly for `None` |
| Rs.RsOptionCloned | jcx/rs/rs.py:19-23 | `Null` exactly for `None`; otherwise `Some` of the clone of the value |
| Rs.PyOptional | jcx/rs/rs.py:26-30 | `py_optional` gives `None` exactly for `Null` |
| Rs.RsOptionCases | tests/rs/rs_test.py:4-6 | `rs_option(None) == Null` and `rs_option(v) == Some(v)` |
| Rs.PyOptionalCases | tests/rs/rs_test.py:9-11 | `py_optional(Null)` is `None` and `py_optional(Some(v)) == v` |
| Rs.PyOfRs | jcx/rs/rs.py:12-30 | `py_optional(rs_option(v)) == v` for every value |
| Rs.RsOfPy | jcx/rs/rs.py:12-30 | `rs_option(py_optional(o)) == o` when the payload has no `None` |
| Rs.SomeNoneIsLost | jcx/rs/rs.py:26-30 | `Some(None)` and `Null` differ but give the same Python `None`, so the second round trip needs a payload without `None` |
| Rs.ClonedIsRsOption | jcx/rs/rs.py:19-23 | with a clone that equals its original, `rs_option_cloned` is `rs_option` |
| Table.Table.Get | src/jcx/api/task/task.py:89 | `get(id)` gives a record exactly for a stored id, and that id's record; in a well-formed table, exactly the ids listed in the order |
| Table.Table.Records | src/jcx/api/task/task.py:85 | `records()` lists exactly the stored records, in insertion order |
| Table.Table.Upsert | src/jcx/api/task/task.py:117 | after `update`, the record is stored under its id and no other record changes; an existing id keeps its place and a new id goes last; the table stays well formed |
| Table.FirstWhere | src/jcx/api/task/task.py:85-91 | the linear search with early return gives the first index that qualifies, or none when no element qualifies |
| Table.FirstWhereIs | src/jcx/api/task/task.py:85-91 | a qualifying index with nothing qualifying before it is the search's answer |
| Table.Filter | src/jcx/api/dao_list_client.py:27-59 | a filtered list query returns only qualifying records, and every qualifying record |
| Table.FilterAppend | src/jcx/api/dao_list_client.py:27-59 | filtering a concatenation is the concatenation of the filtered parts, so the filter keeps the qualifying records in their order, repeats included |
| Table.FilterSingle | src/jcx/api/dao_list_client.py:27-59 | one record is kept exactly when it qualifies |
| Table.FilterHead | src/jcx/api/task/task_client.py:67-72 | the filtered list is empty iff the search finds nothing, and its element 0 is the first qualifying record |
| TaskTypes.StatusOf | src/jcx/api/task/task.py:10-16 | `TaskStatus(code)` succeeds exactly for codes 0..3, with that value; any other code is InvalidArgument |
| TaskTypes.CodeRoundTrip | src/jcx/api/task/task.py:10-16 | every member is recovered from its integer value |
| TaskTypes.TerminalMembers | src/jcx/api/task/task.py:107 | `status >= COMPLETED` holds exactly for COMPLETED and ERROR; `not (status > IN_PROGRESS)` holds exactly for the others |
| TaskTypes.DefaultStatus | src/jcx/api/task/task.py:37-54 | `StatusInfo(id=id)` is NOT_STARTED, progress 0, enabled, with no times and no worker |
| TaskTypes.Committed | src/jcx/api/task/task_db.py:141-153 | a failed step writes nothing; a successful one stores the new record under its id and leaves every other id as it was |
| TaskTypes.CommittedKeepsInvariants | src/jcx/api/task/task_db.py:143-153 | a write keeps every status keyed by its own id and keeps every progress in [0,100] |
| TaskTypes.Runnable | src/jcx/api/task/task.py:86 | a status is not skipped exactly when it is enabled and NOT_STARTED or IN_PROGRESS |
| TaskTypes.Selection | src/jcx/api/task/task.py:83-91 | `find_task` returns a runnable status from the table with the task of the same id; the status is the first runnable one; it returns `Null` iff no status is enabled and at most IN_PROGRESS; it is `Err(NotFound)` exactly when the first runnable status's task is missing (the `unwrap()`), never skipping to a later status |
| TaskTypes.SelectionIs | src/jcx/api/task/task.py:83-91 | the first runnable status, with its task present, is the one selected |
| TaskTypes.FinishedNoLongerSelected | src/jcx/api/task/task.py:86 | once a status is written back COMPLETED, ERROR or disabled, the search never returns it; if it was the selected one, the search moves to a later status or to none |
| Task.ProgressStep | src/jcx/api/task/task.py:104-117 | `update_progress` fails iff the status is COMPLETED/ERROR (checked first) or progress is outside [0,100]. On success: progress == p; status COMPLETED at 100, otherwise IN_PROGRESS; update_time is now; start_time is set only if it was None; id, enabled and worker are kept |
| Task.ErrorStep | src/jcx/api/task/task.py:97-102 | `task_error` sets ERROR (no longer runnable) and update_time, and keeps progress, enabled, start_time and worker |
| Task.DoneCompletes | src/jcx/api/task/task.py:93-95 | `task_done` succeeds exactly on NOT_STARTED or IN_PROGRESS, and leaves the task COMPLETED at 100 and not runnable |
| Task.FinishedIsFinal | src/jcx/api/task/task.py:107 | a status produced by `task_done` or `task_error` rejects every later progress update with InvalidState |
| Task.TaskDb.constructor | src/jcx/api/task/task.py:58-75 | the database holds the loaded task and status tables |
| Task.TaskDb.FindTask | src/jcx/api/task/task.py:83-91 | the loop returns `Selection` of the status records: the first runnable status with its task, `Null` when there is none, NotFound when the task is missing |
| Task.TaskDb.TaskDone | src/jcx/api/task/task.py:93-95 | the outcome and the new table are those of `ProgressStep(old, 100)`; on success the stored status is COMPLETED at 100 |
| Task.TaskDb.TaskError | src/jcx/api/task/task.py:97-102 | an unknown id fails and writes nothing; otherwise exactly `ErrorStep` of the stored status is upserted |
| Task.TaskDb.UpdateProgress | src/jcx/api/task/task.py:104-117 | the outcome is that of `ProgressStep` on the stored status; the table gains its record on success and is unchanged on failure; an unknown id is NotFound; the task table is untouched; progress stays in range |
| Task.OperationsScenario | tests/api/task/test_task_db.py:31-70 | find gives the NOT_STARTED task at 0; progress 50 makes it IN_PROGRESS with a start time; `task_done` makes it COMPLETED at 100; find then gives `Null` |
| Task.ErrorScenario | tests/api/task/test_task_db.py:73-93 | `task_error` leaves the status ERROR and find then gives `Null` |
| Task.MultipleTasksScenario | tests/api/task/test_task_db.py:96-141 | with task 2 IN_PROGRESS and task 3 disabled, find gives task 1; after `task_done(1)` it gives task 2; after enabling 3 and `task_done(2)` it gives task 3 |
| Task.FinishFirstFindSecond | tests/api/task/test_task_db.py:120-127 | after `task_done(1)`, task 1 is COMPLETED, the other statuses are unchanged, and find gives the IN_PROGRESS task 2 |
| Task.FinishSecondFindThird | tests/api/task/test_task_db.py:129-141 | after enabling task 3 and `task_done(2)`, find gives task 3 |
| TaskDb.StartStep | src/jcx/api/task/task_db.py:115-125 | `task_start` succeeds iff the status is NOT_STARTED, and otherwise fails with InvalidState. On success the status is IN_PROGRESS, start_time == update_time == now, the worker is recorded, and progress is untouched |
| TaskDb.StartedKeepsStartTime | src/jcx/api/task/task_db.py:115-153 | a started task cannot be started again, and a later progress update keeps its start time and worker |
| TaskDb.TaskDb.constructor | src/jcx/api/task/task_db.py:58-74 | the database holds the task and status tables |
| TaskDb.TaskDb.FindTask | src/jcx/api/task/task_db.py:105-113 | the `for` loop returns `Selection` of the status records, which is the same rule as task.py; a returned task has the status's id |
| TaskDb.TaskDb.TaskStart | src/jcx/api/task/task_db.py:115-125 | the outcome and new table are those of `StartStep`: a non-NOT_STARTED status fails and nothing is written |
| TaskDb.TaskDb.TaskDone | src/jcx/api/task/task_db.py:127-129 | as `update_progress(id, 100)`; on success the status is COMPLETED at 100 |
| TaskDb.TaskDb.TaskError | src/jcx/api/task/task_db.py:131-136 | exactly `ErrorStep` of the stored status is put; an unknown id fails with nothing written |
| TaskDb.TaskDb.UpdateProgress | src/jcx/api/task/task_db.py:138-153 | raises on COMPLETED/ERROR, then on progress outside [0,100], writing nothing; otherwise puts `ProgressStep` of the stored status; progress stays in range |
| TaskClient.Pending | src/jcx/api/task/task_client.py:61 | the client's filter accepts exactly the enabled NOT_STARTED statuses, each of them runnable |
| TaskClient.ProgressStep | src/jcx/api/task/task_client.py:161-171 | progress and update_time are always overwritten; an explicit status wins; without one, 100 gives COMPLETED unless the status is ERROR, and anything else keeps the status; no other field changes |
| TaskClient.StartStep | src/jcx/api/task/task_client.py:97-102 | from any status: IN_PROGRESS, progress 0, both times from their own clock readings, worker not recorded |
| TaskClient.DoneCompletes | src/jcx/api/task/task_client.py:107-118 | `task_done` leaves COMPLETED at 100 from any status, ERROR included |
| TaskClient.TaskClient.constructor | src/jcx/api/task/task_client.py:9-25 | the client talks to a service holding the task and status tables |
| TaskClient.TaskClient.GetTaskStatus | src/jcx/api/task/task_client.py:38-47 | a success is the stored record for the id; an unknown id is NotFound; the only other error is a transport failure |
| TaskClient.TaskClient.GetTask | src/jcx/api/dao_list_client.py:61-89 | a success is the stored task for the id; an unknown id is NotFound; otherwise only a transport failure |
| TaskClient.TaskClient.ListPending | src/jcx/api/task/task_client.py:58-62 | a success is exactly the NOT_STARTED and enabled statuses in table order |
| TaskClient.TaskClient.PutStatus | src/jcx/api/dao_list_client.py:118-146 | a success upserts the record under its id and echoes it; a failure writes nothing |
| TaskClient.TaskClient.FindTask | src/jcx/api/task/task_client.py:49-78 | a success is the first NOT_STARTED and enabled status with its task; it is Err when no status qualifies (NoRunnableTask) or when that task is missing (NotFound), and otherwise fails only by transport |
| TaskClient.TaskClient.TaskStart | src/jcx/api/task/task_client.py:80-105 | from any status, on success exactly `StartStep` of the stored status is put; an unknown id is NotFound; for a stored id the only error is transport; a failure writes nothing |
| TaskClient.TaskClient.TaskDone | src/jcx/api/task/task_client.py:107-118 | `update_progress(id, 100, COMPLETED)`: from any status, on success the status is COMPLETED at 100; for a stored id the only error is transport |
| TaskClient.TaskClient.TaskError | src/jcx/api/task/task_client.py:120-140 | on success exactly `ErrorStep` of the stored status is put; for a stored id the only error is transport; a failure writes nothing |
| TaskClient.TaskClient.UpdateProgress | src/jcx/api/task/task_client.py:142-174 | progress outside [0,100] is InvalidArgument before any request; otherwise `ProgressStep` of the stored status is put, whatever its state: for a stored id the only error is transport; failures write nothing; progress stays in range |
| Divergence.PendingNarrowsRunnable | src/jcx/api/task/task_client.py:61 | every status the client's filter accepts is runnable for task.py/task_db.py; an enabled IN_PROGRESS one is runnable but not pending |
| Divergence.SelectionsCompared | src/jcx/api/task/task_db.py:105-113 | over the same records, the client's pick is never earlier than the db's; the two agree iff the db's pick is NOT_STARTED; no runnable status means no pending status |
| Divergence.InProgressFirst | src/jcx/api/task/task_client.py:61 | with an enabled IN_PROGRESS status ahead of a default one, the db copies select the first and the client the second |
| Divergence.TerminalGuardOnlyInDb | src/jcx/api/task/task_client.py:153-174 | on a COMPLETED or ERROR status, task.py/task_db.py reject the update while the client overwrites progress and update time |
| Divergence.ErrorAtHundred | src/jcx/api/task/task_client.py:166-171 | at 100 without an override the client keeps ERROR; with `task_done`'s override it turns ERROR into COMPLETED, which task.py rejects |
| Divergence.ClientDoesNotPromote | src/jcx/api/task/task_client.py:161-171 | a progress report below 100 on a NOT_STARTED task starts it in task.py (IN_PROGRESS, start time set) but leaves it NOT_STARTED, with no start time and still pending, in the client |
| Divergence.StartCompared | src/jcx/api/task/task_client.py:93-105 | task_db.py starts only NOT_STARTED and records the worker; the client drops the worker and turns an enabled COMPLETED or ERROR task runnable again at progress 0 |

## Left out

- HTTP, JSON and pydantic. The REST service behind `TaskClient` is the same abstract table. Whether a request reaches it is a nondeterministic choice. Response parsing is not modelled, and error strings become `Failure` kinds.
- TaskClient.TaskClient.PutStatus: a failed PUT is taken to have written nothing. A PUT whose request fails after the server applied it is not modelled. The service is taken to echo exactly the record it stored. The missing-`id` branch (src/jcx/api/dao_list_client.py:135-136) cannot occur, because every modelled record has an integer id.
- TaskClient.TaskClient.FindTask: the source wraps a failed task fetch in its own message. The model passes the fetch's error kind on unchanged, and the empty list becomes `NoRunnableTask`.
- The wall clock (`now_sh_dt`) is a parameter. The client's `task_start` reads it twice, so it takes two readings.
- `add_task` in task_db.py (a stub returning `Some`) and in task_client.py (a POST); `get_task_status` in task_db.py (a stub returning None); `show` (printing); DELETE and POST in the REST layer: none of these mutates a status through the lifecycle rules.
- Task.TaskDb.constructor: loading the tables from `db_dir` is file I/O; the model starts from the loaded tables.
- TaskDb.TaskDb.constructor: the source constructor only stores the url and table names and never creates `task_tab` or `status_tab`, so every method that reads a table (`show`, `find_task`, `task_start`, `task_done`, `task_error`, `update_progress`) would fail on a missing attribute; the model assumes the tables exist.
- task.py's `assert`s are modelled as enabled. Under `python -O` they are stripped and the guards disappear.
- Concurrency and atomicity: every operation is a sequential read-modify-write, as in the source. There is no combined claim-and-start and no locking, so double-claim and lost-update properties are not stated.
- The task table is only read by the engine. `TaskInfo` keeps its fields (`type` is called `kind`) without the pydantic validation. The generic task record of task.py is a type parameter.
- The CLI (`src/jcx/bin/`), the Rich rendering of `task_types.py`, the stop watch, the JSON codecs, the Redis store and the MQTT code.
- No copy combines selection and start in one call, and none has an operation that only sets `enabled`: the repository's tests write the status table directly, and so does the model. task_client.py has no terminal-state guard.
- Rs.RsOfPy: `Optional<T>` stands for Python's `T | None` only when `T` has no `None` of its own. For a payload that can itself be `None`, Python maps `Some(None)` to `Null` on the way back; `SomeNoneIsLost` states that loss.
- The record store `jcx.db.jdb.table` is not part of this model. That `records()` lists records in insertion order, and that `update`/`put` of an existing id keeps its place, is assumed; `Table.Table.Upsert` states this assumed behaviour.
- TaskClient.TaskClient.ListPending: the REST service is assumed to apply the query `{"status": 0, "enabled": True}` as an exact filter and to list the matches in table order; the service is not part of this model, and the client's "first pending status" rests on this assumption.
- Rs.RsOptionCloned: `clone()` is a function parameter. That it returns an equal value is assumed only by `ClonedIsRsOption`.
