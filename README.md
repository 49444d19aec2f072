# dotask core, modelled in Dafny

dotask is a small web task scheduler. It keeps tasks (a name, a shell
command, a schedule of type `cron`, `interval` or `daily` with a JSON
config, and an enabled flag) in a `tasks` table and installs one recurring
job per schedulable task in a scheduler, under the id `task_{id}`. A task
can also be run at once through a one-shot job `manual_{id}_{timestamp}`.
Each run of a command is recorded as one row of a `task_logs` table, and
the log can be listed newest first, filtered by task, deleted by row or
cleared. The whole program is `app.py`. This project models the parts of it
that make decisions:

- `registry.dfy` (module `Registry`): the scheduler's job table as a class
  `Scheduler` with a `map<string, Job>` field. Its methods are
  `add_job_to_scheduler`, `load_tasks`, and the job-table side of
  `delete_task`, `run_task` and `get_tasks`. The functions `Installed` and
  `Reconciled` specify the table after one task is added and after
  `load_tasks`. Lemmas prove what jobs the reloaded table holds. Whether
  the scheduling library accepts a trigger is the scheduler's constant
  `triggerOk`. The next fire time of a job is a function parameter of
  `GetTasks`.
- `runlog.dfy` (module `RunLog`): how the result of a command (`Completed`,
  `TimedOut`, `Failed`) becomes the `(output, error, exit_code)` of a log
  row. It also holds the log table as a class `LogTable` with a
  `seq<LogEntry>` field kept in ascending id order. Its methods are
  `execute_task`, `get_logs`, `delete_log`, `clear_logs` and
  `log_detail`. Each is specified by a function on the rows (`Newest`,
  `Filter`, `Cleared`), and lemmas give that function's meaning.
- `update_task.dfy` (module `UpdateTask`): the `SET` clauses and the
  parameter list that `update_task` builds by appending. The method
  `BuildUpdate` has the source's five `if`s. The functions `SetClauses` and
  `SetParams` state the lists it builds, and lemmas relate those lists to
  the fields the request body carries.
- `duration.dfy` (module `Duration`): the execution time `log_detail`
  shows. It holds the decomposition into hours, minutes and seconds, the
  three text forms, and a parser that reads each form back.
- `requests.dfy` (module `Requests`): the completeness check of
  `create_task`, and the `view_mode` whitelist with the settings entry it
  writes and is read back from.
- `decimal.dfy`, `json.dfy`, `wrappers.dfy`: decimal text of numbers with
  its inverse, JSON request values with Python truthiness, and
  `Option`/`Result`.

The files are verified together:
`dafny verify wrappers.dfy decimal.dfy json.dfy registry.dfy duration.dfy runlog.dfy update_task.dfy requests.dfy`.

`load_tasks` calls `scheduler.remove_all_jobs()` (app.py:212). That call
removes every job, including run-now jobs that have not fired yet. The
model follows the code: after `LoadTasks` the table holds exactly the
recurring jobs of the schedulable tasks, with nothing carried over.

## Model

| member | source | states |
|---|---|---|
| Registry.TaskJobIdInjective | app.py:161 | distinct task ids give distinct job ids `task_{id}` |
| Registry.ManualJobIdIsNoTaskJobId | app.py:386 | a `manual_{id}_{stamp}` id never equals any `task_{id}` id |
| Registry.Installed | app.py:154-200 | adding a task changes at most the entry `task_{id}`; a disabled task, an unknown schedule type or a refused trigger leave the table unchanged; otherwise the entry is the task's recurring job, replacing any earlier one |
| Registry.ReconciledKeys | app.py:203-216 | after `load_tasks` the job ids are exactly `task_{id}` for the loaded tasks that are enabled, of a known type and accepted by the library |
| Registry.ReconciledJob | app.py:203-216 | after `load_tasks` each such task's entry holds its own trigger and its `(id, name, command)` arguments |
| Registry.ReconciledOmits | app.py:158-200 | after `load_tasks` a disabled, unknown-type or refused task has no job |
| Registry.FindTask | app.py:373-378 | the row lookup finds a row with that id exactly when one exists |
| Registry.LoadedNextRun | app.py:251-259 | right after `load_tasks`, `get_tasks` reports a schedulable task's next run from its own job and no next run for any other task |
| Registry.OneRecurringJobPerTask | app.py:161 | in a scheduler that keeps its invariant (every job under the id its kind fixes), two recurring jobs of the same task are one entry: one trigger per task |
| Registry.Scheduler.constructor | app.py:44 | the scheduler starts with no jobs |
| Registry.Scheduler.AddJobToScheduler | app.py:154-200 | the new table is `Installed(old table, task)`, and every job stays under the id its kind fixes |
| Registry.Scheduler.LoadTasks | app.py:203-216 | empties the table and adds every task in turn; the result is `Reconciled(tasks)` |
| Registry.Scheduler.RemoveTaskJob | app.py:360-363 | removes only `task_{id}`; a missing job is a silent no-op |
| Registry.Scheduler.RunTask | app.py:371-389 | no row: not found, table unchanged; otherwise adds one immediate job under `manual_{id}_{stamp}`, keeps every existing job and leaves `task_{id}` as it was; an id already in use is refused |
| Registry.Scheduler.GetTasks | app.py:247-273 | one report per row in row order; a next run time only for an enabled task whose `task_{id}` job exists, taken from that job |
| RunLog.Record | app.py:113-135 | a finished command records its stdout, stderr and return code; a timeout records `''`, the timeout message and -1; any other failure records `''`, `执行异常: ` followed by the message, and -1 |
| RunLog.RecordTellsFailuresApart | app.py:128-135 | a timeout and a failure record different rows, and different failure messages record different rows |
| RunLog.NewestSelected | app.py:401-417 | `get_logs` returns only rows of the table that match the task filter, `limit` of them or all when fewer match (all for a negative limit) |
| RunLog.NewestDescending | app.py:407 | `get_logs` returns rows in descending id order |
| RunLog.NewestIsNewest | app.py:407-408 | every matching row left out by the limit is older than every row returned |
| RunLog.DeleteLogSpec | app.py:444 | `delete_log` keeps every other row, in order, and changes nothing when no row has the id |
| RunLog.DeleteLogRemovesOne | app.py:444 | deleting an id that is present removes exactly one row |
| RunLog.ClearedSpec | app.py:459-462 | with a task id, `clear_logs` removes exactly that task's rows and keeps the others in order; without one it empties the table |
| RunLog.FindLog | app.py:507-517 | the lookup finds a row with that id exactly when one exists |
| RunLog.LogTable.constructor | app.py:90-103 | the log table starts empty |
| RunLog.LogTable.ExecuteTask | app.py:109-149 | appends exactly one row with a fresh, larger id, the given task id, name, command and clock readings, and `Record(outcome)` as output, error and exit code |
| RunLog.LogTable.GetLogs | app.py:395-436 | the walk from the newest row returns `Newest(rows, filter, limit)`: filter, descending id, limit |
| RunLog.LogTable.DeleteLog | app.py:440-448 | the new rows are the old rows without the one with that id, still ascending |
| RunLog.LogTable.ClearLogs | app.py:452-467 | the new rows are `Cleared(old rows, filter)`, still ascending |
| RunLog.LogTable.LogDetail | app.py:503-538 | none exactly when no row has the id; otherwise that row and the text of its execution time |
| UpdateTask.BuildUpdate | app.py:314-334 | the two lists are `SetClauses(data)` and `SetParams(data, task_id)` |
| UpdateTask.SetListsChanged | app.py:314-334 | the clauses and parameters are those of the carried fields in field order, then the stamp and the task id |
| UpdateTask.ChangedFields | app.py:317-331 | the fields set are exactly those the body has a key for, in the order name, command, schedule_type, schedule_config, enabled |
| UpdateTask.UpdateShape | app.py:317-331 | one clause and one parameter per field set, at the same position and from that field's body value, so (with `SetListsChanged`) as many parameters as clauses; `enabled` is bound as 1 or 0 |
| UpdateTask.PresentMembers | app.py:317-331 | a field is kept exactly when the body has its key |
| UpdateTask.PresentOrdered | app.py:317-331 | the kept fields keep the order they are tested in |
| Duration.DecomposeRecombines | app.py:527-530 | `hours*3600 + minutes*60 + seconds == total_seconds`, with `0 <= minutes < 60` and `0 <= seconds < 60` |
| Duration.DecomposeUnique | app.py:527-530 | the decomposition is the only one with these bounds |
| Duration.Decompose | app.py:528-531 | floor division of the total by 3600, and of its remainder by 60; minutes and seconds lie in [0, 60); `DecomposeRecombines` and `DecomposeUnique` give its meaning |
| Duration.DurationText | app.py:533-538 | the three f-string forms chosen by `hours > 0` and `minutes > 0`, each ending in the seconds unit; `DurationTextRoundTrip` and `DurationTextMeaning` give its meaning |
| Duration.DurationTextRoundTrip | app.py:533-538 | reading the shown text back gives all three parts when `hours > 0`, else minutes and seconds when `minutes > 0`, else the seconds alone |
| Duration.DurationTextMeaning | app.py:527-538 | the hours form exactly from 3600 seconds up, the minutes form exactly below that with a remainder of at least a minute, else the seconds form; the parts shown add up to the total, or, for a negative total, to its remainder modulo 3600 |
| Decimal.ParseNatToString | app.py:161 | the decimal text of a number reads back as that number |
| Decimal.ReadNumberToString | app.py:533-538 | a number's text followed by a non-digit reads back as that number and the rest |
| Requests.CheckCreateTask | app.py:281-287 | accepted exactly when all four of name, command, schedule_type and schedule_config are present and true; otherwise 400; an accepted body yields those four values |
| Requests.CheckViewMode | app.py:486-490 | accepted exactly when the mode is missing (then `list`) or is `list` or `button`; otherwise 400 |
| Requests.SetViewMode | app.py:489-497 | the settings after `set_view_mode`: `INSERT OR REPLACE` of `view_mode` when the mode is accepted, so the keys grow by at most `view_mode`; untouched when refused; `ViewModeRoundTrip` gives its meaning |
| Requests.ViewMode | app.py:473-479 | `result[0] if result else 'list'`: the saved mode, or `list` when none is saved (also app.py:223-229) |
| Requests.ViewModeRoundTrip | app.py:479 | an accepted mode is the mode read back afterwards; a refused request changes nothing; no other setting changes |

## Left out

- How the scheduling library works is not modelled: cron parsing, next-fire-time computation, interval anchoring, the dispatch thread, misfire handling, and removing a fired one-shot job. Trigger validity is the constant `Scheduler.triggerOk`. The next fire time is the parameter `nextRun`.
- Registry.Scheduler.RunTask: when a job with the same `manual_` id already exists, the library raises an error that `run_task` does not catch; the model answers `Conflict` and leaves the table unchanged. Whether two quick runs get the same timestamp depends on the clock, so the uniqueness of run-now ids is not modelled.
- Time zones and the `pytz` fallback are library calls; timestamps are whole seconds as integers, and their `'%Y-%m-%d %H:%M:%S'` formatting is not modelled.
- Running the command is operating-system I/O: the bash subprocess, the one-hour timeout and process killing. They become the `Outcome` input. `str(e)` of the exception is its `message`.
- sqlite is not modelled: connections, SQL text, schema creation (`init_db`), and what the `UPDATE` statement does to the row. Tables are sequences, and the `UPDATE` is modelled up to its clause and parameter lists.
- Flask is not modelled: routing, `request.json` and `request.args` parsing (including the default `limit` of 100 and a non-numeric `limit`), `jsonify`, templates and logging. HTTP answers are tagged values.
- Registry.Scheduler.GetTasks: the `ORDER BY id DESC` of the query (app.py:242) is not stated; the rows arrive as the parameter `tasks`, reported one per row in the order given.
- RunLog.LogTable.GetLogs: the `task_id` query argument is an `Option<int>`, so an empty `task_id` text (false under `if task_id:`, hence no filter) is `None`, and sqlite's comparison of the text parameter with the INTEGER column is taken as integer equality (app.py:395-409).
- RunLog.LogTable.ClearLogs: the same abstraction of the `task_id` query argument: an empty text is `None` (no filter, every row removed), and the text-to-INTEGER comparison of `DELETE ... WHERE task_id = ?` is taken as integer equality (app.py:454-460).
- Concurrency between request handlers and the scheduler thread is not modelled; every operation runs alone.
- Float conversion of the duration (`int(duration.total_seconds())`) is not modelled: both readings are whole seconds, so the duration is their integer difference.
- `json.loads` of the stored schedule config is not modelled. The stored text is always what `json.dumps` wrote (app.py:294, app.py:328), and the config appears as text that `triggerOk` judges. `get_tasks` reports it as that text.
- The `created_at` and `updated_at` columns that `get_tasks` passes through are not modelled.
- A request body that is not a JSON object is not modelled. `create_task` and `set_view_mode` fail on it at `data.get` (app.py:281, app.py:487). `update_task` tests keys with `in` (app.py:317-331), so an array or string body that holds none of the five keys builds the same lists as `BuildUpdate(map[], task_id)`, and a string body that contains a key name fails at `data[...]`; neither is modelled, because the body is a JSON object in the model.
