/**
 * The execution log: how `execute_task` turns what happened to the command
 * into one row of the `task_logs` table, and the table operations behind
 * `get_logs`, `delete_log`, `clear_logs` and `log_detail`.
 *
 * The subprocess itself is outside the model: its result reaches
 * `ExecuteTask` as an `Outcome`, and the two clock readings as whole seconds.
 */
module RunLog {
  import opened Wrappers
  import Duration

  /** What `subprocess.run` did: returned, raised `TimeoutExpired`, or raised anything else. */
  datatype Outcome =
    | Completed(stdout: string, stderr: string, returnCode: int)
    | TimedOut
    | Failed(message: string)

  /** The error text recorded for a command that ran past the one-hour timeout. */
  const TimeoutError := "任务执行超时（1小时）"

  /** The front of the error text recorded for any other exception; `str(e)` follows it. */
  const FaultPrefix := "执行异常: "

  /** The `(output, error, exit_code)` columns of a log row. */
  datatype Recorded = Recorded(output: string, error: string, exitCode: int)

  /** The outcome as `execute_task` stores it. */
  function Record(outcome: Outcome): (r: Recorded)
    ensures outcome.Completed? ==> r == Recorded(outcome.stdout, outcome.stderr, outcome.returnCode)
    ensures !outcome.Completed? ==> r.output == "" && r.exitCode == -1 && r.error != []
    ensures outcome.TimedOut? ==> r.error == TimeoutError
    ensures outcome.Failed? ==>
      |FaultPrefix| <= |r.error| && r.error[..|FaultPrefix|] == FaultPrefix && r.error[|FaultPrefix|..] == outcome.message
  {
    match outcome
    case Completed(stdout, stderr, returnCode) => Recorded(stdout, stderr, returnCode)
    case TimedOut => Recorded("", TimeoutError, -1)
    case Failed(message) => Recorded("", FaultPrefix + message, -1)
  }

  /**
   * A failed launch can be told apart from a timeout by its error text, and
   * two failures with different messages are recorded differently.
   */
  lemma RecordTellsFailuresApart(m: string, m': string)
    ensures Record(TimedOut) != Record(Failed(m))
    ensures Record(Failed(m)) == Record(Failed(m')) ==> m == m'
  {
    assert Record(TimedOut).error[0] != Record(Failed(m)).error[0];
    if Record(Failed(m)) == Record(Failed(m')) {
      assert m == Record(Failed(m)).error[|FaultPrefix|..];
    }
  }

  /** A row of `task_logs`; the timestamps are seconds on the local wall clock. */
  datatype LogEntry = LogEntry(
    id: nat, taskId: int, taskName: string, command: string,
    output: string, error: string, exitCode: int,
    startedAt: int, finishedAt: int)

  /** Rows in table order, which is ascending id. */
  predicate Ascending(rows: seq<LogEntry>) {
    forall i, j :: 0 <= i < j < |rows| ==> rows[i].id < rows[j].id
  }

  /** The rows that `keep` selects, in their order. */
  function Filter(rows: seq<LogEntry>, keep: LogEntry -> bool): (r: seq<LogEntry>)
    ensures |r| <= |rows|
    ensures forall e :: e in r <==> e in rows && keep(e)
  {
    if rows == [] then []
    else (if keep(rows[0]) then [rows[0]] else []) + Filter(rows[1..], keep)
  }

  lemma {:induction false} FilterAppend(a: seq<LogEntry>, b: seq<LogEntry>, keep: LogEntry -> bool)
    ensures Filter(a + b, keep) == Filter(a, keep) + Filter(b, keep)
  {
    if a == [] {
      assert a + b == b;
    } else {
      assert (a + b)[0] == a[0];
      assert (a + b)[1..] == a[1..] + b;
      FilterAppend(a[1..], b, keep);
    }
  }

  lemma {:induction false} FilterAscending(rows: seq<LogEntry>, keep: LogEntry -> bool)
    requires Ascending(rows)
    ensures Ascending(Filter(rows, keep))
  {
    if rows != [] {
      FilterAscending(rows[1..], keep);
      forall e | e in Filter(rows[1..], keep) ensures rows[0].id < e.id {
        var j :| 0 <= j < |rows[1..]| && rows[1..][j] == e;
        assert rows[j + 1] == e;
      }
    }
  }

  lemma {:induction false} FilterKeepsAll(rows: seq<LogEntry>, keep: LogEntry -> bool)
    requires forall i :: 0 <= i < |rows| ==> keep(rows[i])
    ensures Filter(rows, keep) == rows
  {
    if rows != [] {
      FilterKeepsAll(rows[1..], keep);
    }
  }

  /** The rows newest first. */
  function Reversed(rows: seq<LogEntry>): (r: seq<LogEntry>)
    ensures |r| == |rows|
    ensures forall k :: 0 <= k < |rows| ==> r[k] == rows[|rows| - 1 - k]
  {
    if rows == [] then [] else Reversed(rows[1..]) + [rows[0]]
  }

  lemma ReversedAppend(a: seq<LogEntry>, b: seq<LogEntry>)
    ensures Reversed(a + b) == Reversed(b) + Reversed(a)
  {
    assert forall k :: 0 <= k < |a + b| ==> Reversed(a + b)[k] == (Reversed(b) + Reversed(a))[k];
  }

  /** `LIMIT n`: the first `n` rows; SQLite reads a negative limit as no limit. */
  function Limited(rows: seq<LogEntry>, limit: int): seq<LogEntry> {
    if 0 <= limit < |rows| then rows[..limit] else rows
  }

  /** The rows a `task_id` filter selects: all of them when no filter is given. */
  function Selects(filter: Option<int>): LogEntry -> bool {
    (e: LogEntry) => filter.None? || e.taskId == filter.value
  }

  /** The answer of `get_logs`: `WHERE task_id = ?` (when given), `ORDER BY id DESC`, `LIMIT ?`. */
  function Newest(rows: seq<LogEntry>, filter: Option<int>, limit: int): seq<LogEntry> {
    Limited(Reversed(Filter(rows, Selects(filter))), limit)
  }

  lemma ReversedDescending(rows: seq<LogEntry>)
    requires Ascending(rows)
    ensures forall i, j :: 0 <= i < j < |Reversed(rows)| ==> Reversed(rows)[i].id > Reversed(rows)[j].id
  {
    var r := Reversed(rows);
    forall i, j | 0 <= i < j < |r| ensures r[i].id > r[j].id {
      assert r[i] == rows[|rows| - 1 - i] && r[j] == rows[|rows| - 1 - j];
    }
  }

  /** `get_logs` returns selected rows of the table only, and as many as the limit allows. */
  lemma NewestSelected(rows: seq<LogEntry>, filter: Option<int>, limit: int)
    ensures var r := Newest(rows, filter, limit);
      var count := |Filter(rows, Selects(filter))|;
      && (forall e :: e in r ==> e in rows && Selects(filter)(e))
      && |r| == (if 0 <= limit < count then limit else count)
  {
    var all := Reversed(Filter(rows, Selects(filter)));
    forall e | e in Newest(rows, filter, limit) ensures e in all {
      var k :| 0 <= k < |Newest(rows, filter, limit)| && Newest(rows, filter, limit)[k] == e;
      assert all[k] == e;
    }
    forall e | e in all ensures e in Filter(rows, Selects(filter)) {
      var k :| 0 <= k < |all| && all[k] == e;
    }
  }

  /** `get_logs` returns its rows newest first. */
  lemma NewestDescending(rows: seq<LogEntry>, filter: Option<int>, limit: int)
    requires Ascending(rows)
    ensures var r := Newest(rows, filter, limit);
      forall i, j :: 0 <= i < j < |r| ==> r[i].id > r[j].id
  {
    FilterAscending(rows, Selects(filter));
    ReversedDescending(Filter(rows, Selects(filter)));
  }

  /** Every selected row that `get_logs` leaves out is older than every row it returns. */
  lemma NewestIsNewest(rows: seq<LogEntry>, filter: Option<int>, limit: int)
    requires Ascending(rows)
    ensures var r := Newest(rows, filter, limit);
      forall e, k :: e in rows && Selects(filter)(e) && e !in r && 0 <= k < |r| ==> e.id < r[k].id
  {
    var f := Filter(rows, Selects(filter));
    FilterAscending(rows, Selects(filter));
    var r := Newest(rows, filter, limit);
    assert r == Reversed(f)[..|r|];
    PrefixOfReversed(f, |r|);
  }

  /** In an ascending sequence read newest first, whatever lies past the first `n` is older than all of them. */
  lemma PrefixOfReversed(f: seq<LogEntry>, n: nat)
    requires Ascending(f) && n <= |f|
    ensures forall e, k :: e in f && e !in Reversed(f)[..n] && 0 <= k < n ==> e.id < Reversed(f)[k].id
  {
    var all := Reversed(f);
    forall e, k | e in f && e !in all[..n] && 0 <= k < n ensures e.id < all[k].id {
      var p :| 0 <= p < |f| && f[p] == e;
      var q := |f| - 1 - p;
      assert all[q] == e;
      assert all[k] == f[|f| - 1 - k];
    }
  }

  /** Stepping the newest-first scan back by one row adds that row, when selected, at the end. */
  lemma ScanStep(rows: seq<LogEntry>, i: nat, keep: LogEntry -> bool)
    requires 0 < i <= |rows|
    ensures Reversed(Filter(rows[i - 1..], keep)) ==
      Reversed(Filter(rows[i..], keep)) + (if keep(rows[i - 1]) then [rows[i - 1]] else [])
  {
    var x := rows[i - 1];
    assert rows[i - 1..] == [x] + rows[i..];
    assert [x][1..] == [];
    FilterAppend([x], rows[i..], keep);
    ReversedAppend(Filter([x], keep), Filter(rows[i..], keep));
  }

  /**
   * A scan from the newest row back that has collected the selected rows of
   * `rows[i..]`, and stopped at the oldest row or with `limit` rows, holds
   * the answer of `get_logs`.
   */
  lemma ScanStops(rows: seq<LogEntry>, i: nat, filter: Option<int>, limit: int, result: seq<LogEntry>)
    requires i <= |rows| && result == Reversed(Filter(rows[i..], Selects(filter)))
    requires limit >= 0 ==> |result| <= limit
    requires i == 0 || (limit >= 0 && |result| >= limit)
    ensures result == Newest(rows, filter, limit)
  {
    var keep := Selects(filter);
    assert rows == rows[..i] + rows[i..];
    FilterAppend(rows[..i], rows[i..], keep);
    ReversedAppend(Filter(rows[..i], keep), Filter(rows[i..], keep));
    var all := Reversed(Filter(rows, keep));
    assert all == result + Reversed(Filter(rows[..i], keep));
    if i == 0 {
      assert rows[..i] == [];
      assert all == result;
    } else {
      assert all[..limit] == result;
    }
  }

  /** The rows other than the one with id `logId`: `DELETE FROM task_logs WHERE id = ?`. */
  function OtherLogs(logId: int): LogEntry -> bool {
    (e: LogEntry) => e.id != logId
  }

  /** The rows of tasks other than `taskId`: `DELETE FROM task_logs WHERE task_id = ?`. */
  function OtherTasks(taskId: int): LogEntry -> bool {
    (e: LogEntry) => e.taskId != taskId
  }

  /** The rows that `clear_logs` keeps: those of other tasks, or none when no task is given. */
  function Cleared(rows: seq<LogEntry>, filter: Option<int>): seq<LogEntry> {
    match filter
    case None => []
    case Some(taskId) => Filter(rows, OtherTasks(taskId))
  }

  /** `delete_log` keeps every row but the one with that id, in order; nothing changes when there is none. */
  lemma DeleteLogSpec(rows: seq<LogEntry>, logId: int)
    requires Ascending(rows)
    ensures var r := Filter(rows, OtherLogs(logId));
      && Ascending(r)
      && (forall e :: e in r <==> e in rows && e.id != logId)
      && ((forall i :: 0 <= i < |rows| ==> rows[i].id != logId) ==> r == rows)
  {
    FilterAscending(rows, OtherLogs(logId));
    if forall i :: 0 <= i < |rows| ==> rows[i].id != logId {
      FilterKeepsAll(rows, OtherLogs(logId));
    }
  }

  /** Ids are unique, so `delete_log` of an id that is present removes exactly one row. */
  lemma {:induction false} DeleteLogRemovesOne(rows: seq<LogEntry>, logId: int, i: nat)
    requires Ascending(rows)
    requires i < |rows| && rows[i].id == logId
    ensures |Filter(rows, OtherLogs(logId))| == |rows| - 1
  {
    if i == 0 {
      forall k | 0 <= k < |rows[1..]| ensures OtherLogs(logId)(rows[1..][k]) {
        assert rows[1..][k] == rows[k + 1];
      }
      FilterKeepsAll(rows[1..], OtherLogs(logId));
    } else {
      assert rows[1..][i - 1] == rows[i];
      DeleteLogRemovesOne(rows[1..], logId, i - 1);
    }
  }

  /**
   * `clear_logs` with a task id removes exactly that task's rows and keeps the
   * others in order; without one it empties the table.
   */
  lemma ClearedSpec(rows: seq<LogEntry>, filter: Option<int>)
    requires Ascending(rows)
    ensures var r := Cleared(rows, filter);
      && Ascending(r)
      && (filter.None? ==> r == [])
      && (filter.Some? ==> forall e :: e in r <==> e in rows && e.taskId != filter.value)
  {
    if filter.Some? {
      FilterAscending(rows, OtherTasks(filter.value));
    }
  }

  /** The first row with id `logId`: `SELECT ... WHERE id = ?` and `fetchone()`. */
  function FindLog(rows: seq<LogEntry>, logId: int): (r: Option<LogEntry>)
    ensures r.None? <==> forall i :: 0 <= i < |rows| ==> rows[i].id != logId
    ensures r.Some? ==> r.value in rows && r.value.id == logId
  {
    if rows == [] then None
    else if rows[0].id == logId then Some(rows[0])
    else FindLog(rows[1..], logId)
  }

  /** The `task_logs` table, changed in place by INSERT and DELETE. */
  class LogTable {
    var rows: seq<LogEntry>
    /** The largest id ever handed out (`AUTOINCREMENT` never reuses one). */
    var lastId: nat

    ghost predicate Valid()
      reads this
    {
      Ascending(rows) && forall e :: e in rows ==> 1 <= e.id <= lastId
    }

    constructor ()
      ensures Valid() && rows == [] && lastId == 0
    {
      rows := [];
      lastId := 0;
    }

    /**
     * `execute_task(task_id, task_name, command)`, given what the command did
     * and the clock readings before and after: appends exactly one row.
     */
    method ExecuteTask(taskId: int, taskName: string, command: string,
                       outcome: Outcome, startedAt: int, finishedAt: int) returns (entry: LogEntry)
      requires Valid()
      modifies this
      ensures Valid()
      ensures lastId == old(lastId) + 1
      ensures entry.id == lastId && entry.taskId == taskId && entry.taskName == taskName
      ensures entry.command == command && entry.startedAt == startedAt && entry.finishedAt == finishedAt
      ensures Recorded(entry.output, entry.error, entry.exitCode) == Record(outcome)
      ensures rows == old(rows) + [entry]
    {
      var rec := Record(outcome);
      lastId := lastId + 1;
      entry := LogEntry(lastId, taskId, taskName, command, rec.output, rec.error, rec.exitCode, startedAt, finishedAt);
      rows := rows + [entry];
    }

    /**
     * `get_logs(task_id, limit)`: the query and the loop that collects its
     * rows, as one walk from the newest row back, stopping at the limit.
     */
    method GetLogs(filter: Option<int>, limit: int) returns (result: seq<LogEntry>)
      ensures result == Newest(rows, filter, limit)
    {
      var keep, table := Selects(filter), rows;
      result := [];
      var i := |table|;
      assert table[i..] == [];
      while i > 0 && (limit < 0 || |result| < limit)
        invariant 0 <= i <= |table|
        invariant result == Reversed(Filter(table[i..], keep))
        invariant limit >= 0 ==> |result| <= limit
        decreases i
      {
        ScanStep(table, i, keep);
        i := i - 1;
        if keep(table[i]) {
          result := result + [table[i]];
        }
      }
      ScanStops(table, i, filter, limit, result);
    }

    /** `delete_log(log_id)`: removes the row with that id; nothing happens when there is none. */
    method DeleteLog(logId: int)
      requires Valid()
      modifies this
      ensures Valid() && lastId == old(lastId)
      ensures rows == Filter(old(rows), OtherLogs(logId))
    {
      rows := Filter(rows, OtherLogs(logId));
      FilterAscending(old(rows), OtherLogs(logId));
    }

    /** `clear_logs(task_id)`: removes that task's rows, or every row when no task id is given. */
    method ClearLogs(filter: Option<int>)
      requires Valid()
      modifies this
      ensures Valid() && lastId == old(lastId)
      ensures rows == Cleared(old(rows), filter)
    {
      match filter {
        case None =>
          rows := [];
        case Some(taskId) =>
          rows := Filter(rows, OtherTasks(taskId));
      }
      ClearedSpec(old(rows), filter);
    }

    /**
     * `log_detail(log_id)`: the row and the text of its execution time, or
     * none (the 404 page) when no row has that id.
     */
    method LogDetail(logId: int) returns (r: Option<(LogEntry, string)>)
      ensures r.None? <==> forall i :: 0 <= i < |rows| ==> rows[i].id != logId
      ensures r.Some? ==> r.value.0 in rows && r.value.0.id == logId
      ensures r.Some? ==> r.value.1 == Duration.DurationText(r.value.0.finishedAt - r.value.0.startedAt)
    {
      var found := FindLog(rows, logId);
      if found.None? {
        return None;
      }
      var log := found.value;
      r := Some((log, Duration.DurationText(log.finishedAt - log.startedAt)));
    }
  }
}
