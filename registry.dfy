/**
 * The scheduler's job table as app.py drives it: `add_job_to_scheduler`,
 * `load_tasks`, and the registry side of `delete_task`, `run_task` and
 * `get_tasks`. The table maps a job id to the trigger and the arguments
 * `(task_id, name, command)` the job will call `execute_task` with.
 *
 * Whether the scheduling library accepts a trigger (a cron expression that
 * parses, an interval it takes, an hour and minute in range, a config object
 * that has the keys the branch reads) is the library's decision; here it is
 * the scheduler's constant `triggerOk`. The next fire time of a job is the
 * library's too, and reaches `GetTasks` as the parameter `nextRun`.
 */
module Registry {
  import opened Wrappers
  import Decimal

  /** The schedule types that `add_job_to_scheduler` builds a trigger for. */
  datatype Kind = Cron | Interval | Daily

  /** The `if`/`elif` on `schedule_type`; any other text matches no branch. */
  function KindOf(scheduleType: string): Option<Kind> {
    if scheduleType == "cron" then Some(Cron)
    else if scheduleType == "interval" then Some(Interval)
    else if scheduleType == "daily" then Some(Daily)
    else None
  }

  /**
   * A row of the tasks table as `load_tasks` selects it. `config` is the
   * stored `schedule_config` JSON text; `enabled` is the INTEGER column,
   * tested for Python truth.
   */
  datatype Task = Task(id: nat, name: string, command: string, scheduleType: string, config: string, enabled: int)

  /** A recurring trigger built from a task's schedule, or none (run once, at once). */
  datatype Trigger = Recurring(kind: Kind, config: string) | Immediate

  /** A job: its trigger and the arguments of its `execute_task` call. */
  datatype Job = Job(trigger: Trigger, taskId: nat, name: string, command: string)

  /** The library's verdict on building a trigger of a kind from a config. */
  type TriggerCheck = (Kind, string) -> bool

  /** The id of a task's recurring job, `task_{id}`. */
  function TaskJobId(id: nat): string {
    "task_" + Decimal.NatToString(id)
  }

  /** The fixed front of a run-now job id, `manual_{id}_`. */
  function ManualJobPrefix(id: nat): string {
    "manual_" + Decimal.NatToString(id) + "_"
  }

  /** The id of a run-now job, `manual_{id}_{timestamp}`; `stamp` is the text of the timestamp. */
  function ManualJobId(id: nat, stamp: string): string {
    ManualJobPrefix(id) + stamp
  }

  lemma TaskJobIdInjective(a: nat, b: nat)
    ensures TaskJobId(a) == TaskJobId(b) ==> a == b
  {
    if TaskJobId(a) == TaskJobId(b) {
      assert Decimal.NatToString(a) == TaskJobId(a)[5..];
      assert Decimal.NatToString(b) == TaskJobId(b)[5..];
      Decimal.NatToStringInjective(a, b);
    }
  }

  /** A run-now job id never names a recurring job. */
  lemma ManualJobIdIsNoTaskJobId(id: nat, stamp: string, other: nat)
    ensures ManualJobId(id, stamp) != TaskJobId(other)
  {
    assert ManualJobId(id, stamp)[0] == 'm';
    assert TaskJobId(other)[0] == 't';
  }

  /** A task gets a job: enabled, a known schedule type, and a trigger the library accepts. */
  predicate Schedulable(task: Task, triggerOk: TriggerCheck) {
    && task.enabled != 0
    && KindOf(task.scheduleType).Some?
    && triggerOk(KindOf(task.scheduleType).value, task.config)
  }

  /** The recurring job `add_job_to_scheduler` installs for a task of a known kind. */
  function JobFor(task: Task, kind: Kind): Job {
    Job(Recurring(kind, task.config), task.id, task.name, task.command)
  }

  /** The job table after `add_job_to_scheduler(task)`. */
  function Installed(jobs: map<string, Job>, task: Task, triggerOk: TriggerCheck): (r: map<string, Job>)
    ensures r - {TaskJobId(task.id)} == jobs - {TaskJobId(task.id)}
    ensures Schedulable(task, triggerOk) ==>
      TaskJobId(task.id) in r && r[TaskJobId(task.id)] == JobFor(task, KindOf(task.scheduleType).value)
    ensures !Schedulable(task, triggerOk) ==> r == jobs
  {
    if Schedulable(task, triggerOk) then
      jobs[TaskJobId(task.id) := JobFor(task, KindOf(task.scheduleType).value)]
    else jobs
  }

  /** The job table after `load_tasks` over `tasks`: emptied, then each task added in turn. */
  function Reconciled(tasks: seq<Task>, triggerOk: TriggerCheck): map<string, Job> {
    if tasks == [] then map[]
    else Installed(Reconciled(tasks[..|tasks| - 1], triggerOk), tasks[|tasks| - 1], triggerOk)
  }

  /** Task ids are the primary key of the tasks table. */
  predicate UniqueIds(tasks: seq<Task>) {
    forall i, j :: 0 <= i < j < |tasks| ==> tasks[i].id != tasks[j].id
  }

  /** After `load_tasks`, the job ids are exactly `task_{id}` of the schedulable tasks. */
  lemma {:induction false} ReconciledKeys(tasks: seq<Task>, triggerOk: TriggerCheck)
    ensures Reconciled(tasks, triggerOk).Keys ==
            set t | t in tasks && Schedulable(t, triggerOk) :: TaskJobId(t.id)
  {
    if tasks != [] {
      var init, last := tasks[..|tasks| - 1], tasks[|tasks| - 1];
      ReconciledKeys(init, triggerOk);
      assert forall t :: t in tasks <==> t in init || t == last by {
        assert tasks == init + [last];
      }
    }
  }

  /** After `load_tasks`, each schedulable task owns the job under its id. */
  lemma {:induction false} ReconciledJob(tasks: seq<Task>, triggerOk: TriggerCheck, i: nat)
    requires UniqueIds(tasks)
    requires i < |tasks| && Schedulable(tasks[i], triggerOk)
    ensures var r := Reconciled(tasks, triggerOk);
      TaskJobId(tasks[i].id) in r &&
      r[TaskJobId(tasks[i].id)] == JobFor(tasks[i], KindOf(tasks[i].scheduleType).value)
  {
    var n := |tasks|;
    if i < n - 1 {
      var init := tasks[..n - 1];
      assert init[i] == tasks[i];
      ReconciledJob(init, triggerOk, i);
      TaskJobIdInjective(tasks[i].id, tasks[n - 1].id);
      var before := Reconciled(init, triggerOk);
      var after := Installed(before, tasks[n - 1], triggerOk);
      assert TaskJobId(tasks[i].id) in before - {TaskJobId(tasks[n - 1].id)};
      assert after[TaskJobId(tasks[i].id)] == (after - {TaskJobId(tasks[n - 1].id)})[TaskJobId(tasks[i].id)];
    }
  }

  /** After `load_tasks`, a task that is disabled, of unknown type or refused by the library has no job. */
  lemma ReconciledOmits(tasks: seq<Task>, triggerOk: TriggerCheck, i: nat)
    requires UniqueIds(tasks)
    requires i < |tasks| && !Schedulable(tasks[i], triggerOk)
    ensures TaskJobId(tasks[i].id) !in Reconciled(tasks, triggerOk)
  {
    ReconciledKeys(tasks, triggerOk);
    if TaskJobId(tasks[i].id) in Reconciled(tasks, triggerOk) {
      var t :| t in tasks && Schedulable(t, triggerOk) && TaskJobId(t.id) == TaskJobId(tasks[i].id);
      TaskJobIdInjective(t.id, tasks[i].id);
      var j :| 0 <= j < |tasks| && tasks[j] == t;
      assert false;
    }
  }

  /** The first row of `tasks` with the given id: `SELECT ... WHERE id = ?` and `fetchone()`. */
  function FindTask(tasks: seq<Task>, id: nat): (r: Option<Task>)
    ensures r.None? <==> forall i :: 0 <= i < |tasks| ==> tasks[i].id != id
    ensures r.Some? ==> r.value in tasks && r.value.id == id
  {
    if tasks == [] then None
    else if tasks[0].id == id then Some(tasks[0])
    else FindTask(tasks[1..], id)
  }

  /** A job id that fits the job stored under it. */
  predicate WellKeyed(jobId: string, job: Job) {
    match job.trigger
    case Recurring(_, _) => jobId == TaskJobId(job.taskId)
    case Immediate => ManualJobPrefix(job.taskId) <= jobId
  }

  /** What `run_task` answers. */
  datatype RunResult =
    | NotFound              // 404: no task row with that id
    | Submitted(jobId: string)
    | Conflict              // the library refuses a second job under an id already in use

  /** A task as `get_tasks` reports it. */
  datatype TaskView = TaskView(
    id: nat, name: string, command: string, scheduleType: string, config: string,
    enabled: bool, nextRunTime: Option<int>)

  /** The report of one task: the next run time comes from its job, when enabled and installed. */
  function ViewOf(task: Task, jobs: map<string, Job>, nextRun: Job -> Option<int>): TaskView {
    var next :=
      if task.enabled != 0 && TaskJobId(task.id) in jobs then nextRun(jobs[TaskJobId(task.id)]) else None;
    TaskView(task.id, task.name, task.command, task.scheduleType, task.config, task.enabled != 0, next)
  }

  /**
   * What `get_tasks` reports for a task right after `load_tasks`: the next fire
   * time of the task's own job when it is schedulable, and none otherwise.
   */
  lemma LoadedNextRun(tasks: seq<Task>, triggerOk: TriggerCheck, nextRun: Job -> Option<int>, i: nat)
    requires UniqueIds(tasks) && i < |tasks|
    ensures var v := ViewOf(tasks[i], Reconciled(tasks, triggerOk), nextRun);
      if Schedulable(tasks[i], triggerOk)
      then v.nextRunTime == nextRun(JobFor(tasks[i], KindOf(tasks[i].scheduleType).value))
      else v.nextRunTime == None
  {
    if Schedulable(tasks[i], triggerOk) {
      ReconciledJob(tasks, triggerOk, i);
    } else if tasks[i].enabled != 0 {
      ReconciledOmits(tasks, triggerOk, i);
    }
  }

  /** The scheduler's job table, updated in place. */
  class Scheduler {
    var jobs: map<string, Job>
    const triggerOk: TriggerCheck

    /** Every job is filed under the id its kind prescribes. */
    ghost predicate Valid()
      reads this
    {
      forall jobId :: jobId in jobs ==> WellKeyed(jobId, jobs[jobId])
    }

    constructor (triggerOk: TriggerCheck)
      ensures Valid() && jobs == map[] && this.triggerOk == triggerOk
    {
      jobs := map[];
      this.triggerOk := triggerOk;
    }

    /** `add_job_to_scheduler(task)`: installs or replaces `task_{id}`, or leaves the table as it was. */
    method AddJobToScheduler(task: Task)
      requires Valid()
      modifies this
      ensures Valid()
      ensures jobs == Installed(old(jobs), task, triggerOk)
    {
      if task.enabled == 0 {
        return;
      }
      var jobId := TaskJobId(task.id);
      match KindOf(task.scheduleType)
      case None =>
      case Some(kind) =>
        // a trigger the library refuses raises inside the `try`, which logs and returns
        if triggerOk(kind, task.config) {
          jobs := jobs[jobId := Job(Recurring(kind, task.config), task.id, task.name, task.command)];
        }
    }

    /** `load_tasks()`: `remove_all_jobs`, then `add_job_to_scheduler` for every row. */
    method LoadTasks(tasks: seq<Task>)
      modifies this
      ensures Valid()
      ensures jobs == Reconciled(tasks, triggerOk)
    {
      jobs := map[];
      for i := 0 to |tasks|
        invariant Valid()
        invariant jobs == Reconciled(tasks[..i], triggerOk)
      {
        assert tasks[..i + 1][..i] == tasks[..i];
        AddJobToScheduler(tasks[i]);
      }
      assert tasks[..|tasks|] == tasks;
    }

    /** The registry side of `delete_task`: `remove_job('task_{id}')`, a missing job being ignored. */
    method RemoveTaskJob(taskId: nat)
      requires Valid()
      modifies this
      ensures Valid()
      ensures jobs == old(jobs) - {TaskJobId(taskId)}
      ensures TaskJobId(taskId) !in old(jobs) ==> jobs == old(jobs)
    {
      var jobId := TaskJobId(taskId);
      if jobId in jobs {
        jobs := jobs - {jobId};
      }
    }

    /**
     * `run_task(task_id)`: looks the task up in `tasks` (the tasks table) and
     * submits a job without a trigger, which the library runs once at once.
     */
    method RunTask(taskId: nat, tasks: seq<Task>, stamp: string) returns (r: RunResult)
      requires Valid()
      modifies this
      ensures Valid()
      ensures FindTask(tasks, taskId).None? ==> r == NotFound && jobs == old(jobs)
      ensures FindTask(tasks, taskId).Some? ==>
        var t := FindTask(tasks, taskId).value;
        var jobId := ManualJobId(taskId, stamp);
        if jobId in old(jobs) then r == Conflict && jobs == old(jobs)
        else r == Submitted(jobId) && jobs == old(jobs)[jobId := Job(Immediate, taskId, t.name, t.command)]
      ensures forall jobId :: jobId in old(jobs) ==> jobId in jobs && jobs[jobId] == old(jobs)[jobId]
      ensures TaskJobId(taskId) in jobs <==> TaskJobId(taskId) in old(jobs)
    {
      var found := FindTask(tasks, taskId);
      if found.None? {
        return NotFound;
      }
      var jobId := ManualJobId(taskId, stamp);
      if jobId in jobs {
        return Conflict;
      }
      jobs := jobs[jobId := Job(Immediate, taskId, found.value.name, found.value.command)];
      ManualJobIdIsNoTaskJobId(taskId, stamp, taskId);
      r := Submitted(jobId);
    }

    /** `get_tasks()` over the rows `tasks` the query returned, building the report in a loop, one entry per row in row order. */
    method GetTasks(tasks: seq<Task>, nextRun: Job -> Option<int>) returns (views: seq<TaskView>)
      ensures |views| == |tasks|
      ensures forall i :: 0 <= i < |tasks| ==> views[i] == ViewOf(tasks[i], jobs, nextRun)
      ensures forall i :: 0 <= i < |tasks| && views[i].nextRunTime.Some? ==>
        tasks[i].enabled != 0 && TaskJobId(tasks[i].id) in jobs
    {
      views := [];
      for i := 0 to |tasks|
        invariant |views| == i
        invariant forall j :: 0 <= j < i ==> views[j] == ViewOf(tasks[j], jobs, nextRun)
      {
        var task := tasks[i];
        var next: Option<int> := None;
        if task.enabled != 0 {
          var jobId := TaskJobId(task.id);
          if jobId in jobs {
            next := nextRun(jobs[jobId]);
          }
        }
        views := views + [TaskView(task.id, task.name, task.command, task.scheduleType, task.config,
                                   task.enabled != 0, next)];
      }
    }
  }

  /**
   * One recurring job per task: in a scheduler whose jobs are all filed
   * under the ids their kind fixes, two recurring jobs of the same task are
   * the same entry, because both sit under `task_{id}`.
   */
  lemma OneRecurringJobPerTask(s: Scheduler, a: string, b: string)
    requires s.Valid()
    requires a in s.jobs && b in s.jobs && s.jobs[a].trigger.Recurring? && s.jobs[b].trigger.Recurring?
    requires s.jobs[a].taskId == s.jobs[b].taskId
    ensures a == b
  {
  }
}
