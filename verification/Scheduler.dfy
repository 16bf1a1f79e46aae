/**
 The coalescing background scheduler: at most one run per key at a time, and requests that
 arrive during a run are folded into one later run.  Executor reconciles and credential
 reloads use the same scheme with different keys.
 */
module Scheduler {

  type Key = string
  type TaskId = nat

  datatype Status = Scheduled | Running | Done

  datatype Task = Task(key: Key, status: Status)

  datatype State = State(
    all: seq<Task>,              // every task ever created, by identity
    tasks: map<Key, TaskId>,     // the task dictionary
    pending: set<Key>)

  datatype Step =
    | Request(key: Key)
    | Start(task: TaskId)                  // the first step of the task
    | Finish(task: TaskId)                 // the run body returned or raised
    | Cancel(task: TaskId)                 // the run body was cancelled
    | CancelUnstarted(task: TaskId)        // cancelled before its first step: no `finally`

  const Initial := State([], map[], {})

  predicate Enabled(s: State, step: Step) {
    match step
    case Request(_) => true
    case Start(t) => t < |s.all| && s.all[t].status == Scheduled
    case Finish(t) => t < |s.all| && s.all[t].status == Running
    case Cancel(t) => t < |s.all| && s.all[t].status == Running
    case CancelUnstarted(t) => t < |s.all| && s.all[t].status == Scheduled
  }

  function SetStatus(s: State, t: TaskId, status: Status): State
    requires t < |s.all|
  {
    s.(all := s.all[t := s.all[t].(status := status)])
  }

  /** The dictionary holds a task for the key that is not done. */
  predicate Busy(s: State, k: Key) {
    k in s.tasks && s.tasks[k] < |s.all| && s.all[s.tasks[k]].status != Done
  }

  function Schedule(s: State, k: Key): State {
    if Busy(s, k) then s.(pending := s.pending + {k})
    else s.(all := s.all + [Task(k, Scheduled)], tasks := s.tasks[k := |s.all|])
  }

  /** The `finally` of a run: remove the own entry, then drop or honour a pending request. */
  function Conclude(s: State, t: TaskId, cancelled: bool): State
    requires t < |s.all|
  {
    var k := s.all[t].key;
    var ended := SetStatus(s, t, Done);
    var popped := if k in s.tasks && s.tasks[k] == t then ended.(tasks := s.tasks - {k}) else ended;
    if k !in s.pending then popped
    else
      var dropped := popped.(pending := s.pending - {k});
      if cancelled then dropped else Schedule(dropped, k)
  }

  function Next(s: State, step: Step): State
    requires Enabled(s, step)
  {
    match step
    case Request(k) => Schedule(s, k)
    case Start(t) => SetStatus(s, t, Running)
    case Finish(t) => Conclude(s, t, false)
    case Cancel(t) => Conclude(s, t, true)
    case CancelUnstarted(t) => SetStatus(s, t, Done)
  }

  // ---------------------------------------------------------------------------
  // The invariant
  // ---------------------------------------------------------------------------

  /** Every task that is not done is the one in the dictionary under its key. */
  ghost predicate Inv(s: State) {
    && (forall k :: k in s.tasks ==> s.tasks[k] < |s.all| && s.all[s.tasks[k]].key == k)
    && (forall t: TaskId :: t < |s.all| && s.all[t].status != Done ==>
          s.all[t].key in s.tasks && s.tasks[s.all[t].key] == t)
  }

  lemma ScheduleKeepsInv(s: State, k: Key)
    requires Inv(s)
    ensures Inv(Schedule(s, k))
  {
  }

  lemma ConcludeKeepsInv(s: State, t: TaskId, cancelled: bool)
    requires Inv(s) && t < |s.all| && s.all[t].status == Running
    ensures Inv(Conclude(s, t, cancelled))
  {
    var k := s.all[t].key;
    var popped := SetStatus(s, t, Done).(tasks := s.tasks - {k});
    assert Inv(popped);
    assert Inv(popped.(pending := s.pending - {k}));
    ScheduleKeepsInv(popped.(pending := s.pending - {k}), k);
  }

  lemma StepKeepsInv(s: State, step: Step)
    requires Inv(s) && Enabled(s, step)
    ensures Inv(Next(s, step))
  {
    match step
    case Request(k) => ScheduleKeepsInv(s, k);
    case Finish(t) => ConcludeKeepsInv(s, t, false);
    case Cancel(t) => ConcludeKeepsInv(s, t, true);
    case Start(_) =>
    case CancelUnstarted(_) =>
  }

  // ---------------------------------------------------------------------------
  // Theorems over every run
  // ---------------------------------------------------------------------------

  ghost predicate StepAt(states: seq<State>, steps: seq<Step>, i: nat)
    requires |states| == |steps| + 1 && i < |steps|
  {
    StepTo(states[i], steps[i], states[i + 1])
  }

  ghost predicate StepTo(s: State, step: Step, s': State) {
    Enabled(s, step) && s' == Next(s, step)
  }

  ghost predicate IsRun(states: seq<State>, steps: seq<Step>) {
    && |states| == |steps| + 1
    && states[0] == Initial
    && forall i :: 0 <= i < |steps| ==> StepAt(states, steps, i)
  }

  lemma {:induction false} RunKeepsInv(states: seq<State>, steps: seq<Step>, i: nat)
    requires IsRun(states, steps) && i < |states|
    ensures Inv(states[i])
  {
    if i > 0 {
      RunKeepsInv(states, steps, i - 1);
      assert StepAt(states, steps, i - 1);
      StepKeepsInv(states[i - 1], steps[i - 1]);
    }
  }

  /** Run bodies for one key never overlap. */
  lemma RunsNeverOverlap(states: seq<State>, steps: seq<Step>, i: nat, a: TaskId, b: TaskId)
    requires IsRun(states, steps) && i < |states|
    requires a < |states[i].all| && b < |states[i].all| && states[i].all[a].key == states[i].all[b].key
    requires states[i].all[a].status == Running && states[i].all[b].status == Running
    ensures a == b
  {
    RunKeepsInv(states, steps, i);
  }

  function Requests(steps: seq<Step>, k: Key): nat {
    if steps == [] then 0
    else Requests(steps[..|steps| - 1], k) + (if steps[|steps| - 1] == Request(k) then 1 else 0)
  }

  function TasksOf(all: seq<Task>, k: Key): nat {
    if all == [] then 0
    else TasksOf(all[..|all| - 1], k) + (if all[|all| - 1].key == k then 1 else 0)
  }

  lemma TasksOfSnoc(all: seq<Task>, task: Task, k: Key)
    ensures TasksOf(all + [task], k) == TasksOf(all, k) + (if task.key == k then 1 else 0)
  {
    assert (all + [task])[..|all|] == all;
  }

  lemma {:induction false} TasksOfUpdate(all: seq<Task>, t: TaskId, status: Status, k: Key)
    requires t < |all|
    ensures TasksOf(all[t := all[t].(status := status)], k) == TasksOf(all, k)
  {
    var updated := all[t := all[t].(status := status)];
    var n := |all| - 1;
    if t < n {
      TasksOfUpdate(all[..n], t, status, k);
      assert updated[..n] == all[..n][t := all[..n][t].(status := status)];
    } else {
      assert updated[..n] == all[..n];
    }
  }

  function Owed(s: State, k: Key): nat {
    TasksOf(s.all, k) + (if k in s.pending then 1 else 0)
  }

  lemma OwedStep(s: State, step: Step, k: Key)
    requires Enabled(s, step)
    ensures Owed(Next(s, step), k) <= Owed(s, k) + (if step == Request(k) then 1 else 0)
  {
    match step
    case Request(r) => TasksOfSnoc(s.all, Task(r, Scheduled), k);
    case Start(t) => TasksOfUpdate(s.all, t, Running, k);
    case CancelUnstarted(t) => TasksOfUpdate(s.all, t, Done, k);
    case Finish(t) =>
      TasksOfUpdate(s.all, t, Done, k);
      TasksOfSnoc(SetStatus(s, t, Done).all, Task(s.all[t].key, Scheduled), k);
    case Cancel(t) =>
      TasksOfUpdate(s.all, t, Done, k);
  }

  /** There are never more runs than requests, and a pending request is one not yet run. */
  lemma {:induction false} RunsBoundedByRequests(states: seq<State>, steps: seq<Step>, i: nat, k: Key)
    requires IsRun(states, steps) && i < |states|
    ensures TasksOf(states[i].all, k) + (if k in states[i].pending then 1 else 0) <= Requests(steps[..i], k)
  {
    if i > 0 {
      RunsBoundedByRequests(states, steps, i - 1, k);
      assert StepAt(states, steps, i - 1);
      OwedStep(states[i - 1], steps[i - 1], k);
      assert steps[..i][..i - 1] == steps[..i - 1];
    }
  }

  /** Step `j` of the run starts a run body for `k`. */
  ghost predicate StartsRun(states: seq<State>, steps: seq<Step>, j: nat, k: Key)
    requires |states| == |steps| + 1
  {
    j < |steps| && steps[j].Start? && steps[j].task < |states[j].all| && states[j].all[steps[j].task].key == k
  }

  /** Step `j` cancels a run of `k`, and with it the request folded into it. */
  ghost predicate CancelsRun(states: seq<State>, steps: seq<Step>, j: nat, k: Key)
    requires |states| == |steps| + 1
  {
    && j < |steps| && (steps[j].Cancel? || steps[j].CancelUnstarted?)
    && steps[j].task < |states[j].all| && states[j].all[steps[j].task].key == k
  }

  /** Somebody will still run for `k`: a task is scheduled, or a running one has a pending request behind it. */
  predicate Outstanding(s: State, k: Key) {
    Busy(s, k) && (s.all[s.tasks[k]].status == Scheduled || k in s.pending)
  }

  lemma OutstandingStep(s: State, step: Step, s': State, k: Key)
    requires Inv(s) && StepTo(s, step, s') && Outstanding(s, k)
    ensures || Outstanding(s', k)
            || (step.Start? && s.all[step.task].key == k)
            || ((step.Cancel? || step.CancelUnstarted?) && s.all[step.task].key == k)
  {
  }

  lemma RequestIsOutstanding(s: State, k: Key)
    requires Inv(s)
    ensures Outstanding(Schedule(s, k), k)
  {
  }

  /** Every request is still outstanding, has been followed by the start of a run, or was lost to a cancelled run. */
  lemma {:induction false} NoRequestForgotten(states: seq<State>, steps: seq<Step>, i: nat, j: nat, k: Key)
    requires IsRun(states, steps) && i < j < |states| && steps[i] == Request(k)
    ensures || Outstanding(states[j], k)
            || (exists m :: i < m < j && StartsRun(states, steps, m, k))
            || (exists m :: i < m < j && CancelsRun(states, steps, m, k))
  {
    RunKeepsInv(states, steps, j - 1);
    assert StepAt(states, steps, j - 1);
    if j == i + 1 {
      RequestIsOutstanding(states[i], k);
    } else {
      NoRequestForgotten(states, steps, i, j - 1, k);
      if Outstanding(states[j - 1], k) && !Outstanding(states[j], k) {
        OutstandingStep(states[j - 1], steps[j - 1], states[j], k);
        var m := j - 1;
        assert StartsRun(states, steps, m, k) || CancelsRun(states, steps, m, k);
      }
    }
  }

  /** Once nothing runs for the key, every request was followed by a run that started after it, or was lost to a cancellation. */
  lemma ServedAtQuiescence(states: seq<State>, steps: seq<Step>, i: nat, j: nat, k: Key)
    requires IsRun(states, steps) && i < j < |states| && steps[i] == Request(k)
    requires forall t: TaskId :: t < |states[j].all| && states[j].all[t].key == k ==> states[j].all[t].status == Done
    requires forall m :: i < m < j ==> !CancelsRun(states, steps, m, k)
    ensures exists m :: i < m < j && StartsRun(states, steps, m, k)
  {
    RunKeepsInv(states, steps, j);
    NoRequestForgotten(states, steps, i, j, k);
  }

  // ---------------------------------------------------------------------------
  // The scheduler object
  // ---------------------------------------------------------------------------
  // When a run starts, and what is pending
  // ---------------------------------------------------------------------------

  /** A task of the key is scheduled or running. */
  ghost predicate HasLiveTask(s: State, k: Key) {
    exists t: TaskId :: t < |s.all| && s.all[t].key == k && s.all[t].status != Done
  }

  lemma BusyIffLive(s: State, k: Key)
    requires Inv(s)
    ensures Busy(s, k) <==> HasLiveTask(s, k)
  {
    if Busy(s, k) {
      assert s.all[s.tasks[k]].key == k;
    }
  }

  /** The step ends a run of `k` through its `finally`. */
  predicate EndsRunOf(s: State, step: Step, k: Key) {
    (step.Finish? || step.Cancel?) && step.task < |s.all| && s.all[step.task].key == k
  }

  /** A new task is created exactly for a request that finds none live, and for a request pending at the end of a run. */
  lemma NewTaskIff(states: seq<State>, steps: seq<Step>, i: nat, k: Key)
    requires IsRun(states, steps) && i < |steps|
    ensures var s, s', step := states[i], states[i + 1], steps[i];
            TasksOf(s'.all, k) == TasksOf(s.all, k)
              + if (step == Request(k) && !HasLiveTask(s, k)) || (step.Finish? && EndsRunOf(s, step, k) && k in s.pending)
                then 1 else 0
  {
    var s, step := states[i], steps[i];
    assert StepAt(states, steps, i);
    RunKeepsInv(states, steps, i);
    BusyIffLive(s, k);
    match step
    case Request(key) =>
      TasksOfSnoc(s.all, Task(key, Scheduled), k);
    case Start(t) => TasksOfUpdate(s.all, t, Running, k);
    case CancelUnstarted(t) => TasksOfUpdate(s.all, t, Done, k);
    case Cancel(t) => TasksOfUpdate(s.all, t, Done, k);
    case Finish(t) =>
      TasksOfUpdate(s.all, t, Done, k);
      TasksOfSnoc(SetStatus(s, t, Done).all, Task(s.all[t].key, Scheduled), k);
  }

  /** A request is pending exactly if it came while a task was live and no run of the key has ended since. */
  ghost predicate PendingSince(states: seq<State>, steps: seq<Step>, m: nat, i: nat, k: Key)
    requires |states| == |steps| + 1 && m < i <= |steps|
  {
    && steps[m] == Request(k) && HasLiveTask(states[m], k)
    && forall n :: m < n < i ==> !EndsRunOf(states[n], steps[n], k)
  }

  lemma PendingStep(s: State, step: Step, s': State, k: Key)
    requires Inv(s) && StepTo(s, step, s')
    ensures k in s'.pending <==> (step == Request(k) && HasLiveTask(s, k)) || (k in s.pending && !EndsRunOf(s, step, k))
  {
    BusyIffLive(s, k);
  }

  lemma {:induction false} PendingIff(states: seq<State>, steps: seq<Step>, i: nat, k: Key)
    requires IsRun(states, steps) && i < |states|
    ensures k in states[i].pending <==> exists m :: 0 <= m < i && PendingSince(states, steps, m, i, k)
  {
    if i > 0 {
      var n := i - 1;
      PendingIff(states, steps, n, k);
      assert StepAt(states, steps, n);
      RunKeepsInv(states, steps, n);
      PendingStep(states[n], steps[n], states[i], k);
      if k in states[i].pending {
        if steps[n] == Request(k) && HasLiveTask(states[n], k) {
          assert PendingSince(states, steps, n, i, k);
        } else {
          var m :| 0 <= m < n && PendingSince(states, steps, m, n, k);
          assert PendingSince(states, steps, m, i, k);
        }
      }
      if m :| 0 <= m < i && PendingSince(states, steps, m, i, k) {
        if m < n {
          assert PendingSince(states, steps, m, n, k);
        }
      }
    }
  }

  predicate EndsTask(step: Step, t: TaskId) {
    (step.Finish? || step.Cancel? || step.CancelUnstarted?) && step.task == t
  }

  /** A task runs exactly from its start to its end. */
  lemma StatusStep(states: seq<State>, steps: seq<Step>, i: nat, t: TaskId)
    requires IsRun(states, steps) && i < |steps| && t < |states[i].all|
    ensures t < |states[i + 1].all|
    ensures states[i + 1].all[t].status ==
            if steps[i] == Start(t) then Running else if EndsTask(steps[i], t) then Done else states[i].all[t].status
  {
    assert StepAt(states, steps, i);
  }

  // ---------------------------------------------------------------------------

  class CoalescingScheduler {
    var all: seq<Task>
    var tasks: map<Key, TaskId>
    var pending: set<Key>

    ghost function View(): State
      reads this
    {
      State(all, tasks, pending)
    }

    ghost predicate Valid()
      reads this
    {
      Inv(View())
    }

    constructor ()
      ensures Valid() && View() == Initial
    {
      all, tasks, pending := [], map[], {};
    }

    /** `schedule_executor_reconfigure` and `schedule_mcp_credential_reload`. */
    method ScheduleRun(k: Key)
      requires Valid()
      modifies this
      ensures Valid() && View() == Next(old(View()), Request(k))
    {
      StepKeepsInv(View(), Request(k));
      if k in tasks && all[tasks[k]].status != Done {
        pending := pending + {k};
        return;
      }
      tasks := tasks[k := |all|];
      all := all + [Task(k, Scheduled)];
    }

    /** The `finally` block at the end of a run. */
    method EndRun(t: TaskId, cancelled: bool)
      requires Valid() && t < |all| && all[t].status == Running
      modifies this
      ensures Valid() && View() == Next(old(View()), if cancelled then Cancel(t) else Finish(t))
    {
      StepKeepsInv(View(), if cancelled then Cancel(t) else Finish(t));
      var k := all[t].key;
      all := all[t := all[t].(status := Done)];
      if k in tasks && tasks[k] == t {
        tasks := tasks - {k};
      }
      if k in pending {
        pending := pending - {k};
        if !cancelled {
          assert !Busy(View(), k);
          assert Inv(View());
          ScheduleRun(k);
        }
      }
    }
  }
}
