/**
 One controller-to-controller bridge: the call table, acceptance and delivery states, and
 teardown.  A frame is either delivered whole or its send raises; code between two awaits
 is one atomic step.
 */
module Bridge {
  import opened Options

  const MAX_CALLS: nat := 32

  type CallId = string
  type TaskId = nat

  datatype DeliveryState = NotSent | AcceptedUnknown | Conclusive

  /** Which handler of `run_call` produced an error frame. */
  datatype Source = RpcError | DeliveryError | ProtocolError | LocalError | CancelledAfterAcceptance

  datatype Terminal = ResultFrame | ResultEndFrame | ErrorFrame(source: Source, delivery: DeliveryState)

  datatype Phase =
    | Created                            // scheduled, first step not taken
    | Active                             // inside the try block
    | Reporting(report: Terminal)        // in a handler, sending its error frame
    | Ended

  datatype Task = Task(id: CallId, phase: Phase, accepted: bool, tool: bool, inference: bool,
                       cancelRequested: bool, detached: bool)

  datatype Sent =
    | Accepted(task: TaskId)
    | Progress(task: TaskId)             // event, result_start or result_chunk
    | Final(task: TaskId, terminal: Terminal)
    | OverCapacity(id: CallId)           // error frame for a call that is not started
    | Rejection                          // error frame of the bridge as a whole

  datatype State = State(
    calls: map<CallId, TaskId>,
    tasks: seq<Task>,
    log: seq<Sent>,
    looping: bool,
    cancelling: Option<TaskId>,          // the call whose cancel frame the loop is forwarding to the executor
    tearingDown: bool)

  datatype Step =
    | CallFrame(id: CallId, delivered: bool, rejected: bool)   // which error frames can be delivered
    | UnsupportedFrame(delivered: bool)
    | CancelFrame(id: CallId)
    | CancelResumes(ok: bool, delivered: bool)
    | Disconnect
    | Teardown
    | StartTask(task: TaskId)
    | Identify(task: TaskId, tool: bool)
    | OnSent(task: TaskId, delivered: bool)
    | SendProgress(task: TaskId)
    | Complete(task: TaskId, chunked: bool)
    | Fail(task: TaskId, source: Source, delivery: DeliveryState)
    | CancelArrives(task: TaskId)
    | ReportSent(task: TaskId)
    | ReportLost(task: TaskId)

  const Initial := State(map[], [], [], true, None, false)

  // ---------------------------------------------------------------------------
  // The steps
  // ---------------------------------------------------------------------------

  /** The steps of a call's own task; the others belong to the frame loop. */
  predicate IsTaskStep(step: Step) {
    && !step.CallFrame? && !step.UnsupportedFrame? && !step.CancelFrame? && !step.CancelResumes?
    && !step.Disconnect? && !step.Teardown?
  }

  predicate TaskEnabled(task: Task, step: Step)
    requires IsTaskStep(step)
  {
    match step
    case StartTask(_) => task.phase == Created
    case Fail(_, source, delivery) =>
      && task.phase == Active && source != CancelledAfterAcceptance
      && (source == RpcError || source == ProtocolError ==> delivery == Conclusive)
    case CancelArrives(_) => task.phase == Active && task.cancelRequested
    case ReportSent(_) => task.phase.Reporting?
    case ReportLost(_) => task.phase.Reporting?
    case _ => task.phase == Active
  }

  predicate Enabled(s: State, step: Step) {
    if IsTaskStep(step) then step.task < |s.tasks| && TaskEnabled(s.tasks[step.task], step)
    else if step.Teardown? then !s.looping && !s.tearingDown
    else if step.Disconnect? then s.looping
    else s.looping && (step.CancelResumes? <==> s.cancelling.Some?)
  }

  /** What a task step does to its task. */
  function After(task: Task, step: Step, tearingDown: bool): Task
    requires IsTaskStep(step) && TaskEnabled(task, step)
  {
    match step
    case StartTask(_) =>
      // A task cancelled before its first step never enters its try block.
      task.(phase := if task.cancelRequested then Ended else Active)
    case Identify(_, tool) => if tool then task.(tool := true) else task.(inference := true)
    case OnSent(_, _) => task.(accepted := true)
    case SendProgress(_) => task
    case Complete(_, _) => task.(phase := Ended)
    case Fail(_, source, delivery) =>
      var certainty := if source == LocalError then (if task.accepted then AcceptedUnknown else NotSent) else delivery;
      task.(phase := Reporting(ErrorFrame(source, certainty)))
    case CancelArrives(_) =>
      if task.accepted && !tearingDown
      then task.(phase := Reporting(ErrorFrame(CancelledAfterAcceptance, AcceptedUnknown)))
      else task.(phase := Ended)
    case ReportSent(_) => task.(phase := Ended)
    case ReportLost(_) => task.(phase := Ended)
  }

  /** What a task step puts on the wire. */
  function Emitted(task: Task, step: Step): seq<Sent>
    requires IsTaskStep(step) && TaskEnabled(task, step)
  {
    match step
    case OnSent(n, delivered) => if delivered then [Accepted(n)] else []
    case SendProgress(n) => [Progress(n)]
    case Complete(n, chunked) => [Final(n, if chunked then ResultEndFrame else ResultFrame)]
    case ReportSent(n) => [Final(n, task.phase.report)]
    case _ => []
  }

  /** The `finally` of `run_call` removes the entry by call id; an unstarted task has no `finally`. */
  function TaskStep(s: State, step: Step): State
    requires IsTaskStep(step) && Enabled(s, step)
  {
    var n := step.task;
    var task := s.tasks[n];
    var after := After(task, step, s.tearingDown);
    s.(tasks := s.tasks[n := after],
       calls := if after.phase == Ended && !step.StartTask? then s.calls - {task.id} else s.calls,
       log := s.log + Emitted(task, step))
  }

  /** A result was delivered. */
  lemma CompleteStep(s: State, n: TaskId, chunked: bool)
    requires n < |s.tasks| && s.tasks[n].phase == Active
    ensures TaskStep(s, Complete(n, chunked))
         == s.(tasks := s.tasks[n := s.tasks[n].(phase := Ended)],
               calls := s.calls - {s.tasks[n].id},
               log := s.log + [Final(n, if chunked then ResultEndFrame else ResultFrame)])
  {
  }

  function Log(s: State, sent: Sent): State {
    s.(log := s.log + [sent])
  }

  /** The frame loop raises: an error frame if it can be delivered, and the loop is left. */
  function Reject(s: State, delivered: bool): State {
    (if delivered then Log(s, Rejection) else s).(looping := false)
  }

  function RequestCancel(s: State, n: TaskId): State {
    if n < |s.tasks| && s.tasks[n].phase != Ended
    then s.(tasks := s.tasks[n := s.tasks[n].(cancelRequested := true)]) else s
  }

  function NewCall(id: CallId): Task {
    Task(id, Created, false, false, false, false, false)
  }

  /** Teardown's verdict on one task of the table. */
  function TornDown(task: Task): Task {
    if task.accepted && task.tool then task.(detached := true) else task.(cancelRequested := true)
  }

  function TearDownAll(tasks: seq<Task>, active: set<TaskId>): (after: seq<Task>)
    ensures |after| == |tasks|
    ensures forall n :: 0 <= n < |tasks| ==> after[n] == if n in active then TornDown(tasks[n]) else tasks[n]
  {
    if tasks == [] then []
    else
      var n := |tasks| - 1;
      TearDownAll(tasks[..n], active) + [if n in active then TornDown(tasks[n]) else tasks[n]]
  }

  function Next(s: State, step: Step): State
    requires Enabled(s, step)
  {
    if IsTaskStep(step) then TaskStep(s, step) else LoopStep(s, step)
  }

  /** What the frame loop does. */
  function LoopStep(s: State, step: Step): State
    requires !IsTaskStep(step) && Enabled(s, step)
  {
    match step
    case CallFrame(id, delivered, rejected) =>
      if id == "" || id in s.calls then Reject(s, rejected)
      else if |s.calls| >= MAX_CALLS then
        if delivered then Log(s, OverCapacity(id)) else Reject(s, rejected)
      else s.(tasks := s.tasks + [NewCall(id)], calls := s.calls[id := |s.tasks|])
    case UnsupportedFrame(delivered) => Reject(s, delivered)
    case CancelFrame(id) =>
      // A call known to the executor is cancelled there first; the loop waits for that.
      if id !in s.calls || s.calls[id] >= |s.tasks| then s
      else if s.tasks[s.calls[id]].tool || s.tasks[s.calls[id]].inference then s.(cancelling := Some(s.calls[id]))
      else RequestCancel(s, s.calls[id])
    case CancelResumes(ok, delivered) =>
      var resumed := s.(cancelling := None);
      if ok then RequestCancel(resumed, s.cancelling.value) else Reject(resumed, delivered)
    case Disconnect => s.(looping := false, cancelling := None)
    case Teardown => s.(tasks := TearDownAll(s.tasks, s.calls.Values), tearingDown := true)
  }

  /** What the frame loop can do to a task: request its cancellation, or detach it at teardown. */
  predicate Touched(before: Task, after: Task, step: Step) {
    && after == before.(cancelRequested := after.cancelRequested, detached := after.detached)
    && (step != Teardown ==> after.detached == before.detached)
  }

  lemma LoopStepTasks(s: State, step: Step)
    requires !IsTaskStep(step) && Enabled(s, step)
    ensures var s' := LoopStep(s, step);
            && |s.tasks| <= |s'.tasks| <= |s.tasks| + 1
            && (forall n :: 0 <= n < |s.tasks| ==> Touched(s.tasks[n], s'.tasks[n], step))
            && (|s'.tasks| > |s.tasks| ==> step.CallFrame? && s'.tasks[|s.tasks|] == NewCall(step.id))
            && (s.tearingDown || step == Teardown <==> s'.tearingDown)
  {
  }

  lemma LoopStepLog(s: State, step: Step)
    requires !IsTaskStep(step) && Enabled(s, step)
    ensures var log := LoopStep(s, step).log;
            log == s.log || log == s.log + [Rejection] || (step.CallFrame? && log == s.log + [OverCapacity(step.id)])
  {
  }

  // ---------------------------------------------------------------------------
  // The invariant
  // ---------------------------------------------------------------------------

  function FinalsOf(log: seq<Sent>, n: TaskId): nat {
    if log == [] then 0
    else FinalsOf(log[..|log| - 1], n)
         + (if log[|log| - 1].Final? && log[|log| - 1].task == n then 1 else 0)
  }

  ghost predicate TableOk(s: State) {
    && |s.calls| <= MAX_CALLS
    && (forall id :: id in s.calls ==> s.calls[id] < |s.tasks| && s.tasks[s.calls[id]].id == id)
    && (forall n: TaskId :: n < |s.tasks| && s.tasks[n].phase != Ended ==>
          s.tasks[n].id in s.calls && s.calls[s.tasks[n].id] == n)
  }

  /** At most one terminal frame, and none before the call has ended. */
  ghost predicate FinalsOkOf(s: State, n: TaskId) {
    && FinalsOf(s.log, n) <= 1
    && (n >= |s.tasks| || s.tasks[n].phase != Ended ==> FinalsOf(s.log, n) == 0)
  }

  ghost predicate FinalsOk(s: State) {
    forall n: TaskId :: FinalsOkOf(s, n)
  }

  /** A report of the bridge itself tells the truth about acceptance. */
  predicate Honest(terminal: Terminal, accepted: bool) {
    terminal.ErrorFrame? && (terminal.source == LocalError || terminal.source == CancelledAfterAcceptance) ==>
      terminal.delivery == if accepted then AcceptedUnknown else NotSent
  }

  ghost predicate HonestEntry(tasks: seq<Task>, sent: Sent) {
    sent.Final? ==> sent.task < |tasks| && tasks[sent.task].phase == Ended
                    && Honest(sent.terminal, tasks[sent.task].accepted)
  }

  ghost predicate HonestOk(s: State) {
    && (forall n: TaskId :: n < |s.tasks| && s.tasks[n].phase.Reporting? ==>
          Honest(s.tasks[n].phase.report, s.tasks[n].accepted))
    && (forall i :: 0 <= i < |s.log| ==> HonestEntry(s.tasks, s.log[i]))
  }

  ghost predicate Inv(s: State) {
    TableOk(s) && FinalsOk(s) && HonestOk(s) && (s.tearingDown ==> !s.looping)
  }

  /** Tasks keep their ids and never come back to life. */
  ghost predicate Evolves(before: seq<Task>, after: seq<Task>) {
    && |before| == |after|
    && forall n :: 0 <= n < |before| ==>
         after[n].id == before[n].id && (after[n].phase != Ended ==> before[n].phase != Ended)
  }

  lemma TableEvolves(s: State, tasks: seq<Task>)
    requires TableOk(s) && Evolves(s.tasks, tasks)
    ensures TableOk(s.(tasks := tasks))
  {
  }

  lemma TableRemove(s: State, tasks: seq<Task>, n: TaskId)
    requires TableOk(s) && Evolves(s.tasks, tasks)
    requires n < |tasks| && s.tasks[n].phase != Ended && tasks[n].phase == Ended
    ensures TableOk(s.(tasks := tasks, calls := s.calls - {s.tasks[n].id}))
  {
    var id := s.tasks[n].id;
    assert (s.calls - {id}).Keys == s.calls.Keys - {id};
    assert |s.calls.Keys - {id}| <= |s.calls.Keys|;
  }

  lemma TableInsert(s: State, id: CallId)
    requires TableOk(s) && id !in s.calls && |s.calls| < MAX_CALLS
    ensures TableOk(s.(tasks := s.tasks + [NewCall(id)], calls := s.calls[id := |s.tasks|]))
  {
    var calls, tasks := s.calls[id := |s.tasks|], s.tasks + [NewCall(id)];
    assert |calls| <= MAX_CALLS by {
      assert calls.Keys == s.calls.Keys + {id};
      assert |calls.Keys| == |s.calls.Keys| + 1;
    }
    forall n: TaskId | n < |tasks| && tasks[n].phase != Ended ensures tasks[n].id in calls && calls[tasks[n].id] == n {
      if n < |s.tasks| {
        assert tasks[n] == s.tasks[n] && tasks[n].id != id;
      }
    }
    assert forall other :: other in s.calls ==> tasks[calls[other]] == s.tasks[s.calls[other]];
  }

  lemma TableTaskStep(s: State, step: Step)
    requires TableOk(s) && IsTaskStep(step) && Enabled(s, step)
    ensures TableOk(TaskStep(s, step))
  {
    var n := step.task;
    var after := After(s.tasks[n], step, s.tearingDown);
    assert after.id == s.tasks[n].id && s.tasks[n].phase != Ended;
    var tasks := s.tasks[n := after];
    if after.phase == Ended && !step.StartTask? {
      TableRemove(s, tasks, n);
    } else {
      TableEvolves(s, tasks);
    }
  }

  lemma LoopStepEvolves(s: State, step: Step)
    requires !IsTaskStep(step) && Enabled(s, step)
    requires step.CallFrame? ==> step.id == "" || step.id in s.calls || |s.calls| >= MAX_CALLS
    ensures Evolves(s.tasks, LoopStep(s, step).tasks) && LoopStep(s, step).calls == s.calls
  {
    LoopStepTasks(s, step);
  }

  lemma TablePreserved(s: State, step: Step)
    requires TableOk(s) && Enabled(s, step)
    ensures TableOk(Next(s, step))
  {
    if IsTaskStep(step) {
      TableTaskStep(s, step);
    } else if step.CallFrame? && step.id != "" && step.id !in s.calls && |s.calls| < MAX_CALLS {
      TableInsert(s, step.id);
    } else {
      LoopStepEvolves(s, step);
      TableEvolves(s, Next(s, step).tasks);
    }
  }

  lemma FinalsSnoc(log: seq<Sent>, sent: Sent, n: TaskId)
    ensures FinalsOf(log + [sent], n) == FinalsOf(log, n) + (if sent.Final? && sent.task == n then 1 else 0)
  {
    assert (log + [sent])[..|log|] == log;
  }

  /** A terminal frame is sent exactly when its task leaves its last live phase. */
  lemma EmittedFinals(task: Task, step: Step, tearingDown: bool, log: seq<Sent>, n: TaskId)
    requires IsTaskStep(step) && TaskEnabled(task, step)
    ensures FinalsOf(log + Emitted(task, step), n) <= FinalsOf(log, n) + 1
    ensures n != step.task || After(task, step, tearingDown).phase != Ended
            ==> FinalsOf(log + Emitted(task, step), n) == FinalsOf(log, n)
  {
    var emitted := Emitted(task, step);
    if emitted == [] {
      assert log + emitted == log;
    } else {
      FinalsSnoc(log, emitted[0], n);
    }
  }

  lemma FinalsLoopStep(s: State, step: Step, n: TaskId)
    requires FinalsOkOf(s, n) && !IsTaskStep(step) && Enabled(s, step)
    ensures FinalsOkOf(LoopStep(s, step), n)
  {
    LoopStepTasks(s, step);
    LoopStepLog(s, step);
    FinalsSnoc(s.log, Rejection, n);
    if step.CallFrame? {
      FinalsSnoc(s.log, OverCapacity(step.id), n);
    }
  }

  lemma FinalsStep(s: State, step: Step, n: TaskId)
    requires FinalsOkOf(s, n) && Enabled(s, step)
    ensures FinalsOkOf(Next(s, step), n)
  {
    if IsTaskStep(step) {
      EmittedFinals(s.tasks[step.task], step, s.tearingDown, s.log, n);
    } else {
      FinalsLoopStep(s, step, n);
    }
  }

  lemma FinalsPreserved(s: State, step: Step)
    requires FinalsOk(s) && Enabled(s, step)
    ensures FinalsOk(Next(s, step))
  {
    forall n: TaskId ensures FinalsOkOf(Next(s, step), n) {
      assert FinalsOkOf(s, n);
      FinalsStep(s, step, n);
    }
  }

  /** Acceptance is frozen once a task reports or has ended. */
  lemma HonestTask(task: Task, step: Step, tearingDown: bool)
    requires IsTaskStep(step) && TaskEnabled(task, step)
    requires task.phase.Reporting? ==> Honest(task.phase.report, task.accepted)
    ensures var after := After(task, step, tearingDown);
            && (after.phase.Reporting? ==> Honest(after.phase.report, after.accepted))
            && (forall i :: 0 <= i < |Emitted(task, step)| && Emitted(task, step)[i].Final? ==>
                  Emitted(task, step)[i].task == step.task && after.phase == Ended
                  && Honest(Emitted(task, step)[i].terminal, after.accepted))
  {
  }

  lemma HonestTaskStep(s: State, step: Step)
    requires HonestOk(s) && IsTaskStep(step) && Enabled(s, step)
    ensures HonestOk(TaskStep(s, step))
  {
    var s' := TaskStep(s, step);
    var emitted := Emitted(s.tasks[step.task], step);
    HonestTask(s.tasks[step.task], step, s.tearingDown);
    forall i | 0 <= i < |s'.log| ensures HonestEntry(s'.tasks, s'.log[i]) {
      if i < |s.log| {
        assert s'.log[i] == s.log[i] && HonestEntry(s.tasks, s.log[i]);
      } else {
        assert s'.log[i] == emitted[i - |s.log|];
      }
    }
  }

  /** The frame loop logs no terminal frame of a call and never touches acceptance or a report. */
  lemma HonestLoopStep(s: State, step: Step)
    requires HonestOk(s) && !IsTaskStep(step) && Enabled(s, step)
    ensures HonestOk(LoopStep(s, step))
  {
    var s' := LoopStep(s, step);
    LoopStepTasks(s, step);
    LoopStepLog(s, step);
    assert forall n :: 0 <= n < |s.tasks| ==> Touched(s.tasks[n], s'.tasks[n], step);
    forall i | 0 <= i < |s'.log| ensures HonestEntry(s'.tasks, s'.log[i]) {
      if i < |s.log| {
        assert s'.log[i] == s.log[i] && HonestEntry(s.tasks, s.log[i]);
      }
    }
  }

  lemma HonestPreserved(s: State, step: Step)
    requires HonestOk(s) && Enabled(s, step)
    ensures HonestOk(Next(s, step))
  {
    if IsTaskStep(step) {
      HonestTaskStep(s, step);
    } else {
      HonestLoopStep(s, step);
    }
  }

  lemma StepKeepsInv(s: State, step: Step)
    requires Inv(s) && Enabled(s, step)
    ensures Inv(Next(s, step))
  {
    TablePreserved(s, step);
    FinalsPreserved(s, step);
    HonestPreserved(s, step);
  }

  // ---------------------------------------------------------------------------
  // Theorems over every run
  // ---------------------------------------------------------------------------

  ghost predicate StepTo(s: State, step: Step, s': State) {
    Enabled(s, step) && s' == Next(s, step)
  }

  ghost predicate StepAt(states: seq<State>, steps: seq<Step>, i: nat)
    requires |states| == |steps| + 1 && i < |steps|
  {
    StepTo(states[i], steps[i], states[i + 1])
  }

  ghost predicate IsRun(states: seq<State>, steps: seq<Step>) {
    && |states| == |steps| + 1
    && states[0] == Initial
    && forall i :: 0 <= i < |steps| ==> StepAt(states, steps, i)
  }

  lemma {:induction false} RunKeepsInv(states: seq<State>, steps: seq<Step>, i: nat)
    requires IsRun(states, steps) && i < |states|
    ensures Inv(states[i])
  {
    if i > 0 {
      RunKeepsInv(states, steps, i - 1);
      assert StepAt(states, steps, i - 1);
      StepKeepsInv(states[i - 1], steps[i - 1]);
    }
  }

  /** Live calls have different ids, there are never more than `MAX_CALLS`, each ends with at most one terminal frame. */
  lemma CallTableSafety(states: seq<State>, steps: seq<Step>, i: nat)
    requires IsRun(states, steps) && i < |states|
    ensures var s := states[i];
            && |s.calls| <= MAX_CALLS
            && (forall a: TaskId, b: TaskId ::
                  (a < |s.tasks| && b < |s.tasks| && s.tasks[a].phase != Ended && s.tasks[b].phase != Ended
                   && s.tasks[a].id == s.tasks[b].id) ==> a == b)
            && (forall n: TaskId :: FinalsOf(s.log, n) <= 1)
  {
    RunKeepsInv(states, steps, i);
    forall n: TaskId ensures FinalsOf(states[i].log, n) <= 1 {
      assert FinalsOkOf(states[i], n);
    }
  }

  ghost predicate Fired(steps: seq<Step>, n: TaskId) {
    exists i :: 0 <= i < |steps| && steps[i].OnSent? && steps[i].task == n
  }

  /** The flag of a call records exactly whether `on_sent` fired for it. */
  lemma {:induction false} AcceptedIffFired(states: seq<State>, steps: seq<Step>, i: nat, n: TaskId)
    requires IsRun(states, steps) && i < |states|
    ensures n < |states[i].tasks| ==> (states[i].tasks[n].accepted <==> Fired(steps[..i], n))
    ensures n >= |states[i].tasks| ==> !Fired(steps[..i], n)
  {
    if i > 0 {
      AcceptedIffFired(states, steps, i - 1, n);
      assert StepAt(states, steps, i - 1);
      assert steps[..i] == steps[..i - 1] + [steps[i - 1]];
      FiredSnoc(steps[..i - 1], steps[i - 1], n);
      AcceptanceStep(states[i - 1], steps[i - 1], n);
    }
  }

  /** Only `on_sent` changes the flag, and it is never reset. */
  lemma AcceptanceStep(s: State, step: Step, n: TaskId)
    requires Enabled(s, step)
    ensures var s' := Next(s, step);
            && |s.tasks| <= |s'.tasks|
            && (n < |s.tasks| ==> (s'.tasks[n].accepted <==> s.tasks[n].accepted || (step.OnSent? && step.task == n)))
            && (|s.tasks| <= n < |s'.tasks| ==> !s'.tasks[n].accepted)
  {
    if !IsTaskStep(step) {
      LoopStepTasks(s, step);
      assert n < |s.tasks| ==> Touched(s.tasks[n], LoopStep(s, step).tasks[n], step);
    }
  }

  /** Once the frame loop is over and teardown done, no step requests a cancellation. */
  lemma QuietAfterTeardown(s: State, step: Step, s': State, n: TaskId)
    requires StepTo(s, step, s') && s.tearingDown && !s.looping && n < |s.tasks|
    ensures s'.tearingDown && n < |s'.tasks| && s'.tasks[n].cancelRequested == s.tasks[n].cancelRequested
  {
  }

  lemma FiredSnoc(steps: seq<Step>, step: Step, n: TaskId)
    ensures Fired(steps + [step], n) <==> Fired(steps, n) || (step.OnSent? && step.task == n)
  {
    var all := steps + [step];
    if Fired(steps, n) {
      var i :| 0 <= i < |steps| && steps[i].OnSent? && steps[i].task == n;
      assert all[i] == steps[i];
    }
    if step.OnSent? && step.task == n {
      assert all[|steps|] == step;
    }
  }

  /** `not_sent` only if `on_sent` never fired, `accepted_unknown` only if it did. */
  lemma DeliveryHonesty(states: seq<State>, steps: seq<Step>, i: nat, k: nat)
    requires IsRun(states, steps) && i < |states| && k < |states[i].log|
    requires var sent := states[i].log[k];
             sent.Final? && sent.terminal.ErrorFrame? && sent.terminal.source in {LocalError, CancelledAfterAcceptance}
    ensures var sent := states[i].log[k];
            && (sent.terminal.delivery == NotSent <==> !Fired(steps[..i], sent.task))
            && (sent.terminal.delivery == AcceptedUnknown <==> Fired(steps[..i], sent.task))
  {
    RunKeepsInv(states, steps, i);
    assert HonestEntry(states[i].tasks, states[i].log[k]);
    AcceptedIffFired(states, steps, i, states[i].log[k].task);
  }

  /** Every live call is in the table that teardown looks at, so none is missed. */
  lemma TeardownIsComplete(states: seq<State>, steps: seq<Step>, i: nat, n: TaskId)
    requires IsRun(states, steps) && i < |steps| && steps[i] == Teardown
    requires n < |states[i].tasks| && states[i].tasks[n].phase != Ended
    ensures n in states[i].calls.Values
  {
    RunKeepsInv(states, steps, i);
    assert states[i].tasks[n].id in states[i].calls;
  }

  lemma LoopIsOver(states: seq<State>, steps: seq<Step>, i: nat)
    requires IsRun(states, steps) && i < |states| && states[i].tearingDown
    ensures !states[i].looping
  {
    RunKeepsInv(states, steps, i);
  }

  /** The call was recognised as a tool call. */
  ghost predicate Identified(steps: seq<Step>, n: TaskId) {
    exists i :: 0 <= i < |steps| && steps[i] == Identify(n, true)
  }

  lemma IdentifiedSnoc(steps: seq<Step>, step: Step, n: TaskId)
    ensures Identified(steps + [step], n) <==> Identified(steps, n) || step == Identify(n, true)
  {
    var all := steps + [step];
    if Identified(steps, n) {
      var i :| 0 <= i < |steps| && steps[i] == Identify(n, true);
      assert all[i] == steps[i];
    }
    if step == Identify(n, true) {
      assert all[|steps|] == step;
    }
  }

  /** Only `Identify` makes a tool call of a task, and only teardown detaches one. */
  lemma ToolStep(s: State, step: Step, n: TaskId)
    requires Enabled(s, step)
    ensures var s' := Next(s, step);
            && |s.tasks| <= |s'.tasks|
            && (n < |s.tasks| ==> (s'.tasks[n].tool <==> s.tasks[n].tool || step == Identify(n, true))
                                  && (step != Teardown ==> s'.tasks[n].detached == s.tasks[n].detached))
            && (|s.tasks| <= n < |s'.tasks| ==> !s'.tasks[n].tool && !s'.tasks[n].detached)
            && (s.tearingDown || step == Teardown ==> s'.tearingDown)
  {
    if !IsTaskStep(step) {
      LoopStepTasks(s, step);
      assert n < |s.tasks| ==> Touched(s.tasks[n], LoopStep(s, step).tasks[n], step);
    }
  }

  lemma {:induction false} ToolIffIdentified(states: seq<State>, steps: seq<Step>, i: nat, n: TaskId)
    requires IsRun(states, steps) && i < |states|
    ensures n < |states[i].tasks| ==> (states[i].tasks[n].tool <==> Identified(steps[..i], n))
    ensures n < |states[i].tasks| && !states[i].tearingDown ==> !states[i].tasks[n].detached
    ensures n >= |states[i].tasks| ==> !Identified(steps[..i], n)
  {
    if i > 0 {
      ToolIffIdentified(states, steps, i - 1, n);
      assert StepAt(states, steps, i - 1);
      assert steps[..i] == steps[..i - 1] + [steps[i - 1]];
      IdentifiedSnoc(steps[..i - 1], steps[i - 1], n);
      ToolStep(states[i - 1], steps[i - 1], n);
    }
  }

  /** From state `i` on nothing changes whether the cancellation of the call is requested. */
  ghost predicate NoMoreCancels(states: seq<State>, i: nat, n: TaskId) {
    forall j :: i < j < |states| ==>
      n < |states[i].tasks| && n < |states[j].tasks| && states[j].tasks[n].cancelRequested == states[i].tasks[n].cancelRequested
  }

  lemma QuietStep(states: seq<State>, steps: seq<Step>, j: nat, n: TaskId)
    requires IsRun(states, steps) && j < |steps| && states[j].tearingDown && n < |states[j].tasks|
    ensures states[j + 1].tearingDown && n < |states[j + 1].tasks|
    ensures states[j + 1].tasks[n].cancelRequested == states[j].tasks[n].cancelRequested
  {
    LoopIsOver(states, steps, j);
    assert StepAt(states, steps, j);
    QuietAfterTeardown(states[j], steps[j], states[j + 1], n);
  }

  lemma {:induction false} CancelsFrozen(states: seq<State>, steps: seq<Step>, i: nat, j: nat, n: TaskId)
    requires IsRun(states, steps) && i <= j < |states| && states[i].tearingDown && n < |states[i].tasks|
    ensures states[j].tearingDown && n < |states[j].tasks|
    ensures states[j].tasks[n].cancelRequested == states[i].tasks[n].cancelRequested
  {
    if i < j {
      CancelsFrozen(states, steps, i, j - 1, n);
      QuietStep(states, steps, j - 1, n);
    }
  }

  /**
   Teardown, over every run.  A call that has not ended is detached exactly when `on_sent` fired
   for it and it was recognised as a tool call; then neither teardown nor any later step requests
   its cancellation.  Every other call that has not ended is cancel-requested.
   */
  lemma TeardownSplits(states: seq<State>, steps: seq<Step>, i: nat, n: TaskId)
    requires IsRun(states, steps) && i < |steps| && steps[i] == Teardown
    requires n < |states[i].tasks| && states[i].tasks[n].phase != Ended
    ensures n < |states[i + 1].tasks|
    ensures states[i + 1].tasks[n].detached <==> Fired(steps[..i], n) && Identified(steps[..i], n)
    ensures states[i + 1].tasks[n].detached ==> NoMoreCancels(states, i, n)
    ensures !states[i + 1].tasks[n].detached ==> states[i + 1].tasks[n].cancelRequested
  {
    RunKeepsInv(states, steps, i);
    assert StepAt(states, steps, i);
    TeardownIsComplete(states, steps, i, n);
    AcceptedIffFired(states, steps, i, n);
    ToolIffIdentified(states, steps, i, n);
    assert states[i + 1].tasks[n] == TornDown(states[i].tasks[n]);
    if states[i + 1].tasks[n].detached {
      forall j | i < j < |states|
        ensures n < |states[j].tasks| && states[j].tasks[n].cancelRequested == states[i].tasks[n].cancelRequested
      {
        CancelsFrozen(states, steps, i + 1, j, n);
      }
    }
  }

  // ---------------------------------------------------------------------------
  // What each frame obliges the bridge to do
  // ---------------------------------------------------------------------------

  /** The step requests the cancellation of task `n`: a cancel frame for it, at once or after it was forwarded to the executor. */
  predicate RequestsCancel(s: State, step: Step, n: TaskId) {
    && n < |s.tasks| && s.tasks[n].phase != Ended
    && (|| (step.CancelFrame? && step.id in s.calls && s.calls[step.id] == n && !s.tasks[n].tool && !s.tasks[n].inference)
        || (step.CancelResumes? && step.ok && s.cancelling == Some(n)))
  }

  lemma CancelLoopStep(s: State, step: Step, n: TaskId)
    requires !IsTaskStep(step) && Enabled(s, step) && step != Teardown && n < |s.tasks|
    ensures n < |LoopStep(s, step).tasks|
    ensures LoopStep(s, step).tasks[n].cancelRequested <==> s.tasks[n].cancelRequested || RequestsCancel(s, step, n)
  {
  }

  lemma CancelStep(s: State, step: Step, n: TaskId)
    requires Enabled(s, step) && step != Teardown && n < |Next(s, step).tasks|
    ensures n < |s.tasks| ==>
              (Next(s, step).tasks[n].cancelRequested <==> s.tasks[n].cancelRequested || RequestsCancel(s, step, n))
    ensures n >= |s.tasks| ==> !Next(s, step).tasks[n].cancelRequested
  {
    if !IsTaskStep(step) {
      LoopStepTasks(s, step);
      if n < |s.tasks| {
        CancelLoopStep(s, step, n);
      }
    }
  }

  ghost predicate CancelAsked(states: seq<State>, steps: seq<Step>, i: nat, n: TaskId)
    requires |states| == |steps| + 1 && i <= |steps|
  {
    exists m :: 0 <= m < i && RequestsCancel(states[m], steps[m], n)
  }

  lemma TearingDownStays(s: State, step: Step)
    requires Enabled(s, step)
    ensures s.tearingDown || step == Teardown <==> Next(s, step).tearingDown
  {
    if !IsTaskStep(step) {
      LoopStepTasks(s, step);
    }
  }

  /** Before teardown the cancellation of a task is requested exactly if a cancel frame for it took effect. */
  lemma {:induction false} CancelRequestedIff(states: seq<State>, steps: seq<Step>, i: nat, n: TaskId)
    requires IsRun(states, steps) && i < |states| && !states[i].tearingDown && n < |states[i].tasks|
    ensures states[i].tasks[n].cancelRequested <==> CancelAsked(states, steps, i, n)
  {
    if i > 0 {
      var s, step := states[i - 1], steps[i - 1];
      assert StepAt(states, steps, i - 1);
      TearingDownStays(s, step);
      CancelStep(s, step, n);
      if n < |s.tasks| {
        CancelRequestedIff(states, steps, i - 1, n);
        if CancelAsked(states, steps, i, n) && !CancelAsked(states, steps, i - 1, n) {
          assert RequestsCancel(s, step, n);
        }
      } else {
        NotAskedYet(states, steps, i, n);
      }
    }
  }

  lemma {:induction false} TasksGrow(states: seq<State>, steps: seq<Step>, m: nat, i: nat)
    requires IsRun(states, steps) && m <= i < |states|
    ensures |states[m].tasks| <= |states[i].tasks|
    decreases i
  {
    if m < i {
      TasksGrow(states, steps, m, i - 1);
      assert StepAt(states, steps, i - 1);
      AcceptanceStep(states[i - 1], steps[i - 1], 0);
    }
  }

  lemma NotAskedYet(states: seq<State>, steps: seq<Step>, i: nat, n: TaskId)
    requires IsRun(states, steps) && 0 < i < |states| && n >= |states[i - 1].tasks|
    ensures !CancelAsked(states, steps, i, n)
  {
    forall m | 0 <= m < i ensures !RequestsCancel(states[m], steps[m], n) {
      TasksGrow(states, steps, m, i - 1);
    }
  }

  /**
   A cancel frame on a live call takes effect: it is requested at once if the executor does not
   know the call; otherwise the loop captures the call and waits.  No other task is touched.
   */
  lemma CancelFrameTakesEffect(states: seq<State>, steps: seq<Step>, i: nat, id: CallId)
    requires IsRun(states, steps) && i < |steps| && steps[i] == CancelFrame(id) && id in states[i].calls
    ensures states[i].calls[id] < |states[i].tasks| == |states[i + 1].tasks|
    ensures var n, s, s' := states[i].calls[id], states[i], states[i + 1];
            && (s.tasks[n].tool || s.tasks[n].inference ==> s'.cancelling == Some(n) && s'.tasks == s.tasks)
            && (!s.tasks[n].tool && !s.tasks[n].inference ==>
                  && s'.cancelling == None && (s'.tasks[n].cancelRequested || s'.tasks[n].phase == Ended)
                  && forall other: TaskId :: other < |s.tasks| && other != n ==> s'.tasks[other] == s.tasks[other])
  {
    RunKeepsInv(states, steps, i);
    assert StepAt(states, steps, i);
  }

  /** When the forwarded cancellation came through, the captured call is cancel-requested unless it ended, and no other is touched. */
  lemma ForwardedCancelTakesEffect(states: seq<State>, steps: seq<Step>, i: nat, n: TaskId)
    requires IsRun(states, steps) && i < |steps| && steps[i].CancelResumes? && steps[i].ok
    requires states[i].cancelling == Some(n) && n < |states[i].tasks|
    ensures var s, s' := states[i], states[i + 1];
            && |s'.tasks| == |s.tasks| && s'.cancelling == None && s'.looping
            && (s'.tasks[n].cancelRequested || s'.tasks[n].phase == Ended)
            && forall other: TaskId :: other < |s.tasks| && other != n ==> s'.tasks[other] == s.tasks[other]
  {
    assert StepAt(states, steps, i);
  }

  /** The loop waits only for a call that a cancel frame named, and handles no other frame meanwhile. */
  lemma {:induction false} CapturedByFrame(states: seq<State>, steps: seq<Step>, i: nat) returns (m: nat)
    requires IsRun(states, steps) && i < |states| && states[i].cancelling.Some?
    ensures m < i && steps[m].CancelFrame? && steps[m].id in states[m].calls
    ensures states[m].calls[steps[m].id] == states[i].cancelling.value
    ensures states[i].looping && forall k :: m < k < i ==> IsTaskStep(steps[k])
  {
    assert StepAt(states, steps, i - 1);
    if IsTaskStep(steps[i - 1]) || steps[i - 1] == Teardown {
      m := CapturedByFrame(states, steps, i - 1);
    } else {
      CapturingStep(states[i - 1], steps[i - 1]);
      m := i - 1;
    }
  }

  lemma CapturingStep(s: State, step: Step)
    requires !IsTaskStep(step) && Enabled(s, step) && LoopStep(s, step).cancelling.Some? && step != Teardown
    ensures step.CancelFrame? && step.id in s.calls && s.calls[step.id] == LoopStep(s, step).cancelling.value
    ensures LoopStep(s, step).looping
  {
  }

  /** A call frame with a fresh id and room in the table starts a call; no other frame does. */
  lemma CallFrameStarts(states: seq<State>, steps: seq<Step>, i: nat)
    requires IsRun(states, steps) && i < |steps|
    ensures var s, s', step := states[i], states[i + 1], steps[i];
            if step.CallFrame? && step.id != "" && step.id !in s.calls && |s.calls| < MAX_CALLS
            then s'.tasks == s.tasks + [NewCall(step.id)] && s'.calls == s.calls[step.id := |s.tasks|] && s'.log == s.log
            else |s'.tasks| == |s.tasks|
  {
    assert StepAt(states, steps, i);
  }

  /** The loop is left exactly by a disconnect or by a frame that cannot be handled. */
  predicate LeavesLoop(s: State, step: Step) {
    || step.Disconnect? || step.UnsupportedFrame? || (step.CancelResumes? && !step.ok)
    || (step.CallFrame? && (step.id == "" || step.id in s.calls || (|s.calls| >= MAX_CALLS && !step.delivered)))
  }

  lemma LoopLeftIff(states: seq<State>, steps: seq<Step>, i: nat)
    requires IsRun(states, steps) && i < |steps|
    ensures states[i + 1].looping <==> states[i].looping && !LeavesLoop(states[i], steps[i])
  {
    assert StepAt(states, steps, i);
  }

  // What reaches the wire

  /** Steps that put the terminal frame of a call on the wire. */
  predicate Answers(step: Step, n: TaskId) {
    (step.Complete? || step.ReportSent?) && step.task == n
  }

  function AnswerCount(steps: seq<Step>, n: TaskId): nat {
    if steps == [] then 0
    else AnswerCount(steps[..|steps| - 1], n) + if Answers(steps[|steps| - 1], n) then 1 else 0
  }

  lemma FinalsByStep(s: State, step: Step, n: TaskId)
    requires Enabled(s, step)
    ensures FinalsOf(Next(s, step).log, n) == FinalsOf(s.log, n) + if Answers(step, n) then 1 else 0
  {
    if IsTaskStep(step) {
      var emitted := Emitted(s.tasks[step.task], step);
      if emitted == [] {
        assert s.log + emitted == s.log;
      } else {
        FinalsSnoc(s.log, emitted[0], n);
        assert s.log + emitted == s.log + [emitted[0]];
      }
    } else {
      LoopStepLog(s, step);
      FinalsSnoc(s.log, Rejection, n);
      if step.CallFrame? {
        FinalsSnoc(s.log, OverCapacity(step.id), n);
      }
    }
  }

  /** A call's terminal frame is on the wire exactly if its task completed or sent its report: once then, never otherwise. */
  lemma {:induction false} TerminalFrameIff(states: seq<State>, steps: seq<Step>, i: nat, n: TaskId)
    requires IsRun(states, steps) && i < |states|
    ensures FinalsOf(states[i].log, n) == AnswerCount(steps[..i], n)
  {
    if i > 0 {
      TerminalFrameIff(states, steps, i - 1, n);
      assert StepAt(states, steps, i - 1);
      assert steps[..i][..i - 1] == steps[..i - 1];
      FinalsByStep(states[i - 1], steps[i - 1], n);
    }
  }

  /** What the table may hold besides live calls: a call cancelled before its task took its first step. */
  ghost predicate TableExact(s: State, unstarted: set<TaskId>) {
    forall id :: id in s.calls && s.calls[id] < |s.tasks| && s.tasks[s.calls[id]].phase == Ended ==> s.calls[id] in unstarted
  }

  /** The tasks of the run that ended in their very first step. */
  ghost function Unstarted(states: seq<State>, steps: seq<Step>, i: nat): set<TaskId>
    requires |states| == |steps| + 1 && i <= |steps|
  {
    if i == 0 then {}
    else Unstarted(states, steps, i - 1) + if EndsUnstarted(states[i - 1], steps[i - 1]) then {steps[i - 1].task} else {}
  }

  predicate EndsUnstarted(s: State, step: Step) {
    step.StartTask? && step.task < |s.tasks| && s.tasks[step.task].cancelRequested
  }

  lemma TableExactStep(s: State, step: Step, unstarted: set<TaskId>)
    requires TableOk(s) && Enabled(s, step) && TableExact(s, unstarted)
    ensures TableExact(Next(s, step), unstarted + if EndsUnstarted(s, step) then {step.task} else {})
  {
    if !IsTaskStep(step) {
      LoopStepTasks(s, step);
      TableExactLoopStep(s, step, unstarted);
    }
  }

  lemma TableExactLoopStep(s: State, step: Step, unstarted: set<TaskId>)
    requires TableOk(s) && !IsTaskStep(step) && Enabled(s, step) && TableExact(s, unstarted)
    ensures TableExact(LoopStep(s, step), unstarted)
  {
    var s' := LoopStep(s, step);
    LoopStepTasks(s, step);
    CallsOfLoopStep(s, step);
    forall id | id in s'.calls && s'.calls[id] < |s'.tasks| && s'.tasks[s'.calls[id]].phase == Ended ensures s'.calls[id] in unstarted {
      if id in s.calls && s'.calls[id] == s.calls[id] {
        assert Touched(s.tasks[s.calls[id]], s'.tasks[s.calls[id]], step);
      }
    }
  }

  lemma CallsOfLoopStep(s: State, step: Step)
    requires !IsTaskStep(step) && Enabled(s, step)
    ensures var s' := LoopStep(s, step);
            s'.calls == s.calls || (step.CallFrame? && step.id !in s.calls && s'.calls == s.calls[step.id := |s.tasks|]
                                    && |s'.tasks| == |s.tasks| + 1 && s'.tasks[|s.tasks|] == NewCall(step.id))
  {
  }

  lemma TableExactAt(states: seq<State>, steps: seq<Step>, i: nat)
    requires IsRun(states, steps) && i < |steps| && TableExact(states[i], Unstarted(states, steps, i))
    ensures TableExact(states[i + 1], Unstarted(states, steps, i + 1))
  {
    RunKeepsInv(states, steps, i);
    assert StepAt(states, steps, i);
    TableExactStep(states[i], steps[i], Unstarted(states, steps, i));
  }

  /** In every reachable state the table holds only live calls, but for calls that were cancelled before they started. */
  lemma {:induction false} TableHoldsLiveCalls(states: seq<State>, steps: seq<Step>, i: nat)
    requires IsRun(states, steps) && i < |states|
    ensures TableExact(states[i], Unstarted(states, steps, i))
  {
    if i > 0 {
      TableHoldsLiveCalls(states, steps, i - 1);
      TableExactAt(states, steps, i - 1);
    }
  }

  /** A cancellation that arrives at an accepted call is reported, unless the bridge is going down; at any other call it ends it. */
  lemma ArrivedCancelIsReported(states: seq<State>, steps: seq<Step>, i: nat, n: TaskId)
    requires IsRun(states, steps) && i < |steps| && steps[i] == CancelArrives(n)
    ensures n < |states[i].tasks| == |states[i + 1].tasks|
    ensures var after := states[i + 1].tasks[n];
            if Fired(steps[..i], n) && !states[i].tearingDown
            then after.phase == Reporting(ErrorFrame(CancelledAfterAcceptance, AcceptedUnknown))
            else after.phase == Ended && after.id !in states[i + 1].calls
  {
    assert StepAt(states, steps, i);
    AcceptedIffFired(states, steps, i, n);
  }

  /** How the steps of a call's own task move it on, and what they announce. */
  lemma TaskMovesOn(states: seq<State>, steps: seq<Step>, i: nat, n: TaskId)
    requires IsRun(states, steps) && i < |steps| && IsTaskStep(steps[i]) && steps[i].task == n
    ensures n < |states[i].tasks| == |states[i + 1].tasks|
    ensures var before, after, step := states[i].tasks[n], states[i + 1].tasks[n], steps[i];
            && (step.StartTask? ==> after.phase == if before.cancelRequested then Ended else Active)
            && (step.Complete? || step.ReportSent? || step.ReportLost? ==> after.phase == Ended)
            && (step.Fail? && step.source != LocalError ==> after.phase == Reporting(ErrorFrame(step.source, step.delivery)))
            && (step.Fail? && step.source == LocalError ==>
                  after.phase == Reporting(ErrorFrame(LocalError, if Fired(steps[..i], n) then AcceptedUnknown else NotSent)))
            && (step.Identify? && !step.tool ==> after.inference)
            && (step.OnSent? && step.delivered ==> states[i + 1].log == states[i].log + [Accepted(n)])
            && (step.SendProgress? ==> states[i + 1].log == states[i].log + [Progress(n)])
  {
    assert StepAt(states, steps, i);
    AcceptedIffFired(states, steps, i, n);
  }

  /** What the frame loop itself says: a refusal for lack of room, one error frame when it is left by an exception, nothing else. */
  lemma LoopSays(states: seq<State>, steps: seq<Step>, i: nat)
    requires IsRun(states, steps) && i < |steps| && !IsTaskStep(steps[i])
    ensures var s, step := states[i], steps[i];
            states[i + 1].log == s.log +
            if step.CallFrame? && step.id != "" && step.id !in s.calls && |s.calls| >= MAX_CALLS && step.delivered
              then [OverCapacity(step.id)]
            else if LeavesLoop(s, step) && !step.Disconnect? && (if step.CallFrame? then step.rejected else step.delivered)
              then [Rejection]
            else []
  {
    assert StepAt(states, steps, i);
    assert states[i].log + [] == states[i].log;
  }

  // ---------------------------------------------------------------------------
  // The session object
  // ---------------------------------------------------------------------------

  /** Teardown's loop over the active calls, in any order. */
  method DetachOrCancel(tasks: seq<Task>, active: set<TaskId>) returns (after: seq<Task>)
    requires forall n :: n in active ==> n < |tasks|
    ensures after == TearDownAll(tasks, active)
  {
    after := tasks;
    var todo := active;
    while todo != {}
      invariant todo <= active && |after| == |tasks|
      invariant forall n :: 0 <= n < |tasks| ==>
                  after[n] == if n in active && n !in todo then TornDown(tasks[n]) else tasks[n]
      decreases |todo|
    {
      var n :| n in todo;
      todo := todo - {n};
      if after[n].accepted && after[n].tool {
        after := after[n := after[n].(detached := true)];
      } else {
        after := after[n := after[n].(cancelRequested := true)];
      }
    }
  }

  class BridgeSession {
    var calls: map<CallId, TaskId>
    var tasks: seq<Task>
    var log: seq<Sent>
    var looping: bool
    var cancelling: Option<TaskId>
    var tearingDown: bool

    ghost function View(): State
      reads this
    {
      State(calls, tasks, log, looping, cancelling, tearingDown)
    }

    ghost predicate Valid()
      reads this
    {
      Inv(View())
    }

    constructor ()
      ensures Valid() && View() == Initial
    {
      calls, tasks, log, looping, cancelling, tearingDown := map[], [], [], true, None, false;
    }

    /** An exception ends the frame loop; its handler tries to send one error frame. */
    method LeaveLoop(rejected: bool)
      modifies this`log, this`looping
      ensures View() == Reject(old(View()), rejected)
    {
      if rejected {
        log := log + [Rejection];
      }
      looping := false;
    }

    /** The `call` branch of the frame loop. */
    method OnCallFrame(id: CallId, delivered: bool, rejected: bool)
      requires Valid() && looping && cancelling.None?
      modifies this
      ensures View() == Next(old(View()), CallFrame(id, delivered, rejected)) && Valid()
    {
      StepKeepsInv(View(), CallFrame(id, delivered, rejected));
      if id == "" || id in calls {
        LeaveLoop(rejected);
        return;
      }
      if |calls| >= MAX_CALLS {
        if delivered {
          log := log + [OverCapacity(id)];
        } else {
          LeaveLoop(rejected);
        }
        return;
      }
      calls := calls[id := |tasks|];
      tasks := tasks + [NewCall(id)];
    }

    /** The `cancel` branch of the frame loop, up to its first await if it has one. */
    method OnCancelFrame(id: CallId)
      requires Valid() && looping && cancelling.None?
      modifies this`tasks, this`cancelling
      ensures View() == Next(old(View()), CancelFrame(id)) && Valid()
    {
      StepKeepsInv(View(), CancelFrame(id));
      if id in calls {
        var n := calls[id];
        if tasks[n].tool || tasks[n].inference {
          cancelling := Some(n);
        } else if tasks[n].phase != Ended {
          tasks := tasks[n := tasks[n].(cancelRequested := true)];
        }
      }
    }

    /** The executor was told, or telling it raised; the task may have ended meanwhile. */
    method OnCancelForwarded(ok: bool, delivered: bool)
      requires Valid() && looping && cancelling.Some?
      modifies this`tasks, this`log, this`looping, this`cancelling
      ensures View() == Next(old(View()), CancelResumes(ok, delivered)) && Valid()
    {
      StepKeepsInv(View(), CancelResumes(ok, delivered));
      var n := cancelling.value;
      cancelling := None;
      if ok {
        if n < |tasks| && tasks[n].phase != Ended {
          tasks := tasks[n := tasks[n].(cancelRequested := true)];
        }
      } else {
        LeaveLoop(delivered);
      }
    }

    method OnCallSent(n: TaskId, delivered: bool)
      requires Valid() && n < |tasks| && tasks[n].phase == Active
      modifies this`tasks, this`log
      ensures View() == Next(old(View()), Step.OnSent(n, delivered)) && Valid()
    {
      StepKeepsInv(View(), Step.OnSent(n, delivered));
      tasks := tasks[n := tasks[n].(accepted := true)];
      if delivered {
        log := log + [Accepted(n)];
      }
      assert log == old(log) + Emitted(old(tasks)[n], Step.OnSent(n, delivered));
      assert View() == Next(old(View()), Step.OnSent(n, delivered));
    }

    /** A result was delivered; the `finally` removes the call. */
    method FinishCall(n: TaskId, chunked: bool)
      requires Valid() && n < |tasks| && tasks[n].phase == Active
      modifies this`calls, this`tasks, this`log
      ensures View() == Next(old(View()), Complete(n, chunked)) && Valid()
    {
      StepKeepsInv(View(), Complete(n, chunked));
      CompleteStep(View(), n, chunked);
      log := log + [Final(n, if chunked then ResultEndFrame else ResultFrame)];
      calls := calls - {tasks[n].id};
      tasks := tasks[n := tasks[n].(phase := Ended)];
    }

    /** The last handler of `run_call`: an exception of the bridge itself. */
    method FailLocally(n: TaskId)
      requires Valid() && n < |tasks| && tasks[n].phase == Active
      modifies this`tasks
      ensures View() == Next(old(View()), Fail(n, LocalError, NotSent)) && Valid()
    {
      StepKeepsInv(View(), Fail(n, LocalError, NotSent));
      var state := if tasks[n].accepted then AcceptedUnknown else NotSent;
      tasks := tasks[n := tasks[n].(phase := Reporting(ErrorFrame(LocalError, state)))];
      assert log == log + Emitted(old(tasks)[n], Fail(n, LocalError, NotSent));
      assert View() == Next(old(View()), Fail(n, LocalError, NotSent));
    }

    /** The teardown block: one pass over the calls still in the table. */
    method TearDown()
      requires Valid() && !looping && !tearingDown
      modifies this`tasks, this`tearingDown
      ensures View() == Next(old(View()), Teardown) && Valid()
    {
      StepKeepsInv(View(), Teardown);
      tearingDown := true;
      tasks := DetachOrCancel(tasks, calls.Values);
    }
  }
}
