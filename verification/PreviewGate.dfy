/**
 Single-flight admission of preview resolutions.  Code between two awaits is one atomic
 step; `Next` gives the effect of each step, the class performs the same steps in place,
 and the theorems hold over every interleaving of steps.
 */
module PreviewGate {
  import opened Collections

  type Key = string
  type FlightId = nat
  type CallerId = nat

  /** A task is queued until it holds a semaphore permit. */
  datatype Phase = Queued | Resolving | Done

  datatype Flight = Flight(key: Key, waiters: int, phase: Phase, cancelRequested: bool) {
    /** The task may still produce a result for its waiters. */
    predicate Live() {
      phase != Done && !cancelRequested
    }
  }

  /** A caller suspended inside `run`, and the key it asked for. */
  datatype Caller = Caller(flight: FlightId, key: Key)

  datatype Gate = Gate(
    flights: seq<Flight>,          // every flight ever created, by identity
    inflight: map<Key, FlightId>,
    callers: map<CallerId, Caller>,
    permits: int)

  datatype Step =
    | Join(caller: CallerId, key: Key)        // a call of run up to its await
    | Acquire(flight: FlightId)               // the task enters the semaphore
    | Finish(flight: FlightId)                // the task ends: result, exception or cancellation
    | Callback(flight: FlightId)              // the done-callback that forgets the flight
    | Return(caller: CallerId)                // a caller resumes after its task is done
    | CallerCancelled(caller: CallerId)       // a caller is cancelled at its await

  predicate Enabled(g: Gate, step: Step) {
    match step
    case Join(c, _) => c !in g.callers
    case Acquire(f) => f < |g.flights| && g.flights[f].phase == Queued && g.permits > 0
    case Finish(f) =>
      f < |g.flights| && (g.flights[f].phase == Resolving || (g.flights[f].phase == Queued && g.flights[f].cancelRequested))
    case Callback(f) => f < |g.flights| && g.flights[f].phase == Done
    case Return(c) => c in g.callers && g.callers[c].flight < |g.flights| && g.flights[g.callers[c].flight].phase == Done
    case CallerCancelled(c) => c in g.callers && g.callers[c].flight < |g.flights|
  }

  function Forget(inflight: map<Key, FlightId>, key: Key, flight: FlightId): map<Key, FlightId> {
    if key in inflight && inflight[key] == flight then inflight - {key} else inflight
  }

  function AddWaiters(flights: seq<Flight>, f: FlightId, delta: int): seq<Flight>
    requires f < |flights|
  {
    flights[f := flights[f].(waiters := flights[f].waiters + delta)]
  }

  /** Needed only so that `Next` is defined; `RunExtends` shows that it never fails. */
  ghost predicate Defined(g: Gate) {
    forall k :: k in g.inflight ==> g.inflight[k] < |g.flights|
  }

  function Next(g: Gate, step: Step): Gate
    requires Enabled(g, step) && Defined(g)
  {
    match step
    case Join(c, key) =>
      if key in g.inflight then
        var f := g.inflight[key];
        g.(flights := AddWaiters(g.flights, f, 1), callers := g.callers[c := Caller(f, key)])
      else
        var f := |g.flights|;
        g.(flights := g.flights + [Flight(key, 1, Queued, false)],
           inflight := g.inflight[key := f],
           callers := g.callers[c := Caller(f, key)])
    case Acquire(f) =>
      g.(flights := g.flights[f := g.flights[f].(phase := Resolving)], permits := g.permits - 1)
    case Finish(f) =>
      g.(flights := g.flights[f := g.flights[f].(phase := Done)],
         permits := g.permits + (if g.flights[f].phase == Resolving then 1 else 0))
    case Callback(f) =>
      g.(inflight := Forget(g.inflight, g.flights[f].key, f))
    case Return(c) =>
      g.(flights := AddWaiters(g.flights, g.callers[c].flight, -1), callers := g.callers - {c})
    case CallerCancelled(c) =>
      var f := g.callers[c].flight;
      var flight := g.flights[f];
      var last := flight.waiters <= 1 && flight.phase != Done;
      g.(flights := g.flights[f := flight.(waiters := flight.waiters - 1,
                                           cancelRequested := flight.cancelRequested || last)],
         inflight := if last then Forget(g.inflight, g.callers[c].key, f) else g.inflight,
         callers := g.callers - {c})
  }

  // ---------------------------------------------------------------------------
  // The invariant
  // ---------------------------------------------------------------------------

  ghost function WaitersOf(callers: map<CallerId, Caller>, f: FlightId): set<CallerId> {
    set c | c in callers && callers[c].flight == f
  }

  ghost function Running(flights: seq<Flight>): set<FlightId> {
    set f: FlightId | f < |flights| && flights[f].phase == Resolving
  }

  /** The table holds every live flight under its key, and no cancel-requested one. */
  ghost predicate TableOk(flights: seq<Flight>, inflight: map<Key, FlightId>) {
    && (forall k :: k in inflight ==> inflight[k] < |flights| && flights[inflight[k]].key == k
                                      && !flights[inflight[k]].cancelRequested)
    && (forall f: FlightId :: f < |flights| && flights[f].Live() ==>
          flights[f].key in inflight && inflight[flights[f].key] == f)
  }

  ghost predicate InflightOk(g: Gate) {
    TableOk(g.flights, g.inflight)
  }

  /** Every caller waits on a flight of its own key, and the counts are right. */
  ghost predicate CountsOk(callers: map<CallerId, Caller>, flights: seq<Flight>) {
    && (forall c :: c in callers ==> callers[c].flight < |flights| && flights[callers[c].flight].key == callers[c].key)
    && (forall f: FlightId :: f < |flights| ==> flights[f].waiters == |WaitersOf(callers, f)|)
    && (forall f: FlightId :: f < |flights| && flights[f].cancelRequested ==> WaitersOf(callers, f) == {})
  }

  ghost predicate CallersOk(g: Gate) {
    CountsOk(g.callers, g.flights)
  }

  ghost predicate PermitsOk(g: Gate, maxConcurrent: nat) {
    g.permits >= 0 && g.permits + |Running(g.flights)| == maxConcurrent
  }

  ghost predicate Inv(g: Gate, maxConcurrent: nat) {
    InflightOk(g) && CallersOk(g) && PermitsOk(g, maxConcurrent)
  }

  function Initial(maxConcurrent: nat): Gate {
    Gate([], map[], map[], maxConcurrent)
  }

  // Counting callers

  lemma WaitersAdd(callers: map<CallerId, Caller>, c: CallerId, caller: Caller, f: FlightId)
    requires c !in callers
    ensures |WaitersOf(callers[c := caller], f)| == |WaitersOf(callers, f)| + (if caller.flight == f then 1 else 0)
    ensures WaitersOf(callers[c := caller], f) == if caller.flight == f then WaitersOf(callers, f) + {c} else WaitersOf(callers, f)
  {
    var before, after := WaitersOf(callers, f), WaitersOf(callers[c := caller], f);
    assert after == if caller.flight == f then before + {c} else before;
  }

  lemma WaitersRemove(callers: map<CallerId, Caller>, c: CallerId, f: FlightId)
    requires c in callers
    ensures WaitersOf(callers - {c}, f) == WaitersOf(callers, f) - {c}
    ensures |WaitersOf(callers - {c}, f)| == |WaitersOf(callers, f)| - (if callers[c].flight == f then 1 else 0)
  {
    var before, after := WaitersOf(callers, f), WaitersOf(callers - {c}, f);
    assert after == before - {c};
    assert callers[c].flight == f <==> c in before;
  }

  lemma RunningUpdate(flights: seq<Flight>, f: FlightId, flight: Flight)
    requires f < |flights|
    ensures |Running(flights[f := flight])| == |Running(flights)|
              + (if flight.phase == Resolving then 1 else 0) - (if flights[f].phase == Resolving then 1 else 0)
  {
    var rest := Running(flights) - {f};
    assert Running(flights) == if flights[f].phase == Resolving then rest + {f} else rest;
    assert Running(flights[f := flight]) == if flight.phase == Resolving then rest + {f} else rest;
  }

  // Preservation, one conjunct at a time

  /** Changing a flight without reviving it, and without a new cancel request, keeps the table right. */
  lemma UpdateKeepsInflight(flights: seq<Flight>, inflight: map<Key, FlightId>, f: FlightId, flight: Flight)
    requires TableOk(flights, inflight) && f < |flights|
    requires flight.key == flights[f].key && flight.cancelRequested == flights[f].cancelRequested
    requires flight.Live() ==> flights[f].Live()
    ensures TableOk(flights[f := flight], inflight)
  {
  }

  /** A flight that can no longer produce a result may be forgotten. */
  lemma ForgetKeepsInflight(flights: seq<Flight>, inflight: map<Key, FlightId>, f: FlightId, flight: Flight)
    requires TableOk(flights, inflight) && f < |flights|
    requires flight.key == flights[f].key && !flight.Live()
    ensures TableOk(flights[f := flight], Forget(inflight, flight.key, f))
  {
    var flights', inflight' := flights[f := flight], Forget(inflight, flight.key, f);
    forall k | k in inflight' ensures inflight'[k] < |flights'| && flights'[inflight'[k]].key == k
                                      && !flights'[inflight'[k]].cancelRequested {
      assert inflight[k] != f;
    }
    forall h: FlightId | h < |flights'| && flights'[h].Live()
      ensures flights'[h].key in inflight' && inflight'[flights'[h].key] == h
    {
      assert flights[h].Live();
    }
  }

  lemma InflightPreserved(g: Gate, step: Step)
    requires InflightOk(g) && Enabled(g, step)
    requires step.CallerCancelled? ==> g.flights[g.callers[step.caller].flight].key == g.callers[step.caller].key
    ensures InflightOk(Next(g, step))
  {
    var g' := Next(g, step);
    match step
    case Join(_, key) =>
      if key in g.inflight {
        UpdateKeepsInflight(g.flights, g.inflight, g.inflight[key], g'.flights[g.inflight[key]]);
      }
    case Acquire(f) => UpdateKeepsInflight(g.flights, g.inflight, f, g'.flights[f]);
    case Finish(f) => UpdateKeepsInflight(g.flights, g.inflight, f, g'.flights[f]);
    case Callback(f) =>
      ForgetKeepsInflight(g.flights, g.inflight, f, g.flights[f]);
      assert g.flights[f := g.flights[f]] == g.flights;
    case Return(c) => UpdateKeepsInflight(g.flights, g.inflight, g.callers[c].flight, g'.flights[g.callers[c].flight]);
    case CallerCancelled(c) =>
      var f := g.callers[c].flight;
      if g.flights[f].waiters <= 1 && g.flights[f].phase != Done {
        ForgetKeepsInflight(g.flights, g.inflight, f, g'.flights[f]);
      } else {
        UpdateKeepsInflight(g.flights, g.inflight, f, g'.flights[f]);
      }
  }

  lemma CallersPreserved(g: Gate, step: Step)
    requires InflightOk(g) && CallersOk(g) && Enabled(g, step)
    ensures CallersOk(Next(g, step))
  {
    match step
    case Join(c, key) => StartKeepsCallers(g, c, key);
    case Return(c) =>
      LeaveKeepsCallers(g, Next(g, step), c, g.flights[g.callers[c].flight].cancelRequested);
    case CallerCancelled(c) =>
      LeaveKeepsCallers(g, Next(g, step), c, Next(g, step).flights[g.callers[c].flight].cancelRequested);
    case Acquire(f) => PhaseKeepsCallers(g.callers, g.flights, f, Resolving);
    case Finish(f) => PhaseKeepsCallers(g.callers, g.flights, f, Done);
    case Callback(_) =>
  }

  lemma PhaseKeepsCallers(callers: map<CallerId, Caller>, flights: seq<Flight>, f: FlightId, phase: Phase)
    requires CountsOk(callers, flights) && f < |flights|
    ensures CountsOk(callers, flights[f := flights[f].(phase := phase)])
  {
  }

  lemma StartKeepsCallers(g: Gate, c: CallerId, key: Key)
    requires InflightOk(g) && CallersOk(g) && c !in g.callers
    ensures CallersOk(Next(g, Join(c, key)))
  {
    if key in g.inflight {
      JoinKeepsCallers(g.callers, g.flights, c, g.inflight[key]);
    } else {
      var flights := g.flights + [Flight(key, 0, Queued, false)];
      NewFlightKeepsCallers(g.callers, g.flights, key);
      JoinKeepsCallers(g.callers, flights, c, |g.flights|);
      assert AddWaiters(flights, |g.flights|, 1) == g.flights + [Flight(key, 1, Queued, false)];
    }
  }

  /** One more caller waits on `f`, whose count goes up by one. */
  lemma JoinKeepsCallers(callers: map<CallerId, Caller>, flights: seq<Flight>, c: CallerId, f: FlightId)
    requires CountsOk(callers, flights) && c !in callers && f < |flights| && !flights[f].cancelRequested
    ensures CountsOk(callers[c := Caller(f, flights[f].key)], AddWaiters(flights, f, 1))
  {
    var callers', flights' := callers[c := Caller(f, flights[f].key)], AddWaiters(flights, f, 1);
    forall h: FlightId | h < |flights'|
      ensures flights'[h].waiters == |WaitersOf(callers', h)|
      ensures flights'[h].cancelRequested ==> WaitersOf(callers', h) == {}
    {
      WaitersAdd(callers, c, Caller(f, flights[f].key), h);
    }
  }

  /** A new flight has no callers yet. */
  lemma NewFlightKeepsCallers(callers: map<CallerId, Caller>, flights: seq<Flight>, key: Key)
    requires CountsOk(callers, flights)
    ensures CountsOk(callers, flights + [Flight(key, 0, Queued, false)])
  {
    assert WaitersOf(callers, |flights|) == {};
  }

  /** A caller leaves: by returning, or by a cancellation that may be the last one. */
  lemma LeaveKeepsCallers(g: Gate, g': Gate, c: CallerId, requested: bool)
    requires CallersOk(g) && c in g.callers && g'.callers == g.callers - {c}
    requires var f := g.callers[c].flight;
             var flight := g.flights[f];
             && g'.flights == g.flights[f := flight.(waiters := flight.waiters - 1, cancelRequested := requested)]
             && (requested ==> flight.cancelRequested || flight.waiters <= 1)
    ensures CallersOk(g')
  {
    forall f: FlightId | f < |g'.flights|
      ensures g'.flights[f].waiters == |WaitersOf(g'.callers, f)|
      ensures g'.flights[f].cancelRequested ==> WaitersOf(g'.callers, f) == {}
    {
      WaitersRemove(g.callers, c, f);
    }
  }

  lemma PermitsPreserved(g: Gate, step: Step, maxConcurrent: nat)
    requires InflightOk(g) && PermitsOk(g, maxConcurrent) && Enabled(g, step)
    ensures PermitsOk(Next(g, step), maxConcurrent)
  {
    var g' := Next(g, step);
    match step
    case Join(_, key) =>
      if key in g.inflight {
        RunningUpdate(g.flights, g.inflight[key], g'.flights[g.inflight[key]]);
      } else {
        assert Running(g'.flights) == Running(g.flights);
      }
    case Acquire(f) => RunningUpdate(g.flights, f, g'.flights[f]);
    case Finish(f) => RunningUpdate(g.flights, f, g'.flights[f]);
    case Return(c) => RunningUpdate(g.flights, g.callers[c].flight, g'.flights[g.callers[c].flight]);
    case CallerCancelled(c) => RunningUpdate(g.flights, g.callers[c].flight, g'.flights[g.callers[c].flight]);
    case Callback(_) =>
  }

  lemma StepKeepsInv(g: Gate, step: Step, maxConcurrent: nat)
    requires Inv(g, maxConcurrent) && Enabled(g, step)
    ensures Inv(Next(g, step), maxConcurrent)
  {
    InflightPreserved(g, step);
    CallersPreserved(g, step);
    PermitsPreserved(g, step, maxConcurrent);
  }

  // ---------------------------------------------------------------------------
  // Theorems over every interleaving
  // ---------------------------------------------------------------------------

  /** `states` is a run of `steps` from the empty gate. */
  ghost predicate IsRun(states: seq<Gate>, steps: seq<Step>, maxConcurrent: nat) {
    && |states| == |steps| + 1
    && states[0] == Initial(maxConcurrent)
    && forall i :: 0 <= i < |steps| ==> StepAt(states, steps, i)
  }

  ghost predicate StepTo(g: Gate, step: Step, g': Gate) {
    Defined(g) && Enabled(g, step) && g' == Next(g, step)
  }

  ghost predicate StepAt(states: seq<Gate>, steps: seq<Step>, i: nat)
    requires |states| == |steps| + 1 && i < |steps|
  {
    StepTo(states[i], steps[i], states[i + 1])
  }

  lemma {:induction false} RunKeepsInv(states: seq<Gate>, steps: seq<Step>, maxConcurrent: nat, i: nat)
    requires IsRun(states, steps, maxConcurrent) && i < |states|
    ensures Inv(states[i], maxConcurrent)
  {
    if i == 0 {
      assert Running([]) == {};
    } else {
      RunKeepsInv(states, steps, maxConcurrent, i - 1);
      assert StepAt(states, steps, i - 1);
      StepKeepsInv(states[i - 1], steps[i - 1], maxConcurrent);
    }
  }

  /** Any enabled step extends a run, so the definedness condition never blocks one. */
  lemma RunExtends(states: seq<Gate>, steps: seq<Step>, maxConcurrent: nat, step: Step)
    requires IsRun(states, steps, maxConcurrent)
    requires Enabled(states[|states| - 1], step)
    ensures Defined(states[|states| - 1])
    ensures IsRun(states + [Next(states[|states| - 1], step)], steps + [step], maxConcurrent)
  {
    var last := |states| - 1;
    RunKeepsInv(states, steps, maxConcurrent, last);
    var states', steps' := states + [Next(states[last], step)], steps + [step];
    forall i | 0 <= i < |steps'| ensures StepAt(states', steps', i) {
      assert i < |steps| ==> StepAt(states, steps, i);
    }
  }

  /** In every reachable state: at most one live task per key, honest waiter counts, bounded concurrency. */
  lemma SingleFlight(states: seq<Gate>, steps: seq<Step>, maxConcurrent: nat, i: nat)
    requires IsRun(states, steps, maxConcurrent) && i < |states|
    ensures var g := states[i];
            && (forall a: FlightId, b: FlightId ::
                  (a < |g.flights| && b < |g.flights| && g.flights[a].Live() && g.flights[b].Live()
                   && g.flights[a].key == g.flights[b].key) ==> a == b)
            && (forall f: FlightId :: f < |g.flights| ==> g.flights[f].waiters == |WaitersOf(g.callers, f)|)
            && (forall c :: c in g.callers ==> g.callers[c].flight < |g.flights|
                                               && g.flights[g.callers[c].flight].key == g.callers[c].key)
            && |Running(g.flights)| <= maxConcurrent
  {
    RunKeepsInv(states, steps, maxConcurrent, i);
  }

  /** A task is cancel-requested only by its last remaining caller, and only while it is not done. */
  lemma CancelOnlyByLastCaller(states: seq<Gate>, steps: seq<Step>, maxConcurrent: nat, i: nat, f: FlightId)
    requires IsRun(states, steps, maxConcurrent) && i < |steps|
    requires f < |states[i].flights| && !states[i].flights[f].cancelRequested
    requires f < |states[i + 1].flights| && states[i + 1].flights[f].cancelRequested
    ensures steps[i].CallerCancelled?
    ensures WaitersOf(states[i].callers, f) == {steps[i].caller}
    ensures states[i].flights[f].phase != Done
  {
    var g := states[i];
    RunKeepsInv(states, steps, maxConcurrent, i);
    assert StepAt(states, steps, i);
    var c := steps[i].caller;
    var waiting := WaitersOf(g.callers, f);
    assert c in waiting && |waiting| <= 1;
    if waiting != {c} {
      ProperSubsetSize({c}, waiting);
    }
  }

  lemma CancellationIsFinal(g: Gate, step: Step, g': Gate, f: FlightId)
    requires StepTo(g, step, g') && f < |g.flights| && g.flights[f].cancelRequested
    ensures f < |g'.flights| && g'.flights[f].cancelRequested
  {
  }

  /** Once a task is cancel-requested nobody can join it any more. */
  lemma {:induction false} CancelledStaysAlone(states: seq<Gate>, steps: seq<Step>, maxConcurrent: nat, i: nat, j: nat, f: FlightId)
    requires IsRun(states, steps, maxConcurrent) && i <= j < |states|
    requires f < |states[i].flights| && states[i].flights[f].cancelRequested
    ensures f < |states[j].flights| && states[j].flights[f].cancelRequested
    ensures WaitersOf(states[j].callers, f) == {}
  {
    if i < j {
      CancelledStaysAlone(states, steps, maxConcurrent, i, j - 1, f);
      assert StepAt(states, steps, j - 1);
      CancellationIsFinal(states[j - 1], steps[j - 1], states[j], f);
    }
    RunKeepsInv(states, steps, maxConcurrent, j);
  }

  /** How an entry `key -> f` can leave the table: after its task is done, or with the cancellation of its only caller. */
  ghost predicate ForgetsOwn(g: Gate, step: Step, g': Gate, f: FlightId) {
    && f < |g.flights| && f < |g'.flights|
    && ((step == Callback(f) && g.flights[f].phase == Done)
        || (step.CallerCancelled? && WaitersOf(g.callers, f) == {step.caller} && g'.flights[f].cancelRequested))
  }

  /**
   Forgetting is by identity, over every run: an entry stays as it is, or leaves by its own doing.
   No step of another flight removes it, and none puts another flight in its place.
   */
  lemma ForgetIsByIdentity(states: seq<Gate>, steps: seq<Step>, maxConcurrent: nat, i: nat, key: Key)
    requires IsRun(states, steps, maxConcurrent) && i < |steps| && key in states[i].inflight
    ensures key in states[i + 1].inflight ==> states[i + 1].inflight[key] == states[i].inflight[key]
    ensures key !in states[i + 1].inflight ==> ForgetsOwn(states[i], steps[i], states[i + 1], states[i].inflight[key])
  {
    RunKeepsInv(states, steps, maxConcurrent, i);
    assert StepAt(states, steps, i);
    if steps[i].CallerCancelled? && key !in states[i + 1].inflight {
      LastWaiter(states[i], steps[i].caller);
    }
  }

  /** A count of at most one means that the caller is alone. */
  lemma LastWaiter(g: Gate, c: CallerId)
    requires CallersOk(g) && c in g.callers && g.callers[c].flight < |g.flights|
    ensures g.flights[g.callers[c].flight].waiters <= 1 ==> WaitersOf(g.callers, g.callers[c].flight) == {c}
  {
    var f := g.callers[c].flight;
    var waiters := WaitersOf(g.callers, f);
    assert c in waiters && g.flights[f].waiters == |waiters|;
    if |waiters| <= 1 && waiters != {c} {
      ProperSubsetSize({c}, waiters);
    }
  }

  /** The last caller of a task that is not done takes it along: the task is cancel-requested and out of the table. */
  lemma LastCallerCancels(states: seq<Gate>, steps: seq<Step>, maxConcurrent: nat, i: nat, c: CallerId, f: FlightId)
    requires IsRun(states, steps, maxConcurrent) && i < |steps| && steps[i] == CallerCancelled(c)
    requires f < |states[i].flights| && WaitersOf(states[i].callers, f) == {c} && states[i].flights[f].phase != Done
    ensures f < |states[i + 1].flights| && states[i + 1].flights[f].cancelRequested
    ensures f !in states[i + 1].inflight.Values
    ensures c !in states[i + 1].callers
  {
    RunKeepsInv(states, steps, maxConcurrent, i);
    RunKeepsInv(states, steps, maxConcurrent, i + 1);
    assert StepAt(states, steps, i);
    assert c in WaitersOf(states[i].callers, f);
    assert states[i].flights[f].waiters == 1;
  }

  /** A caller that others wait beside leaves alone: the task goes on for them. */
  lemma OtherCallersKeepTask(states: seq<Gate>, steps: seq<Step>, maxConcurrent: nat, i: nat, c: CallerId, f: FlightId)
    requires IsRun(states, steps, maxConcurrent) && i < |steps| && steps[i] == CallerCancelled(c)
    requires f < |states[i].flights| && WaitersOf(states[i].callers, f) != {c}
    ensures f < |states[i + 1].flights| && states[i + 1].flights[f].cancelRequested == states[i].flights[f].cancelRequested
    ensures states[i + 1].flights[f].phase == states[i].flights[f].phase
    ensures forall key :: key in states[i].inflight && states[i].inflight[key] == f ==>
              key in states[i + 1].inflight && states[i + 1].inflight[key] == f
  {
    RunKeepsInv(states, steps, maxConcurrent, i);
    assert StepAt(states, steps, i);
    LastWaiter(states[i], c);
  }

  /** Nobody has abandoned the task: it is done, somebody waits on it, or its cancellation is requested. */
  ghost predicate Attended(g: Gate, f: FlightId)
    requires f < |g.flights|
  {
    g.flights[f].phase == Done || g.flights[f].cancelRequested || WaitersOf(g.callers, f) != {}
  }

  lemma AttendedStep(g: Gate, step: Step, g': Gate, f: FlightId)
    requires InflightOk(g) && CallersOk(g) && CallersOk(g') && StepTo(g, step, g') && f < |g'.flights|
    requires f < |g.flights| ==> Attended(g, f)
    ensures Attended(g', f)
  {
    if f < |g.flights| && g.flights[f].phase != Done && !g.flights[f].cancelRequested {
      var c := Member(WaitersOf(g.callers, f));
      if step == CallerCancelled(c) {
        LastWaiter(g, c);
        if WaitersOf(g.callers, f) != {c} {
          assert WaitersOf(g'.callers, f) == WaitersOf(g.callers, f) - {c};
        }
      } else if step != Return(c) {
        assert c in WaitersOf(g'.callers, f);
      }
    } else if f >= |g.flights| {
      assert step.Join? && step.caller in WaitersOf(g'.callers, f);
    }
  }

  /** In every reachable state a task that is not done has a waiter or is cancel-requested: nothing resolves for nobody. */
  lemma {:induction false} NoAbandonedTask(states: seq<Gate>, steps: seq<Step>, maxConcurrent: nat, i: nat, f: FlightId)
    requires IsRun(states, steps, maxConcurrent) && i < |states| && f < |states[i].flights|
    ensures Attended(states[i], f)
  {
    if i > 0 {
      assert StepAt(states, steps, i - 1);
      RunKeepsInv(states, steps, maxConcurrent, i - 1);
      RunKeepsInv(states, steps, maxConcurrent, i);
      if f < |states[i - 1].flights| {
        NoAbandonedTask(states, steps, maxConcurrent, i - 1, f);
      }
      AttendedStep(states[i - 1], steps[i - 1], states[i], f);
    }
  }

  /** The callback removes its flight, so a flight that is done and called back is never joined again. */
  lemma CallbackRemoves(states: seq<Gate>, steps: seq<Step>, maxConcurrent: nat, i: nat, f: FlightId)
    requires IsRun(states, steps, maxConcurrent) && i < |steps| && steps[i] == Callback(f)
    ensures f < |states[i + 1].flights| && f !in states[i + 1].inflight.Values
  {
    RunKeepsInv(states, steps, maxConcurrent, i);
    assert StepAt(states, steps, i);
  }

  lemma OutStaysOut(g: Gate, step: Step, g': Gate, f: FlightId)
    requires InflightOk(g) && StepTo(g, step, g') && f < |g.flights| && f !in g.inflight.Values
    ensures f < |g'.flights| && f !in g'.inflight.Values
    ensures step.Join? ==> step.caller in g'.callers && g'.callers[step.caller].flight != f
  {
    if step.Join? && step.key in g.inflight {
      assert g.inflight[step.key] in g.inflight.Values;
    }
    forall key | key in g'.inflight ensures g'.inflight[key] != f {
      assert key in g.inflight ==> g.inflight[key] in g.inflight.Values;
    }
  }

  /** Once out of the table a flight never comes back, and every later request gets another one. */
  lemma {:induction false} OutForGood(states: seq<Gate>, steps: seq<Step>, maxConcurrent: nat, i: nat, j: nat, f: FlightId)
    requires IsRun(states, steps, maxConcurrent) && i <= j < |states|
    requires f < |states[i].flights| && f !in states[i].inflight.Values
    ensures f < |states[j].flights| && f !in states[j].inflight.Values
    ensures j < |steps| && steps[j].Join? ==>
              steps[j].caller in states[j + 1].callers && states[j + 1].callers[steps[j].caller].flight != f
    decreases j
  {
    if i < j {
      OutForGood(states, steps, maxConcurrent, i, j - 1, f);
      assert StepAt(states, steps, j - 1);
      RunKeepsInv(states, steps, maxConcurrent, j - 1);
      OutStaysOut(states[j - 1], steps[j - 1], states[j], f);
    }
    if j < |steps| {
      assert StepAt(states, steps, j);
      RunKeepsInv(states, steps, maxConcurrent, j);
      OutStaysOut(states[j], steps[j], states[j + 1], f);
    }
  }

  lemma PhaseStep(g: Gate, step: Step, g': Gate, f: FlightId)
    requires StepTo(g, step, g') && f < |g'.flights|
    ensures f >= |g.flights| ==> g'.flights[f].phase == Queued && !step.Acquire? && !step.Finish?
    ensures f < |g.flights| ==>
              g'.flights[f].phase == if step == Acquire(f) then Resolving else if step == Finish(f) then Done else g.flights[f].phase
  {
  }

  /** A task resolves exactly after it entered the semaphore and is done exactly after it finished. */
  lemma {:induction false} PhaseTells(states: seq<Gate>, steps: seq<Step>, maxConcurrent: nat, i: nat, f: FlightId)
    requires IsRun(states, steps, maxConcurrent) && i < |states|
    ensures f < |states[i].flights| ==>
              && (states[i].flights[f].phase == Done <==> Finish(f) in steps[..i])
              && (states[i].flights[f].phase == Resolving <==> Acquire(f) in steps[..i] && Finish(f) !in steps[..i])
    ensures f >= |states[i].flights| ==> Finish(f) !in steps[..i] && Acquire(f) !in steps[..i]
  {
    if i > 0 {
      PhaseTells(states, steps, maxConcurrent, i - 1, f);
      assert StepAt(states, steps, i - 1);
      assert steps[..i] == steps[..i - 1] + [steps[i - 1]];
      if f < |states[i].flights| {
        PhaseStep(states[i - 1], steps[i - 1], states[i], f);
      }
    }
  }

  predicate Leaves(step: Step, c: CallerId) {
    step == Return(c) || step == CallerCancelled(c)
  }

  /** A caller is inside `run` exactly from its join to its return or cancellation. */
  lemma CallersTell(states: seq<Gate>, steps: seq<Step>, maxConcurrent: nat, i: nat, c: CallerId)
    requires IsRun(states, steps, maxConcurrent) && i < |steps|
    ensures c in states[i + 1].callers <==> (steps[i].Join? && steps[i].caller == c) || (c in states[i].callers && !Leaves(steps[i], c))
  {
    assert StepAt(states, steps, i);
  }

  /** A finished task gives its permit back and an entered one takes it: the permits left are exactly those not in use. */
  lemma PermitsAreExact(states: seq<Gate>, steps: seq<Step>, maxConcurrent: nat, i: nat)
    requires IsRun(states, steps, maxConcurrent) && i < |states|
    ensures states[i].permits == maxConcurrent - |Running(states[i].flights)|
  {
    RunKeepsInv(states, steps, maxConcurrent, i);
  }

  /** Concurrent identical requests share the live task; after its last waiter left, a new request gets a fresh one. */
  lemma JoinSharesOrStartsFresh(states: seq<Gate>, steps: seq<Step>, maxConcurrent: nat, i: nat, c: CallerId, key: Key, f: FlightId)
    requires IsRun(states, steps, maxConcurrent) && i < |states|
    requires Enabled(states[i], Join(c, key))
    requires f < |states[i].flights| && states[i].flights[f].key == key
    ensures Defined(states[i])
    ensures states[i].flights[f].Live() ==> Next(states[i], Join(c, key)).callers[c].flight == f
    ensures states[i].flights[f].cancelRequested ==> Next(states[i], Join(c, key)).callers[c].flight != f
  {
    RunKeepsInv(states, steps, maxConcurrent, i);
  }

  // ---------------------------------------------------------------------------
  // The gate itself
  // ---------------------------------------------------------------------------

  class EffectiveToolsPreviewGate {
    const maxConcurrent: nat
    var permits: int
    var inflight: map<Key, FlightId>
    var flights: seq<Flight>
    var callers: map<CallerId, Caller>

    ghost function View(): Gate
      reads this
    {
      Gate(flights, inflight, callers, permits)
    }

    ghost predicate Valid()
      reads this
    {
      Inv(View(), maxConcurrent)
    }

    constructor (maxConcurrent: nat)
      requires maxConcurrent >= 1
      ensures Valid() && View() == Initial(maxConcurrent)
    {
      this.maxConcurrent := maxConcurrent;
      permits, inflight, flights, callers := maxConcurrent, map[], [], map[];
      new;
      assert Running([]) == {};
    }

    /** Construction with the program's own check: fewer than one permit is an error. */
    static method Create(maxConcurrent: int) returns (gate: EffectiveToolsPreviewGate?)
      ensures gate == null <==> maxConcurrent < 1
      ensures gate != null ==> fresh(gate) && gate.Valid() && gate.View() == Initial(maxConcurrent)
    {
      if maxConcurrent < 1 {
        return null;
      }
      gate := new EffectiveToolsPreviewGate(maxConcurrent);
    }

    /** `run` up to its await: join the flight of the key, or create one. */
    method StartRun(c: CallerId, key: Key)
      requires Valid() && c !in callers
      modifies this`inflight, this`flights, this`callers
      ensures Valid() && View() == Next(old(View()), Join(c, key))
    {
      StepKeepsInv(View(), Join(c, key), maxConcurrent);
      var f: FlightId;
      if key in inflight {
        f := inflight[key];
      } else {
        f := |flights|;
        flights := flights + [Flight(key, 0, Queued, false)];
        inflight := inflight[key := f];
      }
      flights := flights[f := flights[f].(waiters := flights[f].waiters + 1)];
      callers := callers[c := Caller(f, key)];
      assert flights == Next(old(View()), Join(c, key)).flights;
    }

    method ForgetFlight(key: Key, flight: FlightId)
      modifies this`inflight
      ensures inflight == Forget(old(inflight), key, flight)
    {
      if key in inflight && inflight[key] == flight {
        inflight := inflight - {key};
      }
    }

    /** The handler of a cancellation at the await, and the `finally` after it. */
    method CancelCaller(c: CallerId)
      requires Valid() && c in callers
      modifies this`inflight, this`flights, this`callers
      ensures Valid() && View() == Next(old(View()), CallerCancelled(c))
    {
      StepKeepsInv(View(), CallerCancelled(c), maxConcurrent);
      var f := callers[c].flight;
      if flights[f].waiters <= 1 && flights[f].phase != Done {
        ForgetFlight(callers[c].key, f);
        flights := flights[f := flights[f].(cancelRequested := true)];
      }
      flights := flights[f := flights[f].(waiters := flights[f].waiters - 1)];
      callers := callers - {c};
      assert flights == Next(old(View()), CallerCancelled(c)).flights;
    }

    /** A caller whose shared task is done leaves through the `finally`. */
    method FinishRun(c: CallerId)
      requires Valid() && c in callers && flights[callers[c].flight].phase == Done
      modifies this`flights, this`callers
      ensures Valid() && View() == Next(old(View()), Return(c))
    {
      StepKeepsInv(View(), Return(c), maxConcurrent);
      var f := callers[c].flight;
      flights := flights[f := flights[f].(waiters := flights[f].waiters - 1)];
      callers := callers - {c};
    }

    /** `_resolve`: entering and leaving the semaphore. */
    method EnterSemaphore(f: FlightId)
      requires Valid() && f < |flights| && flights[f].phase == Queued && permits > 0
      modifies this`flights, this`permits
      ensures Valid() && View() == Next(old(View()), Acquire(f))
    {
      StepKeepsInv(View(), Acquire(f), maxConcurrent);
      permits := permits - 1;
      flights := flights[f := flights[f].(phase := Resolving)];
    }

    method EndTask(f: FlightId)
      requires Valid() && Enabled(View(), Finish(f))
      modifies this`flights, this`permits
      ensures Valid() && View() == Next(old(View()), Finish(f))
    {
      StepKeepsInv(View(), Finish(f), maxConcurrent);
      if flights[f].phase == Resolving {
        permits := permits + 1;
      }
      flights := flights[f := flights[f].(phase := Done)];
    }

    method DoneCallback(f: FlightId)
      requires Valid() && f < |flights| && flights[f].phase == Done
      modifies this`inflight
      ensures Valid() && View() == Next(old(View()), Callback(f))
    {
      StepKeepsInv(View(), Callback(f), maxConcurrent);
      ForgetFlight(flights[f].key, f);
    }
  }
}
