# Cognis controller: a verified model

Cognis is an agent-orchestration controller.  This project models the parts of it that are state
machines, protocols and loop algorithms, in Dafny, and proves what they guarantee for every input,
every run or every reachable state.

How the modules are organised:

* Code that changes state in place is a class (or a method with a loop) that keeps the source's
  branches and order of updates.  Its contract ties the new state to a specification: a declarative
  decision (`Admits`, `Scope`, `Eager`), or a step of a pure state machine (`Next`).
* Concurrency is interleaving.  The code between two awaits is one atomic step, and an SQL statement
  is one guarded update of a row map.  The run-level theorems are about `IsRun(states, steps)`, that
  is, about every sequence of enabled steps.
* Clocks, observations, hashes, gzip and JSON are parameters.  Where the code relies on a law of
  theirs (gunzip undoes gzip, a JSON load undoes a dump, a hex digest holds
  neither quote nor comma), that law is the only assumption.

| module | what it is about |
|---|---|
| `RateLimiter` | the sliding-window request limiter refines a limiter that remembers every admission |
| `ActivityScope` | the worklist that backfills activity scopes, against a recursive definition |
| `PreviewGate` | single-flight resolution of previews |
| `Bridge`, `ResultTransfer`, `Base64` | calls bridged between controllers, and the chunked transfer of results |
| `Reconcile`, `ReconcileSafety`, `Scheduler` | executor reconciliation, the handshake, the coalescing schedulers |
| `MfaBudget`, `MfaChallenges`, `MfaFactor` | attempt budgets, challenge lifecycle and revocation, TOTP and recovery codes |
| `EntityTags`, `HeaderFields`, `Compression` | conditional GET and gzip as composed message filters |
| `Cursor` | opaque cursors and pagination |
| `Cleanup`, `Watchdog`, `EagerChunks` | retired-row cleanup, the rollout watchdog, the search over bundle imports |
| `Options`, `Collections`, `Arithmetic`, `Text` | shared vocabulary |

`dafny verify dfyconfig.toml` checks the whole project.

## Findings

Some properties one might expect do not hold of the code.  Each has a theorem with the exact
condition and a lemma with an input that fails it.

* Pagination: following cursors visits the list exactly if and only if no full page ends at an id
  that occurs earlier in the list (`Cursor.WalkIsExactIff`); with three items under one id and a
  limit of one the walk never ends (`Cursor.RepeatedIdsNeverEnd`).
* Conditional GET forwards a message of another kind ahead of a start message that it holds back; its
  output begins with the start exactly when there is no such message or the start was not held
  (`Compression.ConditionalReorders`, `Compression.OtherOvertakesStart`).  No handler of the
  repository sends such a message today.  Gzip does not do this (`Compression.GzipKeepsOrder`).
* An answer with 304 keeps the `Vary` of its response exactly when there was none or it was
  `Accept-Encoding` alone; any other answer keeps it exactly when there was at most one such field or
  gzip does not edit the head, and otherwise loses all fields but the first
  (`Compression.VaryKeptIff`, `Compression.NotModifiedLosesVary`, `Compression.SecondVaryIsLost`).
* Marking an executor unavailable is not fenced.  It takes a serving row out of service exactly when an
  owner put the row into service after the loop had read it and nothing took it out since
  (`ReconcileSafety.UnavailableOverwritesIff`, `ReconcileSafety.UnavailableUndoesNewOwner`).
* Repeated cleanup leaves a retired record exactly when a file row of an unnamed version refers to it
  (`Cleanup.RetiredRecordsClearIff`); rows at the default empty version do that
  (`Cleanup.DefaultVersionKeepsRecord`).
* The watchdog requests a rollback for every watch that does not succeed, unless a sample raises an
  error other than OSError, SubprocessError and ValueError before the watch is decided
  (`Watchdog.RunWatchdog`, `Watchdog.UncaughtErrorEndsWatch`).

## Model

| member | source | states |
|---|---|---|
| `RateLimiter.RequestRateLimiter.Allow` | cognis/security.py:124-160 | the decision of the pruned ordered map equals `Admits` over the complete admission history: limit positive, fewer than the limit in the window, and the bucket active or fewer than the maximum active; the history grows by exactly the admitted request |
| `RateLimiter.RequestRateLimiter.UpdateLimits` | cognis/security.py:113-122 | only the given limits change, and the invariant of the map is kept |
| `RateLimiter.RequestRateLimiter.constructor` | cognis/security.py:96-111 | starts valid with an empty history and room for at least one bucket |
| `RateLimiter.RequestRateLimiter.PruneBucket` | cognis/security.py:136-141 | the queue kept for a bucket is exactly its recent admissions in the history |
| `RateLimiter.DropStale` | cognis/security.py:137-138 | the popping loop drops only admissions that left the window and stops at a recent one |
| `RateLimiter.RequestRateLimiter.MakeRoom` | cognis/security.py:144-152 | there is room exactly when the bucket is active or fewer than the maximum are, seen over the history |
| `RateLimiter.RequestRateLimiter.ReclaimHead` | cognis/security.py:148-152 | looking at the head of the full map alone decides whether some bucket left the window |
| `RateLimiter.RequestRateLimiter.Admit` | cognis/security.py:153-159 | one admission is appended and the map stays ordered by latest activity |
| `RateLimiter.HeadDecides` | cognis/security.py:144-152 | "only the first bucket can be reclaimable": in a full map fewer buckets are active than entries exactly when the head is out of the window |
| `RateLimiter.SpareSlot` | cognis/security.py:144-145 | never more active buckets than entries in the map |
| `RateLimiter.PrunedIsRecent` | cognis/security.py:136-141 | a sorted, pruned queue with a young head is exactly the recent part of the full history |
| `RateLimiter.StateKeyInjective` | cognis/security.py:129 | the textual state key never confuses two users or buckets |
| `RateLimiter.WindowBound` | cognis/security.py:124-160 | over every run with limits up to L, no bucket gets more than L admissions in any interval of one window length |
| `RateLimiter.ActiveBound` | cognis/security.py:144-152 | at no instant of a run are more than the maximum number of buckets active |
| `RateLimiter.ModestRunsAreAdmitted` | cognis/security.py:124-160 | if no bucket asks more than the limit in any interval of one window length and at most the maximum number of buckets ever ask, every request of the run is admitted |
| `ActivityScope.ResolveScopes` | cognis/bootstrap.py:1444-1473 | terminates, covers every session and gives each the scope of the recursive definition, whatever the visiting order |
| `ActivityScope.Visit` | cognis/bootstrap.py:1450-1466 | one visit either gives the defined scope or the dependency is still unresolved |
| `ActivityScope.Sweep` | cognis/bootstrap.py:1449-1469 | a sweep keeps every resolved scope right, and one without progress leaves only blocked sessions |
| `ActivityScope.OwnScopes` | cognis/bootstrap.py:1470-1473 | giving the blocked sessions their own id is what the definition says of them |
| `ActivityScope.Backfill` | cognis/bootstrap.py:1474-1481 | only null columns are written, each with the defined scope |
| `ActivityScope.ScopeUnfold` | cognis/bootstrap.py:1453-1467 | the recursive equation of the scope on finite chains: own id at the end of a chain, after a dangling link or a user reset, else the scope of the dependency |
| `ActivityScope.ScopeByColumns` | cognis/bootstrap.py:1450-1473 | the scope read off the columns: parent first, then predecessor unless a user reset ended it, own id for missing links and for chains that never end |
| `ActivityScope.InfiniteIffCycle` | cognis/bootstrap.py:1470-1473 | a chain is infinite exactly when it reaches a cycle |
| `ActivityScope.BlockedNeverEnd` | cognis/bootstrap.py:1470-1473 | if every unresolved session waits for another one, none of their chains ends |
| `ActivityScope.ScopeIdempotent` | cognis/bootstrap.py:1444-1473 | scopes are representatives: the scope of a scope is itself |
| `PreviewGate.SingleFlight` | cognis/api/effective_tools_preview_gate.py:34-70 | in every reachable state each key has at most one live task, waiter counts equal the callers inside `run`, and at most `max_concurrent` resolutions run |
| `PreviewGate.CancelOnlyByLastCaller` | cognis/api/effective_tools_preview_gate.py:54-60 | a task becomes cancel-requested only by the cancellation of its only remaining caller, while it is not done |
| `PreviewGate.LastCallerCancels` | cognis/api/effective_tools_preview_gate.py:54-62 | in every run the cancellation of the only caller of a task that is not done leaves the task cancel-requested and out of the table |
| `PreviewGate.OtherCallersKeepTask` | cognis/api/effective_tools_preview_gate.py:54-62 | the cancellation of a caller that others wait beside leaves the task and its entry alone |
| `PreviewGate.NoAbandonedTask` | cognis/api/effective_tools_preview_gate.py:34-62 | in every reachable state a task that is not done has a waiter or is cancel-requested |
| `PreviewGate.CancelledStaysAlone` | cognis/api/effective_tools_preview_gate.py:54-60 | after that nobody ever waits on it again |
| `PreviewGate.ForgetIsByIdentity` | cognis/api/effective_tools_preview_gate.py:54-70 | in every run an entry of the table stays as it is, or leaves by the callback of its own done task or with the cancellation of its only caller; none is ever replaced by another flight |
| `PreviewGate.CallbackRemoves` | cognis/api/effective_tools_preview_gate.py:50 | the done-callback takes its flight out of the table |
| `PreviewGate.OutForGood` | cognis/api/effective_tools_preview_gate.py:41-51 | a flight out of the table never comes back, and every later request gets another one |
| `PreviewGate.PhaseTells` | cognis/api/effective_tools_preview_gate.py:64-66 | a task resolves exactly after it entered the semaphore and is done exactly after it finished |
| `PreviewGate.CallersTell` | cognis/api/effective_tools_preview_gate.py:51-62 | a caller is inside `run` exactly from its join to its return or cancellation |
| `PreviewGate.PermitsAreExact` | cognis/api/effective_tools_preview_gate.py:64-66 | the permits left are exactly those that no resolution holds |
| `PreviewGate.JoinSharesOrStartsFresh` | cognis/api/effective_tools_preview_gate.py:41-51 | a request joins the live task of its key and never a cancel-requested one |
| `PreviewGate.RunKeepsInv` | cognis/api/effective_tools_preview_gate.py:34-70 | the table, count and permit invariants hold in every state of every run |
| `PreviewGate.RunExtends` | cognis/api/effective_tools_preview_gate.py:34-70 | every enabled step extends a run: the step function is defined in every reachable state |
| `PreviewGate.EffectiveToolsPreviewGate.Create` | cognis/api/effective_tools_preview_gate.py:28-32 | fewer than one permit is refused |
| `PreviewGate.EffectiveToolsPreviewGate.StartRun` | cognis/api/effective_tools_preview_gate.py:41-51 | `run` up to its await is the join step |
| `PreviewGate.EffectiveToolsPreviewGate.CancelCaller` | cognis/api/effective_tools_preview_gate.py:54-62 | the cancellation handler and the `finally` are the caller-cancelled step |
| `PreviewGate.EffectiveToolsPreviewGate.FinishRun` | cognis/api/effective_tools_preview_gate.py:52-62 | leaving after the shared task is done is the return step |
| `PreviewGate.EffectiveToolsPreviewGate.EnterSemaphore` | cognis/api/effective_tools_preview_gate.py:64-66 | entering the semaphore is the acquire step |
| `PreviewGate.EffectiveToolsPreviewGate.EndTask` | cognis/api/effective_tools_preview_gate.py:64-66 | the end of a task gives its permit back |
| `PreviewGate.EffectiveToolsPreviewGate.DoneCallback` | cognis/api/effective_tools_preview_gate.py:50 | the done-callback is the callback step |
| `Base64.RoundTrip` | cognis/api/controller_ws.py:221-226 | decoding undoes encoding for every byte string and both alphabets (sections 4 and 5 of RFC 4648) |
| `Base64.EncodeConcat` | cognis/api/controller_ws.py:221-226 | encoding is compositional at multiples of three bytes |
| `Base64.PaddingRestored` | cognis/api/common.py:260-274 | padding stripped from an encoding is restored exactly from the length modulo four |
| `ResultTransfer.SendResult` | cognis/api/controller_ws.py:191-247 | each of the outcomes under its exact condition: too large, one small frame, chunking not negotiated, the complete chunked sequence if and only if every chunk frame fits, else a prefix of it |
| `ResultTransfer.SendChunks` | cognis/api/controller_ws.py:220-238 | the loop sends the chunk frames in order and stops at the first one that reaches the ceiling |
| `ResultTransfer.MaxChunksIsCeiling` | cognis/api/controller_ws.py:33-36 | the chunk limit is the ceiling of result limit over chunk size |
| `ResultTransfer.ChunkCountBounded` | cognis/api/controller_ws.py:205-207 | for every result of at most 32 MiB the chunk-count check never fires |
| `ResultTransfer.SafeIdsFit` | cognis/api/controller_ws.py:227-237 | for call ids of at most 16000 serialised bytes every chunk frame stays below 256 KiB |
| `ResultTransfer.PayloadsEncodeWhole` | cognis/api/controller_ws.py:220-226 | the concatenated payload texts are the base64 of the whole result |
| `ResultTransfer.ReceiverSound` | cognis/providers/executor/forwarding.py:294-419 | whatever frames arrive, a delivered result is the concatenation of the received chunks, with the declared length and digest, and canonical |
| `ResultTransfer.ReceiverBounded` | cognis/providers/executor/forwarding.py:294-372 | whatever frames arrive, the receiver assembles no more than the chunk, size and budget limits allow |
| `ResultTransfer.TransferRoundTrip` | cognis/providers/executor/forwarding.py:294-419 | the sender's frames make the receiver deliver the very bytes |
| `ResultTransfer.TransferResult` | cognis/api/controller_ws.py:191-247 | the frames the sender really returns, in one frame or in chunks, make the receiver deliver the very bytes, for at most 32 MiB and call ids of at most 16000 serialised bytes |
| `Bridge.CallTableSafety` | cognis/api/controller_ws.py:525-545 | in every reachable state live calls have different ids, there are at most `BRIDGE_MAX_CALLS`, and each call has at most one terminal frame on the wire |
| `Bridge.AcceptedIffFired` | cognis/api/controller_ws.py:294-321 | the accepted flag of a call is set exactly when `on_sent` fired for it |
| `Bridge.DeliveryHonesty` | cognis/api/controller_ws.py:422-523 | a bridge-local error says `not_sent` only if `on_sent` never fired and `accepted_unknown` only if it did |
| `Bridge.TeardownSplits` | cognis/api/controller_ws.py:574-597 | in every run, at teardown, a call that has not ended is detached exactly when `on_sent` fired for it and it was recognised as a tool call, and from then on no step requests its cancellation; every other such call is cancel-requested |
| `Bridge.TeardownIsComplete` | cognis/api/controller_ws.py:575-576 | every call that has not ended is in the table teardown looks at |
| `Bridge.CancelRequestedIff` | cognis/api/controller_ws.py:545-553 | in every run, before teardown, the cancellation of a call is requested exactly if a cancel frame for it took effect |
| `Bridge.CancelFrameTakesEffect` | cognis/api/controller_ws.py:545-553 | a cancel frame on a call of the table requests its cancellation at once if the executor does not know the call, and captures it otherwise; no other call is touched |
| `Bridge.ForwardedCancelTakesEffect` | cognis/api/controller_ws.py:549-553 | once the cancellation was forwarded, the captured call is cancel-requested unless it ended, and no other is touched |
| `Bridge.CapturedByFrame` | cognis/api/controller_ws.py:545-552 | the loop waits only for a call that a cancel frame named, and handles no other frame meanwhile |
| `Bridge.ArrivedCancelIsReported` | cognis/api/controller_ws.py:422-443 | a cancellation that arrives at an accepted call is reported as `accepted_unknown` unless the bridge is going down; any other call just ends |
| `Bridge.CallFrameStarts` | cognis/api/controller_ws.py:528-544 | a call frame with a fresh id and room in the table starts a call; no other frame does |
| `Bridge.LoopLeftIff` | cognis/api/controller_ws.py:525-573 | the frame loop is left exactly by a disconnect or a frame that cannot be handled |
| `Bridge.LoopSays` | cognis/api/controller_ws.py:528-573 | the frame loop says exactly this: a refusal for lack of room, and one error frame when it is left by an exception |
| `Bridge.TerminalFrameIff` | cognis/api/controller_ws.py:382-523 | in every run the terminal frames of a call on the wire are exactly those of its completion or sent report |
| `Bridge.TaskMovesOn` | cognis/api/controller_ws.py:294-523 | how each step of a call's task moves it on and what it announces |
| `Bridge.TableHoldsLiveCalls` | cognis/api/controller_ws.py:522-523 | in every reachable state the table holds only live calls, but for calls cancelled before their task took its first step |
| `Bridge.CancelsFrozen` | cognis/api/controller_ws.py:589-597 | after teardown no step changes whether the cancellation of a call is requested |
| `Bridge.ToolIffIdentified` | cognis/api/controller_ws.py:368-370 | a call counts as a tool call exactly when its own task recognised it, and none is detached before teardown |
| `Bridge.RunKeepsInv` | cognis/api/controller_ws.py:249-555 | table, terminal-frame and honesty invariants hold in every state of every run |
| `Bridge.DetachOrCancel` | cognis/api/controller_ws.py:592-597 | the loop over the active calls, in any order, tears down exactly those |
| `Bridge.BridgeSession.OnCallFrame` | cognis/api/controller_ws.py:528-544 | the call branch: an invalid or duplicate id ends the loop, a full table refuses the call (or ends the loop if it cannot say so), else a task is created |
| `Bridge.BridgeSession.OnCancelFrame` | cognis/api/controller_ws.py:545-553 | the cancel branch: a call known to the executor suspends the loop while the cancellation is forwarded, another call in the table is cancel-requested at once |
| `Bridge.BridgeSession.OnCancelForwarded` | cognis/api/controller_ws.py:549-553 | when the executor was told, the captured task is cancel-requested unless it ended meanwhile; if telling it raised, the loop is left |
| `Bridge.BridgeSession.OnCallSent` | cognis/api/controller_ws.py:294-321 | `on_sent` sets the flag and announces acceptance |
| `Bridge.BridgeSession.FinishCall` | cognis/api/controller_ws.py:382-419 | a delivered result ends the call and removes it from the table |
| `Bridge.BridgeSession.FailLocally` | cognis/api/controller_ws.py:500-523 | the bridge's own error is reported with the delivery state that the flag dictates |
| `Bridge.BridgeSession.TearDown` | cognis/api/controller_ws.py:574-597 | the teardown block is the teardown step |
| `Reconcile.ReconcileExecutor` | cognis/api/executor_runtime.py:390-701 | the loop follows the legal automaton, returns True exactly in a success phase, and each further iteration is paid for by an environment event (plus one for a given connection), so it terminates; it gives up only for an ineligible row, a missing connection or a stopping act; and when nothing interferes with a usable connection, a served row succeeds without a call, an answering executor ends configured, persisted and marked ready at the desired version, and a raising one ends blocked at the old version |
| `Reconcile.Iterate` | cognis/api/executor_runtime.py:395-701 | the same of one iteration, which repeats only after an event or for a given connection |
| `Reconcile.Prepare` | cognis/api/executor_runtime.py:396-439 | the reads of an iteration; it stops only for an ineligible row, a missing connection or lost ownership, retries only after an event, and otherwise goes on with the row at a version of at least one |
| `Reconcile.ReportAbsence` | cognis/api/executor_runtime.py:426-433 | without a connection a row left reconfiguring is marked stale at its applied version |
| `Reconcile.RaiseVersion` | cognis/api/executor_runtime.py:405-419 | the conditional raise of a version below one fails exactly when the row was deleted or raised since it was read |
| `Reconcile.Choose` | cognis/api/executor_runtime.py:421-439 | only the given or registered connection is worked with, only while it is connected, and only if it owns the executor |
| `Reconcile.TakeFastPath` | cognis/api/executor_runtime.py:441-508 | the fast path succeeds exactly when its fenced write went through, and undisturbed it always does, without a call and leaving the row as it is |
| `Reconcile.Configure` | cognis/api/executor_runtime.py:510-588 | announce, call, and act on the answer; repeating is paid for by an event or by a connection that is no longer registered; undisturbed, the row ends with the answered state at the desired version, or blocked if the call raised |
| `Reconcile.GiveUp` | cognis/api/executor_runtime.py:550-580 | a failed call, which may still have reached the process, repeats exactly when the connection is no longer registered; else the blocked state is written through the fence with the old applied version and False is returned |
| `Reconcile.Conclude` | cognis/api/executor_runtime.py:582-656 | an answer of a connection that is no longer registered changes nothing and repeats; otherwise it goes on to publishing |
| `Reconcile.Publish` | cognis/api/executor_runtime.py:641-656 | the answered version and state are persisted through the fence, else the loop repeats |
| `Reconcile.MarkReady` | cognis/api/executor_runtime.py:657-659 | ownership is checked again after the write |
| `Reconcile.MarkReadyIfRegistered` | cognis/api/executor_runtime.py:660-675 | only the expected connection is marked ready |
| `Reconcile.Reread` | cognis/api/executor_runtime.py:682-692 | success only after a read whose desired version is at most the applied one |
| `ReconcileSafety.ReadyOnlyThroughOwner` | cognis/api/executor_runtime.py:545-675 | on the configure path a connection is marked ready only after it answered with that version, was registered then, the version was persisted while it owned the executor, and it still owned it at a later check |
| `ReconcileSafety.SuccessOnlyWhenCaughtUp` | cognis/api/executor_runtime.py:641-701 | True is reported only after a read where the desired version is at most the version just persisted as applied |
| `ReconcileSafety.StoppedForAReason` | cognis/api/executor_runtime.py:421-701 | a run that stopped did so by an act that found the executor gone, taken over or broken at that moment |
| `ReconcileSafety.RowChangesAreFenced` | cognis/api/executor_runtime.py:884-907 | the loop changes the row only through the fence of its connection, but for raising a version below one and for marking an executor unavailable after finding no connection |
| `ReconcileSafety.UnavailableOnlyWhenAbsent` | cognis/api/executor_runtime.py:423-433 | that unfenced write happens only after the row was read as reconfiguring and the connection to use was found missing or not connected |
| `ReconcileSafety.UnavailableOverwritesIff` | cognis/api/executor_runtime.py:1005-1022 | it takes a serving row out of service exactly when, since the row was read, an owner put it into service and no bump, deletion or owner took it out again |
| `ReconcileSafety.UnavailableUndoesNewOwner` | cognis/api/executor_runtime.py:1005-1022 | a legal run in which it turns the active row of a newer owner at version 3 into a stale one at version 1 |
| `ReconcileSafety.HandshakeReadiness` | cognis/api/executor_ws.py:302-337 | under truthful reports and without another reconcile or reload, the handshake's connection is marked ready only if its process runs the persisted applied version, and a process that did not run it at the start has answered a configure call |
| `ReconcileSafety.UnansweredRunInv` | cognis/api/executor_runtime.py:421-580 | without an answer from the connection, whatever the loop believes of its process was so at the start, failed calls notwithstanding |
| `ReconcileSafety.ResetRuntimeState` | cognis/api/executor_ws.py:302-326 | after the reset a serving row tells the truth about the process; undisturbed, the row resumes exactly when process, desired and applied version agree, and is offline otherwise |
| `ReconcileSafety.Handshake` | cognis/api/executor_ws.py:302-337 | reset and reconcile together justify every act that marks the connection ready; undisturbed, a process that resumes becomes ready without a configure call and any other is configured at the desired version or the failure is persisted |
| `Scheduler.RunsNeverOverlap` | cognis/api/executor_runtime.py:195-256 | run bodies for one key never overlap |
| `Scheduler.RunsBoundedByRequests` | cognis/api/executor_runtime.py:195-256 | runs, and a pending request, are never more than the requests |
| `Scheduler.NoRequestForgotten` | cognis/api/executor_runtime.py:259-313 | every request is outstanding, followed by the start of a run, or lost to a cancelled run |
| `Scheduler.ServedAtQuiescence` | cognis/api/executor_runtime.py:259-313 | when nothing runs for the key and no run was cancelled, every request was followed by a run that started after it |
| `Scheduler.NewTaskIff` | cognis/api/executor_runtime.py:203-256 | a new run is scheduled exactly for a request that finds none live and for a request pending at the end of a run that was not cancelled |
| `Scheduler.PendingIff` | cognis/api/executor_runtime.py:203-254 | a request is pending exactly if it came while a run was live and no run of the key has ended since |
| `Scheduler.StatusStep` | cognis/api/executor_runtime.py:216-256 | a task runs exactly from its start to its end |
| `Scheduler.CoalescingScheduler.ScheduleRun` | cognis/api/executor_runtime.py:195-256 | a request starts a task or becomes pending behind the one that is not done |
| `Scheduler.CoalescingScheduler.EndRun` | cognis/api/executor_runtime.py:246-254 | the `finally` removes its own entry and honours a pending request unless it was cancelled |
| `MfaBudget.LimitedIffRefused` | cognis/mfa.py:189-235 | in every state the read-only check says limited exactly when a reservation at that instant would be refused |
| `MfaBudget.WindowGrants` | cognis/mfa.py:203-231 | each budget window grants its first attempts up to the limit and no more |
| `MfaBudget.IntervalGrants` | cognis/mfa.py:203-231 | any half-open interval of one window length grants at most twice the limit minus one |
| `MfaBudget.IntervalGrantsIsTight` | cognis/mfa.py:203-231 | a run that reaches that bound |
| `MfaBudget.OverLimitNeedsNewWindow` | cognis/mfa.py:203-231 | an interval of one window length grants more than the limit only if a budget window starts strictly inside it |
| `MfaBudget.RefusalKeepsWindow` | cognis/mfa.py:203-231 | a refused attempt never extends the window |
| `MfaBudget.AttemptBudgets.AttemptsLimited` | cognis/mfa.py:189-200 | the check reads and predicts the reservation |
| `MfaBudget.AttemptBudgets.ReserveAttempt` | cognis/mfa.py:203-231 | the upsert writes exactly the caller's row and tells whether the attempt is granted |
| `MfaBudget.ShortRunsAreGranted` | cognis/mfa.py:203-231 | a run of at most `MFA_ATTEMPT_LIMIT` attempts that starts without a row is granted as a whole, whenever the attempts come |
| `MfaBudget.AttemptBudgets.ClearAttempts` | cognis/mfa.py:234-235 | after a clear the user's next `MFA_ATTEMPT_LIMIT` attempts are granted whenever they come, and no other user is affected |
| `MfaChallenges.AttemptsBounded` | cognis/mfa.py:167-186 | over every run attempts never exceed the challenge's maximum |
| `MfaChallenges.ReserveSucceedsIff` | cognis/mfa.py:167-186 | in every run a reservation succeeds exactly while the challenge is neither expired, closed nor revoked and fewer than the maximum succeeded before |
| `MfaChallenges.ReservesCounted` | cognis/mfa.py:167-186 | successful reservations of a challenge are at most the maximum and are what its row counts |
| `MfaChallenges.ConsumeSucceedsIff` | cognis/mfa.py:258-277 | in every run a consumption succeeds exactly while the challenge is neither expired, closed nor revoked |
| `MfaChallenges.LifeHolds` | cognis/mfa.py:86-186 | the row of a challenge tells its creation and everything that happened to it since, or it is gone for expiry or revocation |
| `MfaChallenges.DeletionsAreExact` | cognis/mfa.py:117-140 | cleanup deletes its whole batch, a reset all challenges of the user, and nothing else deletes one |
| `MfaChallenges.ConsumedOnce` | cognis/mfa.py:258-277 | over every run a challenge is consumed at most once |
| `MfaChallenges.RevocationIsFinal` | cognis/mfa.py:404-426 | a challenge from before a revocation is never live, reserved or consumed afterwards |
| `MfaChallenges.CleanupSparesLive` | cognis/mfa.py:117-140 | cleanup deletes no challenge that is live or could still be consumed, and at most its limit |
| `MfaChallenges.RetentionImpliesExpired` | cognis/mfa.py:117-140 | in every reachable state a challenge past the retention cutoff has already expired |
| `MfaChallenges.TokenAcceptedIff` | cognis/api/authentication.py:29-67 | in every run a token issued at the version current in one state authenticates in a later state exactly when its user is active and was not revoked in between |
| `MfaChallenges.AuthenticatedIff` | cognis/api/authentication.py:29-67 | a token is accepted exactly if it is a valid access token of a known, active user at the version of the user, a missing version counting as zero |
| `MfaChallenges.TokenRevocationIsFinal` | cognis/api/authentication.py:52-58 | in every run a token from before a revocation is rejected in every later state |
| `MfaChallenges.ChallengeTable.ReserveAttempt` | cognis/mfa.py:167-186 | the guarded increment succeeds exactly on a live challenge, raises its counter by one and changes only it |
| `MfaChallenges.ChallengeTable.ConsumeChallenge` | cognis/mfa.py:258-277 | the guarded update succeeds exactly on a consumable challenge and changes only it |
| `MfaChallenges.ChallengeTable.InvalidateOtherSetups` | cognis/mfa.py:238-255 | exactly the user's other open setup challenges are closed |
| `MfaChallenges.ChallengeTable.RevokeUser` | cognis/mfa.py:416-418 | the user's version grows by one and nothing else changes |
| `MfaFactor.CountersIncrease` | cognis/mfa.py:291-326 | over every run accepted TOTP counters grow strictly from the activation counter and lie within one step of the clock (section 5.2 of RFC 6238) |
| `MfaFactor.NoCounterTwice` | cognis/mfa.py:302-326 | no counter is accepted twice, the activation counter included |
| `MfaFactor.AcceptedCodesAreGenuine` | cognis/mfa.py:291-326 | in every run each accepted counter was accepted for an attempt at that time whose six digits are the TOTP code of that counter |
| `MfaFactor.VerifySucceedsIff` | cognis/mfa.py:291-358 | a verification succeeds exactly with a matching TOTP code or an unused recovery code of an activated account |
| `MfaFactor.NormalizeMeans` | cognis/mfa.py:73-74 | blanks around a recovery code, its case and its hyphens do not matter, everything else does |
| `MfaFactor.SuccessSpendsOneThing` | cognis/mfa.py:345-358 | a success either advances the counter or spends exactly one unused recovery code, never both |
| `MfaFactor.RefusedAttemptsChangeNothing` | cognis/mfa.py:329-358 | in every run, under the unique constraint on the hash, a refused attempt leaves the account as it was |
| `MfaFactor.NoRecoveryCodeTwice` | cognis/mfa.py:329-342 | in every run no recovery code is accepted twice, however it is spelled and whatever happens in between |
| `MfaFactor.RunKeepsValid` | cognis/store/models.py:513-520 | verifications keep the unique constraint on recovery-code hashes |
| `MfaFactor.MfaAccount.VerifyTotp` | cognis/mfa.py:291-326 | accepts exactly when the code is six digits, is the TOTP code of the current step, the one before or the one after, and the first such counter in that order is newer than the last accepted one; then that counter is stored |
| `MfaFactor.MfaAccount.UseRecoveryCode` | cognis/mfa.py:329-342 | succeeds exactly when an unused code has the hash of the normalised text; then that one code is spent and no other row changes; otherwise nothing changes |
| `MfaFactor.MfaAccount.VerifyTotpOrRecovery` | cognis/mfa.py:345-358 | succeeds exactly with a matching TOTP code, tried first, or an unused recovery code of an activated account |
| `EntityTags.MatchesIsWeakComparison` | cognis/api/compression.py:58-62 | for every list of entity tags, commas inside them included, and every own tag without comma or quote (a hex digest), the header matches exactly when some tag equals ours under weak comparison (sections 8.8.3.2 and 13.1.2 of RFC 9110) |
| `EntityTags.StarMatches` | cognis/api/compression.py:59-60 | a lone `*` matches every tag |
| `EntityTags.TornItemMisses` | cognis/api/compression.py:61 | a tag that the split tears apart at an inner comma matches nothing |
| `HeaderFields.ValuesOfSet` | cognis/api/compression.py:118-120 | assigning a header leaves exactly that value under its name and every value of every other name |
| `Compression.ResponsePreserved` | cognis/api/compression.py:92-218 | every well-formed response comes out well-formed: an empty 304 exactly when it revalidates, else one gzip body that decodes to the original exactly when it shrinks, else the same stream message by message under the same status |
| `Compression.StreamIsUntouched` | cognis/api/compression.py:113-116 | a response of more than one body message passes both filters unchanged |
| `Compression.RewritesFrontOnly` | cognis/api/compression.py:167-218 | a filter rewrites the start and the first body message and forwards everything after as it is |
| `Compression.RevalidationRoundTrip` | cognis/api/compression.py:117-134 | a client that sends back the tag it was given gets the 304 exactly when the two bodies have the same hash, whether or not the first answer was compressed |
| `Compression.NotModifiedIffListed` | cognis/api/compression.py:117-134 | for every list of entity tags in `If-None-Match`, a taggable response becomes a 304 exactly when the list holds a tag weakly equal to that of its body |
| `Compression.TagSurvivesGzip` | cognis/api/compression.py:213-214 | the tag of a response is that of its own body, compressed or not |
| `Compression.OwnTagIsWeakened` | cognis/api/compression.py:213-214 | compression makes a tag of the application weak and leaves it the same under weak comparison |
| `Compression.SkipsIff` | cognis/api/compression.py:94-104 | conditional GET applies exactly to 200 JSON responses without tag and cache header, gzip exactly to unencoded responses of a compressible type other than 204 and 304 |
| `Compression.EncodedMeans` | cognis/api/compression.py:205-214 | the header of a compressed body: gzip encoding, its exact length, a weak tag equal to the old one under weak comparison, every other field kept |
| `Compression.AddVaryMeans` | cognis/api/compression.py:206-206 | the first `Vary` value is extended, further ones are dropped, all other fields kept |
| `Compression.VaryKeptIff` | cognis/api/compression.py:117-216 | the exact condition under which a response keeps its `Vary`: for an answer with 304, that it had none or `Accept-Encoding` alone; for any other, that it had at most one such field or gzip does not edit its head |
| `Compression.NotModifiedLosesVary` | cognis/api/compression.py:121-132 | a JSON list under `Vary: Origin` asked for with `If-None-Match: *` is answered with 304 and without `Origin` |
| `Compression.SecondVaryIsLost` | cognis/api/compression.py:206-206 | a response under `Vary: Origin` and `Vary: Cookie` leaves with the first only |
| `Compression.ConditionalReorders` | cognis/api/compression.py:105-109 | with other messages before the body, conditional GET starts its output with the start exactly when there are none or it did not hold the start |
| `Compression.OtherOvertakesStart` | cognis/api/compression.py:105-109 | a JSON start, a message of another kind, and a body: the message leaves first |
| `Compression.GzipKeepsOrder` | cognis/api/compression.py:186-191 | gzip gives up the held start, unchanged, to the first message of another kind |
| `Compression.SendWrapper.Send` | cognis/api/compression.py:92-218 | one call of either `send_wrapper` is one step of the transducer, in its new state and in what it sends on |
| `Compression.SendWrapper.SendTagged` | cognis/api/compression.py:117-134 | tagging and revalidation of a complete body |
| `Compression.SendWrapper.SendCompressed` | cognis/api/compression.py:196-216 | compression of a complete body |
| `Compression.ServeStacked` | cognis/api/compression.py:92-218 | piping each message through both wrappers equals the composition of the two filters |
| `Cursor.CursorRoundTrip` | cognis/api/common.py:260-274 | decoding a cursor gives back the payload for every payload; a JSON null reads as no cursor |
| `Cursor.PaginateItems` | cognis/api/common.py:284-307 | the page for every cursor and every limit: malformed cursor, payload without an id, unknown id, and the slice after the first item with the id |
| `Cursor.PageAtMeans` | cognis/api/common.py:300-307 | for limits of at least one the page is the next `limit` items, and a cursor is given exactly when more follow |
| `Cursor.WalkVisitsAll` | cognis/api/common.py:284-307 | following cursors visits every item once, in order, in ceil(n / limit) pages (one page for an empty list) |
| `Cursor.FollowCursors` | cognis/api/common.py:284-307 | a client that follows the cursors comes to an end after ceil(n / limit) pages and has seen every item once, in order |
| `Cursor.WalkIsExactIff` | cognis/api/common.py:293-305 | a walk that ends visits exactly the list if and only if no full page ends at an id that occurs earlier |
| `Cursor.WalkBounded` | cognis/api/common.py:284-307 | then no walk goes on for ever |
| `Cursor.UniqueIdsAreFresh` | cognis/api/common.py:293-305 | unique ids meet the condition for every limit |
| `Cursor.RepeatedIdsNeverEnd` | cognis/api/common.py:293-305 | three items under one id with limit one: the walk never ends |
| `Cleanup.Database.Cleanup` | scripts/cleanup_work_projections.py:24-61 | each refusal under its exact condition; a dry run changes nothing; applying performs one pass; the report counts the retired rows found and the rows each table really lost |
| `Cleanup.Database.VisitTable` | scripts/cleanup_work_projections.py:31-58 | counting and, when applying, deleting from one table |
| `Cleanup.Database.DeleteBatch` | scripts/cleanup_work_projections.py:36-57 | the delete takes the first keys among the deletable rows, at most a batch, and reports how many |
| `Cleanup.LowestFirst` | scripts/cleanup_work_projections.py:47-49 | a smaller key is never passed over |
| `Cleanup.PassIsBounded` | scripts/cleanup_work_projections.py:31-57 | a pass removes at most a batch per table, only rows of named versions, never a record that a remaining file row refers to, and keeps referential integrity |
| `Cleanup.PassesReachLimit` | scripts/cleanup_work_projections.py:31-60 | enough passes reach exactly the store without retired rows, but for records that files of unnamed versions hold on to |
| `Cleanup.RetiredRecordsClearIff` | scripts/cleanup_work_projections.py:37-46 | a retired record survives exactly when a file row of an unnamed version refers to it |
| `Cleanup.HeldRecordStays` | scripts/cleanup_work_projections.py:37-46 | however often the cleanup is repeated, a record that a file row of an unnamed version refers to stays |
| `Cleanup.DefaultVersionKeepsRecord` | cognis/store/models.py:1249-1251 | a store with a file row at the default empty version, whose retired record survives every run |
| `Cleanup.AgreeingVersionsClear` | scripts/cleanup_work_projections.py:31-60 | if file rows carry their record's version, ceil(F/b) + ceil(R/b) passes (and ceil(C/b), ceil(P/b)) clear every retired row of every table |
| `Watchdog.RunWatchdog` | scripts/watch_statefulset_rollout.py:234-274 | 0 exactly when some sample before the deadline is safe and complete with no earlier run of `failure_threshold` bad samples and no earlier uncaught error; death without a rollback exactly when an uncaught error comes first; otherwise exactly one rollback request; rejected arguments; termination |
| `Watchdog.UncaughtErrorEndsWatch` | scripts/watch_statefulset_rollout.py:252-258 | a first sample that raises anything but the caught errors ends the script without a rollback |
| `Watchdog.ExecuteRollback` | scripts/watch_statefulset_rollout.py:179-208 | 2 exactly when the request was accepted and a check before the deadline verified completion before any uncaught error; 3 for a refused or unverified rollback; death by an uncaught error otherwise |
| `Watchdog.StreakIsBadRun` | scripts/watch_statefulset_rollout.py:259-267 | the counter of consecutive failures reaches a threshold exactly when the last that many samples are all bad |
| `Watchdog.SuccessIsServing` | scripts/watch_statefulset_rollout.py:33-41 | a success is reported exactly for the target image on at least two replicas, all ready and updated, with a ready endpoint and a 2xx answer |
| `Watchdog.SafeIff` | scripts/watch_statefulset_rollout.py:104-116 | a sample is safe exactly with at least two replicas, at most one of them unavailable, a ready endpoint and a 2xx answer |
| `EagerChunks.CollectAll` | ui/vite.standalone.config.ts:11-22 | the collected set is exactly the chunks reachable from entries through static imports, for every order of outputs and with cyclic or missing imports |
| `EagerChunks.Collector.CollectEagerChunks` | ui/vite.standalone.config.ts:12-18 | terminates; adds only chunks reachable from the given file, the file itself if it is a chunk, and leaves no chunk imported by a new one unvisited |
| `EagerChunks.PathStaysInside` | ui/vite.standalone.config.ts:17 | a set closed under imports contains every path that starts in it |

## Left out

- asyncio itself: tasks, shields, locks and semaphores appear only through the steps they allow; fairness and timing are not modelled.
- SQL, network and file access: statements are guarded updates of row maps; transactions of one statement sequence are atomic.
- Cryptography, hashing, gzip and JSON: arbitrary functions, with an inverse law where one is used.
- RateLimiter.RequestRateLimiter.Allow: times are integers, the map is keyed by user and kind (see `StateKeyInjective`), and upper-casing is that of ASCII.
- Reconcile.TakeFastPath: marking ready on the fast path marks whatever connection is registered at that moment; the readiness theorems therefore speak of the configure path and of the handshake's own connection.
- ReconcileSafety.HandshakeReadiness: assumes that executors report truthfully and that no other reconcile or credential reload of the same executor interleaves; without these the code promises no such thing.
- Reconcile.ReconcileExecutor: payload building, metadata merging and the retries of timed-out MCP servers are not part of the model; the iteration bound counts a misreported version as an event.
- Bridge.BridgeSession.FailLocally: the class performs the steps listed in the table; the remaining handlers of `run_call` (executor errors, timeouts, cancellation) are steps of the state machine only.
- Bridge.TeardownSplits: the time-limited waiting for cancelled calls and the cancellation of inference requests at teardown are not modelled.
- Bridge.CallTableSafety: a send either delivers its frame or fails as a whole.
- ResultTransfer.SendResult: the size of the unchunked frame is a parameter; only chunk frames are written out as JSON text.
- ResultTransfer.ReceiverSound: the receiver's assembly is modelled on values; its timeout, and the budget shared between calls, are parameters.
- MfaChallenges.TokenAcceptedIff: which users are active is a parameter, and signature, audience and expiry of a token are checked before the model begins.
- MfaChallenges.RevocationIsFinal: the `revoked_at` columns of browser and native sessions are not modelled, only the version that tokens and challenges carry.
- MfaFactor.NoRecoveryCodeTwice: a run is about one set of recovery codes; replacing the set is not part of it.
- MfaFactor.CountersIncrease: codes of a time step are an arbitrary function of secret and counter; digits outside ASCII are not modelled.
- Compression.ResponsePreserved: whether a request is a conditional GET and whether it accepts gzip are inputs; parsing `Accept-Encoding` is not modelled, and header lists are values although the filters edit the message's own list.
- Compression.SendWrapper.Send: the compressible types and the minimum size are parameters, so the theorems hold for every choice of them; header names are compared as names, without the raw bytes behind them.
- Cursor.CursorRoundTrip: Python's base64 decoder skips characters outside the alphabet; here they make a cursor malformed.
- Cleanup.Database.Cleanup: keys are represented by their place in the database's key order, and the four tables change only through the script between the passes of a run.
- Watchdog.RunWatchdog: clock readings at loop heads are at least an interval apart, as the sleeps ensure; reading Kubernetes and the health URL are inputs, of which only the class of error matters.
- EagerChunks.CollectAll: the dependency policy that is applied to the chunks afterwards is not modelled.
- Everything else in the repository: bootstrap of other columns, configuration, API projections, packaging, user interface.
