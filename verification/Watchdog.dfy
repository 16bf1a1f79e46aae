/**
 The rollout watchdog: it samples a rolling update until the update completes, until too many
 samples in a row are bad, or until the deadline; in the last two cases it requests one rollback
 and verifies it.  Clock readings and observations are functions of the loop index.
 */
module Watchdog {
  import opened Options

  datatype RolloutState = RolloutState(
    replicas: int, readyReplicas: int, updatedReplicas: int, readyEndpoints: int,
    currentRevision: string, updateRevision: string, image: string)
  {
    function UnavailableReplicas(): int {
      if replicas - readyReplicas > 0 then replicas - readyReplicas else 0
    }

    predicate IsComplete(targetImage: string) {
      && image == targetImage && replicas > 0
      && readyReplicas == replicas && updatedReplicas == replicas
      && currentRevision != "" && currentRevision == updateRevision
    }
  }

  datatype Reason =
    | TooFewReplicas | TooManyUnavailable | NoReadyEndpoint | Http503 | HttpStatus(status: int) | SampleFailed

  function UnsafeReason(state: RolloutState, httpStatus: int): Option<Reason> {
    if state.replicas < 2 then Some(TooFewReplicas)
    else if state.UnavailableReplicas() > 1 then Some(TooManyUnavailable)
    else if state.readyEndpoints < 1 then Some(NoReadyEndpoint)
    else if httpStatus == 503 then Some(Http503)
    else if httpStatus < 200 || httpStatus >= 300 then Some(HttpStatus(httpStatus))
    else None
  }

  /**
   One round of reading the cluster and the health URL.  It may raise an error that the script
   catches (OSError, SubprocessError, ValueError) or one that ends the script.
   */
  datatype Sample = Raised | Escapes | Read(state: RolloutState, httpStatus: int)

  function SampleReason(sample: Sample): Option<Reason> {
    match sample
    case Raised => Some(SampleFailed)
    case Escapes => Some(SampleFailed)
    case Read(state, httpStatus) => UnsafeReason(state, httpStatus)
  }

  predicate Safe(sample: Sample) {
    SampleReason(sample).None?
  }

  predicate SafeAndComplete(sample: Sample, image: string) {
    Safe(sample) && sample.state.IsComplete(image)
  }

  /** What one verification of a rollback sees. */
  datatype Check =
    | CheckRaised      // caught
    | CheckEscapes     // not caught
    | Checked(targetRevision: string, syncRevision: string, syncStatus: string, health: string,
              rollout: RolloutState, httpStatus: int)

  predicate RollbackIsComplete(check: Check, revision: string) {
    && check.Checked?
    && check.targetRevision == revision && check.syncRevision == revision
    && check.syncStatus == "Synced" && check.health == "Healthy"
    && check.rollout.replicas >= 2 && check.rollout.readyReplicas == check.rollout.replicas
    && check.rollout.currentRevision != "" && check.rollout.currentRevision == check.rollout.updateRevision
    && check.rollout.readyEndpoints >= 1
    && 200 <= check.httpStatus < 300
  }

  datatype Args = Args(
    failureThreshold: int, interval: real, httpTimeout: real, rolloutTimeout: real, rollbackTimeout: real,
    image: string, revision: string)
  {
    predicate Rejected() {
      failureThreshold < 1 || interval <= 0.0 || httpTimeout <= 0.0 || rolloutTimeout <= 0.0 || rollbackTimeout <= 0.0
    }
  }

  /** Readings of a monotonic clock at the loop heads, with a sleep of `interval` in between. */
  ghost predicate Ticks(clock: nat -> real, interval: real) {
    forall i: nat :: clock(i) + interval <= clock(i + 1)
  }

  /** The command that requests the rollback exits with a code, or cannot be run. */
  datatype Patch = PatchExit(code: int) | PatchEscapes

  /** Everything the script observes. */
  datatype World = World(
    started: real, clock: nat -> real, sample: nat -> Sample,
    patch: Patch, rollbackStarted: real, rollbackClock: nat -> real, check: nat -> Check)

  /** How the script ends, and how many rollbacks it has requested by then. */
  datatype Outcome = ValueError | Exit(code: int, rollbacks: nat) | Escaped(rollbacks: nat)

  lemma {:induction false} ClockGrows(clock: nat -> real, interval: real, i: nat, j: nat)
    requires Ticks(clock, interval) && interval > 0.0 && i <= j
    ensures clock(i) <= clock(j)
    decreases j
  {
    if i < j {
      ClockGrows(clock, interval, i, j - 1);
      assert clock(j - 1) + interval <= clock(j - 1 + 1);
    }
  }

  // ---------------------------------------------------------------------------
  // When a watch succeeds
  // ---------------------------------------------------------------------------

  /** The `threshold` samples before sample `j` are all unsafe or failed. */
  ghost predicate BadRun(sample: nat -> Sample, j: nat, threshold: int) {
    threshold <= j && forall i: nat :: j - threshold <= i < j ==> !Safe(sample(i))
  }

  ghost predicate InTime(world: World, args: Args, i: nat) {
    && world.clock(i) < world.started + args.rolloutTimeout
    && forall j: nat :: j <= i ==> !BadRun(world.sample, j, args.failureThreshold)
  }

  /** Sample `i` is safe and complete, in time, and no earlier one ended the script. */
  ghost predicate Succeeds(world: World, args: Args, i: nat) {
    && InTime(world, args, i) && SafeAndComplete(world.sample(i), args.image)
    && forall j: nat :: j < i ==> !world.sample(j).Escapes?
  }

  /** Sample `i` raises an error nobody catches, in time, and no earlier one completed the watch. */
  ghost predicate Crashes(world: World, args: Args, i: nat) {
    && InTime(world, args, i) && world.sample(i).Escapes?
    && forall j: nat :: j < i ==> !SafeAndComplete(world.sample(j), args.image)
  }

  ghost predicate CheckInTime(world: World, args: Args, k: nat) {
    world.rollbackClock(k) < world.rollbackStarted + args.rollbackTimeout
  }

  ghost predicate Verified(world: World, args: Args, k: nat) {
    && CheckInTime(world, args, k) && RollbackIsComplete(world.check(k), args.revision)
    && forall j: nat :: j < k ==> !world.check(j).CheckEscapes?
  }

  ghost predicate CheckCrashes(world: World, args: Args, k: nat) {
    && CheckInTime(world, args, k) && world.check(k).CheckEscapes?
    && forall j: nat :: j < k ==> !RollbackIsComplete(world.check(j), args.revision)
  }

  /** How a requested rollback ends: verified, not verified in time, refused, or by an error nobody catches. */
  ghost predicate RollbackEnds(world: World, args: Args, outcome: Outcome) {
    if world.patch.PatchEscapes? then outcome == Escaped(1)
    else if world.patch.code != 0 then outcome == Exit(3, 1)
    else if exists k: nat :: CheckCrashes(world, args, k) then outcome == Escaped(1)
    else if exists k: nat :: Verified(world, args, k) then outcome == Exit(2, 1)
    else outcome == Exit(3, 1)
  }

  /** The number of bad samples in a row just before sample `i`. */
  function Streak(sample: nat -> Sample, i: nat): nat {
    if i == 0 || Safe(sample(i - 1)) then 0 else Streak(sample, i - 1) + 1
  }

  lemma {:induction false} StreakIsBadRun(sample: nat -> Sample, i: nat, threshold: int)
    requires threshold >= 1
    ensures Streak(sample, i) >= threshold <==> BadRun(sample, i, threshold)
    ensures Streak(sample, i) <= i
  {
    if i > 0 {
      if Safe(sample(i - 1)) {
        assert Streak(sample, i) == 0;
      } else if threshold > 1 {
        StreakIsBadRun(sample, i - 1, threshold - 1);
        if BadRun(sample, i, threshold) {
          assert BadRun(sample, i - 1, threshold - 1);
        }
      } else {
        StreakIsBadRun(sample, i - 1, 1);
      }
    }
  }

  /**
   The whole script.  It exits with 0 exactly when some sample before the deadline is safe and
   complete with no earlier run of `failureThreshold` bad samples and no earlier uncaught error.
   It dies without a rollback exactly when an uncaught error comes before all that.  In every
   other case it requests exactly one rollback.
   */
  method RunWatchdog(args: Args, world: World) returns (outcome: Outcome)
    requires Ticks(world.clock, args.interval) && Ticks(world.rollbackClock, args.interval)
    ensures outcome == ValueError <==> args.Rejected()
    ensures !args.Rejected() ==> (outcome == Exit(0, 0) <==> exists i: nat :: Succeeds(world, args, i))
    ensures !args.Rejected() ==> (outcome == Escaped(0) <==> exists i: nat :: Crashes(world, args, i))
    ensures !args.Rejected() && outcome != Exit(0, 0) && outcome != Escaped(0) ==> RollbackEnds(world, args, outcome)
  {
    if args.Rejected() {
      return ValueError;
    }
    var deadline := world.started + args.rolloutTimeout;
    var consecutiveFailures, i := 0, 0;
    while world.clock(i) < deadline
      invariant consecutiveFailures == Streak(world.sample, i) < args.failureThreshold
      invariant forall j: nat :: j <= i ==> !BadRun(world.sample, j, args.failureThreshold)
      invariant forall j: nat :: j < i ==> !world.sample(j).Escapes? && !SafeAndComplete(world.sample(j), args.image)
      decreases (deadline - world.clock(i)) / args.interval
    {
      var sample := world.sample(i);
      assert InTime(world, args, i);
      if sample.Escapes? {
        assert Crashes(world, args, i);
        OneEnd(world, args, i);
        return Escaped(0);
      }
      var reason := SampleReason(sample);
      if reason.Some? {
        consecutiveFailures := consecutiveFailures + 1;
        StreakIsBadRun(world.sample, i + 1, args.failureThreshold);
        if consecutiveFailures >= args.failureThreshold {
          NothingTakenAfter(world, args, i + 1);
          outcome := ExecuteRollback(args, world);
          return;
        }
      } else {
        consecutiveFailures := 0;
        if sample.state.IsComplete(args.image) {
          assert Succeeds(world, args, i);
          OneEnd(world, args, i);
          return Exit(0, 0);
        }
        StreakIsBadRun(world.sample, i + 1, args.failureThreshold);
      }
      OneTickLess(deadline, world.clock(i), world.clock(i + 1), args.interval);
      i := i + 1;
    }
    NothingTakenAfter(world, args, i);
    outcome := ExecuteRollback(args, world);
  }

  /** Once the watch has given up before sample `i`, no sample ends it any more. */
  lemma NothingTakenAfter(world: World, args: Args, i: nat)
    requires Ticks(world.clock, args.interval) && args.interval > 0.0
    requires forall j: nat :: j < i ==> !world.sample(j).Escapes? && !SafeAndComplete(world.sample(j), args.image)
    requires BadRun(world.sample, i, args.failureThreshold) || world.clock(i) >= world.started + args.rolloutTimeout
    ensures !exists k: nat :: Succeeds(world, args, k)
    ensures !exists k: nat :: Crashes(world, args, k)
  {
    forall k: nat ensures !Succeeds(world, args, k) && !Crashes(world, args, k) {
      if k >= i {
        ClockGrows(world.clock, args.interval, i, k);
      }
    }
  }

  /** A watch that sample `i` ends is not ended by another one. */
  lemma OneEnd(world: World, args: Args, i: nat)
    requires Succeeds(world, args, i) || Crashes(world, args, i)
    ensures Crashes(world, args, i) ==> !exists k: nat :: Succeeds(world, args, k)
    ensures Succeeds(world, args, i) ==> !exists k: nat :: Crashes(world, args, k)
  {
    forall k: nat ensures Crashes(world, args, i) ==> !Succeeds(world, args, k)
                  ensures Succeeds(world, args, i) ==> !Crashes(world, args, k) {
      assert world.sample(k).Escapes? ==> !SafeAndComplete(world.sample(k), args.image);
    }
  }

  lemma PositiveProduct(x: real, y: real)
    requires y > 0.0
    ensures x > 0.0 ==> x * y > 0.0
  {
  }

  lemma OneTickLess(deadline: real, now: real, later: real, interval: real)
    requires interval > 0.0 && now + interval <= later
    ensures (deadline - later) / interval <= (deadline - now) / interval - 1.0
  {
    var a, b := (deadline - later) / interval, (deadline - now) / interval;
    assert a * interval == deadline - later && b * interval == deadline - now;
    assert (a - b + 1.0) * interval == a * interval - b * interval + interval;
    PositiveProduct(a - b + 1.0, interval);
  }

  /** Requests the rollback, then checks it until it is verified or the deadline passes. */
  method ExecuteRollback(args: Args, world: World) returns (outcome: Outcome)
    requires !args.Rejected() && Ticks(world.rollbackClock, args.interval)
    ensures RollbackEnds(world, args, outcome)
  {
    if world.patch.PatchEscapes? {
      return Escaped(1);
    }
    if world.patch.code != 0 {
      return Exit(3, 1);
    }
    var deadline, k := world.rollbackStarted + args.rollbackTimeout, 0;
    while world.rollbackClock(k) < deadline
      invariant forall j: nat :: j < k ==> !world.check(j).CheckEscapes? && !RollbackIsComplete(world.check(j), args.revision)
      decreases (deadline - world.rollbackClock(k)) / args.interval
    {
      assert CheckInTime(world, args, k);
      if world.check(k).CheckEscapes? {
        assert CheckCrashes(world, args, k);
        return Escaped(1);
      }
      if RollbackIsComplete(world.check(k), args.revision) {
        assert Verified(world, args, k);
        NoCheckCrashes(world, args, k);
        return Exit(2, 1);
      }
      OneTickLess(deadline, world.rollbackClock(k), world.rollbackClock(k + 1), args.interval);
      k := k + 1;
    }
    forall j: nat ensures !Verified(world, args, j) && !CheckCrashes(world, args, j) {
      if j >= k {
        ClockGrows(world.rollbackClock, args.interval, k, j);
      }
    }
    return Exit(3, 1);
  }

  lemma NoCheckCrashes(world: World, args: Args, k: nat)
    requires Verified(world, args, k)
    ensures !exists j: nat :: CheckCrashes(world, args, j)
  {
    forall j: nat ensures !CheckCrashes(world, args, j) {
      if j < k {
        assert !world.check(j).CheckEscapes?;
      }
    }
  }

  /** A first sample with an uncaught error, such as an answer that is not HTTP, ends the script without a rollback. */
  lemma UncaughtErrorEndsWatch(world: World, args: Args)
    requires !args.Rejected() && world.clock(0) == world.started && world.sample(0) == Escapes
    ensures Crashes(world, args, 0)
  {
  }

  /** A sample is safe exactly if at most one of at least two controllers is down and the service answers. */
  lemma SafeIff(sample: Sample)
    ensures Safe(sample) <==>
              && sample.Read? && sample.state.replicas >= 2 && sample.state.readyReplicas >= sample.state.replicas - 1
              && sample.state.readyEndpoints >= 1 && 200 <= sample.httpStatus < 300
  {
  }

  /** A success is reported exactly for a finished update of the target image that serves traffic. */
  lemma SuccessIsServing(sample: Sample, image: string)
    ensures SafeAndComplete(sample, image) <==>
              && sample.Read? && sample.state.image == image && sample.state.replicas >= 2
              && sample.state.readyReplicas == sample.state.replicas == sample.state.updatedReplicas
              && sample.state.currentRevision == sample.state.updateRevision != ""
              && sample.state.readyEndpoints >= 1 && 200 <= sample.httpStatus < 300
  {
    SafeIff(sample);
  }
}
