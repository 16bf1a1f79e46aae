/** The per-user MFA attempt budget: one row per user, updated by a single upsert. */
module MfaBudget {
  import opened Options

  const WINDOW: int := 300
  const LIMIT: int := 5

  /** Times are in seconds. */
  datatype Budget = Budget(attempts: int, windowStart: int)

  /** `mfa_attempts_limited` */
  predicate Limited(row: Option<Budget>, now: int) {
    row.Some? && row.value.windowStart > now - WINDOW && row.value.attempts >= LIMIT
  }

  /** The row written by `reserve_user_mfa_attempt`. */
  function Reserved(row: Option<Budget>, now: int): Budget {
    if row.None? then Budget(1, now)
    else if row.value.windowStart <= now - WINDOW then Budget(1, now)
    else Budget(row.value.attempts + 1, row.value.windowStart)
  }

  predicate Granted(row: Option<Budget>, now: int) {
    Reserved(row, now).attempts <= LIMIT
  }

  /** A user's row after reservations at the given times. */
  function RowAfter(row: Option<Budget>, times: seq<int>): Option<Budget> {
    if times == [] then row
    else Some(Reserved(RowAfter(row, times[..|times| - 1]), times[|times| - 1]))
  }

  class AttemptBudgets {
    var rows: map<string, Budget>

    function Row(user: string): Option<Budget>
      reads this
    {
      if user in rows then Some(rows[user]) else None
    }

    constructor ()
      ensures rows == map[]
    {
      rows := map[];
    }

    method AttemptsLimited(user: string, now: int) returns (limited: bool)
      ensures limited == !Granted(Row(user), now)
    {
      LimitedIffRefused(Row(user), now);
      limited := user in rows && rows[user].windowStart > now - WINDOW && rows[user].attempts >= LIMIT;
    }

    method ReserveAttempt(user: string, now: int) returns (granted: bool)
      modifies this
      ensures granted == old(Granted(Row(user), now)) == old(!Limited(Row(user), now))
      ensures rows == old(rows)[user := Reserved(old(Row(user)), now)]
    {
      LimitedIffRefused(Row(user), now);
      if user !in rows {
        rows := rows[user := Budget(1, now)];
      } else {
        var cutoff := now - WINDOW;
        var attempts := if rows[user].windowStart <= cutoff then 1 else rows[user].attempts + 1;
        var start := if rows[user].windowStart <= cutoff then now else rows[user].windowStart;
        rows := rows[user := Budget(attempts, start)];
      }
      granted := rows[user].attempts <= LIMIT;
    }

    /** The user gets a whole budget again, whenever the attempts come; nobody else is affected. */
    method ClearAttempts(user: string)
      modifies this
      ensures forall times, now :: |times| < LIMIT ==> Granted(RowAfter(Row(user), times), now)
      ensures forall other :: other != user ==> Row(other) == old(Row(other))
    {
      rows := rows - {user};
      forall times, now | |times| < LIMIT ensures Granted(RowAfter(Row(user), times), now) {
        ClearedUserIsServed(times, now);
      }
    }
  }

  /** The read-only check predicts the reservation exactly, in every state. */
  lemma LimitedIffRefused(row: Option<Budget>, now: int)
    ensures Limited(row, now) <==> !Granted(row, now)
  {
  }

  // ---------------------------------------------------------------------------
  // Runs of reservations between two clears
  // ---------------------------------------------------------------------------

  datatype Run = Run(row: Option<Budget>, grants: seq<int>)

  function Attempt(run: Run, now: int): Run {
    Run(Some(Reserved(run.row, now)), if Granted(run.row, now) then run.grants + [now] else run.grants)
  }

  /** Reservations at the given times, starting without a row. */
  function After(times: seq<int>): Run {
    if times == [] then Run(None, [])
    else Attempt(After(times[..|times| - 1]), times[|times| - 1])
  }

  ghost predicate Nondecreasing(times: seq<int>) {
    forall i, j :: 0 <= i < j < |times| ==> times[i] <= times[j]
  }

  /** How many of the times lie in `[from, to)`. */
  function CountIn(times: seq<int>, from: int, to: int): nat {
    if times == [] then 0
    else CountIn(times[..|times| - 1], from, to) + (if from <= times[|times| - 1] < to then 1 else 0)
  }

  /** How many lie in the half-open interval of one window length from `from` on. */
  function CountWindow(times: seq<int>, from: int): nat {
    CountIn(times, from, from + WINDOW)
  }

  lemma CountSnoc(times: seq<int>, t: int, from: int, to: int)
    ensures CountIn(times + [t], from, to) == CountIn(times, from, to) + (if from <= t < to then 1 else 0)
  {
    assert (times + [t])[..|times|] == times;
  }

  lemma {:induction false} CountSplit(times: seq<int>, a: int, b: int, c: int)
    requires a <= b <= c
    ensures CountIn(times, a, c) == CountIn(times, a, b) + CountIn(times, b, c)
  {
    if times != [] {
      CountSplit(times[..|times| - 1], a, b, c);
    }
  }

  lemma {:induction false} CountMonotone(times: seq<int>, a: int, b: int, c: int, d: int)
    requires a <= b && c <= d
    ensures CountIn(times, b, c) <= CountIn(times, a, d)
  {
    if times != [] {
      CountMonotone(times[..|times| - 1], a, b, c, d);
    }
  }

  lemma {:induction false} CountPast(times: seq<int>, from: int, to: int)
    requires forall i :: 0 <= i < |times| ==> times[i] < from
    ensures CountIn(times, from, to) == 0
  {
    if times != [] {
      CountPast(times[..|times| - 1], from, to);
    }
  }

  /** Few grants lie shortly before `s`. */
  ghost predicate Sparse(grants: seq<int>, s: int) {
    forall t :: t > s - WINDOW ==> CountIn(grants, t, s) <= LIMIT - 1
  }

  ghost predicate Bounded(grants: seq<int>) {
    forall t :: CountWindow(grants, t) <= 2 * LIMIT - 1
  }

  /**
   The current budget window granted one attempt per count up to the limit, its first one at
   its very start, and the grants before it are sparse.
   */
  ghost predicate WindowInv(run: Run, now: int) {
    && (forall i :: 0 <= i < |run.grants| ==> run.grants[i] <= now)
    && (run.row.None? ==> run.grants == [])
    && (run.row.Some? ==>
          var s, a := run.row.value.windowStart, run.row.value.attempts;
          && s <= now && a >= 1
          && (forall i :: 0 <= i < |run.grants| ==> run.grants[i] < s + WINDOW)
          && CountIn(run.grants, s, now + 1) == (if a < LIMIT then a else LIMIT)
          && CountIn(run.grants, s, s + 1) >= 1
          && Sparse(run.grants, s))
    && Bounded(run.grants)
  }

  /** The clock moves on without a reservation. */
  lemma LaterKeepsInv(run: Run, now: int, later: int)
    requires WindowInv(run, now) && now <= later
    ensures WindowInv(run, later)
  {
    if run.row.Some? {
      CountSplit(run.grants, run.row.value.windowStart, now + 1, later + 1);
      CountPast(run.grants, now + 1, later + 1);
    }
  }

  /** A new window starts: the grants before it are all from earlier windows, and sparse. */
  lemma NewWindowKeepsInv(run: Run, now: int)
    requires WindowInv(run, now)
    requires run.row.Some? ==> run.row.value.windowStart <= now - WINDOW
    ensures WindowInv(Run(Some(Budget(1, now)), run.grants + [now]), now)
  {
    var grants := run.grants + [now];
    assert CountIn(grants, now, now + 1) == 1 by {
      CountPast(run.grants, now, now + 1);
      CountSnoc(run.grants, now, now, now + 1);
    }
    assert Sparse(grants, now) by {
      NewWindowSparse(run, now);
    }
    assert Bounded(grants) by {
      NewWindowBounded(run, now);
    }
    assert forall i :: 0 <= i < |grants| ==> grants[i] <= now;
  }

  lemma NewWindowSparse(run: Run, now: int)
    requires WindowInv(run, now)
    requires run.row.Some? ==> run.row.value.windowStart <= now - WINDOW
    ensures Sparse(run.grants + [now], now)
  {
    forall t | t > now - WINDOW ensures CountIn(run.grants + [now], t, now) <= LIMIT - 1 {
      CountSnoc(run.grants, now, t, now);
      SparseBefore(run, now, t);
    }
  }

  lemma NewWindowBounded(run: Run, now: int)
    requires WindowInv(run, now)
    requires run.row.Some? ==> run.row.value.windowStart <= now - WINDOW
    ensures Bounded(run.grants + [now])
  {
    forall t ensures CountWindow(run.grants + [now], t) <= 2 * LIMIT - 1 {
      NewWindowInterval(run, now, t);
    }
  }

  lemma NewWindowInterval(run: Run, now: int, t: int)
    requires WindowInv(run, now)
    requires run.row.Some? ==> run.row.value.windowStart <= now - WINDOW
    ensures CountWindow(run.grants + [now], t) <= 2 * LIMIT - 1
  {
    assert CountWindow(run.grants, t) <= 2 * LIMIT - 1;
    CountSnoc(run.grants, now, t, t + WINDOW);
    if t <= now < t + WINDOW {
      SparseBefore(run, now, t);
      CountSplit(run.grants, t, now, t + WINDOW);
      CountPast(run.grants, now, t + WINDOW);
    }
  }

  lemma SparseBefore(run: Run, now: int, t: int)
    requires WindowInv(run, now) && t > now - WINDOW
    requires run.row.Some? ==> run.row.value.windowStart <= now - WINDOW
    ensures CountIn(run.grants, t, now) <= LIMIT - 1
  {
    if run.row.Some? {
      var s := run.row.value.windowStart;
      CountSplit(run.grants, s, s + 1, now + 1);
      CountMonotone(run.grants, s + 1, t, now, now + 1);
    }
  }

  /** One more grant in the current window. */
  lemma GrantKeepsInv(run: Run, now: int)
    requires WindowInv(run, now) && run.row.Some?
    requires run.row.value.windowStart > now - WINDOW && run.row.value.attempts < LIMIT
    ensures WindowInv(Run(Some(run.row.value.(attempts := run.row.value.attempts + 1)), run.grants + [now]), now)
  {
    var s, grants := run.row.value.windowStart, run.grants + [now];
    CountSnoc(run.grants, now, s, now + 1);
    CountSnoc(run.grants, now, s, s + 1);
    forall t ensures t > s - WINDOW ==> CountIn(grants, t, s) <= LIMIT - 1
             ensures CountWindow(grants, t) <= 2 * LIMIT - 1 {
      assert CountWindow(run.grants, t) <= 2 * LIMIT - 1;
      CountSnoc(run.grants, now, t, s);
      CountSnoc(run.grants, now, t, t + WINDOW);
      if t <= now < t + WINDOW {
        FewInInterval(run, now, t);
      }
    }
  }

  lemma FewInInterval(run: Run, now: int, t: int)
    requires WindowInv(run, now) && run.row.Some? && t <= now < t + WINDOW
    requires run.row.value.attempts < LIMIT
    ensures CountIn(run.grants, t, t + WINDOW) <= 2 * LIMIT - 2
  {
    var s := run.row.value.windowStart;
    CountSplit(run.grants, t, now + 1, t + WINDOW);
    CountPast(run.grants, now + 1, t + WINDOW);
    if t < s {
      CountSplit(run.grants, t, s, now + 1);
    } else {
      CountMonotone(run.grants, s, t, now + 1, now + 1);
    }
  }

  lemma AttemptKeepsInv(run: Run, now: int)
    requires WindowInv(run, now)
    ensures WindowInv(Attempt(run, now), now)
  {
    if run.row.None? || run.row.value.windowStart <= now - WINDOW {
      NewWindowKeepsInv(run, now);
    } else if run.row.value.attempts < LIMIT {
      GrantKeepsInv(run, now);
    }
  }

  lemma {:induction false} RunInv(times: seq<int>)
    requires Nondecreasing(times) && times != []
    ensures WindowInv(After(times), times[|times| - 1])
  {
    var front, now := times[..|times| - 1], times[|times| - 1];
    if front != [] {
      RunInv(front);
      LaterKeepsInv(After(front), front[|front| - 1], now);
    }
    AttemptKeepsInv(After(front), now);
  }

  /** Each budget window grants at most `LIMIT` attempts, namely the first ones. */
  lemma WindowGrants(times: seq<int>)
    requires Nondecreasing(times) && times != []
    ensures var run, now := After(times), times[|times| - 1];
            && run.row.Some?
            && CountIn(run.grants, run.row.value.windowStart, now + 1)
               == (if run.row.value.attempts < LIMIT then run.row.value.attempts else LIMIT)
  {
    RunInv(times);
  }

  /**
   Any interval of one window length grants fewer than twice the limit.  The bound is one
   better than two full windows: the first grant of a window is at its start.
   */
  lemma IntervalGrants(times: seq<int>, from: int)
    requires Nondecreasing(times)
    ensures CountWindow(After(times).grants, from) <= 2 * LIMIT - 1
  {
    if times != [] {
      RunInv(times);
    }
  }

  function Same(now: int, n: nat): seq<int> {
    seq(n, _ => now)
  }

  /** Attempts at one instant of an open window are all granted while they fit. */
  lemma {:induction false} OpenWindowGrants(times: seq<int>, now: int, n: nat, row: Budget, grants: seq<int>)
    requires After(times) == Run(Some(row), grants) && row.windowStart > now - WINDOW && row.attempts + n <= LIMIT
    ensures After(times + Same(now, n)) == Run(Some(row.(attempts := row.attempts + n)), grants + Same(now, n))
  {
    if n == 0 {
      assert times + Same(now, 0) == times && grants + Same(now, 0) == grants;
    } else {
      OpenWindowGrants(times, now, n - 1, row, grants);
      var all := times + Same(now, n);
      assert all[..|all| - 1] == times + Same(now, n - 1) && all[|all| - 1] == now;
      assert grants + Same(now, n) == grants + Same(now, n - 1) + [now];
    }
  }

  lemma {:induction false} CountSame(times: seq<int>, now: int, n: nat, from: int, to: int)
    requires from <= now < to
    ensures CountIn(times + Same(now, n), from, to) == CountIn(times, from, to) + n
  {
    if n == 0 {
      assert times + Same(now, 0) == times;
    } else {
      CountSame(times, now, n - 1, from, to);
      CountSnoc(times + Same(now, n - 1), now, from, to);
      assert times + Same(now, n) == times + Same(now, n - 1) + [now];
    }
  }

  /** Four late attempts of one window and the five of the next: the bound is reached. */
  lemma IntervalGrantsIsTight() returns (times: seq<int>)
    ensures Nondecreasing(times) && CountWindow(After(times).grants, 1) == 2 * LIMIT - 1
  {
    times := TightRun();
    CountSame([0], 299, 4, 1, 301);
    CountSnoc([], 0, 1, 301);
    assert [] + [0] == [0];
    CountSame([0] + Same(299, 4), 300, 5, 1, 301);
  }

  lemma TightRun() returns (times: seq<int>)
    ensures times == [0] + Same(299, 4) + Same(300, 5)
    ensures Nondecreasing(times) && After(times).grants == times
  {
    var first := [0] + Same(299, 4);
    assert After([0]) == Run(Some(Budget(1, 0)), [0]);
    OpenWindowGrants([0], 299, 4, Budget(1, 0), [0]);
    assert (first + [300])[..|first|] == first;
    assert After(first + [300]) == Run(Some(Budget(1, 300)), first + [300]);
    OpenWindowGrants(first + [300], 300, 4, Budget(1, 300), first + [300]);
    times := first + [300] + Same(300, 4);
    assert times == first + Same(300, 5);
  }

  /** A refused attempt never extends the window, and the user stays refused until it has passed. */
  lemma RefusalKeepsWindow(row: Option<Budget>, now: int, later: int)
    requires !Granted(row, now)
    ensures row.Some? && Reserved(row, now).windowStart == row.value.windowStart
    ensures now <= later ==>
              (Granted(Some(Reserved(row, now)), later) <==> later >= row.value.windowStart + WINDOW)
  {
  }

  // ---------------------------------------------------------------------------
  // When an interval stays within the limit
  // ---------------------------------------------------------------------------

  /** The attempt opens a new budget window. */
  predicate Opens(row: Option<Budget>, now: int) {
    row.None? || row.value.windowStart <= now - WINDOW
  }

  /** The starts of all budget windows of a run. */
  function Starts(times: seq<int>): seq<int> {
    if times == [] then []
    else
      var front, now := times[..|times| - 1], times[|times| - 1];
      Starts(front) + if Opens(After(front).row, now) then [now] else []
  }

  /** No budget window starts strictly inside the interval of one window length from `from` on. */
  ghost predicate NoStartInside(starts: seq<int>, from: int) {
    forall i :: 0 <= i < |starts| ==> !(from < starts[i] < from + WINDOW)
  }

  lemma {:induction false} CurrentStartListed(times: seq<int>)
    requires times != []
    ensures After(times).row.Some? && After(times).row.value.windowStart in Starts(times)
  {
    var front, now := times[..|times| - 1], times[|times| - 1];
    if !Opens(After(front).row, now) {
      CurrentStartListed(front);
    }
  }

  /** The first grant of a window that starts at `now` finds no other grant at or after it. */
  lemma OpeningIsAlone(run: Run, now: int, from: int)
    requires WindowInv(run, now) && Opens(run.row, now) && from <= now < from + WINDOW && !(from < now)
    ensures CountWindow(run.grants + [now], from) == 1
  {
    CountPast(run.grants, from, from + WINDOW);
    CountSnoc(run.grants, now, from, from + WINDOW);
  }

  /** A further grant of a window that started at or before `from`. */
  lemma GrantWithinWindow(run: Run, now: int, from: int)
    requires WindowInv(run, now) && !Opens(run.row, now) && run.row.value.attempts < LIMIT
    requires run.row.value.windowStart <= from <= now < from + WINDOW
    ensures CountWindow(run.grants + [now], from) <= LIMIT
  {
    var s := run.row.value.windowStart;
    CountSnoc(run.grants, now, from, from + WINDOW);
    CountSplit(run.grants, from, now + 1, from + WINDOW);
    CountPast(run.grants, now + 1, from + WINDOW);
    CountMonotone(run.grants, s, from, now + 1, now + 1);
  }

  lemma OneMoreGrant(run: Run, starts: seq<int>, now: int, from: int)
    requires WindowInv(run, now) && Granted(run.row, now) && NoStartInside(starts, from)
    requires if Opens(run.row, now) then now in starts else run.row.value.windowStart in starts
    requires CountWindow(run.grants, from) <= LIMIT
    ensures CountWindow(run.grants + [now], from) <= LIMIT
  {
    if !(from <= now < from + WINDOW) {
      CountSnoc(run.grants, now, from, from + WINDOW);
    } else if Opens(run.row, now) {
      OpeningIsAlone(run, now, from);
    } else {
      GrantWithinWindow(run, now, from);
    }
  }

  /**
   An interval of one window length grants more than the limit only if a budget window starts
   strictly inside it.
   */
  lemma {:induction false} OverLimitNeedsNewWindow(times: seq<int>, from: int)
    requires Nondecreasing(times) && NoStartInside(Starts(times), from)
    ensures CountWindow(After(times).grants, from) <= LIMIT
  {
    if times != [] {
      var front, now := times[..|times| - 1], times[|times| - 1];
      var run := After(front);
      assert NoStartInside(Starts(front), from) by {
        assert forall i :: 0 <= i < |Starts(front)| ==> Starts(times)[i] == Starts(front)[i];
      }
      OverLimitNeedsNewWindow(front, from);
      if front != [] {
        RunInv(front);
        LaterKeepsInv(run, front[|front| - 1], now);
      }
      if Granted(run.row, now) {
        if !Opens(run.row, now) {
          CurrentStartListed(front);
        }
        OneMoreGrant(run, Starts(times), now, from);
      }
    }
  }

  // ---------------------------------------------------------------------------
  // A cleared user
  // ---------------------------------------------------------------------------

  lemma {:induction false} AttemptsCounted(times: seq<int>)
    ensures var row := RowAfter(None, times); row.Some? ==> row.value.attempts <= |times|
  {
    if times != [] {
      AttemptsCounted(times[..|times| - 1]);
    }
  }

  /** Without a row the next `LIMIT` attempts are granted, whenever they come. */
  lemma ClearedUserIsServed(times: seq<int>, now: int)
    requires |times| < LIMIT
    ensures Granted(RowAfter(None, times), now)
  {
    AttemptsCounted(times);
  }

  lemma {:induction false} RunRow(times: seq<int>)
    ensures After(times).row == RowAfter(None, times)
  {
    if times != [] {
      RunRow(times[..|times| - 1]);
    }
  }

  /** So a run of at most `LIMIT` attempts is granted as a whole. */
  lemma {:induction false} ShortRunsAreGranted(times: seq<int>)
    requires |times| <= LIMIT
    ensures After(times).grants == times
  {
    if times != [] {
      var front := times[..|times| - 1];
      ShortRunsAreGranted(front);
      RunRow(front);
      ClearedUserIsServed(front, times[|times| - 1]);
      assert times == front + [times[|times| - 1]];
    }
  }
}
