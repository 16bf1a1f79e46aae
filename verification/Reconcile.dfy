/**
 Reconciliation of a websocket executor with its desired configuration generation, under
 any interleaving with version bumps, takeovers, deletions and other writers.

 The environment is a finite script of events, any number of which may happen at every
 await.  A run is recorded as a trace of acts; `Legal` says what the loop may do in which
 phase, and the theorems are about every legal trace.
 */
module Reconcile {
  import opened Options

  /** A physical connection, identified by the fencing epoch of its ownership lease. */
  type Conn = nat

  datatype RuntimeState = Offline | Reconfiguring | Active | Degraded | Blocked | Stale

  /** `eligible`: websocket type and active status. */
  datatype Row = Row(eligible: bool, desired: int, applied: int, state: RuntimeState)

  datatype World = World(
    row: Option<Row>,
    owner: Option<Conn>,          // holder of the current lease epoch
    registered: Option<Conn>,     // the provider's connection for this executor
    connected: set<Conn>,
    process: map<Conn, int>,      // configuration of the process behind a connection, if configured
    reply: Option<int>)           // a version the executor will report instead of the one it was sent

  datatype Event =
    | Bump(connected: bool)                           // desired version + 1, by a controller with or without the connection
    | SetEligible(eligible: bool)
    | Delete
    | TakeOver(conn: Conn)                            // the lease passes to a new connection
    | Expire                                          // the lease ends
    | Register(conn: Conn)
    | Unregister
    | Drop(conn: Conn)
    | OwnerWrites(conn: Conn, state: RuntimeState, applied: int)  // other code, through the fence
    | Misreport(version: int)

  function Happen(w: World, e: Event): World {
    match e
    case Bump(connected) =>
      if w.row.None? then w
      else w.(row := Some(w.row.value.(desired := w.row.value.desired + 1,
                                       state := if connected then Reconfiguring else Stale)))
    case SetEligible(b) => if w.row.None? then w else w.(row := Some(w.row.value.(eligible := b)))
    case Delete => w.(row := None)
    case TakeOver(c) => w.(owner := Some(c))
    case Expire => w.(owner := None)
    case Register(c) => w.(registered := Some(c), connected := w.connected + {c})
    case Unregister => w.(registered := None)
    case Drop(c) => w.(connected := w.connected - {c})
    case OwnerWrites(c, state, applied) => FencedWrite(w, c, state, applied)
    case Misreport(v) => w.(reply := Some(v))
  }

  // ---------------------------------------------------------------------------
  // Acts of the loop
  // ---------------------------------------------------------------------------

  function Target(row: Row): int {
    if row.desired < 1 then 1 else row.desired
  }

  predicate Serving(state: RuntimeState) {
    state == Active || state == Degraded
  }

  /** The fence: the row exists and the exact epoch is current. */
  predicate CanWrite(w: World, c: Conn) {
    w.row.Some? && w.owner == Some(c)
  }

  function FencedWrite(w: World, c: Conn, state: RuntimeState, applied: int): World {
    if CanWrite(w, c) then w.(row := Some(w.row.value.(state := state, applied := applied))) else w
  }

  function FencedState(w: World, c: Conn, state: RuntimeState): World {
    if CanWrite(w, c) then w.(row := Some(w.row.value.(state := state))) else w
  }

  datatype Act =
    | Env(event: Event)
    | Read(row: Option<Row>)
    | Floor(took: bool)                               // conditional raise of a legacy version
    | Pick(conn: Conn)
    | Absent(wanted: Option<Conn>)                    // the connection to use is missing or not connected
    | Unavailable(version: int)                       // unfenced: there is no connection to go through
    | CheckOwner(conn: Conn, current: bool)
    | FastWrite(conn: Conn, state: RuntimeState, version: int, took: bool)
    | FastReady(marked: Option<Conn>, version: int)
    | Announce(conn: Conn)
    | Refuse(conn: Conn, left: Option<int>)           // the configure RPC raised, perhaps after it was carried out
    | Block(conn: Conn, version: int)
    | Answer(conn: Conn, target: int, version: int)
    | StillRegistered(conn: Conn, current: bool)      // the check after the RPC
    | Keep(conn: Conn, state: RuntimeState, version: int, took: bool)
    | Ready(conn: Conn, version: int)
    | Confirm(row: Option<Row>)

  function Effect(w: World, a: Act): World {
    match a
    case Env(e) => Happen(w, e)
    case Floor(_) =>
      if w.row.Some? && w.row.value.desired < 1 then w.(row := Some(w.row.value.(desired := 1))) else w
    case Unavailable(v) => if w.row.Some? then w.(row := Some(w.row.value.(state := Stale, applied := v))) else w
    case FastWrite(c, state, v, _) => FencedWrite(w, c, state, v)
    case Announce(c) => FencedState(w, c, Reconfiguring)
    case Refuse(c, left) => if left.Some? then w.(process := w.process[c := left.value]) else w
    case Block(c, v) => FencedWrite(w, c, Blocked, v)
    case Answer(c, target, _) => w.(process := w.process[c := target], reply := None)
    case Keep(c, state, v, _) => FencedWrite(w, c, state, v)
    case _ => w
  }

  /** Where the loop is; the arguments are what it remembers. */
  datatype Phase =
    | Idle
    | Seen(row: Option<Row>)
    | Missing(seen: Row)
    | Picked(conn: Conn, seen: Row)
    | Owned(conn: Conn, seen: Row)
    | FastKept(conn: Conn, version: int)
    | Announced(conn: Conn, seen: Row)
    | Refused(conn: Conn, seen: Row)
    | Failing(conn: Conn, seen: Row)
    | Answered(conn: Conn, version: int)
    | Standing(conn: Conn, version: int)
    | Kept(conn: Conn, version: int)
    | Checked(conn: Conn, version: int)
    | Published(conn: Conn, version: int)
    | Succeeded(conn: Conn, version: int, fast: bool)
    | Stopped

  predicate FastPath(row: Row) {
    row.applied == Target(row) && Serving(row.state)
  }

  predicate Legal(given: Option<Conn>, p: Phase, w: World, a: Act) {
    match a
    case Env(_) => true
    case Read(row) => row == w.row && !p.Succeeded? && p != Stopped
    case Floor(took) => p.Seen? && p.row.Some? && p.row.value.desired < 1
                        && took == (w.row.Some? && w.row.value.desired < 1)
    case Pick(c) => p.Seen? && p.row.Some? && p.row.value.eligible && p.row.value.desired >= 1
                    && (given == Some(c) || w.registered == Some(c)) && c in w.connected
    case Absent(c) => p.Seen? && p.row.Some? && p.row.value.eligible && p.row.value.desired >= 1
                      && ((given.Some? && c == given) || c == w.registered)
                      && (c.None? || c.value !in w.connected)
    case Unavailable(v) => p.Missing? && p.seen.state == Reconfiguring && v == p.seen.applied
    case CheckOwner(c, current) => current == (w.owner == Some(c))
                                   && ((p.Picked? && p.conn == c) || (p.Kept? && p.conn == c))
    case FastWrite(c, state, v, took) =>
      p.Owned? && p.conn == c && FastPath(p.seen) && state == p.seen.state && v == p.seen.applied
      && took == CanWrite(w, c)
    case FastReady(marked, v) => p.FastKept? && v == p.version && marked == w.registered
    case Announce(c) => p.Owned? && p.conn == c && !FastPath(p.seen)
    case Refuse(c, _) => p.Announced? && p.conn == c
    case StillRegistered(c, current) => current == (w.registered == Some(c))
                                        && ((p.Answered? && p.conn == c) || (p.Refused? && p.conn == c))
    case Block(c, v) => p.Failing? && p.conn == c && v == p.seen.applied
    case Answer(c, target, v) =>
      p.Announced? && p.conn == c && target == Target(p.seen)
      && v == (if w.reply.Some? && w.reply.value != 0 then w.reply.value else target)
    case Keep(c, _, v, took) => p == Standing(c, v) && took == CanWrite(w, c)
    case Ready(c, v) => p == Checked(c, v) && w.registered == Some(c)
    case Confirm(row) => p.Published? && row == w.row
  }

  function PhaseAfter(p: Phase, a: Act): Phase {
    match a
    case Env(_) => p
    case Read(row) => Seen(row)
    case Floor(took) => if took && p.Seen? && p.row.Some? then Seen(Some(p.row.value.(desired := 1))) else Idle
    case Pick(c) => if p.Seen? && p.row.Some? then Picked(c, p.row.value) else Stopped
    case Absent(_) => if p.Seen? && p.row.Some? then Missing(p.row.value) else Stopped
    case Unavailable(_) => Stopped
    case CheckOwner(_, current) =>
      if p.Picked? then (if current then Owned(p.conn, p.seen) else Stopped)
      else if p.Kept? then (if current then Checked(p.conn, p.version) else Idle)
      else Stopped
    case FastWrite(c, _, v, took) => if took then FastKept(c, v) else Stopped
    case FastReady(_, v) => if p.FastKept? then Succeeded(p.conn, v, true) else Stopped
    case Announce(c) => if p.Owned? then Announced(c, p.seen) else Stopped
    case Refuse(c, _) => if p.Announced? then Refused(c, p.seen) else Stopped
    case StillRegistered(_, current) =>
      if !current then Idle
      else if p.Answered? then Standing(p.conn, p.version)
      else if p.Refused? then Failing(p.conn, p.seen)
      else Stopped
    case Block(_, _) => Stopped
    case Answer(c, _, v) => Answered(c, v)
    case Keep(c, _, v, took) => if took then Kept(c, v) else Idle
    case Ready(c, v) => Published(c, v)
    case Confirm(row) =>
      if row.None? || !p.Published? then Stopped
      else if row.value.desired > p.version then Idle
      else Succeeded(p.conn, p.version, false)
  }

  datatype Conf = Conf(w: World, p: Phase)

  function ConfAfter(c0: Conf, trace: seq<Act>): Conf {
    if trace == [] then c0
    else
      var before, a := ConfAfter(c0, trace[..|trace| - 1]), trace[|trace| - 1];
      Conf(Effect(before.w, a), PhaseAfter(before.p, a))
  }

  ghost predicate LegalTrace(given: Option<Conn>, c0: Conf, trace: seq<Act>) {
    forall i :: 0 <= i < |trace| ==> LegalAt(given, ConfAfter(c0, trace[..i]), trace[i])
  }

  predicate LegalAt(given: Option<Conn>, c: Conf, a: Act) {
    Legal(given, c.p, c.w, a)
  }

  // ---------------------------------------------------------------------------
  // The loop
  // ---------------------------------------------------------------------------

  datatype Run = Run(w: World, events: seq<Event>, trace: seq<Act>)

  /** What a run starts from: the connection given by the caller, the world, and the script of events. */
  datatype Origin = Origin(given: Option<Conn>, start: World, script: set<Event>)

  /** The environment acts of the trace, and the events still to come, are from the script. */
  ghost predicate Scripted(run: Run, script: set<Event>) {
    && (forall a :: a in run.trace && a.Env? ==> a.event in script)
    && (forall e :: e in run.events ==> e in script)
  }

  ghost predicate RunOk(o: Origin, run: Run, p: Phase) {
    && ConfAfter(Conf(o.start, Idle), run.trace) == Conf(run.w, p)
    && LegalTrace(o.given, Conf(o.start, Idle), run.trace)
    && Scripted(run, o.script)
  }

  function Do(run: Run, a: Act): Run {
    Run(Effect(run.w, a), run.events, run.trace + [a])
  }

  lemma DoOk(o: Origin, run: Run, p: Phase, a: Act)
    requires RunOk(o, run, p) && Legal(o.given, p, run.w, a)
    requires a.Env? ==> a.event in o.script
    ensures RunOk(o, Do(run, a), PhaseAfter(p, a))
  {
    var given, c0 := o.given, Conf(o.start, Idle);
    var trace := run.trace + [a];
    assert trace[..|trace| - 1] == run.trace;
    forall i | 0 <= i < |trace| ensures LegalAt(given, ConfAfter(c0, trace[..i]), trace[i]) {
      if i < |run.trace| {
        assert trace[..i] == run.trace[..i];
        assert LegalAt(given, ConfAfter(c0, run.trace[..i]), run.trace[i]);
      }
    }
  }

  /** What the environment can still do: every event counts, a misreport twice (said and heard). */
  function Budget(events: seq<Event>): nat {
    if events == [] then 0 else (if events[0].Misreport? then 2 else 1) + Budget(events[1..])
  }

  function Fuel(run: Run): nat {
    Budget(run.events) + (if run.w.reply.Some? then 1 else 0)
  }

  /** The next event of the script happens. */
  function Elapse(run: Run): Run
    requires run.events != []
  {
    Do(run, Env(run.events[0])).(events := run.events[1..])
  }

  lemma ElapseOk(o: Origin, run: Run, p: Phase)
    requires RunOk(o, run, p) && run.events != []
    ensures RunOk(o, Elapse(run), p) && Fuel(Elapse(run)) < Fuel(run)
  {
    DoOk(o, run, p, Env(run.events[0]));
  }

  /** An await: any number of environment events happens. */
  method Await(run0: Run, ghost o: Origin, ghost p: Phase) returns (run: Run)
    requires RunOk(o, run0, p)
    ensures RunOk(o, run, p)
    ensures Fuel(run) <= Fuel(run0)
    ensures Fuel(run) == Fuel(run0) ==> run == run0
  {
    var k: nat :| k <= |run0.events|;
    run := run0;
    for i := 0 to k
      invariant RunOk(o, run, p) && |run.events| == |run0.events| - i
      invariant if i == 0 then run == run0 else Fuel(run) < Fuel(run0)
    {
      ElapseOk(o, run, p);
      run := Elapse(run);
    }
  }

  /** Nothing more happens in the environment, and the executor will report what it was sent. */
  predicate Quiet(run: Run) {
    run.events == [] && run.w.reply.None?
  }

  /** The connection is usable throughout: registered, connected and owning. */
  predicate Usable(w: World, c: Conn) {
    w.registered == Some(c) && c in w.connected && w.owner == Some(c)
  }

  /** The act is part of a configure call. */
  predicate Configures(a: Act) {
    a.Announce? || a.Answer? || a.Refuse?
  }

  /** How many acts of configure calls the trace holds. */
  function CallActs(trace: seq<Act>): nat {
    if trace == [] then 0
    else CallActs(trace[..|trace| - 1]) + if Configures(trace[|trace| - 1]) then 1 else 0
  }

  lemma CallActsSnoc(run: Run, a: Act)
    ensures CallActs(Do(run, a).trace) == CallActs(run.trace) + if Configures(a) then 1 else 0
  {
    assert (run.trace + [a])[..|run.trace|] == run.trace;
  }

  /** An eligible row, and a usable connection that the loop will choose. */
  predicate Ready0(w: World, connection: Option<Conn>) {
    && w.row.Some? && w.row.value.eligible
    && w.registered.Some? && Usable(w, w.registered.value)
    && (connection.Some? ==> connection == w.registered)
  }

  /** The phases in which the loop may give up: nothing to reconcile, nobody to reconcile with, or stopped by an act. */
  predicate GivesUp(p: Phase) {
    || (p.Seen? && (p.row.None? || !p.row.value.eligible))
    || (p.Missing? && p.seen.state != Reconfiguring)
    || p == Stopped
  }

  datatype Prepared = Retry | Stop | Go(conn: Conn, row: Row)

  /**
   The start of an iteration: read the row, raise a legacy version, choose the connection
   and check its ownership.  Without an event since `run0` the facts read still hold.
   */
  method Prepare(run0: Run, connection: Option<Conn>, ghost o: Origin, ghost p0: Phase)
    returns (run: Run, next: Prepared, ghost p: Phase)
    requires RunOk(o, run0, p0) && !p0.Succeeded? && p0 != Stopped
    requires connection.Some? ==> connection == o.given
    ensures RunOk(o, run, p) && Fuel(run) <= Fuel(run0)
    ensures next.Retry? ==> p == Idle && Fuel(run) < Fuel(run0)
    ensures next.Stop? ==> !p.Succeeded?
    ensures next.Go? ==> p == Owned(next.conn, next.row) && next.row.desired >= 1
    ensures next.Go? && Fuel(run) == Fuel(run0) ==>
              && run.w.owner == Some(next.conn) && run.w.row == Some(next.row)
              && (connection.None? ==> run.w.registered == Some(next.conn))
    ensures next.Stop? ==> GivesUp(p)
    ensures Quiet(run0) && Ready0(run0.w, connection) ==>
              var row := run0.w.row.value;
              && next == Go(run0.w.registered.value, row.(desired := Target(row)))
              && run.w == run0.w.(row := Some(row.(desired := Target(row))))
              && Quiet(run) && CallActs(run.trace) == CallActs(run0.trace)
  {
    var read;
    run, read, p := ReadRow(run0, o, p0);
    if read.None? || !read.value.eligible {
      return run, Stop, p;
    }
    var row, took := read.value, true;
    if row.desired < 1 {
      run, row, took, p := RaiseVersion(run, row, o);
      if !took {
        return run, Retry, p;
      }
    }
    run, next, p := Choose(run, connection, row, o, Fuel(run0) == Fuel(run));
  }

  /** Reading the row; without an event it is still the row afterwards. */
  method ReadRow(run0: Run, ghost o: Origin, ghost p0: Phase) returns (run: Run, read: Option<Row>, ghost p: Phase)
    requires RunOk(o, run0, p0) && !p0.Succeeded? && p0 != Stopped
    ensures RunOk(o, run, p) && p == Seen(read) && Fuel(run) <= Fuel(run0)
    ensures Fuel(run) == Fuel(run0) ==> run.w == run0.w && run.events == run0.events && read == run0.w.row
    ensures Fuel(run) == Fuel(run0) ==> CallActs(run.trace) == CallActs(run0.trace)
  {
    run := Await(run0, o, p0);
    read := run.w.row;
    DoOk(o, run, p0, Read(read));
    CallActsSnoc(run, Read(read));
    run, p := Do(run, Read(read)), Seen(read);
    run := Await(run, o, p);
  }

  /** The conditional write that raises a legacy version to one; it fails only if the row changed since it was read. */
  method RaiseVersion(run0: Run, row0: Row, ghost o: Origin) returns (run: Run, row: Row, took: bool, ghost p: Phase)
    requires RunOk(o, run0, Seen(Some(row0))) && row0.desired < 1
    ensures took == (run0.w.row.Some? && run0.w.row.value.desired < 1)
    ensures Fuel(run) == Fuel(run0) && row == row0.(desired := 1)
    ensures RunOk(o, run, p) && p == if took then Seen(Some(row)) else Idle
    ensures took && run0.w.row == Some(row0) ==> run.w == run0.w.(row := Some(row))
    ensures run.events == run0.events && CallActs(run.trace) == CallActs(run0.trace)
  {
    p := Seen(Some(row0));
    row := row0.(desired := 1);
    took := run0.w.row.Some? && run0.w.row.value.desired < 1;
    DoOk(o, run0, p, Floor(took));
    CallActsSnoc(run0, Floor(took));
    run, p := Do(run0, Floor(took)), PhaseAfter(p, Floor(took));
  }

  /** Choosing the connection and checking that it owns the executor. */
  method Choose(run0: Run, connection: Option<Conn>, row: Row, ghost o: Origin, ghost quiet: bool)
    returns (run: Run, next: Prepared, ghost p: Phase)
    requires RunOk(o, run0, Seen(Some(row))) && row.eligible && row.desired >= 1
    requires connection.Some? ==> connection == o.given
    requires quiet ==> run0.w.row == Some(row)
    ensures RunOk(o, run, p) && Fuel(run) <= Fuel(run0)
    ensures !next.Retry? && (next.Stop? ==> !p.Succeeded?)
    ensures next.Go? ==> p == Owned(next.conn, next.row) && next.row == row
    ensures next.Go? ==> next.conn in run0.w.connected
                         && Some(next.conn) == (if connection.Some? then connection else run0.w.registered)
    ensures next.Go? && quiet && Fuel(run) == Fuel(run0) ==>
              && run.w.owner == Some(next.conn) && run.w.row == Some(row)
              && (connection.None? ==> run.w.registered == Some(next.conn))
    ensures next.Stop? ==> GivesUp(p)
    ensures Quiet(run0) && run0.w.row == Some(row) && Ready0(run0.w, connection) ==>
              next == Go(run0.w.registered.value, row) && run.w == run0.w && Quiet(run) && CallActs(run.trace) == CallActs(run0.trace)
  {
    var current := if connection.Some? then connection else run0.w.registered;
    if current.None? || current.value !in run0.w.connected {
      run, p := ReportAbsence(run0, current, row, o);
      return run, Stop, p;
    }
    var owns;
    run, owns, p := CheckChosen(run0, current.value, row, o);
    next := if owns then Go(current.value, row) else Stop;
  }

  /** No connection to go through: a row left in the transient state is marked stale, past the fence. */
  method ReportAbsence(run0: Run, current: Option<Conn>, row: Row, ghost o: Origin) returns (run: Run, ghost p: Phase)
    requires RunOk(o, run0, Seen(Some(row))) && row.eligible && row.desired >= 1
    requires current == run0.w.registered || (o.given.Some? && current == o.given)
    requires current.None? || current.value !in run0.w.connected
    ensures RunOk(o, run, p) && Fuel(run) <= Fuel(run0)
    ensures if row.state == Reconfiguring then p == Stopped else p == Missing(row)
    ensures row.state == Reconfiguring && run.w.row.Some? ==>
              run.w.row.value.state == Stale && run.w.row.value.applied == row.applied
  {
    DoOk(o, run0, Seen(Some(row)), Absent(current));
    run, p := Do(run0, Absent(current)), Missing(row);
    if row.state == Reconfiguring {
      run := Await(run, o, p);
      DoOk(o, run, p, Unavailable(row.applied));
      run, p := Do(run, Unavailable(row.applied)), Stopped;
    }
  }

  /** The chosen connection must own the executor. */
  method CheckChosen(run0: Run, c: Conn, row: Row, ghost o: Origin) returns (run: Run, owns: bool, ghost p: Phase)
    requires RunOk(o, run0, Seen(Some(row))) && row.eligible && row.desired >= 1
    requires (o.given == Some(c) || run0.w.registered == Some(c)) && c in run0.w.connected
    ensures RunOk(o, run, p) && Fuel(run) <= Fuel(run0) && p == if owns then Owned(c, row) else Stopped
    ensures owns == (run.w.owner == Some(c))
    ensures Fuel(run) == Fuel(run0) ==>
              run.w == run0.w && run.events == run0.events && CallActs(run.trace) == CallActs(run0.trace)
  {
    p := Seen(Some(row));
    DoOk(o, run0, p, Pick(c));
    CallActsSnoc(run0, Pick(c));
    run, p := Do(run0, Pick(c)), Picked(c, row);
    run := Await(run, o, p);
    owns := run.w.owner == Some(c);
    DoOk(o, run, p, CheckOwner(c, owns));
    CallActsSnoc(run, CheckOwner(c, owns));
    run, p := Do(run, CheckOwner(c, owns)), PhaseAfter(p, CheckOwner(c, owns));
  }

  /** Already at the desired version: refresh the row and mark ready whatever is registered. */
  method TakeFastPath(run0: Run, c: Conn, row: Row, ghost o: Origin)
    returns (ok: bool, run: Run, ghost p: Phase)
    requires RunOk(o, run0, Owned(c, row)) && FastPath(row)
    ensures RunOk(o, run, p) && Fuel(run) <= Fuel(run0)
    ensures ok == (p == Succeeded(c, row.applied, true)) && (!ok ==> p == Stopped)
    ensures Quiet(run0) && Usable(run0.w, c) && run0.w.row == Some(row) ==>
              && ok && run.w == run0.w && CallActs(run.trace) == CallActs(run0.trace)
              && run.trace != [] && run.trace[|run.trace| - 1] == FastReady(Some(c), row.applied)
  {
    var took;
    run, took, p := FastRefresh(run0, c, row, o);
    if !took {
      return false, run, p;
    }
    run := Await(run, o, p);
    var ready := FastReady(run.w.registered, row.applied);
    DoOk(o, run, p, ready);
    CallActsSnoc(run, ready);
    run, p := Do(run, ready), PhaseAfter(p, ready);
    return true, run, p;
  }

  /** The fenced write of what the row already says. */
  method FastRefresh(run0: Run, c: Conn, row: Row, ghost o: Origin) returns (run: Run, took: bool, ghost p: Phase)
    requires RunOk(o, run0, Owned(c, row)) && FastPath(row)
    ensures RunOk(o, run, p) && Fuel(run) <= Fuel(run0) && p == if took then FastKept(c, row.applied) else Stopped
    ensures Quiet(run0) && Usable(run0.w, c) && run0.w.row == Some(row) ==>
              took && run.w == run0.w && Quiet(run) && CallActs(run.trace) == CallActs(run0.trace)
  {
    p := Owned(c, row);
    run := Await(run0, o, p);
    took := CanWrite(run.w, c);
    var write := FastWrite(c, row.state, row.applied, took);
    DoOk(o, run, p, write);
    CallActsSnoc(run, write);
    run, p := Do(run, write), PhaseAfter(p, write);
  }

  /** How the executor behaves at its next configure call: raise, or answer with a state. */
  datatype Reply = Raises(left: Option<int>) | Answers(state: RuntimeState)

  datatype Outcome = Again | Return(ok: bool)

  /** Without an event the announcement leaves alone what the loop knows. */
  method AnnounceChange(run0: Run, c: Conn, row: Row, ghost o: Origin) returns (run: Run, ghost p: Phase)
    requires RunOk(o, run0, Owned(c, row)) && !FastPath(row)
    ensures RunOk(o, run, p) && p == Announced(c, row) && Fuel(run) <= Fuel(run0)
    ensures Fuel(run) == Fuel(run0) ==>
              && run.w.owner == run0.w.owner && run.w.registered == run0.w.registered
              && (run0.w.row.Some? ==> run.w.row.Some? && run.w.row.value.desired == run0.w.row.value.desired)
    ensures Quiet(run0) && Usable(run0.w, c) && run0.w.row == Some(row) ==>
              Quiet(run) && run.w == run0.w.(row := Some(row.(state := Reconfiguring)))
  {
    p := Owned(c, row);
    run := Await(run0, o, p);
    DoOk(o, run, p, Announce(c));
    run, p := Do(run, Announce(c)), Announced(c, row);
    run := Await(run, o, p);
  }

  /** Announce the reconfiguration, call the executor, and publish what it answered. */
  method Configure(run0: Run, c: Conn, row: Row, reply: Reply, ghost o: Origin, ghost paid: bool)
    returns (outcome: Outcome, run: Run, ghost p: Phase)
    requires RunOk(o, run0, Owned(c, row)) && !FastPath(row) && row.desired >= 1
    requires !paid ==> run0.w.owner == Some(c) && run0.w.row == Some(row)
    ensures RunOk(o, run, p) && Fuel(run) <= Fuel(run0)
    ensures outcome.Again? ==> !p.Succeeded? && p != Stopped
    ensures outcome.Again? ==> paid || Fuel(run) < Fuel(run0) || run0.w.registered != Some(c)
    ensures outcome.Return? ==> (outcome.ok <==> p.Succeeded?) && (!outcome.ok ==> p == Stopped)
    ensures Quiet(run0) && Usable(run0.w, c) && run0.w.row == Some(row) && reply.Raises? ==>
              outcome == Return(false) && run.w.row == Some(row.(state := Blocked))
    ensures Quiet(run0) && Usable(run0.w, c) && run0.w.row == Some(row) && reply.Answers? ==>
              && outcome == Return(true) && run.w.row == Some(row.(state := reply.state, applied := Target(row)))
              && c in run.w.process && run.w.process[c] == Target(row) && Ready(c, Target(row)) in run.trace
  {
    run, p := AnnounceChange(run0, c, row, o);
    if reply.Raises? {
      outcome, run, p := GiveUp(run, c, row, reply.left, o);
    } else {
      outcome, run, p := Conclude(run, c, row, reply.state, o);
    }
  }

  /**
   The configure call raised, possibly after the process took the configuration `left`: retry
   with a newer connection, or persist the failure.
   */
  method GiveUp(run0: Run, c: Conn, row: Row, left: Option<int>, ghost o: Origin)
    returns (outcome: Outcome, run: Run, ghost p: Phase)
    requires RunOk(o, run0, Announced(c, row))
    ensures RunOk(o, run, p) && Fuel(run) <= Fuel(run0)
    ensures outcome == if run0.w.registered == Some(c) then Return(false) else Again
    ensures outcome.Again? ==> p == Idle && run.w.row == run0.w.row
    ensures outcome.Return? ==> p == Stopped && run.trace != [] && run.trace[|run.trace| - 1] == Block(c, row.applied)
    ensures outcome.Return? && CanWrite(run.w, c) ==>
              run.w.row.value.state == Blocked && run.w.row.value.applied == row.applied
    ensures Quiet(run0) && Usable(run0.w, c) && run0.w.row.Some? ==>
              run.w.row == Some(run0.w.row.value.(state := Blocked, applied := row.applied))
  {
    p := Announced(c, row);
    DoOk(o, run0, p, Refuse(c, left));
    run, p := Do(run0, Refuse(c, left)), Refused(c, row);
    var current := run.w.registered == Some(c);
    DoOk(o, run, p, StillRegistered(c, current));
    run, p := Do(run, StillRegistered(c, current)), PhaseAfter(p, StillRegistered(c, current));
    if !current {
      return Again, run, p;
    }
    run := Await(run, o, p);
    DoOk(o, run, p, Block(c, row.applied));
    run, p := Do(run, Block(c, row.applied)), Stopped;
    return Return(false), run, p;
  }

  /** The configure call answered. */
  method Conclude(run0: Run, c: Conn, row: Row, state: RuntimeState, ghost o: Origin)
    returns (outcome: Outcome, run: Run, ghost p: Phase)
    requires RunOk(o, run0, Announced(c, row))
    ensures RunOk(o, run, p) && Fuel(run) <= Fuel(run0)
    ensures outcome.Again? ==> !p.Succeeded? && p != Stopped
    ensures outcome.Again? ==>
              || Fuel(run) < Fuel(run0) || !CanWrite(run0.w, c) || run0.w.registered != Some(c)
              || run0.w.row.value.desired > Target(row)
    ensures outcome.Return? ==> (outcome.ok <==> p.Succeeded?) && (!outcome.ok ==> p == Stopped)
    ensures Quiet(run0) && Usable(run0.w, c) && run0.w.row.Some? && run0.w.row.value.desired == Target(row) ==>
              && outcome == Return(true) && run.w.row == Some(run0.w.row.value.(state := state, applied := Target(row)))
              && run.w.process == run0.w.process[c := Target(row)] && Ready(c, Target(row)) in run.trace
    ensures run0.w.registered != Some(c) ==> outcome.Again? && p == Idle && run.w.row == run0.w.row
  {
    var target := Target(row);
    var version := if run0.w.reply.Some? && run0.w.reply.value != 0 then run0.w.reply.value else target;
    DoOk(o, run0, Announced(c, row), Answer(c, target, version));
    run, p := Do(run0, Answer(c, target, version)), Answered(c, version);
    var current := run.w.registered == Some(c);
    DoOk(o, run, p, StillRegistered(c, current));
    run, p := Do(run, StillRegistered(c, current)), PhaseAfter(p, StillRegistered(c, current));
    if !current {
      return Again, run, p;
    }
    outcome, run, p := Publish(run, c, version, state, o);
  }

  /** Persist the answered version through the fence. */
  method Publish(run0: Run, c: Conn, version: int, state: RuntimeState, ghost o: Origin)
    returns (outcome: Outcome, run: Run, ghost p: Phase)
    requires RunOk(o, run0, Standing(c, version))
    ensures RunOk(o, run, p) && Fuel(run) <= Fuel(run0)
    ensures outcome.Again? ==> !p.Succeeded? && p != Stopped
    ensures outcome.Again? ==>
              || Fuel(run) < Fuel(run0) || !CanWrite(run0.w, c) || run0.w.registered != Some(c)
              || run0.w.row.value.desired > version
    ensures outcome.Return? ==> (outcome.ok <==> p.Succeeded?) && (!outcome.ok ==> p == Stopped)
    ensures Quiet(run0) && Usable(run0.w, c) && run0.w.row.Some? && run0.w.row.value.desired == version ==>
              && outcome == Return(true) && run.w.row == Some(run0.w.row.value.(state := state, applied := version))
              && run.w.process == run0.w.process && Ready(c, version) in run.trace
    ensures p.Succeeded? ==> p == Succeeded(c, version, false)
  {
    p := Standing(c, version);
    run := Await(run0, o, p);
    var keep := Keep(c, state, version, CanWrite(run.w, c));
    DoOk(o, run, p, keep);
    run, p := Do(run, keep), PhaseAfter(p, keep);
    if !keep.took {
      return Again, run, p;
    }
    outcome, run, p := MarkReady(run, c, version, o);
  }

  /** Re-check ownership after the write. */
  method MarkReady(run0: Run, c: Conn, version: int, ghost o: Origin)
    returns (outcome: Outcome, run: Run, ghost p: Phase)
    requires RunOk(o, run0, Kept(c, version))
    ensures RunOk(o, run, p) && Fuel(run) <= Fuel(run0)
    ensures outcome.Again? ==> !p.Succeeded? && p != Stopped
    ensures outcome.Again? ==>
              || Fuel(run) < Fuel(run0) || run0.w.owner != Some(c) || run0.w.registered != Some(c)
              || (run0.w.row.Some? && run0.w.row.value.desired > version)
    ensures outcome.Return? ==> (outcome.ok <==> p.Succeeded?) && (!outcome.ok ==> p == Stopped)
    ensures Quiet(run0) && Usable(run0.w, c) && run0.w.row.Some? && run0.w.row.value.desired == version ==>
              && outcome == Return(true) && run.w.row == Some(run0.w.row.value)
              && run.w.process == run0.w.process && Ready(c, version) in run.trace
    ensures p.Succeeded? ==> p == Succeeded(c, version, false)
  {
    p := Kept(c, version);
    run := Await(run0, o, p);
    var current := run.w.owner == Some(c);
    DoOk(o, run, p, CheckOwner(c, current));
    run := Do(run, CheckOwner(c, current));
    if !current {
      return Again, run, Idle;
    }
    outcome, run, p := MarkReadyIfRegistered(run, c, version, o);
  }

  /** Mark ready if still registered, and re-read the desired version. */
  method MarkReadyIfRegistered(run0: Run, c: Conn, version: int, ghost o: Origin)
    returns (outcome: Outcome, run: Run, ghost p: Phase)
    requires RunOk(o, run0, Checked(c, version))
    ensures RunOk(o, run, p) && Fuel(run) <= Fuel(run0)
    ensures outcome.Again? ==> !p.Succeeded? && p != Stopped
    ensures outcome.Again? ==>
              || Fuel(run) < Fuel(run0) || run0.w.registered != Some(c)
              || (run0.w.row.Some? && run0.w.row.value.desired > version)
    ensures outcome.Return? ==> (outcome.ok <==> p.Succeeded?) && (!outcome.ok ==> p == Stopped)
    ensures Quiet(run0) && Usable(run0.w, c) && run0.w.row.Some? && run0.w.row.value.desired == version ==>
              && outcome == Return(true) && run.w.row == Some(run0.w.row.value)
              && run.w.process == run0.w.process && Ready(c, version) in run.trace
    ensures p.Succeeded? ==> p == Succeeded(c, version, false)
  {
    p := Checked(c, version);
    run := Await(run0, o, p);
    if run.w.registered != Some(c) {
      return Again, run, p;
    }
    DoOk(o, run, p, Ready(c, version));
    run := Do(run, Ready(c, version));
    outcome, run, p := Reread(run, c, version, o);
  }

  method Reread(run0: Run, c: Conn, version: int, ghost o: Origin)
    returns (outcome: Outcome, run: Run, ghost p: Phase)
    requires RunOk(o, run0, Published(c, version))
    ensures RunOk(o, run, p) && Fuel(run) <= Fuel(run0)
    ensures outcome.Again? ==> !p.Succeeded? && p != Stopped
    ensures outcome.Again? ==> Fuel(run) < Fuel(run0) || (run0.w.row.Some? && run0.w.row.value.desired > version)
    ensures outcome.Return? ==> (outcome.ok <==> p.Succeeded?) && (!outcome.ok ==> p == Stopped)
    ensures Quiet(run0) && run0.w.row.Some? && run0.w.row.value.desired == version ==>
              outcome == Return(true) && run.w == run0.w && run0.trace <= run.trace
    ensures p.Succeeded? ==> p == Succeeded(c, version, false)
  {
    p := Published(c, version);
    run := Await(run0, o, p);
    var refreshed := run.w.row;
    DoOk(o, run, p, Confirm(refreshed));
    run, p := Do(run, Confirm(refreshed)), PhaseAfter(p, Confirm(refreshed));
    if refreshed.None? {
      outcome := Return(false);
    } else if refreshed.value.desired > version {
      outcome := Again;
    } else {
      outcome := Return(true);
    }
  }

  /** What a usable connection and a silent environment lead to. */
  ghost predicate Settles(run0: Run, c: Conn, reply: Reply, ok: bool, run: Run)
    requires run0.w.row.Some?
  {
    var row := run0.w.row.value;
    if FastPath(row) then
      // already served at the desired version: no call is made
      && ok && run.w == run0.w.(row := Some(row.(desired := Target(row))))
      && CallActs(run.trace) == CallActs(run0.trace)
      && run.trace != [] && run.trace[|run.trace| - 1] == FastReady(Some(c), row.applied)
    else if reply.Answers? then
      // configured, persisted and marked ready
      && ok && run.w.row == Some(row.(desired := Target(row), applied := Target(row), state := reply.state))
      && c in run.w.process && run.w.process[c] == Target(row) && Ready(c, Target(row)) in run.trace
    else
      // refused: the failure is persisted
      !ok && run.w.row == Some(row.(desired := Target(row), state := Blocked))
  }

  /** One iteration. */
  method Iterate(run0: Run, connection: Option<Conn>, reply: Reply, ghost o: Origin, ghost p0: Phase)
    returns (outcome: Outcome, run: Run, ghost p: Phase)
    requires RunOk(o, run0, p0) && !p0.Succeeded? && p0 != Stopped
    requires connection.Some? ==> connection == o.given
    ensures RunOk(o, run, p) && Fuel(run) <= Fuel(run0)
    ensures outcome.Again? ==> !p.Succeeded? && p != Stopped && (Fuel(run) < Fuel(run0) || connection.Some?)
    ensures outcome.Return? ==> (outcome.ok <==> p.Succeeded?) && (!outcome.ok ==> GivesUp(p))
    ensures Quiet(run0) && Ready0(run0.w, connection) ==>
              outcome.Return? && Settles(run0, run0.w.registered.value, reply, outcome.ok, run)
  {
    var next;
    run, next, p := Prepare(run0, connection, o, p0);
    match next {
      case Stop => outcome := Return(false);
      case Retry => outcome := Again;
      case Go(c, row) =>
        if FastPath(row) {
          var ok;
          ok, run, p := TakeFastPath(run, c, row, o);
          outcome := Return(ok);
        } else {
          outcome, run, p := Configure(run, c, row, reply, o, Fuel(run) < Fuel(run0));
        }
    }
  }

  /**
   `reconcile_executor`.  It terminates, and it goes round again at most once per
   environment event, plus once for a caller-supplied connection that is not registered.  It
   gives up only for a reason, and when nothing interferes it brings the executor to the desired
   version.
   */
  method ReconcileExecutor(run0: Run, given: Option<Conn>, replies: nat -> Reply, ghost o: Origin)
    returns (ok: bool, run: Run, rounds: nat, ghost p: Phase)
    requires RunOk(o, run0, Idle) && o.given == given
    ensures RunOk(o, run, p)
    ensures ok <==> p.Succeeded?
    ensures !ok ==> GivesUp(p)
    ensures rounds + Fuel(run) <= Fuel(run0) + (if given.Some? then 1 else 0)
    ensures Quiet(run0) && Ready0(run0.w, given) ==> Settles(run0, run0.w.registered.value, replies(0), ok, run)
  {
    run, p, rounds := run0, Idle, 0;
    var connection := given;
    while true
      invariant RunOk(o, run, p) && !p.Succeeded? && p != Stopped
      invariant connection.Some? ==> connection == o.given
      invariant rounds + Fuel(run) + (if connection.Some? then 1 else 0) <= Fuel(run0) + (if given.Some? then 1 else 0)
      invariant Quiet(run0) && Ready0(run0.w, given) ==> run == run0 && rounds == 0 && connection == given
      decreases Fuel(run) + (if connection.Some? then 1 else 0)
    {
      var outcome;
      outcome, run, p := Iterate(run, connection, replies(rounds), o, p);
      if outcome.Return? {
        return outcome.ok, run, rounds, p;
      }
      connection := None;
      rounds := rounds + 1;
    }
  }
}
