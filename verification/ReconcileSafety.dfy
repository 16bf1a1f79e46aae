/** What every run of the reconcile loop and of the executor handshake guarantees. */
module ReconcileSafety {
  import opened Options
  import opened Reconcile

  function At(start: World, trace: seq<Act>, i: nat): Conf
    requires i <= |trace|
  {
    ConfAfter(Conf(start, Idle), trace[..i])
  }

  lemma AtStep(start: World, trace: seq<Act>, i: nat)
    requires i < |trace|
    ensures At(start, trace, i + 1)
         == Conf(Effect(At(start, trace, i).w, trace[i]), PhaseAfter(At(start, trace, i).p, trace[i]))
  {
    assert trace[..i + 1][..i] == trace[..i];
  }

  ghost predicate OnlyEvents(trace: seq<Act>, from: int, to: int)
    requires 0 <= from && to <= |trace|
  {
    forall i :: from <= i < to ==> trace[i].Env?
  }

  /** The last act of the loop itself, which put it into the phase it is in. */
  lemma {:induction false} PhaseSource(start: World, trace: seq<Act>, n: nat) returns (q: nat)
    requires n <= |trace| && At(start, trace, n).p != Idle
    ensures q < n && !trace[q].Env? && OnlyEvents(trace, q + 1, n)
    ensures At(start, trace, n).p == PhaseAfter(At(start, trace, q).p, trace[q])
  {
    AtStep(start, trace, n - 1);
    if trace[n - 1].Env? {
      q := PhaseSource(start, trace, n - 1);
    } else {
      q := n - 1;
    }
  }

  // How the loop gets into each phase of the configure path

  lemma SourceOfAnswered(o: Origin, run: Run, p: Phase, n: nat, c: Conn, v: int) returns (q: nat)
    requires RunOk(o, run, p) && n <= |run.trace| && At(o.start, run.trace, n).p == Answered(c, v)
    ensures q < n && OnlyEvents(run.trace, q + 1, n)
    ensures run.trace[q].Answer? && run.trace[q].conn == c && run.trace[q].version == v
  {
    q := PhaseSource(o.start, run.trace, n);
    assert LegalAt(o.given, At(o.start, run.trace, q), run.trace[q]);
  }

  lemma SourceOfStanding(o: Origin, run: Run, p: Phase, n: nat, c: Conn, v: int) returns (q: nat)
    requires RunOk(o, run, p) && n <= |run.trace| && At(o.start, run.trace, n).p == Standing(c, v)
    ensures q < n && OnlyEvents(run.trace, q + 1, n)
    ensures run.trace[q] == StillRegistered(c, true) && At(o.start, run.trace, q).p == Answered(c, v)
    ensures At(o.start, run.trace, q).w.registered == Some(c)
  {
    q := PhaseSource(o.start, run.trace, n);
    assert LegalAt(o.given, At(o.start, run.trace, q), run.trace[q]);
  }

  lemma SourceOfKept(o: Origin, run: Run, p: Phase, n: nat, c: Conn, v: int) returns (q: nat)
    requires RunOk(o, run, p) && n <= |run.trace| && At(o.start, run.trace, n).p == Kept(c, v)
    ensures q < n && OnlyEvents(run.trace, q + 1, n)
    ensures run.trace[q].Keep? && run.trace[q].conn == c && run.trace[q].version == v
    ensures At(o.start, run.trace, q).p == Standing(c, v) && CanWrite(At(o.start, run.trace, q).w, c)
  {
    q := PhaseSource(o.start, run.trace, n);
    assert LegalAt(o.given, At(o.start, run.trace, q), run.trace[q]);
  }

  lemma SourceOfChecked(o: Origin, run: Run, p: Phase, n: nat, c: Conn, v: int) returns (q: nat)
    requires RunOk(o, run, p) && n <= |run.trace| && At(o.start, run.trace, n).p == Checked(c, v)
    ensures q < n && OnlyEvents(run.trace, q + 1, n)
    ensures run.trace[q] == CheckOwner(c, true) && At(o.start, run.trace, q).p == Kept(c, v)
    ensures At(o.start, run.trace, q).w.owner == Some(c)
  {
    q := PhaseSource(o.start, run.trace, n);
    assert LegalAt(o.given, At(o.start, run.trace, q), run.trace[q]);
  }

  lemma SourceOfPublished(o: Origin, run: Run, p: Phase, n: nat, c: Conn, v: int) returns (q: nat)
    requires RunOk(o, run, p) && n <= |run.trace| && At(o.start, run.trace, n).p == Published(c, v)
    ensures q < n && OnlyEvents(run.trace, q + 1, n)
    ensures run.trace[q] == Ready(c, v)
  {
    q := PhaseSource(o.start, run.trace, n);
    assert LegalAt(o.given, At(o.start, run.trace, q), run.trace[q]);
  }

  lemma SourceOfSuccess(o: Origin, run: Run, p: Phase, n: nat, c: Conn, v: int) returns (q: nat)
    requires RunOk(o, run, p) && n <= |run.trace| && At(o.start, run.trace, n).p == Succeeded(c, v, false)
    ensures q < n && OnlyEvents(run.trace, q + 1, n)
    ensures run.trace[q].Confirm? && At(o.start, run.trace, q).p == Published(c, v)
    ensures var row := At(o.start, run.trace, q).w.row;
            run.trace[q].row == row && row.Some? && row.value.desired <= v
  {
    q := PhaseSource(o.start, run.trace, n);
    assert LegalAt(o.given, At(o.start, run.trace, q), run.trace[q]);
  }

  /**
   Readiness on the configure path: the connection marked ready is the registered one, it
   answered the configure call with that version and was still registered then, the version was
   persisted while it owned the executor, and it still owned it at a later check.  In between
   the loop did nothing else.
   */
  lemma ReadyOnlyThroughOwner(o: Origin, run: Run, p: Phase, i: nat)
    returns (answer: nat, standing: nat, keep: nat, check: nat)
    requires RunOk(o, run, p) && i < |run.trace| && run.trace[i].Ready?
    ensures answer < standing < keep < check < i
    ensures var c, v := run.trace[i].conn, run.trace[i].version;
            && At(o.start, run.trace, i).w.registered == Some(c)
            && run.trace[answer].Answer? && run.trace[answer].conn == c && run.trace[answer].version == v
            && run.trace[standing] == StillRegistered(c, true) && At(o.start, run.trace, standing).w.registered == Some(c)
            && run.trace[keep].Keep? && run.trace[keep].conn == c && run.trace[keep].version == v
            && CanWrite(At(o.start, run.trace, keep).w, c)
            && run.trace[check] == CheckOwner(c, true) && At(o.start, run.trace, check).w.owner == Some(c)
    ensures OnlyEvents(run.trace, answer + 1, standing) && OnlyEvents(run.trace, standing + 1, keep)
    ensures OnlyEvents(run.trace, keep + 1, check) && OnlyEvents(run.trace, check + 1, i)
  {
    var c, v := run.trace[i].conn, run.trace[i].version;
    assert LegalAt(o.given, At(o.start, run.trace, i), run.trace[i]);
    check := SourceOfChecked(o, run, p, i, c, v);
    keep := SourceOfKept(o, run, p, check, c, v);
    standing := SourceOfStanding(o, run, p, keep, c, v);
    answer := SourceOfAnswered(o, run, p, standing, c, v);
  }

  /**
   Success on the configure path is reported only after the connection was marked ready and
   a later read saw a desired version that is at most the version persisted as applied.
   */
  lemma SuccessOnlyWhenCaughtUp(o: Origin, run: Run, p: Phase) returns (confirm: nat, ready: nat)
    requires RunOk(o, run, p) && p.Succeeded? && !p.fast
    ensures ready < confirm < |run.trace|
    ensures run.trace[ready] == Ready(p.conn, p.version)
    ensures run.trace[confirm].Confirm?
    ensures var row := At(o.start, run.trace, confirm).w.row;
            run.trace[confirm].row == row && row.Some? && row.value.desired <= p.version
    ensures OnlyEvents(run.trace, ready + 1, confirm) && OnlyEvents(run.trace, confirm + 1, |run.trace|)
  {
    assert run.trace[..|run.trace|] == run.trace;
    confirm := SourceOfSuccess(o, run, p, |run.trace|, p.conn, p.version);
    ready := SourceOfPublished(o, run, p, confirm, p.conn, p.version);
  }

  /** The loop changes the row only through the fence of the connection it works with, with two named exceptions. */
  lemma RowChangesAreFenced(o: Origin, run: Run, p: Phase, i: nat)
    requires RunOk(o, run, p) && i < |run.trace| && !run.trace[i].Env?
    requires var before := At(o.start, run.trace, i);
             Effect(before.w, run.trace[i]).row != before.w.row
    ensures var before, a := At(o.start, run.trace, i), run.trace[i];
            || a.Floor?                                     // a version below one becomes one
            || (a.Unavailable? && before.p.Missing?)        // no connection to go through, see UnavailableOnlyWhenAbsent
            || (a.FastWrite? && before.p.Owned? && before.p.conn == a.conn && before.w.owner == Some(a.conn))
            || (a.Announce? && before.p.Owned? && before.p.conn == a.conn && before.w.owner == Some(a.conn))
            || (a.Block? && before.p.Failing? && before.p.conn == a.conn && before.w.owner == Some(a.conn))
            || (a.Keep? && before.p == Standing(a.conn, a.version) && before.w.owner == Some(a.conn))
  {
    assert LegalAt(o.given, At(o.start, run.trace, i), run.trace[i]);
  }

  /** The acts that make the loop give up: each finds the executor gone, taken over, or broken. */
  predicate EndsLoop(a: Act) {
    || a.Unavailable? || a.Block?
    || (a.CheckOwner? && !a.current) || (a.FastWrite? && !a.took) || (a.Confirm? && a.row.None?)
  }

  /** A run that stopped did so by such an act, found true of the world at that moment. */
  lemma StoppedForAReason(o: Origin, run: Run) returns (q: nat)
    requires RunOk(o, run, Stopped)
    ensures q < |run.trace| && EndsLoop(run.trace[q]) && OnlyEvents(run.trace, q + 1, |run.trace|)
    ensures var w, a := At(o.start, run.trace, q).w, run.trace[q];
            && (a.CheckOwner? ==> w.owner != Some(a.conn))
            && (a.FastWrite? ==> !CanWrite(w, a.conn))
            && (a.Confirm? ==> w.row.None?)
  {
    assert run.trace[..|run.trace|] == run.trace;
    q := PhaseSource(o.start, run.trace, |run.trace|);
    assert LegalAt(o.given, At(o.start, run.trace, q), run.trace[q]);
  }

  // ---------------------------------------------------------------------------
  // The one unfenced state write
  // ---------------------------------------------------------------------------

  /** Between reading the row and marking it unavailable the loop only raises the version and looks for a connection. */
  ghost predicate OnlyLooks(trace: seq<Act>, from: int, to: int)
    requires 0 <= from && to <= |trace|
  {
    forall i :: from <= i < to ==> trace[i].Env? || trace[i].Floor? || trace[i].Absent?
  }

  /** A remembered row was read, or is the one remembered before with its version raised. */
  lemma SeenStep(o: Origin, run: Run, p: Phase, n: nat) returns (q: nat)
    requires RunOk(o, run, p) && n <= |run.trace|
    requires At(o.start, run.trace, n).p.Seen? && At(o.start, run.trace, n).p.row.Some?
    ensures q < n && OnlyEvents(run.trace, q + 1, n)
    ensures var before, seen := At(o.start, run.trace, q), At(o.start, run.trace, n).p.row.value;
            || (run.trace[q] == Read(Some(seen)) && before.w.row == Some(seen))
            || (run.trace[q].Floor? && before.p.Seen? && before.p.row.Some? && seen == before.p.row.value.(desired := 1))
  {
    q := PhaseSource(o.start, run.trace, n);
    assert LegalAt(o.given, At(o.start, run.trace, q), run.trace[q]);
  }

  lemma {:induction false} SourceOfSeen(o: Origin, run: Run, p: Phase, n: nat) returns (read: nat)
    requires RunOk(o, run, p) && n <= |run.trace|
    requires At(o.start, run.trace, n).p.Seen? && At(o.start, run.trace, n).p.row.Some?
    ensures read < n && OnlyLooks(run.trace, read + 1, n)
    ensures var seen, row := At(o.start, run.trace, n).p.row.value, At(o.start, run.trace, read).w.row;
            && run.trace[read] == Read(row) && row.Some?
            && row.value.state == seen.state && row.value.applied == seen.applied
    decreases n
  {
    read := SeenStep(o, run, p, n);
    if run.trace[read].Floor? {
      read := SourceOfSeen(o, run, p, read);
    }
  }

  /** The row is marked unavailable only when the connection to use was found missing or not connected. */
  lemma UnavailableOnlyWhenAbsent(o: Origin, run: Run, p: Phase, i: nat) returns (read: nat, absent: nat)
    requires RunOk(o, run, p) && i < |run.trace| && run.trace[i].Unavailable?
    ensures read < absent < i && OnlyLooks(run.trace, read + 1, absent) && OnlyEvents(run.trace, absent + 1, i)
    ensures var row := At(o.start, run.trace, read).w.row;
            && run.trace[read] == Read(row) && row.Some? && row.value.state == Reconfiguring
            && run.trace[i] == Unavailable(row.value.applied)
    ensures var w, c := At(o.start, run.trace, absent).w, run.trace[absent];
            && c.Absent? && (c.wanted == w.registered || (o.given.Some? && c.wanted == o.given))
            && (c.wanted.None? || c.wanted.value !in w.connected)
  {
    assert LegalAt(o.given, At(o.start, run.trace, i), run.trace[i]);
    absent := PhaseSource(o.start, run.trace, i);
    assert LegalAt(o.given, At(o.start, run.trace, absent), run.trace[absent]);
    read := SourceOfSeen(o, run, p, absent);
  }

  /** An owner puts the row into service. */
  predicate PutsIntoService(w: World, a: Act) {
    a.Env? && a.event.OwnerWrites? && CanWrite(w, a.event.conn) && Serving(a.event.state)
  }

  /** The row is taken out of service: by a bump, a deletion, or an owner. */
  predicate TakesOutOfService(w: World, a: Act) {
    && a.Env?
    && (|| a.event.Bump? || a.event.Delete?
        || (a.event.OwnerWrites? && CanWrite(w, a.event.conn) && !Serving(a.event.state)))
  }

  predicate RowServes(w: World) {
    w.row.Some? && Serving(w.row.value.state)
  }

  lemma ServiceStep(w: World, a: Act)
    requires a.Env? || a.Floor? || a.Absent?
    ensures RowServes(Effect(w, a)) <==> PutsIntoService(w, a) || (RowServes(w) && !TakesOutOfService(w, a))
    ensures PutsIntoService(w, a) ==> !TakesOutOfService(w, a)
  {
  }

  /** Service goes on at step `k` exactly as it is put in or taken out there. */
  ghost predicate Continues(puts: seq<bool>, takes: seq<bool>, serves: seq<bool>, k: nat)
    requires k < |puts| == |takes| == |serves| - 1
  {
    && (serves[k + 1] <==> puts[k] || (serves[k] && !takes[k]))
    && (puts[k] ==> !takes[k])
  }

  ghost predicate PutAndKept(puts: seq<bool>, takes: seq<bool>, j: nat, n: nat)
    requires j < n <= |puts| == |takes|
  {
    puts[j] && forall k :: j < k < n ==> !takes[k]
  }

  lemma {:induction false} LastWriteWins(puts: seq<bool>, takes: seq<bool>, serves: seq<bool>, from: nat, n: nat)
    requires from <= n <= |puts| == |takes| == |serves| - 1 && !serves[from]
    requires forall k :: from <= k < n ==> Continues(puts, takes, serves, k)
    ensures serves[n] <==> exists j :: from <= j < n && PutAndKept(puts, takes, j, n)
    decreases n
  {
    if n > from {
      var m := n - 1;
      LastWriteWins(puts, takes, serves, from, m);
      assert Continues(puts, takes, serves, m);
      if puts[m] {
        assert PutAndKept(puts, takes, m, n);
      } else if serves[n] {
        var j :| from <= j < m && PutAndKept(puts, takes, j, m);
        assert PutAndKept(puts, takes, j, n);
      } else if j :| from <= j < n && PutAndKept(puts, takes, j, n) {
        assert j < m && PutAndKept(puts, takes, j, m);
      }
    }
  }

  function PutsAt(start: World, trace: seq<Act>, k: nat): bool
    requires k < |trace|
  {
    PutsIntoService(At(start, trace, k).w, trace[k])
  }

  function TakesAt(start: World, trace: seq<Act>, k: nat): bool
    requires k < |trace|
  {
    TakesOutOfService(At(start, trace, k).w, trace[k])
  }

  function ServesAt(start: World, trace: seq<Act>, k: nat): bool
    requires k <= |trace|
  {
    RowServes(At(start, trace, k).w)
  }

  /** Act `j` puts the row into service, and no act after it and before `n` takes it out again. */
  ghost predicate ServedSince(start: World, trace: seq<Act>, j: nat, n: nat)
    requires j < n <= |trace|
  {
    PutsAt(start, trace, j) && forall k :: j < k < n ==> !TakesAt(start, trace, k)
  }

  lemma ServiceAt(start: World, trace: seq<Act>, k: nat)
    requires k < |trace| && (trace[k].Env? || trace[k].Floor? || trace[k].Absent?)
    ensures ServesAt(start, trace, k + 1)
       <==> PutsAt(start, trace, k) || (ServesAt(start, trace, k) && !TakesAt(start, trace, k))
    ensures PutsAt(start, trace, k) ==> !TakesAt(start, trace, k)
  {
    AtStep(start, trace, k);
    ServiceStep(At(start, trace, k).w, trace[k]);
  }

  lemma ServesIffServedSince(start: World, trace: seq<Act>, from: nat, n: nat)
    requires from <= n <= |trace| && OnlyLooks(trace, from, n) && !ServesAt(start, trace, from)
    ensures ServesAt(start, trace, n) <==> exists j :: from <= j < n && ServedSince(start, trace, j, n)
  {
    var puts := seq(|trace|, k requires 0 <= k < |trace| => PutsAt(start, trace, k));
    var takes := seq(|trace|, k requires 0 <= k < |trace| => TakesAt(start, trace, k));
    var serves := seq(|trace| + 1, k requires 0 <= k <= |trace| => ServesAt(start, trace, k));
    forall k | from <= k < n ensures Continues(puts, takes, serves, k) {
      ServiceAt(start, trace, k);
    }
    LastWriteWins(puts, takes, serves, from, n);
    forall j | from <= j < n ensures PutAndKept(puts, takes, j, n) <==> ServedSince(start, trace, j, n) {
      assert forall k :: 0 <= k < |trace| ==> takes[k] == TakesAt(start, trace, k);
    }
  }

  /** The row read as reconfiguring does not serve right after the read. */
  lemma ReadRowDoesNotServe(start: World, trace: seq<Act>, read: nat)
    requires read < |trace| && trace[read].Read?
    requires At(start, trace, read).w.row.Some? && At(start, trace, read).w.row.value.state == Reconfiguring
    ensures !ServesAt(start, trace, read + 1)
  {
    AtStep(start, trace, read);
  }

  lemma UnavailableStopsService(start: World, trace: seq<Act>, i: nat)
    requires i < |trace| && trace[i].Unavailable?
    ensures !ServesAt(start, trace, i + 1)
  {
    AtStep(start, trace, i);
  }

  lemma LooksThrough(trace: seq<Act>, read: nat, absent: nat, i: nat)
    requires read < absent < i <= |trace| && OnlyLooks(trace, read + 1, absent) && OnlyEvents(trace, absent + 1, i)
    requires trace[absent].Absent?
    ensures OnlyLooks(trace, read + 1, i)
  {
  }

  /**
   Marking the executor unavailable takes a serving row out of service exactly when, since the
   loop read the row, an owner put it into service and nothing took it out again.
   */
  lemma UnavailableOverwritesIff(o: Origin, run: Run, p: Phase, i: nat) returns (read: nat)
    requires RunOk(o, run, p) && i < |run.trace| && run.trace[i].Unavailable?
    ensures read < i && run.trace[read].Read? && OnlyLooks(run.trace, read + 1, i)
    ensures ServesAt(o.start, run.trace, i) <==> exists j :: read + 1 <= j < i && ServedSince(o.start, run.trace, j, i)
    ensures !ServesAt(o.start, run.trace, i + 1)
  {
    var absent;
    read, absent := UnavailableOnlyWhenAbsent(o, run, p, i);
    LooksThrough(run.trace, read, absent, i);
    ReadRowDoesNotServe(o.start, run.trace, read);
    UnavailableStopsService(o.start, run.trace, i);
    ServesIffServedSince(o.start, run.trace, read + 1, i);
  }

  /** The loop has read a reconfiguring row and found no connection. */
  lemma LookedInVain(o: Origin) returns (run: Run)
    requires o.given.None? && o.start == World(Some(Row(true, 3, 1, Reconfiguring)), None, None, {}, map[], None)
    ensures RunOk(o, run, Missing(Row(true, 3, 1, Reconfiguring))) && run.w == o.start && |run.trace| == 2
  {
    var row := Row(true, 3, 1, Reconfiguring);
    run := Run(o.start, [], []);
    DoOk(o, run, Idle, Read(Some(row)));
    run := Do(run, Read(Some(row)));
    DoOk(o, run, Seen(Some(row)), Absent(None));
    run := Do(run, Absent(None));
  }

  /** One event of the environment. */
  lemma EventHappens(o: Origin, run: Run, p: Phase, e: Event)
    requires RunOk(o, run, p) && e in o.script
    ensures RunOk(o, Do(run, Env(e)), p) && Do(run, Env(e)).w == Happen(run.w, e)
  {
    DoOk(o, run, p, Env(e));
  }

  /** A newer owner takes over and brings the executor to version 3. */
  lemma NewOwnerServes(o: Origin, run: Run, p: Phase) returns (after: Run)
    requires RunOk(o, run, p) && {TakeOver(1), OwnerWrites(1, Active, 3)} <= o.script
    requires run.w.row == Some(Row(true, 3, 1, Reconfiguring))
    ensures RunOk(o, after, p) && after.w.row == Some(Row(true, 3, 3, Active)) && after.w.owner == Some(1)
  {
    EventHappens(o, run, p, TakeOver(1));
    var taken := Do(run, Env(TakeOver(1)));
    EventHappens(o, taken, p, OwnerWrites(1, Active, 3));
    after := Do(taken, Env(OwnerWrites(1, Active, 3)));
  }

  lemma WriteAnyway(o: Origin, run: Run)
    requires RunOk(o, run, Missing(Row(true, 3, 1, Reconfiguring))) && run.w.row == Some(Row(true, 3, 3, Active))
    ensures RunOk(o, Do(run, Unavailable(1)), Stopped)
    ensures Do(run, Unavailable(1)).w.row == Some(Row(true, 3, 1, Stale))
  {
    DoOk(o, run, Missing(Row(true, 3, 1, Reconfiguring)), Unavailable(1));
  }

  /** Between the look for a connection and the write a newer owner brings the executor into service; the write undoes it. */
  lemma UnavailableUndoesNewOwner() returns (o: Origin, before: Run, run: Run)
    ensures RunOk(o, before, Missing(Row(true, 3, 1, Reconfiguring))) && RunOk(o, run, Stopped)
    ensures before.w.row == Some(Row(true, 3, 3, Active)) && before.w.owner == Some(1)
    ensures run.trace == before.trace + [Unavailable(1)] && run.w.row == Some(Row(true, 3, 1, Stale))
  {
    var row := Row(true, 3, 1, Reconfiguring);
    o := Origin(None, World(Some(row), None, None, {}, map[], None), {TakeOver(1), OwnerWrites(1, Active, 3)});
    var looked := LookedInVain(o);
    before := NewOwnerServes(o, looked, Missing(row));
    WriteAnyway(o, before);
    run := Do(before, Unavailable(1));
  }

  // ---------------------------------------------------------------------------
  // The handshake
  // ---------------------------------------------------------------------------

  /** What an executor says about itself when it connects. */
  datatype Report = Report(configured: bool, version: int, state: Option<RuntimeState>)

  function FastResumeState(report: Report): Option<RuntimeState> {
    if report.configured && report.version >= 1 && report.state.Some? && Serving(report.state.value)
    then report.state else None
  }

  predicate Truthful(w: World, c: Conn, report: Report) {
    report.configured ==> c in w.process && w.process[c] == report.version
  }

  /** Events that are neither another reconcile or reload of this executor, nor a lie, nor a return of `c`. */
  predicate Calm(e: Event, c: Conn) {
    !e.OwnerWrites? && !e.Misreport? && e != TakeOver(c) && e != Register(c)
  }

  predicate ConfiguredAt(w: World, c: Conn, version: int) {
    c in w.process && w.process[c] == version
  }

  /** While `c` owns the executor, a serving row tells the truth about the process behind `c`. */
  predicate RowTruthful(w: World, c: Conn) {
    w.owner == Some(c) && w.row.Some? && Serving(w.row.value.state) ==> ConfiguredAt(w, c, w.row.value.applied)
  }

  predicate Remembers(w: World, c: Conn, row: Row) {
    w.owner == Some(c) && Serving(row.state) ==> ConfiguredAt(w, c, row.applied)
  }

  /** The version is the one the row, unless it was deleted, says is applied. */
  predicate Persisted(w: World, version: int) {
    w.row.Some? ==> w.row.value.applied == version
  }

  /** What the phase implies about `c`: remembered rows are true of it, answered versions are its own. */
  predicate PhaseTruthful(p: Phase, w: World, c: Conn) {
    match p
    case Seen(row) => row.Some? ==> Remembers(w, c, row.value)
    case Missing(row) => Remembers(w, c, row)
    case Picked(d, row) => if d == c then Remembers(w, c, row) else w.registered != Some(c)
    case Owned(d, row) => if d == c then Remembers(w, c, row) else w.registered != Some(c)
    case Announced(d, row) =>
      if d == c then w.owner == Some(c) && w.row.Some? ==> !Serving(w.row.value.state) else w.registered != Some(c)
    case Refused(d, row) =>
      if d == c then w.owner == Some(c) && w.row.Some? ==> !Serving(w.row.value.state) else w.registered != Some(c)
    case Failing(d, row) => d != c ==> w.registered != Some(c)
    case Answered(d, v) => if d == c then ConfiguredAt(w, c, v) else w.registered != Some(c)
    case Standing(d, v) => if d == c then ConfiguredAt(w, c, v) else w.registered != Some(c)
    case FastKept(d, v) => if d == c then ConfiguredAt(w, c, v) && Persisted(w, v) else w.registered != Some(c)
    case Kept(d, v) => if d == c then ConfiguredAt(w, c, v) && Persisted(w, v) else w.registered != Some(c)
    case Checked(d, v) => if d == c then ConfiguredAt(w, c, v) && Persisted(w, v) else w.registered != Some(c)
    case Published(d, v) => if d == c then ConfiguredAt(w, c, v) && Persisted(w, v) else w.registered != Some(c)
    case _ => true
  }

  predicate HandshakeInv(conf: Conf, c: Conn) {
    conf.w.reply.None? && RowTruthful(conf.w, c) && PhaseTruthful(conf.p, conf.w, c)
  }

  lemma CalmEventKeeps(w: World, p: Phase, c: Conn, e: Event)
    requires HandshakeInv(Conf(w, p), c) && Calm(e, c)
    ensures HandshakeInv(Conf(Happen(w, e), p), c)
  {
  }

  lemma ActKeeps(w: World, p: Phase, c: Conn, a: Act)
    requires HandshakeInv(Conf(w, p), c) && !a.Env? && Legal(Some(c), p, w, a)
    ensures HandshakeInv(Conf(Effect(w, a), PhaseAfter(p, a)), c)
  {
  }

  lemma {:induction false} HandshakeRunInv(o: Origin, run: Run, p: Phase, c: Conn, i: nat)
    requires RunOk(o, run, p) && o.given == Some(c) && i <= |run.trace|
    requires o.start.reply.None? && RowTruthful(o.start, c)
    requires forall e :: e in o.script ==> Calm(e, c)
    ensures HandshakeInv(At(o.start, run.trace, i), c)
  {
    if i > 0 {
      HandshakeRunInv(o, run, p, c, i - 1);
      AtStep(o.start, run.trace, i - 1);
      var before, a := At(o.start, run.trace, i - 1), run.trace[i - 1];
      assert LegalAt(o.given, before, a) && a in run.trace;
      if a.Env? {
        CalmEventKeeps(before.w, before.p, c, a.event);
      } else {
        ActKeeps(before.w, before.p, c, a);
      }
    }
  }

  /** The act marks `c` ready at the given version, on either path. */
  predicate MarksReady(a: Act, c: Conn, version: int) {
    a == Ready(c, version) || a == FastReady(Some(c), version)
  }

  predicate AnswerOf(a: Act, c: Conn) {
    a.Answer? && a.conn == c
  }

  /** The invariant as it would read if calls that raised had left the processes alone. */
  predicate UntouchedInv(conf: Conf, process: map<Conn, int>, c: Conn) {
    HandshakeInv(Conf(conf.w.(process := process), conf.p), c)
  }

  lemma UnansweredActKeeps(w: World, p: Phase, process: map<Conn, int>, c: Conn, a: Act)
    requires UntouchedInv(Conf(w, p), process, c) && !a.Env? && Legal(Some(c), p, w, a) && !AnswerOf(a, c)
    ensures UntouchedInv(Conf(Effect(w, a), PhaseAfter(p, a)), process, c)
  {
  }

  lemma UntouchedEventKeeps(w: World, p: Phase, process: map<Conn, int>, c: Conn, e: Event)
    requires UntouchedInv(Conf(w, p), process, c) && Calm(e, c)
    ensures UntouchedInv(Conf(Happen(w, e), p), process, c)
  {
    CalmEventKeeps(w.(process := process), p, c, e);
    assert Happen(w.(process := process), e) == Happen(w, e).(process := process);
  }

  lemma UnansweredStep(given: Option<Conn>, before: Conf, process: map<Conn, int>, c: Conn, a: Act)
    requires UntouchedInv(before, process, c) && LegalAt(given, before, a) && given == Some(c)
    requires if a.Env? then Calm(a.event, c) else !AnswerOf(a, c)
    ensures UntouchedInv(Conf(Effect(before.w, a), PhaseAfter(before.p, a)), process, c)
  {
    if a.Env? {
      UntouchedEventKeeps(before.w, before.p, process, c, a.event);
    } else {
      UnansweredActKeeps(before.w, before.p, process, c, a);
    }
  }

  /** Without an answer from `c`, whatever the loop believes of its process was so at the start. */
  lemma {:induction false} UnansweredRunInv(o: Origin, run: Run, p: Phase, c: Conn, i: nat)
    requires RunOk(o, run, p) && o.given == Some(c) && i <= |run.trace|
    requires o.start.reply.None? && RowTruthful(o.start, c)
    requires forall e :: e in o.script ==> Calm(e, c)
    requires forall j :: 0 <= j < i ==> !AnswerOf(run.trace[j], c)
    ensures UntouchedInv(At(o.start, run.trace, i), o.start.process, c)
  {
    if i > 0 {
      UnansweredRunInv(o, run, p, c, i - 1);
      AtStep(o.start, run.trace, i - 1);
      var before, a := At(o.start, run.trace, i - 1), run.trace[i - 1];
      assert LegalAt(o.given, before, a) && a in run.trace;
      UnansweredStep(o.given, before, o.start.process, c, a);
    }
  }

  /**
   If act `i` marks `c` ready, the process behind `c` is configured at that very version, which is
   the persisted applied version; and if the process was not so at the start, it has answered a
   configure call before.
   */
  ghost predicate ReadyJustified(start: World, trace: seq<Act>, c: Conn, i: nat)
    requires i < |trace|
  {
    forall v :: MarksReady(trace[i], c, v) ==>
      && ConfiguredAt(At(start, trace, i).w, c, v)
      && Persisted(At(start, trace, i).w, v)
      && (ConfiguredAt(start, c, v) || exists j :: 0 <= j < i && AnswerOf(trace[j], c))
  }

  /** The handshake's own connection is marked ready only if its process runs the persisted applied version. */
  lemma HandshakeReadiness(o: Origin, run: Run, p: Phase, c: Conn, i: nat)
    requires RunOk(o, run, p) && o.given == Some(c)
    requires o.start.reply.None? && RowTruthful(o.start, c)
    requires forall e :: e in o.script ==> Calm(e, c)
    requires i < |run.trace|
    ensures ReadyJustified(o.start, run.trace, c, i)
  {
    HandshakeRunInv(o, run, p, c, i);
    assert LegalAt(o.given, At(o.start, run.trace, i), run.trace[i]);
    if forall j :: 0 <= j < i ==> !AnswerOf(run.trace[j], c) {
      UnansweredRunInv(o, run, p, c, i);
    }
  }

  // The handshake itself

  /** What calm events leave as it is, seen from `c`. */
  predicate CalmSuccessor(w: World, w': World, c: Conn) {
    && w'.reply == w.reply && w'.process == w.process
    && (w'.owner == Some(c) ==> w.owner == Some(c))
    && (w'.row.Some? ==> w.row.Some? && w'.row.value.applied == w.row.value.applied
                         && (Serving(w'.row.value.state) ==> w'.row.value.state == w.row.value.state))
  }

  method CalmAwait(w0: World, events0: seq<Event>, c: Conn) returns (w: World, events: seq<Event>)
    requires forall e :: e in events0 ==> Calm(e, c)
    ensures CalmSuccessor(w0, w, c)
    ensures forall e :: e in events ==> e in events0
    ensures events0 == [] ==> w == w0 && events == []
  {
    var k: nat :| k <= |events0|;
    w := w0;
    for i := 0 to k
      invariant CalmSuccessor(w0, w, c)
      invariant i == 0 ==> w == w0
    {
      assert events0[i] in events0;
      w := Happen(w, events0[i]);
    }
    events := events0[k..];
  }

  /** The process says it serves the very version that is desired and persisted as applied. */
  predicate Resumes(row: Row, report: Report) {
    && report.configured && (report.state == Some(Active) || report.state == Some(Degraded))
    && report.version == row.desired == row.applied && row.desired >= 1
  }

  /** The reset of the row's runtime state before reconciling, with the fast-resume exception. */
  method ResetRuntimeState(w0: World, events0: seq<Event>, c: Conn, report: Report)
    returns (w: World, events: seq<Event>)
    requires Truthful(w0, c, report) && w0.reply.None?
    requires forall e :: e in events0 ==> Calm(e, c)
    ensures RowTruthful(w, c) && w.process == w0.process && w.reply.None?
    ensures forall e :: e in events ==> e in events0
    ensures events0 == [] && CanWrite(w0, c) ==>
              && events == []
              && w == w0.(row := Some(w0.row.value.(
                            state := if Resumes(w0.row.value, report) then report.state.value else Offline)))
  {
    var resume := FastResumeState(report);
    w, events := CalmAwait(w0, events0, c);
    if resume.Some? {
      var desired := if w.row.Some? then w.row.value.desired else 0;
      var applied := if w.row.Some? then w.row.value.applied else 0;
      if !(desired >= 1 && report.version == desired && applied == desired) {
        resume := None;
      }
    }
    w, events := CalmAwait(w, events, c);
    w := FencedState(w, c, resume.GetOr(Offline));
  }

  /**
   What a handshake that nobody disturbs comes to: a process that resumes is marked ready without
   a configure call; any other is configured at the desired version, or the failure is persisted.
   */
  ghost predicate Connects(row: Row, c: Conn, report: Report, reply: Reply, ok: bool, run: Run) {
    var target := Target(row);
    if Resumes(row, report) then
      && ok && CallActs(run.trace) == 0 && run.w.row == Some(row.(state := report.state.value))
      && run.trace != [] && run.trace[|run.trace| - 1] == FastReady(Some(c), row.desired)
    else if reply.Answers? then
      && ok && run.w.row == Some(row.(desired := target, applied := target, state := reply.state))
      && ConfiguredAt(run.w, c, target) && Ready(c, target) in run.trace
    else
      !ok && run.w.row == Some(row.(desired := target, state := Blocked))
  }

  /** Reset and reconcile, as the websocket handler runs them for a connection that just registered. */
  method Handshake(w0: World, events0: seq<Event>, c: Conn, report: Report, replies: nat -> Reply)
    returns (ok: bool, start: World, run: Run, ghost p: Phase)
    requires Truthful(w0, c, report) && w0.reply.None?
    requires forall e :: e in events0 ==> Calm(e, c)
    ensures start.process == w0.process
    ensures forall i :: 0 <= i < |run.trace| ==> ReadyJustified(start, run.trace, c, i)
    ensures events0 == [] && Usable(w0, c) && w0.row.Some? && w0.row.value.eligible ==>
              Connects(w0.row.value, c, report, replies(0), ok, run)
  {
    var events, rounds;
    start, events := ResetRuntimeState(w0, events0, c, report);
    ghost var o := Origin(Some(c), start, set e | e in events);
    run := Run(start, events, []);
    ok, run, rounds, p := ReconcileExecutor(run, Some(c), replies, o);
    forall i | 0 <= i < |run.trace| ensures ReadyJustified(start, run.trace, c, i) {
      HandshakeReadiness(o, run, p, c, i);
    }
  }
}
