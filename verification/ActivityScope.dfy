/**
 The bootstrap backfill of session activity scopes: a worklist loop over a
 parent/predecessor graph with dangling links and cycles, proved equal to a declarative
 definition whatever the order in which sessions are visited.
 */
module ActivityScope {
  import opened Collections
  import opened Options

  type Id = string

  datatype Session = Session(parent: Option<Id>, previous: Option<Id>, completionReason: Option<string>)

  type Sessions = map<Id, Session>

  // ---------------------------------------------------------------------------
  // Specification
  // ---------------------------------------------------------------------------

  /** A link counts only if it is neither null nor the empty string. */
  predicate Linked(link: Option<Id>) {
    link.Some? && link.value != ""
  }

  /** The parent if there is one, else the predecessor. */
  function Dependency(row: Session): Option<Id> {
    if Linked(row.parent) then row.parent
    else if Linked(row.previous) then row.previous
    else None
  }

  /** The next session of the chain; `None` where the chain ends or dangles. */
  function Next(rows: Sessions, s: Id): Option<Id>
    requires s in rows
  {
    var d := Dependency(rows[s]);
    if d.Some? && d.value in rows then d else None
  }

  /** A session without a parent whose predecessor was ended by a user reset starts afresh. */
  predicate StartsAfresh(rows: Sessions, s: Id)
    requires s in rows
  {
    && !Linked(rows[s].parent)
    && Next(rows, s).Some?
    && rows[Next(rows, s).value].completionReason == Some("user_reset")
  }

  ghost predicate EndsWithin(rows: Sessions, s: Id, n: nat)
    decreases n
  {
    && s in rows
    && (Next(rows, s).None? || (n > 0 && EndsWithin(rows, Next(rows, s).value, n - 1)))
  }

  /** The dependency chain of `s` is finite. */
  ghost predicate Finite(rows: Sessions, s: Id) {
    exists n: nat :: EndsWithin(rows, s, n)
  }

  ghost function ScopeWithin(rows: Sessions, s: Id, n: nat): Id
    requires EndsWithin(rows, s, n)
    decreases n
  {
    if Next(rows, s).None? || StartsAfresh(rows, s) then s
    else ScopeWithin(rows, Next(rows, s).value, n - 1)
  }

  /** The scope a session must get. */
  ghost function Scope(rows: Sessions, s: Id): Id
    requires s in rows
  {
    if Finite(rows, s) then
      var n: nat :| EndsWithin(rows, s, n);
      ScopeWithin(rows, s, n)
    else s
  }

  /** The session reached from `s` after `i` links. */
  ghost function Hop(rows: Sessions, s: Id, i: nat): Option<Id>
    decreases i
  {
    if s !in rows then None
    else if i == 0 then Some(s)
    else if Next(rows, s).None? then None
    else Hop(rows, Next(rows, s).value, i - 1)
  }

  ghost predicate ReachesCycle(rows: Sessions, s: Id) {
    exists i: nat, j: nat :: i < j && Hop(rows, s, i).Some? && Hop(rows, s, i) == Hop(rows, s, j)
  }

  // ---------------------------------------------------------------------------
  // Lemmas about the specification
  // ---------------------------------------------------------------------------

  lemma {:induction false} ScopeWithinUnique(rows: Sessions, s: Id, n: nat, m: nat)
    requires EndsWithin(rows, s, n) && EndsWithin(rows, s, m)
    ensures ScopeWithin(rows, s, n) == ScopeWithin(rows, s, m)
    decreases n
  {
    if Next(rows, s).Some? && !StartsAfresh(rows, s) {
      ScopeWithinUnique(rows, Next(rows, s).value, n - 1, m - 1);
    }
  }

  lemma FiniteUnfold(rows: Sessions, s: Id)
    requires s in rows
    ensures Finite(rows, s) <==> Next(rows, s).None? || Finite(rows, Next(rows, s).value)
  {
    if Finite(rows, s) && Next(rows, s).Some? {
      var n: nat :| EndsWithin(rows, s, n);
      assert EndsWithin(rows, Next(rows, s).value, n - 1);
    }
    if Next(rows, s).None? {
      assert EndsWithin(rows, s, 0);
    } else if Finite(rows, Next(rows, s).value) {
      var n: nat :| EndsWithin(rows, Next(rows, s).value, n);
      assert EndsWithin(rows, s, n + 1);
    }
  }

  /** The recursive equation that the loop implements. */
  lemma ScopeUnfold(rows: Sessions, s: Id)
    requires Finite(rows, s)
    ensures s in rows
    ensures Scope(rows, s) == if Next(rows, s).None? || StartsAfresh(rows, s) then s
                              else Scope(rows, Next(rows, s).value)
  {
    var n: nat :| EndsWithin(rows, s, n);
    assert Scope(rows, s) == ScopeWithin(rows, s, n) by {
      var k: nat :| EndsWithin(rows, s, k) && Scope(rows, s) == ScopeWithin(rows, s, k);
      ScopeWithinUnique(rows, s, n, k);
    }
    if Next(rows, s).Some? && !StartsAfresh(rows, s) {
      var d := Next(rows, s).value;
      assert EndsWithin(rows, d, n - 1);
      var k: nat :| EndsWithin(rows, d, k) && Scope(rows, d) == ScopeWithin(rows, d, k);
      ScopeWithinUnique(rows, d, n - 1, k);
    }
  }

  /**
   The scope read off the columns.  A set parent passes its scope on; without one the predecessor
   does, unless a user reset ended it; a link to a missing session, or none, leaves the session on
   its own, and so does a chain that never ends.
   */
  lemma ScopeByColumns(rows: Sessions, s: Id)
    requires s in rows
    ensures var row := rows[s];
            var hasParent := row.parent.Some? && row.parent.value != "";
            var hasPrevious := row.previous.Some? && row.previous.value != "";
            Scope(rows, s) ==
            if !Finite(rows, s) then s
            else if hasParent then (if row.parent.value in rows then Scope(rows, row.parent.value) else s)
            else if hasPrevious && row.previous.value in rows && rows[row.previous.value].completionReason != Some("user_reset")
              then Scope(rows, row.previous.value)
            else s
  {
    if Finite(rows, s) {
      ScopeUnfold(rows, s);
    }
  }

  /** Scopes are representatives: the scope of a session is its own scope. */
  lemma ScopeIdempotent(rows: Sessions, s: Id)
    requires s in rows
    ensures Scope(rows, s) in rows && Scope(rows, Scope(rows, s)) == Scope(rows, s)
  {
    if Finite(rows, s) {
      var n: nat :| EndsWithin(rows, s, n);
      ScopeIdempotentWithin(rows, s, n);
    }
  }

  lemma {:induction false} ScopeIdempotentWithin(rows: Sessions, s: Id, n: nat)
    requires EndsWithin(rows, s, n)
    ensures Scope(rows, s) in rows && Scope(rows, Scope(rows, s)) == Scope(rows, s)
    decreases n
  {
    ScopeUnfold(rows, s);
    if Next(rows, s).Some? && !StartsAfresh(rows, s) {
      ScopeIdempotentWithin(rows, Next(rows, s).value, n - 1);
    }
  }

  // A chain is infinite exactly when it runs into a cycle.

  lemma {:induction false} HopEndsEarlier(rows: Sessions, s: Id, n: nat, k: nat)
    requires EndsWithin(rows, s, n) && Hop(rows, s, k).Some?
    ensures k <= n && EndsWithin(rows, Hop(rows, s, k).value, n - k)
    decreases k
  {
    if k > 0 {
      HopEndsEarlier(rows, Next(rows, s).value, n - 1, k - 1);
    }
  }

  lemma {:induction false} HopAdd(rows: Sessions, s: Id, i: nat, k: nat)
    requires Hop(rows, s, i).Some?
    ensures Hop(rows, s, i + k) == Hop(rows, Hop(rows, s, i).value, k)
    decreases i
  {
    if i > 0 {
      HopAdd(rows, Next(rows, s).value, i - 1, k);
    }
  }

  lemma {:induction false} NoReturn(rows: Sessions, s: Id, n: nat, j: nat)
    requires EndsWithin(rows, s, n) && j > 0
    ensures Hop(rows, s, j) != Some(s)
    decreases n
  {
    if Hop(rows, s, j) == Some(s) {
      HopEndsEarlier(rows, s, n, j);
      NoReturn(rows, s, n - j, j);
    }
  }

  lemma {:induction false} InfiniteHops(rows: Sessions, s: Id, i: nat)
    requires s in rows && !Finite(rows, s)
    ensures Hop(rows, s, i).Some?
    decreases i
  {
    if i > 0 {
      FiniteUnfold(rows, s);
      InfiniteHops(rows, Next(rows, s).value, i - 1);
    }
  }

  ghost function Visited(rows: Sessions, s: Id, k: nat): set<Option<Id>> {
    if k == 0 then {} else Visited(rows, s, k - 1) + {Hop(rows, s, k - 1)}
  }

  lemma {:induction false} VisitedAt(rows: Sessions, s: Id, k: nat, x: Option<Id>) returns (i: nat)
    requires x in Visited(rows, s, k)
    ensures i < k && Hop(rows, s, i) == x
  {
    if Hop(rows, s, k - 1) == x {
      i := k - 1;
    } else {
      i := VisitedAt(rows, s, k - 1, x);
    }
  }

  lemma {:induction false} HopStaysInRows(rows: Sessions, s: Id, i: nat)
    ensures Hop(rows, s, i).Some? ==> Hop(rows, s, i).value in rows
    decreases i
  {
    if s in rows && i > 0 && Next(rows, s).Some? {
      HopStaysInRows(rows, Next(rows, s).value, i - 1);
    }
  }

  /** Pigeonhole: without a repetition the first `k` hops are `k` different sessions. */
  lemma {:induction false} DistinctHops(rows: Sessions, s: Id, k: nat)
    requires s in rows && !Finite(rows, s) && !ReachesCycle(rows, s)
    ensures |Visited(rows, s, k)| == k
    ensures Visited(rows, s, k) <= set x | x in rows :: Some(x)
  {
    if k > 0 {
      DistinctHops(rows, s, k - 1);
      if Hop(rows, s, k - 1) in Visited(rows, s, k - 1) {
        var i := VisitedAt(rows, s, k - 1, Hop(rows, s, k - 1));
        InfiniteHops(rows, s, i);
        assert false;
      }
      InfiniteHops(rows, s, k - 1);
      HopStaysInRows(rows, s, k - 1);
    }
  }

  lemma {:induction false} SomesSize(ids: set<Id>)
    ensures |set x | x in ids :: Some(x)| == |ids|
  {
    if ids != {} {
      var y :| y in ids;
      SomesSize(ids - {y});
      assert (set x | x in ids :: Some(x)) == (set x | x in ids - {y} :: Some(x)) + {Some(y)};
    }
  }

  lemma InfiniteIffCycle(rows: Sessions, s: Id)
    requires s in rows
    ensures !Finite(rows, s) <==> ReachesCycle(rows, s)
  {
    if Finite(rows, s) && ReachesCycle(rows, s) {
      var n: nat :| EndsWithin(rows, s, n);
      var i: nat, j: nat :| i < j && Hop(rows, s, i).Some? && Hop(rows, s, i) == Hop(rows, s, j);
      HopEndsEarlier(rows, s, n, i);
      HopAdd(rows, s, i, j - i);
      NoReturn(rows, Hop(rows, s, i).value, n - i, j - i);
    }
    if !Finite(rows, s) && !ReachesCycle(rows, s) {
      var k := |rows| + 1;
      DistinctHops(rows, s, k);
      SubsetSize(Visited(rows, s, k), set x | x in rows.Keys :: Some(x));
      SomesSize(rows.Keys);
      assert false;
    }
  }

  // ---------------------------------------------------------------------------
  // The loop
  // ---------------------------------------------------------------------------

  /** Every resolved session has its right scope; the rest is still to do. */
  ghost predicate PartialScopes(rows: Sessions, scopes: map<Id, Id>, unresolved: set<Id>) {
    && unresolved <= rows.Keys
    && scopes.Keys == rows.Keys - unresolved
    && forall s :: s in scopes ==> Finite(rows, s) && scopes[s] == Scope(rows, s)
  }

  /** What one visit decides: `None` means that the dependency is not resolved yet. */
  ghost predicate Blocked(rows: Sessions, unresolved: set<Id>, s: Id) {
    s in rows && Next(rows, s).Some? && Next(rows, s).value in unresolved
  }

  /** If every unresolved session waits for another one, none of their chains ends. */
  lemma {:induction false} AllBlocked(rows: Sessions, unresolved: set<Id>, s: Id, n: nat)
    requires forall t :: t in unresolved ==> Blocked(rows, unresolved, t)
    requires s in unresolved
    ensures !EndsWithin(rows, s, n)
    decreases n
  {
    if n > 0 {
      AllBlocked(rows, unresolved, Next(rows, s).value, n - 1);
    }
  }

  /** The body of the inner loop for one session. */
  method Visit(rows: Sessions, scopes: map<Id, Id>, s: Id, ghost unresolved: set<Id>) returns (scope: Option<Id>)
    requires PartialScopes(rows, scopes, unresolved) && s in unresolved
    ensures scope.None? ==> Blocked(rows, unresolved, s)
    ensures scope.Some? ==> Finite(rows, s) && scope.value == Scope(rows, s)
  {
    var row := rows[s];
    FiniteUnfold(rows, s);
    if Linked(row.parent) {
      var parent := row.parent.value;
      if parent in rows && parent !in scopes {
        return None;
      }
      ScopeUnfold(rows, s);
      return Some(if parent in scopes then scopes[parent] else s);
    } else if Linked(row.previous) {
      var previous := row.previous.value;
      if previous in rows && previous !in scopes {
        return None;
      }
      ScopeUnfold(rows, s);
      if previous in rows && rows[previous].completionReason == Some("user_reset") {
        return Some(s);
      }
      return Some(if previous in scopes then scopes[previous] else s);
    } else {
      ScopeUnfold(rows, s);
      return Some(s);
    }
  }

  /** One sweep over a snapshot of the unresolved sessions, in any order. */
  method Sweep(rows: Sessions, scopes0: map<Id, Id>, unresolved0: set<Id>)
    returns (scopes: map<Id, Id>, unresolved: set<Id>)
    requires PartialScopes(rows, scopes0, unresolved0)
    ensures PartialScopes(rows, scopes, unresolved)
    ensures unresolved <= unresolved0
    ensures unresolved == unresolved0 ==> forall s :: s in unresolved ==> Blocked(rows, unresolved, s)
  {
    scopes, unresolved := scopes0, unresolved0;
    var todo := unresolved0;
    while todo != {}
      invariant todo <= unresolved <= unresolved0
      invariant PartialScopes(rows, scopes, unresolved)
      invariant unresolved == unresolved0 ==> forall s :: s in unresolved0 - todo ==> Blocked(rows, unresolved, s)
      decreases |todo|
    {
      var s :| s in todo;
      todo := todo - {s};
      var scope := Visit(rows, scopes, s, unresolved);
      if scope.Some? {
        scopes := scopes[s := scope.value];
        unresolved := unresolved - {s};
      }
    }
  }

  lemma BlockedNeverEnd(rows: Sessions, unresolved: set<Id>)
    requires forall s :: s in unresolved ==> Blocked(rows, unresolved, s)
    ensures forall s :: s in unresolved ==> !Finite(rows, s)
  {
    forall s | s in unresolved ensures !Finite(rows, s) {
      forall n: nat ensures !EndsWithin(rows, s, n) {
        AllBlocked(rows, unresolved, s, n);
      }
    }
  }

  /** No progress: every session left is its own scope. */
  method OwnScopes(rows: Sessions, scopes0: map<Id, Id>, unresolved: set<Id>) returns (scopes: map<Id, Id>)
    requires PartialScopes(rows, scopes0, unresolved)
    requires forall s :: s in unresolved ==> Blocked(rows, unresolved, s)
    ensures scopes.Keys == rows.Keys
    ensures forall s :: s in rows ==> scopes[s] == Scope(rows, s)
  {
    BlockedNeverEnd(rows, unresolved);
    scopes := scopes0 + map s | s in unresolved :: s;
  }

  /** The whole worklist computation. */
  method ResolveScopes(rows: Sessions) returns (scopes: map<Id, Id>)
    ensures scopes.Keys == rows.Keys
    ensures forall s :: s in rows ==> scopes[s] == Scope(rows, s)
  {
    scopes := map[];
    var unresolved := rows.Keys;
    while unresolved != {}
      invariant PartialScopes(rows, scopes, unresolved)
      decreases |unresolved|
    {
      var before := unresolved;
      scopes, unresolved := Sweep(rows, scopes, unresolved);
      if unresolved == before {
        scopes := OwnScopes(rows, scopes, unresolved);
        return;
      }
      ProperSubsetSize(unresolved, before);
    }
  }

  /**
   The update statements: only null columns are written.  `column` is the
   `activity_scope_id` column of the table.
   */
  method Backfill(rows: Sessions, column0: map<Id, Option<Id>>) returns (column: map<Id, Option<Id>>)
    requires column0.Keys == rows.Keys
    ensures column.Keys == rows.Keys
    ensures forall s :: s in rows ==>
              column[s] == if column0[s].Some? then column0[s] else Some(Scope(rows, s))
  {
    var scopes := ResolveScopes(rows);
    column := column0;
    var todo := scopes.Keys;
    while todo != {}
      invariant todo <= rows.Keys && column.Keys == rows.Keys
      invariant forall s :: s in todo ==> column[s] == column0[s]
      invariant forall s :: s in rows && s !in todo ==>
                  column[s] == if column0[s].Some? then column0[s] else Some(Scope(rows, s))
      decreases |todo|
    {
      var s :| s in todo;
      todo := todo - {s};
      if column[s].None? {
        column := column[s := Some(scopes[s])];
      }
    }
  }
}
