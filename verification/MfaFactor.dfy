/** Verification of TOTP codes (section 5.2 of RFC 6238) and single-use recovery codes. */
module MfaFactor {
  import opened Collections
  import opened Options
  import opened Text

  const STEP: int := 30

  type CodeId = string

  /** Code generation and hashing are outside the model: any functions will do. */
  datatype Crypto = Crypto(totp: (string, int) -> string, hash: string -> string)

  datatype Factor = Factor(secret: string, active: bool, lastAccepted: Option<int>)

  datatype Recovery = Recovery(hash: string, usedAt: Option<int>)

  /** The rows of one user. */
  datatype Account = Account(factor: Option<Factor>, codes: map<CodeId, Recovery>) {
    /** The unique constraint of the table: no two rows share a hash. */
    ghost predicate Valid() {
      forall a, b :: a in codes && b in codes && codes[a].hash == codes[b].hash ==> a == b
    }

    predicate Activated() {
      factor.Some? && factor.value.active
    }
  }

  predicate SixDigits(code: string) {
    |code| == 6 && forall i :: 0 <= i < 6 ==> '0' <= code[i] <= '9'
  }

  /** The current step, then the previous one, then the next. */
  function MatchingCounter(crypto: Crypto, secret: string, code: string, now: nat): Option<int> {
    var counter := now / STEP;
    if !SixDigits(code) then None
    else if crypto.totp(secret, counter) == code then Some(counter)
    else if crypto.totp(secret, counter - 1) == code then Some(counter - 1)
    else if crypto.totp(secret, counter + 1) == code then Some(counter + 1)
    else None
  }

  predicate Newer(last: Option<int>, counter: int) {
    last.None? || last.value < counter
  }

  /** The counter that `verify_totp_code` accepts, if any. */
  function AcceptedCounter(crypto: Crypto, account: Account, code: string, now: nat): Option<int> {
    if account.factor.None? || !account.factor.value.active then None
    else
      var counter := MatchingCounter(crypto, account.factor.value.secret, code, now);
      if counter.Some? && Newer(account.factor.value.lastAccepted, counter.value) then counter else None
  }

  /** `code.strip().upper().replace("-", "")` */
  function Normalize(code: string): string {
    Without(Upper(Strip(code)), '-')
  }

  /** The significant characters of a code: everything but hyphens, in upper case. */
  function Significant(s: string): string {
    if s == [] then [] else (if s[0] == '-' then [] else [UpperChar(s[0])]) + Significant(s[1..])
  }

  lemma {:induction false} WithoutUpper(s: string)
    ensures Without(Upper(s), '-') == Significant(s)
  {
    if s != [] {
      WithoutUpper(s[1..]);
      assert Upper(s)[1..] == Upper(s[1..]);
      assert UpperChar(s[0]) == '-' <==> s[0] == '-';
    }
  }

  /** Blanks around a code, its case and its hyphens do not matter; nothing else is ignored. */
  lemma NormalizeMeans(lead: string, s: string, trail: string)
    requires Blank(lead) && Blank(trail) && s != [] && !IsSpace(s[0]) && !IsSpace(s[|s| - 1])
    ensures Normalize(lead + s + trail) == Significant(s)
  {
    StripBlanks(lead, s, trail);
    WithoutUpper(s);
  }

  /** The unused codes of the user with this hash: the rows that `use_recovery_code` updates. */
  function Matching(codes: map<CodeId, Recovery>, hash: string): set<CodeId> {
    set id | id in codes && codes[id].hash == hash && codes[id].usedAt.None?
  }

  function MarkUsed(codes: map<CodeId, Recovery>, ids: set<CodeId>, now: int): map<CodeId, Recovery> {
    map id | id in codes :: if id in ids then codes[id].(usedAt := Some(now)) else codes[id]
  }

  datatype Verdict = Verdict(ok: bool, account: Account)

  /** `verify_totp_or_recovery` */
  function Verify(crypto: Crypto, account: Account, code: string, now: nat): Verdict {
    if account.factor.None? || !account.factor.value.active then Verdict(false, account)
    else
      var counter := AcceptedCounter(crypto, account, code, now);
      if counter.Some? then
        Verdict(true, account.(factor := Some(account.factor.value.(lastAccepted := counter))))
      else
        var rows := Matching(account.codes, crypto.hash(Normalize(code)));
        Verdict(|rows| == 1, account.(codes := MarkUsed(account.codes, rows, now)))
  }

  // ---------------------------------------------------------------------------
  // One verification
  // ---------------------------------------------------------------------------

  lemma MarkNothing(codes: map<CodeId, Recovery>, now: int)
    ensures MarkUsed(codes, {}, now) == codes
  {
  }

  lemma AtMostOne<T>(s: set<T>)
    requires forall a, b :: a in s && b in s ==> a == b
    ensures |s| <= 1
  {
    if s != {} {
      var a :| a in s;
      assert s == {a};
    }
  }

  lemma SingletonSet<T>(s: set<T>) returns (x: T)
    requires |s| == 1
    ensures s == {x}
  {
    x :| x in s;
    if s != {x} {
      ProperSubsetSize({x}, s);
    }
  }

  /** The verification advanced the counter and touched no recovery code. */
  predicate AdvancedCounter(before: Account, after: Account) {
    && before.factor.Some? && after.factor.Some? && after.factor.value.lastAccepted.Some?
    && Newer(before.factor.value.lastAccepted, after.factor.value.lastAccepted.value)
    && after.codes == before.codes
  }

  /** The verification spent exactly one unused recovery code and left the counter alone. */
  ghost predicate SpentOneCode(before: Account, after: Account, now: int) {
    && after.factor == before.factor
    && exists id :: id in before.codes && before.codes[id].usedAt.None?
                    && after.codes == before.codes[id := before.codes[id].(usedAt := Some(now))]
  }

  /** A successful verification does exactly one of the two, never both. */
  lemma SuccessSpendsOneThing(crypto: Crypto, account: Account, code: string, now: nat)
    requires Verify(crypto, account, code, now).ok
    ensures var after := Verify(crypto, account, code, now).account;
            AdvancedCounter(account, after) != SpentOneCode(account, after, now)
  {
    var after := Verify(crypto, account, code, now).account;
    if AcceptedCounter(crypto, account, code, now).Some? {
      assert AdvancedCounter(account, after);
    } else {
      var id := SingletonSet(Matching(account.codes, crypto.hash(Normalize(code))));
      assert id in Matching(account.codes, crypto.hash(Normalize(code)));
      assert after.codes == account.codes[id := account.codes[id].(usedAt := Some(now))];
    }
  }

  /** Under the unique constraint at most one unused code has a given hash. */
  lemma MatchingIsUnique(account: Account, hash: string)
    requires account.Valid()
    ensures |Matching(account.codes, hash)| <= 1
  {
    AtMostOne(Matching(account.codes, hash));
  }

  /** The row holds an unused code with this hash. */
  predicate Unused(codes: map<CodeId, Recovery>, id: CodeId, hash: string) {
    id in codes && codes[id] == Recovery(hash, None)
  }

  /** Spending the one unused code with a hash is marking all that match. */
  lemma OneCodeIsMatching(account: Account, codes: map<CodeId, Recovery>, hash: string, now: int, ok: bool)
    requires account.Valid() && (ok <==> exists id :: Unused(account.codes, id, hash))
    requires forall id :: Unused(account.codes, id, hash) ==> codes == account.codes[id := Recovery(hash, Some(now))]
    requires !ok ==> codes == account.codes
    ensures codes == MarkUsed(account.codes, Matching(account.codes, hash), now)
    ensures ok <==> |Matching(account.codes, hash)| == 1
  {
    var rows := Matching(account.codes, hash);
    MatchingIsUnique(account, hash);
    assert forall id :: id in rows <==> Unused(account.codes, id, hash);
    if ok {
      var id :| Unused(account.codes, id, hash);
      assert rows == {id};
      assert codes == MarkUsed(account.codes, rows, now);
    } else {
      assert rows == {};
      MarkNothing(account.codes, now);
    }
  }

  lemma VerifyKeepsValid(crypto: Crypto, account: Account, code: string, now: nat)
    requires account.Valid()
    ensures Verify(crypto, account, code, now).account.Valid()
  {
  }

  /** A refused verification changes nothing. */
  lemma RefusalIsHarmless(crypto: Crypto, account: Account, code: string, now: nat)
    requires account.Valid() && !Verify(crypto, account, code, now).ok
    ensures Verify(crypto, account, code, now).account == account
  {
    var rows := Matching(account.codes, crypto.hash(Normalize(code)));
    MatchingIsUnique(account, crypto.hash(Normalize(code)));
    MarkNothing(account.codes, now);
    if account.Activated() {
      assert rows == {};
    }
  }

  // ---------------------------------------------------------------------------
  // Runs of verifications against one activated factor
  // ---------------------------------------------------------------------------

  datatype Attempt = Attempt(code: string, now: nat)

  datatype Run = Run(account: Account, accepted: seq<(int, nat)>)   // accepted counters with their times

  function Step(crypto: Crypto, run: Run, a: Attempt): Run {
    var counter := AcceptedCounter(crypto, run.account, a.code, a.now);
    Run(Verify(crypto, run.account, a.code, a.now).account,
        if counter.Some? then run.accepted + [(counter.value, a.now)] else run.accepted)
  }

  function After(crypto: Crypto, start: Account, attempts: seq<Attempt>): Run {
    if attempts == [] then Run(start, [])
    else Step(crypto, After(crypto, start, attempts[..|attempts| - 1]), attempts[|attempts| - 1])
  }

  /** The account just before attempt `k`. */
  function Before(crypto: Crypto, start: Account, attempts: seq<Attempt>, k: nat): Account
    requires k <= |attempts|
  {
    After(crypto, start, attempts[..k]).account
  }

  lemma BeforeNext(crypto: Crypto, start: Account, attempts: seq<Attempt>, k: nat)
    requires k < |attempts|
    ensures Before(crypto, start, attempts, k + 1)
         == Verify(crypto, Before(crypto, start, attempts, k), attempts[k].code, attempts[k].now).account
  {
    assert attempts[..k + 1][..k] == attempts[..k];
  }

  lemma {:induction false} RunKeepsValid(crypto: Crypto, start: Account, attempts: seq<Attempt>, k: nat)
    requires start.Valid() && k <= |attempts|
    ensures Before(crypto, start, attempts, k).Valid()
  {
    if k > 0 {
      RunKeepsValid(crypto, start, attempts, k - 1);
      BeforeNext(crypto, start, attempts, k - 1);
      VerifyKeepsValid(crypto, Before(crypto, start, attempts, k - 1), attempts[k - 1].code, attempts[k - 1].now);
    }
  }

  predicate Accepts(crypto: Crypto, account: Account, a: Attempt) {
    Verify(crypto, account, a.code, a.now).ok
  }

  /** The attempt was accepted as a recovery code. */
  predicate Recovers(crypto: Crypto, account: Account, a: Attempt) {
    Accepts(crypto, account, a) && AcceptedCounter(crypto, account, a.code, a.now).None?
  }

  /** In every run a refused attempt leaves the account as it was. */
  lemma RefusedAttemptsChangeNothing(crypto: Crypto, start: Account, attempts: seq<Attempt>, k: nat)
    requires start.Valid() && k < |attempts|
    requires !Accepts(crypto, Before(crypto, start, attempts, k), attempts[k])
    ensures Before(crypto, start, attempts, k + 1) == Before(crypto, start, attempts, k)
  {
    RunKeepsValid(crypto, start, attempts, k);
    BeforeNext(crypto, start, attempts, k);
    RefusalIsHarmless(crypto, Before(crypto, start, attempts, k), attempts[k].code, attempts[k].now);
  }

  /** An accepted recovery code has no unused row any more. */
  lemma RecoverySpendsHash(crypto: Crypto, account: Account, a: Attempt)
    requires Recovers(crypto, account, a)
    ensures Matching(Verify(crypto, account, a.code, a.now).account.codes, crypto.hash(Normalize(a.code))) == {}
  {
  }

  /** Used rows stay used, and no row appears. */
  lemma SpentStaysSpent(crypto: Crypto, account: Account, a: Attempt, hash: string)
    requires Matching(account.codes, hash) == {}
    ensures Matching(Verify(crypto, account, a.code, a.now).account.codes, hash) == {}
  {
    var codes := Verify(crypto, account, a.code, a.now).account.codes;
    forall id | id in codes ensures id !in Matching(codes, hash) {
      assert id !in Matching(account.codes, hash);
    }
  }

  lemma {:induction false} SpentForever(crypto: Crypto, start: Account, attempts: seq<Attempt>, i: nat, j: nat, hash: string)
    requires i <= j <= |attempts| && Matching(Before(crypto, start, attempts, i).codes, hash) == {}
    ensures Matching(Before(crypto, start, attempts, j).codes, hash) == {}
    decreases j
  {
    if i < j {
      SpentForever(crypto, start, attempts, i, j - 1, hash);
      BeforeNext(crypto, start, attempts, j - 1);
      SpentStaysSpent(crypto, Before(crypto, start, attempts, j - 1), attempts[j - 1], hash);
    }
  }

  /** No recovery code is accepted twice in a run, however it is spelled and whatever happens in between. */
  lemma NoRecoveryCodeTwice(crypto: Crypto, start: Account, attempts: seq<Attempt>, i: nat, j: nat)
    requires i < j < |attempts|
    requires Recovers(crypto, Before(crypto, start, attempts, i), attempts[i])
    requires Recovers(crypto, Before(crypto, start, attempts, j), attempts[j])
    ensures crypto.hash(Normalize(attempts[i].code)) != crypto.hash(Normalize(attempts[j].code))
    ensures Normalize(attempts[i].code) != Normalize(attempts[j].code)
  {
    var hash := crypto.hash(Normalize(attempts[i].code));
    RecoverySpendsHash(crypto, Before(crypto, start, attempts, i), attempts[i]);
    BeforeNext(crypto, start, attempts, i);
    SpentForever(crypto, start, attempts, i + 1, j, hash);
  }

  ghost predicate Increasing(accepted: seq<(int, nat)>, from: int, last: int) {
    && (forall i, j :: 0 <= i < j < |accepted| ==> accepted[i].0 < accepted[j].0)
    && (forall i :: 0 <= i < |accepted| ==> from < accepted[i].0 <= last)
    && from <= last
  }

  /** Accepted counters grow strictly from the activation counter and stay within one step of the clock. */
  lemma {:induction false} CountersIncrease(crypto: Crypto, start: Account, attempts: seq<Attempt>, activation: int)
    requires start.factor.Some? && start.factor.value.active && start.factor.value.lastAccepted == Some(activation)
    ensures var run := After(crypto, start, attempts);
            && run.account.factor.Some? && run.account.factor.value.active
            && run.account.factor.value.lastAccepted.Some?
            && Increasing(run.accepted, activation, run.account.factor.value.lastAccepted.value)
            && forall i :: 0 <= i < |run.accepted| ==>
                 run.accepted[i].1 / STEP - 1 <= run.accepted[i].0 <= run.accepted[i].1 / STEP + 1
  {
    if attempts != [] {
      var front, a := attempts[..|attempts| - 1], attempts[|attempts| - 1];
      CountersIncrease(crypto, start, front, activation);
    }
  }

  /** The three counters that are tried, in this order: the current step, the one before, the one after. */
  function Tried(now: nat, i: nat): int
    requires i < 3
  {
    if i == 0 then now / STEP else if i == 1 then now / STEP - 1 else now / STEP + 1
  }

  /** The code is the six-digit code of counter number `i`, of none before it, and newer than the last accepted one. */
  predicate TotpMatches(crypto: Crypto, factor: Factor, code: string, now: nat, i: nat) {
    && i < 3 && |code| == 6 && (forall d :: 0 <= d < 6 ==> '0' <= code[d] <= '9')
    && crypto.totp(factor.secret, Tried(now, i)) == code
    && (forall h: nat :: h < i ==> crypto.totp(factor.secret, Tried(now, h)) != code)
    && (factor.lastAccepted.None? || factor.lastAccepted.value < Tried(now, i))
  }

  /** A counter is accepted exactly when some tried counter matches, and then it is that one. */
  lemma AcceptedIffMatches(crypto: Crypto, account: Account, code: string, now: nat)
    requires account.Activated()
    ensures forall i: nat :: TotpMatches(crypto, account.factor.value, code, now, i) ==>
              AcceptedCounter(crypto, account, code, now) == Some(Tried(now, i))
    ensures AcceptedCounter(crypto, account, code, now).Some? ==>
              exists i: nat :: TotpMatches(crypto, account.factor.value, code, now, i)
  {
    var factor := account.factor.value;
    assert Tried(now, 0) == now / STEP && Tried(now, 1) == now / STEP - 1 && Tried(now, 2) == now / STEP + 1;
    var counter := AcceptedCounter(crypto, account, code, now);
    if counter.Some? {
      if crypto.totp(factor.secret, Tried(now, 0)) == code {
        assert TotpMatches(crypto, factor, code, now, 0);
      } else if crypto.totp(factor.secret, Tried(now, 1)) == code {
        assert TotpMatches(crypto, factor, code, now, 1);
      } else {
        assert TotpMatches(crypto, factor, code, now, 2);
      }
    }
  }

  /** A verification succeeds exactly with a matching TOTP code or an unused recovery code of an activated account. */
  lemma VerifySucceedsIff(crypto: Crypto, account: Account, code: string, now: nat)
    requires account.Valid()
    ensures Verify(crypto, account, code, now).ok <==>
              && account.Activated()
              && ((exists i: nat :: TotpMatches(crypto, account.factor.value, code, now, i))
                  || exists id :: Unused(account.codes, id, crypto.hash(Normalize(code))))
  {
    if account.Activated() {
      AcceptedIffMatches(crypto, account, code, now);
      var hash := crypto.hash(Normalize(code));
      var rows := Matching(account.codes, hash);
      MatchingIsUnique(account, hash);
      assert forall id :: id in rows <==> Unused(account.codes, id, hash);
      if |rows| == 1 {
        var id := SingletonSet(rows);
        assert Unused(account.codes, id, hash);
      }
      if id :| Unused(account.codes, id, hash) {
        assert id in rows && rows != {};
      }
    }
  }

  /** The accepted counter and time come from an attempt with the six-digit code of that counter. */
  ghost predicate Genuine(crypto: Crypto, secret: string, attempts: seq<Attempt>, accepted: (int, nat)) {
    exists a :: && a in attempts && a.now == accepted.1
                && |a.code| == 6 && (forall d :: 0 <= d < 6 ==> '0' <= a.code[d] <= '9')
                && crypto.totp(secret, accepted.0) == a.code
  }

  /** In every run, whatever is accepted as a TOTP code is one: for the counter recorded, at the time recorded. */
  lemma {:induction false} AcceptedCodesAreGenuine(crypto: Crypto, start: Account, attempts: seq<Attempt>, i: nat)
    requires start.Activated() && i < |After(crypto, start, attempts).accepted|
    ensures Genuine(crypto, start.factor.value.secret, attempts, After(crypto, start, attempts).accepted[i])
  {
    var front, a := attempts[..|attempts| - 1], attempts[|attempts| - 1];
    var before := After(crypto, start, front);
    SecretStays(crypto, start, front);
    assert attempts == front + [a];
    if i < |before.accepted| {
      AcceptedCodesAreGenuine(crypto, start, front, i);
    } else {
      AcceptedIffMatches(crypto, before.account, a.code, a.now);
      assert a in attempts;
    }
  }

  lemma {:induction false} SecretStays(crypto: Crypto, start: Account, attempts: seq<Attempt>)
    requires start.Activated()
    ensures After(crypto, start, attempts).account.Activated()
    ensures After(crypto, start, attempts).account.factor.value.secret == start.factor.value.secret
  {
    if attempts != [] {
      SecretStays(crypto, start, attempts[..|attempts| - 1]);
    }
  }

  /** Hence no counter, and so no code of a time step, is accepted twice. */
  lemma NoCounterTwice(crypto: Crypto, start: Account, attempts: seq<Attempt>, i: nat, j: nat)
    requires start.factor.Some? && start.factor.value.active && start.factor.value.lastAccepted.Some?
    requires i < j < |After(crypto, start, attempts).accepted|
    ensures After(crypto, start, attempts).accepted[i].0 != After(crypto, start, attempts).accepted[j].0
    ensures After(crypto, start, attempts).accepted[i].0 != start.factor.value.lastAccepted.value
  {
    CountersIncrease(crypto, start, attempts, start.factor.value.lastAccepted.value);
  }

  // ---------------------------------------------------------------------------
  // The rows, updated in place
  // ---------------------------------------------------------------------------

  class MfaAccount {
    var factor: Option<Factor>
    var codes: map<CodeId, Recovery>

    ghost function View(): Account
      reads this
    {
      Account(factor, codes)
    }

    constructor (factor: Option<Factor>, codes: map<CodeId, Recovery>)
      ensures View() == Account(factor, codes)
    {
      this.factor, this.codes := factor, codes;
    }

    /** The candidates are tried in order; the guarded update then rejects an old counter. */
    method VerifyTotp(crypto: Crypto, code: string, now: nat) returns (ok: bool)
      requires factor.Some? && factor.value.active
      modifies this`factor
      ensures ok <==> exists i: nat :: TotpMatches(crypto, old(factor).value, code, now, i)
      ensures forall i: nat :: TotpMatches(crypto, old(factor).value, code, now, i) ==>
                factor == Some(old(factor).value.(lastAccepted := Some(Tried(now, i))))
      ensures !ok ==> factor == old(factor)
    {
      if !SixDigits(code) {
        return false;
      }
      var candidates := [now / STEP, now / STEP - 1, now / STEP + 1];
      assert forall j: nat :: j < 3 ==> candidates[j] == Tried(now, j);
      var i := 0;
      while i < 3 && crypto.totp(factor.value.secret, candidates[i]) != code
        invariant 0 <= i <= 3
        invariant forall j: nat :: j < i ==> crypto.totp(factor.value.secret, Tried(now, j)) != code
      {
        i := i + 1;
      }
      if i == 3 || !Newer(factor.value.lastAccepted, candidates[i]) {
        return false;
      }
      assert TotpMatches(crypto, factor.value, code, now, i);
      factor := Some(factor.value.(lastAccepted := Some(candidates[i])));
      return true;
    }

    /**
     Succeeds exactly for the hash of an unused code, spends that one code and no other, and
     otherwise changes nothing.
     */
    method UseRecoveryCode(crypto: Crypto, code: string, now: int) returns (ok: bool)
      requires View().Valid()
      modifies this`codes
      ensures View().Valid()
      ensures ok <==> exists id :: Unused(old(codes), id, crypto.hash(Normalize(code)))
      ensures forall id :: Unused(old(codes), id, crypto.hash(Normalize(code))) ==>
                codes == old(codes)[id := Recovery(crypto.hash(Normalize(code)), Some(now))]
      ensures !ok ==> codes == old(codes)
    {
      var hash := crypto.hash(Normalize(code));
      var rows := Matching(codes, hash);
      MatchingIsUnique(View(), hash);
      codes := MarkUsed(codes, rows, now);
      ok := |rows| == 1;
      assert ok ==> rows != {};
      if ok {
        ghost var id := SingletonSet(rows);
        assert id in rows && Unused(old(codes), id, hash);
        assert codes == old(codes)[id := Recovery(hash, Some(now))];
      } else {
        assert rows == {};
        MarkNothing(old(codes), now);
      }
      forall id | Unused(old(codes), id, hash) ensures id in rows {
      }
    }

    method VerifyTotpOrRecovery(crypto: Crypto, code: string, now: nat) returns (ok: bool)
      requires View().Valid()
      modifies this
      ensures Verdict(ok, View()) == Verify(crypto, old(View()), code, now) && View().Valid()
      ensures ok <==>
                && old(View()).Activated()
                && ((exists i: nat :: TotpMatches(crypto, old(factor).value, code, now, i))
                    || exists id :: Unused(old(codes), id, crypto.hash(Normalize(code))))
    {
      VerifySucceedsIff(crypto, View(), code, now);
      if factor.None? || !factor.value.active {
        return false;
      }
      AcceptedIffMatches(crypto, View(), code, now);
      ok := VerifyTotp(crypto, code, now);
      if !ok {
        ghost var hash := crypto.hash(Normalize(code));
        ok := UseRecoveryCode(crypto, code, now);
        OneCodeIsMatching(old(View()), codes, hash, now, ok);
      }
      VerifyKeepsValid(crypto, old(View()), code, now);
    }
  }
}
