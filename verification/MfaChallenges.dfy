/**
 MFA login and setup challenges, revocation by version, and access-token authentication.
 Each SQL statement is one atomic guarded update of the tables.
 */
module MfaChallenges {
  import opened Options

  const TTL: int := 300
  const MAX_ATTEMPTS: int := 5
  const RETENTION: int := 86400
  const CLEANUP_LIMIT: int := 100

  type Email = string
  type ChallengeId = string

  datatype Purpose = LoginVerify | LoginSetup | AccountSetup

  datatype Challenge = Challenge(
    user: Email, purpose: Purpose, authVersion: int, attempts: int, maxAttempts: int,
    createdAt: int, expiresAt: int, consumedAt: Option<int>)

  datatype Store = Store(users: map<Email, int>, challenges: map<ChallengeId, Challenge>)

  datatype Step =
    | Create(id: ChallengeId, user: Email, purpose: Purpose, victims: set<ChallengeId>)
    | Cleanup(victims: set<ChallengeId>, limit: int)
    | Reserve(id: ChallengeId)
    | Consume(id: ChallengeId)
    | Invalidate(user: Email, keep: ChallengeId)
    | Revoke(user: Email)
    | ResetMfa(user: Email)

  // ---------------------------------------------------------------------------
  // The statements
  // ---------------------------------------------------------------------------

  predicate Current(s: Store, c: Challenge) {
    c.user in s.users && c.authVersion == s.users[c.user]
  }

  /** What `get_live_challenge` selects (for a token of this challenge). */
  predicate Live(s: Store, c: Challenge, now: int) {
    c.consumedAt.None? && c.expiresAt > now && c.attempts < c.maxAttempts && Current(s, c)
  }

  predicate Consumable(s: Store, c: Challenge, now: int) {
    c.consumedAt.None? && c.expiresAt > now && c.attempts <= c.maxAttempts && Current(s, c)
  }

  /** What cleanup may delete. */
  predicate Disposable(c: Challenge, now: int) {
    c.expiresAt <= now || (c.consumedAt.Some? && c.consumedAt.value <= now - RETENTION)
  }

  function Candidates(s: Store, now: int): set<ChallengeId> {
    set id | id in s.challenges && Disposable(s.challenges[id], now)
  }

  /** An oldest-first batch of at most `max(1, limit)` candidates; ties are broken anyhow. */
  ghost predicate IsBatch(s: Store, victims: set<ChallengeId>, now: int, limit: int) {
    var bound := if limit < 1 then 1 else limit;
    && victims <= Candidates(s, now)
    && |victims| == (if |Candidates(s, now)| < bound then |Candidates(s, now)| else bound)
    && forall v, c :: v in victims && c in Candidates(s, now) - victims ==>
         s.challenges[v].createdAt <= s.challenges[c].createdAt
  }

  /** Whether a guarded update hits its row, i.e. the operation reports success. */
  predicate Succeeds(s: Store, step: Step, now: int) {
    match step
    case Reserve(id) => id in s.challenges && Live(s, s.challenges[id], now)
    case Consume(id) => id in s.challenges && Consumable(s, s.challenges[id], now)
    case _ => true
  }

  /** Challenges are created with fresh ids, for the version the user has at that time. */
  ghost predicate Enabled(s: Store, step: Step, now: int, used: set<ChallengeId>) {
    match step
    case Create(id, user, _, victims) => id !in used && user in s.users && IsBatch(s, victims, now, CLEANUP_LIMIT)
    case Cleanup(victims, limit) => IsBatch(s, victims, now, limit)
    case _ => true
  }

  function BumpVersion(users: map<Email, int>, user: Email): map<Email, int> {
    if user in users then users[user := users[user] + 1] else users
  }

  predicate ToInvalidate(id: ChallengeId, c: Challenge, user: Email, keep: ChallengeId) {
    c.user == user && id != keep && c.purpose != LoginVerify && c.consumedAt.None?
  }

  function Next(s: Store, step: Step, now: int): Store {
    match step
    case Create(id, user, purpose, victims) =>
      var version := if user in s.users then s.users[user] else 0;
      s.(challenges := (s.challenges - victims)
                       [id := Challenge(user, purpose, version, 0, MAX_ATTEMPTS, now, now + TTL, None)])
    case Cleanup(victims, _) => s.(challenges := s.challenges - victims)
    case Reserve(id) =>
      if Succeeds(s, step, now)
      then s.(challenges := s.challenges[id := s.challenges[id].(attempts := s.challenges[id].attempts + 1)]) else s
    case Consume(id) =>
      if Succeeds(s, step, now)
      then s.(challenges := s.challenges[id := s.challenges[id].(consumedAt := Some(now))]) else s
    case Invalidate(user, keep) =>
      s.(challenges := map id | id in s.challenges ::
           if ToInvalidate(id, s.challenges[id], user, keep)
           then s.challenges[id].(consumedAt := Some(now)) else s.challenges[id])
    case Revoke(user) => s.(users := BumpVersion(s.users, user))
    case ResetMfa(user) =>
      s.(challenges := map id | id in s.challenges && s.challenges[id].user != user :: s.challenges[id],
         users := BumpVersion(s.users, user))
  }

  // ---------------------------------------------------------------------------
  // Runs with a nondecreasing clock
  // ---------------------------------------------------------------------------

  datatype Tick = Tick(step: Step, now: int)

  /** The store, and every id used so far. */
  datatype State = State(store: Store, used: set<ChallengeId>)

  function NextState(s: State, tick: Tick): State {
    State(Next(s.store, tick.step, tick.now),
          if tick.step.Create? then s.used + {tick.step.id} else s.used)
  }

  ghost predicate StepTo(s: State, tick: Tick, s': State) {
    Enabled(s.store, tick.step, tick.now, s.used) && s' == NextState(s, tick)
  }

  ghost predicate StepAt(states: seq<State>, ticks: seq<Tick>, i: nat)
    requires |states| == |ticks| + 1 && i < |ticks|
  {
    StepTo(states[i], ticks[i], states[i + 1])
  }

  ghost predicate IsRun(states: seq<State>, ticks: seq<Tick>) {
    && |states| == |ticks| + 1
    && states[0].store.challenges == map[] && states[0].used == {}
    && (forall i :: 0 <= i < |ticks| ==> StepAt(states, ticks, i))
    && (forall i, j :: 0 <= i < j < |ticks| ==> ticks[i].now <= ticks[j].now)
  }

  ghost predicate ChallengeOk(users: map<Email, int>, c: Challenge, now: int) {
    && 0 <= c.attempts <= c.maxAttempts
    && c.createdAt <= now && c.expiresAt == c.createdAt + TTL
    && (c.consumedAt.Some? ==> c.createdAt <= c.consumedAt.value <= now)
    && c.user in users && c.authVersion <= users[c.user]
  }

  ghost predicate Inv(s: State, now: int) {
    && s.store.challenges.Keys <= s.used
    && forall id :: id in s.store.challenges ==> ChallengeOk(s.store.users, s.store.challenges[id], now)
  }

  lemma StepKeepsInv(s: State, tick: Tick, s': State, before: int)
    requires Inv(s, before) && before <= tick.now && StepTo(s, tick, s')
    ensures Inv(s', tick.now)
  {
    assert s'.store.challenges.Keys <= s'.used;
    forall id | id in s'.store.challenges
      ensures ChallengeOk(s'.store.users, s'.store.challenges[id], tick.now)
    {
      if id in s.store.challenges {
        assert ChallengeOk(s.store.users, s.store.challenges[id], before);
      }
    }
  }

  function ClockAt(ticks: seq<Tick>, i: nat): int
    requires i <= |ticks| && ticks != []
  {
    if i == 0 then ticks[0].now else ticks[i - 1].now
  }

  lemma {:induction false} RunKeepsInv(states: seq<State>, ticks: seq<Tick>, i: nat)
    requires IsRun(states, ticks) && ticks != [] && i < |states|
    ensures Inv(states[i], ClockAt(ticks, i))
  {
    if i > 0 {
      RunKeepsInv(states, ticks, i - 1);
      assert StepAt(states, ticks, i - 1);
      StepKeepsInv(states[i - 1], ticks[i - 1], states[i], ClockAt(ticks, i - 1));
    }
  }

  /** Attempts never exceed the maximum of the challenge. */
  lemma AttemptsBounded(states: seq<State>, ticks: seq<Tick>, i: nat, id: ChallengeId)
    requires IsRun(states, ticks) && ticks != [] && i < |states| && id in states[i].store.challenges
    ensures states[i].store.challenges[id].attempts <= states[i].store.challenges[id].maxAttempts
  {
    RunKeepsInv(states, ticks, i);
    assert ChallengeOk(states[i].store.users, states[i].store.challenges[id], ClockAt(ticks, i));
  }

  /** The id was used, and its challenge is gone or no longer open. */
  ghost predicate Closed(s: State, id: ChallengeId) {
    id in s.used && (id in s.store.challenges ==> s.store.challenges[id].consumedAt.Some?)
  }

  lemma ClosedStaysClosed(s: State, tick: Tick, s': State, id: ChallengeId)
    requires StepTo(s, tick, s') && Closed(s, id)
    ensures Closed(s', id) && !(tick.step == Consume(id) && Succeeds(s.store, tick.step, tick.now))
  {
  }

  lemma {:induction false} ClosedForever(states: seq<State>, ticks: seq<Tick>, i: nat, j: nat, id: ChallengeId)
    requires IsRun(states, ticks) && i <= j < |states| && Closed(states[i], id)
    ensures Closed(states[j], id)
  {
    if i < j {
      ClosedForever(states, ticks, i, j - 1, id);
      assert StepAt(states, ticks, j - 1);
      ClosedStaysClosed(states[j - 1], ticks[j - 1], states[j], id);
    }
  }

  /** No challenge is consumed twice, whatever happens in between. */
  lemma ConsumedOnce(states: seq<State>, ticks: seq<Tick>, i: nat, j: nat, id: ChallengeId)
    requires IsRun(states, ticks) && i < j < |ticks|
    requires ticks[i].step == Consume(id) && Succeeds(states[i].store, ticks[i].step, ticks[i].now)
    requires ticks[j].step == Consume(id)
    ensures !Succeeds(states[j].store, ticks[j].step, ticks[j].now)
  {
    RunKeepsInv(states, ticks, i);
    assert StepAt(states, ticks, i);
    ClosedForever(states, ticks, i + 1, j, id);
    assert StepAt(states, ticks, j);
    ClosedStaysClosed(states[j], ticks[j], states[j + 1], id);
  }

  // Revocation

  /** The id was used, and its challenge is gone or belongs to an earlier version of its user. */
  ghost predicate Outdated(s: State, id: ChallengeId) {
    && id in s.used
    && (id in s.store.challenges ==>
          var c := s.store.challenges[id];
          c.user in s.store.users && c.authVersion < s.store.users[c.user])
  }

  lemma OutdatedStaysOutdated(s: State, tick: Tick, s': State, id: ChallengeId)
    requires StepTo(s, tick, s') && Outdated(s, id)
    ensures Outdated(s', id)
  {
  }

  lemma {:induction false} OutdatedForever(states: seq<State>, ticks: seq<Tick>, i: nat, j: nat, id: ChallengeId)
    requires IsRun(states, ticks) && i <= j < |states| && Outdated(states[i], id)
    ensures Outdated(states[j], id)
  {
    if i < j {
      OutdatedForever(states, ticks, i, j - 1, id);
      assert StepAt(states, ticks, j - 1);
      OutdatedStaysOutdated(states[j - 1], ticks[j - 1], states[j], id);
    }
  }

  predicate Revokes(step: Step, user: Email) {
    step == Revoke(user) || step == ResetMfa(user)
  }

  /** A challenge from before a revocation is never accepted afterwards, by no operation. */
  lemma RevocationIsFinal(states: seq<State>, ticks: seq<Tick>, i: nat, j: nat, id: ChallengeId, now: int)
    requires IsRun(states, ticks) && i < j < |states|
    requires id in states[i].store.challenges && Revokes(ticks[i].step, states[i].store.challenges[id].user)
    ensures !Succeeds(states[j].store, Reserve(id), now) && !Succeeds(states[j].store, Consume(id), now)
    ensures id in states[j].store.challenges ==> !Live(states[j].store, states[j].store.challenges[id], now)
  {
    RunKeepsInv(states, ticks, i);
    assert ChallengeOk(states[i].store.users, states[i].store.challenges[id], ClockAt(ticks, i));
    assert StepAt(states, ticks, i);
    assert Outdated(states[i + 1], id);
    OutdatedForever(states, ticks, i + 1, j, id);
  }

  // Cleanup

  /** Cleanup deletes no challenge that any operation would still accept, and at most its limit. */
  lemma CleanupSparesLive(s: Store, victims: set<ChallengeId>, now: int, limit: int, id: ChallengeId)
    requires IsBatch(s, victims, now, limit) && id in victims
    ensures id in s.challenges
    ensures !Live(s, s.challenges[id], now) && !Consumable(s, s.challenges[id], now)
    ensures |victims| <= if limit < 1 then 1 else limit
  {
  }

  /** In every reachable state the retention rule adds nothing: such challenges have already expired. */
  lemma RetentionImpliesExpired(states: seq<State>, ticks: seq<Tick>, i: nat, id: ChallengeId, now: int)
    requires IsRun(states, ticks) && ticks != [] && i < |states| && id in states[i].store.challenges
    requires ClockAt(ticks, i) <= now
    requires var c := states[i].store.challenges[id];
             c.consumedAt.Some? && c.consumedAt.value <= now - RETENTION
    ensures states[i].store.challenges[id].expiresAt <= now
  {
    RunKeepsInv(states, ticks, i);
    assert ChallengeOk(states[i].store.users, states[i].store.challenges[id], ClockAt(ticks, i));
  }

  // ---------------------------------------------------------------------------
  // Access tokens
  // ---------------------------------------------------------------------------

  /** A claim of a decoded token: absent, an integer, or something else (a boolean, a string). */
  datatype VersionClaim = Absent | Number(value: int) | NotANumber

  datatype Claims = Claims(typ: string, subject: Option<string>, version: VersionClaim)

  datatype User = User(active: bool, authVersion: int)

  datatype AuthError = InvalidToken | InvalidType | MissingSubject | UnknownUser | AccountDisabled | RevokedToken

  datatype AuthResult = Authenticated(email: Email) | Rejected(error: AuthError)

  /** `claims` is `None` when the signature, audience or expiry check failed. */
  function AuthenticateAccessToken(claims: Option<Claims>, users: map<Email, User>): AuthResult {
    if claims.None? then Rejected(InvalidToken)
    else if claims.value.typ != "access" then Rejected(InvalidType)
    else if claims.value.subject.None? || claims.value.subject.value == "" then Rejected(MissingSubject)
    else
      var subject := claims.value.subject.value;
      if subject !in users then Rejected(UnknownUser)
      else if !users[subject].active then Rejected(AccountDisabled)
      else
        var version := if claims.value.version.Absent? then Number(0) else claims.value.version;
        if version.NotANumber? || version.value != users[subject].authVersion then Rejected(RevokedToken)
        else Authenticated(subject)
  }

  /** A token is accepted exactly if it is a valid access token of a known, active user at the user's version. */
  lemma AuthenticatedIff(claims: Option<Claims>, users: map<Email, User>, email: Email)
    ensures AuthenticateAccessToken(claims, users) == Authenticated(email) <==>
              && claims.Some? && claims.value.typ == "access" && claims.value.subject == Some(email) && email != ""
              && email in users && users[email].active
              && (claims.value.version == Number(users[email].authVersion)
                  || (claims.value.version == Absent && users[email].authVersion == 0))
  {
  }

  /** The user table as authentication reads it; which users are active is not the business of this module. */
  function Accounts(users: map<Email, int>, active: set<Email>): map<Email, User> {
    map e | e in users :: User(e in active, users[e])
  }

  /** The version a token carries; tokens without the claim count as version zero. */
  function TokenVersion(claims: Claims): VersionClaim {
    if claims.version.Absent? then Number(0) else claims.version
  }

  /** An access token of `user` issued at the version current in this state. */
  ghost predicate IssuedAt(claims: Claims, s: State, user: Email) {
    && claims.typ == "access" && claims.subject == Some(user) && user != ""
    && user in s.store.users && TokenVersion(claims) == Number(s.store.users[user])
  }

  lemma VersionStep(s: State, tick: Tick, s': State, user: Email)
    requires StepTo(s, tick, s') && user in s.store.users
    ensures user in s'.store.users
    ensures s'.store.users[user] == s.store.users[user] + if Revokes(tick.step, user) then 1 else 0
  {
  }

  /** How often a user is revoked. */
  function Revocations(ticks: seq<Tick>, user: Email): nat {
    if ticks == [] then 0
    else Revocations(ticks[..|ticks| - 1], user) + if Revokes(ticks[|ticks| - 1].step, user) then 1 else 0
  }

  /** A user's version counts the revocations of the run. */
  lemma {:induction false} VersionCounts(states: seq<State>, ticks: seq<Tick>, k: nat, j: nat, user: Email)
    requires IsRun(states, ticks) && k <= j < |states| && user in states[k].store.users
    ensures user in states[j].store.users
    ensures states[j].store.users[user] == states[k].store.users[user] + Revocations(ticks[k..j], user)
    decreases j
  {
    if k < j {
      VersionCounts(states, ticks, k, j - 1, user);
      assert StepAt(states, ticks, j - 1);
      VersionStep(states[j - 1], ticks[j - 1], states[j], user);
      assert ticks[k..j][..j - 1 - k] == ticks[k..j - 1];
    }
  }

  lemma {:induction false} RevocationCounted(ticks: seq<Tick>, user: Email)
    ensures Revocations(ticks, user) == 0 <==> forall m :: 0 <= m < |ticks| ==> !Revokes(ticks[m].step, user)
  {
    if ticks != [] {
      RevocationCounted(ticks[..|ticks| - 1], user);
    }
  }

  /**
   In every run, a token issued at state `k` authenticates at state `j` exactly when its user is
   active and was not revoked in between.
   */
  lemma TokenAcceptedIff(states: seq<State>, ticks: seq<Tick>, k: nat, j: nat, user: Email, claims: Claims, active: set<Email>)
    requires IsRun(states, ticks) && k <= j < |states| && IssuedAt(claims, states[k], user)
    ensures AuthenticateAccessToken(Some(claims), Accounts(states[j].store.users, active)).Authenticated?
       <==> user in active && forall m :: k <= m < j ==> !Revokes(ticks[m].step, user)
  {
    VersionCounts(states, ticks, k, j, user);
    RevocationCounted(ticks[k..j], user);
    if forall m :: k <= m < j ==> !Revokes(ticks[m].step, user) {
      assert forall m :: 0 <= m < |ticks[k..j]| ==> ticks[k..j][m] == ticks[k + m];
    } else {
      var m :| k <= m < j && Revokes(ticks[m].step, user);
      assert ticks[k..j][m - k] == ticks[m];
    }
  }

  /** A token from before a revocation is never accepted afterwards. */
  lemma TokenRevocationIsFinal(states: seq<State>, ticks: seq<Tick>, k: nat, i: nat, j: nat, user: Email, claims: Claims,
                               active: set<Email>)
    requires IsRun(states, ticks) && k <= i < j < |states|
    requires IssuedAt(claims, states[k], user) && Revokes(ticks[i].step, user)
    ensures AuthenticateAccessToken(Some(claims), Accounts(states[j].store.users, active)).Rejected?
  {
    TokenAcceptedIff(states, ticks, k, j, user, claims, active);
  }

  // ---------------------------------------------------------------------------
  // The whole life of a challenge
  // ---------------------------------------------------------------------------

  /** How many of the steps after `k` and before `j` reserved an attempt of the challenge with success. */
  ghost function Reserves(states: seq<State>, ticks: seq<Tick>, k: nat, j: nat, id: ChallengeId): (n: nat)
    requires |states| == |ticks| + 1 && j <= |ticks|
    decreases j
  {
    if j <= k + 1 then 0
    else
      var before := Reserves(states, ticks, k, j - 1, id);
      if ReservesAt(states, ticks, j - 1, id) then before + 1 else before
  }

  ghost predicate ReservesAt(states: seq<State>, ticks: seq<Tick>, m: nat, id: ChallengeId)
    requires |states| == |ticks| + 1 && m < |ticks|
  {
    ticks[m].step == Reserve(id) && Succeeds(states[m].store, Reserve(id), ticks[m].now)
  }

  /** Step `k` created the challenge. */
  ghost predicate CreatedAt(ticks: seq<Tick>, k: nat, id: ChallengeId) {
    k < |ticks| && ticks[k].step.Create? && ticks[k].step.id == id
  }

  /** Step `m` closes the challenge of step `k`: it consumes it, or finishes another setup of its user. */
  ghost predicate ClosesAt(states: seq<State>, ticks: seq<Tick>, k: nat, m: nat, id: ChallengeId)
    requires |states| == |ticks| + 1 && m < |ticks| && CreatedAt(ticks, k, id)
  {
    || (ticks[m].step == Consume(id) && Succeeds(states[m].store, Consume(id), ticks[m].now))
    || (ticks[m].step.Invalidate? && ticks[m].step.user == ticks[k].step.user && ticks[m].step.keep != id
        && ticks[k].step.purpose != LoginVerify)
  }

  ghost predicate NotClosed(states: seq<State>, ticks: seq<Tick>, k: nat, j: nat, id: ChallengeId)
    requires |states| == |ticks| + 1 && j <= |ticks| && CreatedAt(ticks, k, id)
  {
    forall m :: k < m < j ==> !ClosesAt(states, ticks, k, m, id)
  }

  ghost predicate NotRevoked(ticks: seq<Tick>, k: nat, j: nat, id: ChallengeId)
    requires j <= |ticks| && CreatedAt(ticks, k, id)
  {
    forall m :: k < m < j ==> !Revokes(ticks[m].step, ticks[k].step.user)
  }

  /** What the row of the challenge says at state `j`. */
  ghost predicate RowTells(states: seq<State>, ticks: seq<Tick>, k: nat, j: nat, id: ChallengeId)
    requires |states| == |ticks| + 1 && k < j <= |ticks| && CreatedAt(ticks, k, id)
    requires id in states[j].store.challenges && ticks[k].step.user in states[k].store.users
  {
    var c, create := states[j].store.challenges[id], ticks[k];
    && c.user == create.step.user && c.purpose == create.step.purpose
    && c.createdAt == create.now && c.expiresAt == create.now + TTL && c.maxAttempts == MAX_ATTEMPTS
    && c.authVersion == states[k].store.users[create.step.user]
    && c.attempts == Reserves(states, ticks, k, j, id)
    && (c.consumedAt.None? <==> NotClosed(states, ticks, k, j, id))
  }

  /** A live row, or a reason for it to be gone. */
  ghost predicate LifeOk(states: seq<State>, ticks: seq<Tick>, k: nat, j: nat, id: ChallengeId)
    requires |states| == |ticks| + 1 && k < j <= |ticks| && CreatedAt(ticks, k, id)
    requires ticks[k].step.user in states[k].store.users
  {
    && id in states[j].used
    && if id in states[j].store.challenges then RowTells(states, ticks, k, j, id)
       else ClockAt(ticks, j) >= ticks[k].now + TTL || !NotRevoked(ticks, k, j, id)
  }

  lemma LifeBegins(states: seq<State>, ticks: seq<Tick>, k: nat, id: ChallengeId)
    requires IsRun(states, ticks) && CreatedAt(ticks, k, id)
    ensures ticks[k].step.user in states[k].store.users && LifeOk(states, ticks, k, k + 1, id)
  {
    assert StepAt(states, ticks, k);
  }

  lemma OneMoreStep(states: seq<State>, ticks: seq<Tick>, k: nat, j: nat, id: ChallengeId)
    requires |states| == |ticks| + 1 && CreatedAt(ticks, k, id) && k < j < |ticks|
    ensures NotClosed(states, ticks, k, j + 1, id) <==> NotClosed(states, ticks, k, j, id) && !ClosesAt(states, ticks, k, j, id)
    ensures NotRevoked(ticks, k, j + 1, id) <==> NotRevoked(ticks, k, j, id) && !Revokes(ticks[j].step, ticks[k].step.user)
  {
  }

  lemma RowStep(states: seq<State>, ticks: seq<Tick>, k: nat, j: nat, id: ChallengeId)
    requires IsRun(states, ticks) && CreatedAt(ticks, k, id) && k < j < |ticks|
    requires id in states[j].store.challenges && id in states[j + 1].store.challenges && id in states[j].used
    requires ticks[k].step.user in states[k].store.users && RowTells(states, ticks, k, j, id)
    ensures RowTells(states, ticks, k, j + 1, id)
  {
    assert StepAt(states, ticks, j);
    OneMoreStep(states, ticks, k, j, id);
  }

  lemma GoneStep(states: seq<State>, ticks: seq<Tick>, k: nat, j: nat, id: ChallengeId)
    requires IsRun(states, ticks) && CreatedAt(ticks, k, id) && k < j < |ticks|
    requires ticks[k].step.user in states[k].store.users && LifeOk(states, ticks, k, j, id)
    requires id !in states[j + 1].store.challenges
    ensures ClockAt(ticks, j + 1) >= ticks[k].now + TTL || !NotRevoked(ticks, k, j + 1, id)
  {
    assert StepAt(states, ticks, j);
    OneMoreStep(states, ticks, k, j, id);
    RunKeepsInv(states, ticks, j);
    assert ClockAt(ticks, j) <= ticks[j].now;
    if id in states[j].store.challenges {
      assert ChallengeOk(states[j].store.users, states[j].store.challenges[id], ClockAt(ticks, j));
    }
  }

  lemma LifeStep(states: seq<State>, ticks: seq<Tick>, k: nat, j: nat, id: ChallengeId)
    requires IsRun(states, ticks) && CreatedAt(ticks, k, id) && k < j < |ticks|
    requires ticks[k].step.user in states[k].store.users && LifeOk(states, ticks, k, j, id)
    ensures LifeOk(states, ticks, k, j + 1, id)
  {
    assert StepAt(states, ticks, j);
    if id !in states[j + 1].store.challenges {
      GoneStep(states, ticks, k, j, id);
    } else {
      assert id in states[j].store.challenges;
      RowStep(states, ticks, k, j, id);
    }
  }

  lemma {:induction false} LifeHolds(states: seq<State>, ticks: seq<Tick>, k: nat, j: nat, id: ChallengeId)
    requires IsRun(states, ticks) && CreatedAt(ticks, k, id) && k < j <= |ticks|
    ensures ticks[k].step.user in states[k].store.users && LifeOk(states, ticks, k, j, id)
    decreases j
  {
    LifeBegins(states, ticks, k, id);
    if j > k + 1 {
      LifeHolds(states, ticks, k, j - 1, id);
      LifeStep(states, ticks, k, j - 1, id);
    }
  }

  /** The version of the user is the one the challenge carries exactly when no revocation came in between. */
  lemma CurrentIffNotRevoked(states: seq<State>, ticks: seq<Tick>, k: nat, j: nat, id: ChallengeId)
    requires IsRun(states, ticks) && CreatedAt(ticks, k, id) && k < j <= |ticks|
    ensures var user := ticks[k].step.user;
            && user in states[k].store.users && user in states[j].store.users
            && (states[j].store.users[user] == states[k].store.users[user] <==> NotRevoked(ticks, k, j, id))
  {
    var user := ticks[k].step.user;
    LifeBegins(states, ticks, k, id);
    VersionCounts(states, ticks, k, j, user);
    RevocationCounted(ticks[k..j], user);
    assert ticks[k..j][0] == ticks[k];
    if NotRevoked(ticks, k, j, id) {
      forall m | 0 <= m < j - k ensures !Revokes(ticks[k..j][m].step, user) {
        assert ticks[k..j][m] == ticks[k + m];
      }
    } else {
      var m :| k < m < j && Revokes(ticks[m].step, user);
      assert ticks[k..j][m - k] == ticks[m];
    }
  }

  /** The challenge is open at `now`: neither expired, nor closed, nor from before a revocation. */
  ghost predicate OpenAt(states: seq<State>, ticks: seq<Tick>, k: nat, j: nat, id: ChallengeId, now: int)
    requires |states| == |ticks| + 1 && j <= |ticks| && CreatedAt(ticks, k, id)
  {
    now < ticks[k].now + TTL && NotClosed(states, ticks, k, j, id) && NotRevoked(ticks, k, j, id)
  }

  /** In every run, a reservation succeeds exactly while the challenge is open and fewer than the maximum succeeded before. */
  lemma ReserveSucceedsIff(states: seq<State>, ticks: seq<Tick>, k: nat, j: nat, id: ChallengeId, now: int)
    requires IsRun(states, ticks) && CreatedAt(ticks, k, id) && k < j <= |ticks| && ClockAt(ticks, j) <= now
    ensures Succeeds(states[j].store, Reserve(id), now)
       <==> OpenAt(states, ticks, k, j, id, now) && Reserves(states, ticks, k, j, id) < MAX_ATTEMPTS
  {
    LifeHolds(states, ticks, k, j, id);
    CurrentIffNotRevoked(states, ticks, k, j, id);
  }

  /** In every run, a consumption succeeds exactly while the challenge is open. */
  lemma ConsumeSucceedsIff(states: seq<State>, ticks: seq<Tick>, k: nat, j: nat, id: ChallengeId, now: int)
    requires IsRun(states, ticks) && CreatedAt(ticks, k, id) && k < j <= |ticks| && ClockAt(ticks, j) <= now
    ensures Succeeds(states[j].store, Consume(id), now) <==> OpenAt(states, ticks, k, j, id, now)
  {
    LifeHolds(states, ticks, k, j, id);
    CurrentIffNotRevoked(states, ticks, k, j, id);
    RunKeepsInv(states, ticks, j);
    if id in states[j].store.challenges {
      assert ChallengeOk(states[j].store.users, states[j].store.challenges[id], ClockAt(ticks, j));
    }
  }

  /** Successful reservations of a challenge are counted in its row, and there are never more than the maximum. */
  lemma {:induction false} ReservesCounted(states: seq<State>, ticks: seq<Tick>, k: nat, j: nat, id: ChallengeId)
    requires IsRun(states, ticks) && CreatedAt(ticks, k, id) && k < j <= |ticks|
    ensures Reserves(states, ticks, k, j, id) <= MAX_ATTEMPTS
    ensures id in states[j].store.challenges ==>
              states[j].store.challenges[id].attempts == Reserves(states, ticks, k, j, id)
    decreases j
  {
    LifeHolds(states, ticks, k, j, id);
    if j > k + 1 {
      ReservesCounted(states, ticks, k, j - 1, id);
      ReserveSucceedsIff(states, ticks, k, j - 1, id, ticks[j - 1].now);
    }
  }

  predicate Deletes(step: Step, id: ChallengeId, user: Email) {
    || ((step.Create? || step.Cleanup?) && id in step.victims)
    || step == ResetMfa(user)
  }

  /** Cleanup removes its whole batch and no other challenge; a reset removes all challenges of the user and no other. */
  lemma DeletionsAreExact(states: seq<State>, ticks: seq<Tick>, i: nat, id: ChallengeId)
    requires IsRun(states, ticks) && i < |ticks| && id in states[i].store.challenges
    ensures id !in states[i + 1].store.challenges <==> Deletes(ticks[i].step, id, states[i].store.challenges[id].user)
  {
    assert StepAt(states, ticks, i);
    RunKeepsInv(states, ticks, i);
  }

  // ---------------------------------------------------------------------------
  // The tables, updated in place
  // ---------------------------------------------------------------------------

  class ChallengeTable {
    var users: map<Email, int>
    var challenges: map<ChallengeId, Challenge>

    ghost function View(): Store
      reads this
    {
      Store(users, challenges)
    }

    constructor (users: map<Email, int>)
      ensures View() == Store(users, map[])
    {
      this.users, challenges := users, map[];
    }

    method ReserveAttempt(id: ChallengeId, now: int) returns (reserved: bool)
      modifies this`challenges
      ensures reserved == Succeeds(old(View()), Reserve(id), now)
      ensures View() == Next(old(View()), Reserve(id), now)
      ensures reserved ==> id in old(challenges) && challenges.Keys == old(challenges).Keys
                           && challenges[id].attempts == old(challenges[id]).attempts + 1
    {
      reserved := false;
      if id in challenges {
        var c := challenges[id];
        if c.consumedAt.None? && c.expiresAt > now && c.attempts < c.maxAttempts
           && c.user in users && c.authVersion == users[c.user] {
          challenges := challenges[id := c.(attempts := c.attempts + 1)];
          reserved := true;
        }
      }
    }

    method ConsumeChallenge(id: ChallengeId, now: int) returns (consumed: bool)
      modifies this`challenges
      ensures consumed == Succeeds(old(View()), Consume(id), now)
      ensures View() == Next(old(View()), Consume(id), now)
    {
      consumed := false;
      if id in challenges {
        var c := challenges[id];
        if c.consumedAt.None? && c.expiresAt > now && c.attempts <= c.maxAttempts
           && c.user in users && c.authVersion == users[c.user] {
          challenges := challenges[id := c.(consumedAt := Some(now))];
          consumed := true;
        }
      }
    }

    /** One statement over all rows; the loop visits them in any order. */
    method InvalidateOtherSetups(user: Email, keep: ChallengeId, now: int)
      modifies this`challenges
      ensures View() == Next(old(View()), Invalidate(user, keep), now)
    {
      var before := challenges;
      var todo := challenges.Keys;
      while todo != {}
        invariant todo <= before.Keys && challenges.Keys == before.Keys
        invariant forall id :: id in before ==>
                    challenges[id] == if id !in todo && ToInvalidate(id, before[id], user, keep)
                                      then before[id].(consumedAt := Some(now)) else before[id]
        decreases |todo|
      {
        var id :| id in todo;
        todo := todo - {id};
        var c := challenges[id];
        if c.user == user && id != keep && c.purpose in {LoginSetup, AccountSetup} && c.consumedAt.None? {
          challenges := challenges[id := c.(consumedAt := Some(now))];
        }
      }
      assert challenges == Next(old(View()), Invalidate(user, keep), now).challenges;
    }

    method RevokeUser(user: Email)
      modifies this`users
      ensures View() == Next(old(View()), Revoke(user), 0)
    {
      if user in users {
        users := users[user := users[user] + 1];
      }
    }
  }
}
