/** The authentication services as flights: what a request has read, and the transaction it will
    commit later. Reads and commits of any number of requests interleave freely; between the two
    anything may happen to the rows that were read. */
module AuthFlows {
  import opened Options
  import opened AuthDatabase

  const ACCESS_LIFETIME := 15 * 60 * 1000
  const REFRESH_LIFETIME := 30 * 24 * 60 * 60 * 1000
  const LOCKOUT := 15 * 60 * 1000
  const BOOTSTRAP_LIFETIME := 30 * 60 * 1000

  /** Random identifiers and tokens drawn for one session. */
  datatype Minted = Minted(accessId: Id, accessDigest: nat, refreshId: Id, refreshDigest: nat, familyId: Id, sessionId: Id,
                           issuedAt: Time)

  datatype Flight =
    | Refreshing(id: Id, row: TokenRow, readAt: Time)
    | Rejecting(familyId: Option<Id>)
    | LoggingOut(row: TokenRow)
    | Revoking(administratorId: Id, sessionId: Id)
    | Touching(id: Id)
    | LoggingIn(administratorId: Id, administrator: AdministratorRow, readAt: Time)
    | CountingFailure(administratorId: Id, failedAt: Time)
    | ChangingPassword(administratorId: Id, passwordHash: nat, sessionId: Id)
    | Bootstrapping(digest: nat, readAt: Time)
    | IssuingBootstrap

  /** `hashes` lists the password hashes in the order they were set; `openedWith` says which of them
      the transaction that opened a session was conditioned on. Both only record what has happened. */
  datatype State = State(db: Database, now: Time, flights: map<nat, Flight>, hashes: seq<nat>, openedWith: map<Id, nat>)

  datatype Event =
    | Tick(elapsed: nat)
    | ReadRefresh(flight: nat, id: Id)
    | CommitRefresh(flight: nat, minted: Minted, fault: Option<nat>)
    | CommitRejection(flight: nat, at: Time, fault: Option<nat>)
    | ReadLogout(flight: nat, id: Id)
    | CommitLogout(flight: nat, at: Time, fault: Option<nat>)
    | ReadRevoke(flight: nat, administratorId: Id, sessionId: Id)
    | CommitRevoke(flight: nat, at: Time, fault: Option<nat>)
    | ReadAuthenticate(flight: nat, id: Id)
    | CommitTouch(flight: nat, at: Time, fault: Option<nat>)
    | ReadLogin(flight: nat, administratorId: Id, verified: bool)
    | CommitLogin(flight: nat, minted: Minted, fault: Option<nat>)
    | CommitFailure(flight: nat, fault: Option<nat>)
    | ReadChange(flight: nat, administratorId: Id, sessionId: Id)
    | CommitChange(flight: nat, newHash: nat, at: Time, fault: Option<nat>)
    | ReadBootstrap(flight: nat, digest: nat)
    | CommitBootstrap(flight: nat, administratorId: Id, passwordHash: nat, minted: Minted, fault: Option<nat>)
    | ReadEnsure(flight: nat)
    | CommitIssue(flight: nat, digest: nat, at: Time, fault: Option<nat>)
    | IssueExecution(id: Id, administratorId: Id, digest: nat, expiresAt: Time, fault: Option<nat>)
    | RevokeExecution(id: Id, at: Time, fault: Option<nat>)

  // ----- the transactions

  function Plain(op: Operation): Statement { Statement(op, None) }

  function Conditional(op: Operation): Statement { Statement(op, Some(1)) }

  function AccessRow(administratorId: Id, minted: Minted, familyId: Id, parentId: Option<Id>, sessionId: Id): TokenRow {
    TokenRow(Some(administratorId), Access, minted.accessDigest, Some(familyId), parentId, Some(sessionId),
             minted.issuedAt + ACCESS_LIFETIME, None, None)
  }

  function RefreshRow(administratorId: Id, minted: Minted, familyId: Id, parentId: Option<Id>, sessionId: Id): TokenRow {
    TokenRow(Some(administratorId), Refresh, minted.refreshDigest, Some(familyId), parentId, Some(sessionId),
             minted.issuedAt + REFRESH_LIFETIME, None, None)
  }

  /** `prepareSession`: one access row and one refresh row, of the same family and session. */
  function SessionStatements(administratorId: Id, minted: Minted, familyId: Id, parentId: Option<Id>, sessionId: Id)
    : seq<Statement>
  {
    [Plain(InsertToken(minted.accessId, AccessRow(administratorId, minted, familyId, parentId, sessionId))),
     Plain(InsertToken(minted.refreshId, RefreshRow(administratorId, minted, familyId, parentId, sessionId)))]
  }

  function ValueOr(option: Option<Id>, fallback: Id): Id {
    if option.Some? then option.value else fallback
  }

  function RefreshStatements(id: Id, row: TokenRow, minted: Minted, readAt: Time): seq<Statement>
    requires row.administratorId.Some?
  {
    [Conditional(ConsumeToken(id, readAt))]
    + SessionStatements(row.administratorId.value, minted, ValueOr(row.familyId, minted.familyId), Some(id),
                        ValueOr(row.sessionId, minted.sessionId))
    + [Plain(AppendAudit)]
  }

  function LoginStatements(administratorId: Id, passwordHash: nat, minted: Minted, readAt: Time): seq<Statement> {
    [Conditional(ClearFailures(administratorId, passwordHash, readAt))]
    + SessionStatements(administratorId, minted, minted.familyId, None, minted.sessionId)
    + [Plain(AppendAudit)]
  }

  function BootstrapStatements(administratorId: Id, passwordHash: nat, digest: nat, minted: Minted, readAt: Time): seq<Statement> {
    [Conditional(ConsumeBootstrap(digest, readAt)), Plain(InsertAdministrator(administratorId, passwordHash))]
    + SessionStatements(administratorId, minted, minted.familyId, None, minted.sessionId)
    + [Plain(AppendAudit)]
  }

  function ChangeStatements(administratorId: Id, passwordHash: nat, newHash: nat, sessionId: Id, now: Time): seq<Statement> {
    [Conditional(ReplaceHash(administratorId, passwordHash, newHash)),
     Plain(RevokeOtherSessions(administratorId, sessionId, now)), Plain(AppendAudit)]
  }

  function ExecutionRow(administratorId: Id, digest: nat, expiresAt: Time): TokenRow {
    TokenRow(Some(administratorId), Execution, digest, None, None, None, expiresAt, None, None)
  }

  // ----- the steps

  predicate InFlight(s: State, flight: nat) { flight in s.flights }

  /** Drawn identifiers have not been used for a family or a session before, and their tokens are
      dated between the read of the request and its commit. */
  ghost predicate Drawn(s: State, minted: Minted, readAt: Time) {
    && readAt <= minted.issuedAt <= s.now
    && forall id | id in s.db.tokens ::
         s.db.tokens[id].familyId != Some(minted.familyId) && s.db.tokens[id].sessionId != Some(minted.sessionId)
  }

  predicate HasSession(tokens: map<Id, TokenRow>, administratorId: Id, sessionId: Id) {
    exists id | id in tokens ::
      && tokens[id].administratorId == Some(administratorId) && tokens[id].sessionId == Some(sessionId)
      && !tokens[id].kind.Execution?
  }

  predicate ActiveBootstrap(db: Database, now: Time) {
    db.bootstrap.Some? && db.bootstrap.value.consumedAt.None? && db.bootstrap.value.expiresAt > now
  }

  /** A request that the code refuses without touching the database is no step. */
  ghost predicate Enabled(s: State, e: Event) {
    match e
    case Tick(_) => true
    case ReadRefresh(f, id) =>
      && !InFlight(s, f) && id in s.db.tokens && s.db.tokens[id].kind.Refresh? && s.db.tokens[id].administratorId.Some?
    case CommitRefresh(f, minted, _) =>
      && InFlight(s, f) && s.flights[f].Refreshing? && s.flights[f].row.administratorId.Some?
      && Drawn(s, minted, s.flights[f].readAt)
    case CommitRejection(f, at, _) => InFlight(s, f) && s.flights[f].Rejecting? && at <= s.now
    case ReadLogout(f, id) =>
      && !InFlight(s, f) && id in s.db.tokens && s.db.tokens[id].kind.Access? && s.db.tokens[id].administratorId.Some?
      && s.db.tokens[id].familyId.Some? && s.db.tokens[id].revokedAt.None?
    case CommitLogout(f, at, _) =>
      InFlight(s, f) && s.flights[f].LoggingOut? && s.flights[f].row.familyId.Some? && at <= s.now
    case ReadRevoke(f, administrator, session) => !InFlight(s, f) && HasSession(s.db.tokens, administrator, session)
    case CommitRevoke(f, at, _) => InFlight(s, f) && s.flights[f].Revoking? && at <= s.now
    case ReadAuthenticate(f, id) =>
      && !InFlight(s, f) && id in s.db.tokens && s.db.tokens[id].kind.Access? && s.db.tokens[id].administratorId.Some?
      && s.db.tokens[id].sessionId.Some? && s.db.tokens[id].revokedAt.None? && s.db.tokens[id].expiresAt > s.now
    case CommitTouch(f, at, _) => InFlight(s, f) && s.flights[f].Touching? && at <= s.now
    case ReadLogin(f, id, _) => !InFlight(s, f) && id in s.db.administrators
    case CommitLogin(f, minted, _) =>
      InFlight(s, f) && s.flights[f].LoggingIn? && Drawn(s, minted, s.flights[f].readAt)
    case CommitFailure(f, _) => InFlight(s, f) && s.flights[f].CountingFailure?
    case ReadChange(f, id, _) => !InFlight(s, f) && id in s.db.administrators
    case CommitChange(f, _, at, _) => InFlight(s, f) && s.flights[f].ChangingPassword? && at <= s.now
    case ReadBootstrap(f, digest) =>
      && !InFlight(s, f) && ActiveBootstrap(s.db, s.now) && s.db.bootstrap.value.digest == digest
      && s.db.administrators == map[]
    case CommitBootstrap(f, _, _, minted, _) =>
      InFlight(s, f) && s.flights[f].Bootstrapping? && Drawn(s, minted, s.flights[f].readAt)
    case ReadEnsure(f) => !InFlight(s, f) && s.db.administrators == map[] && !ActiveBootstrap(s.db, s.now)
    case CommitIssue(f, _, at, _) => InFlight(s, f) && s.flights[f].IssuingBootstrap? && at <= s.now
    case IssueExecution(_, _, _, _, _) => true
    case RevokeExecution(id, at, _) => id in s.db.tokens && s.db.tokens[id].kind.Execution? && at <= s.now
  }

  function Depart(s: State, flight: nat, what: Flight): State {
    s.(flights := s.flights[flight := what])
  }

  function Land(s: State, flight: nat, outcome: Outcome): State {
    s.(db := AfterTransaction(s.db, outcome), flights := s.flights - {flight})
  }

  /** What the commit of an event answers; steps that only read or wait commit nothing. */
  ghost function OutcomeOf(s: State, e: Event): Outcome
    requires Enabled(s, e)
  {
    match e
    case CommitRefresh(f, minted, fault) =>
      RunTransaction(s.db, RefreshStatements(s.flights[f].id, s.flights[f].row, minted, s.flights[f].readAt), fault)
    case CommitRejection(f, at, fault) =>
      if s.flights[f].familyId.None? then Failure
      else Executed(s.db, Plain(RevokeFamily(s.flights[f].familyId.value, at)), fault.Some?)
    case CommitLogout(f, at, fault) =>
      RunTransaction(s.db, [Plain(RevokeFamily(s.flights[f].row.familyId.value, at)), Plain(AppendAudit)], fault)
    case CommitRevoke(f, at, fault) =>
      RunTransaction(
        s.db, [Plain(RevokeSession(s.flights[f].administratorId, s.flights[f].sessionId, at)), Plain(AppendAudit)], fault)
    case CommitTouch(f, at, fault) => Executed(s.db, Plain(TouchToken(s.flights[f].id, at)), fault.Some?)
    case CommitLogin(f, minted, fault) =>
      RunTransaction(
        s.db, LoginStatements(s.flights[f].administratorId, s.flights[f].administrator.passwordHash, minted, s.flights[f].readAt), fault)
    case CommitFailure(f, fault) =>
      RunTransaction(
        s.db, [Plain(CountFailure(s.flights[f].administratorId, s.flights[f].failedAt, s.flights[f].failedAt + LOCKOUT)),
               Plain(AppendAudit)], fault)
    case CommitChange(f, newHash, at, fault) =>
      RunTransaction(
        s.db, ChangeStatements(s.flights[f].administratorId, s.flights[f].passwordHash, newHash, s.flights[f].sessionId, at), fault)
    case CommitBootstrap(f, id, hash, minted, fault) =>
      RunTransaction(s.db, BootstrapStatements(id, hash, s.flights[f].digest, minted, s.flights[f].readAt), fault)
    case CommitIssue(f, digest, at, fault) =>
      Executed(s.db, Plain(IssueBootstrap(digest, at + BOOTSTRAP_LIFETIME)), fault.Some?)
    case IssueExecution(id, administrator, digest, expiresAt, fault) =>
      RunTransaction(s.db, [Plain(InsertToken(id, ExecutionRow(administrator, digest, expiresAt))), Plain(AppendAudit)], fault)
    case RevokeExecution(id, at, fault) =>
      RunTransaction(s.db, [Plain(RevokeToken(id, at)), Plain(AppendAudit)], fault)
    case _ => Failure
  }

  /** What a request sets out to do once it has read the rows it needs. */
  ghost function Departing(s: State, e: Event): Flight
    requires Enabled(s, e)
    requires Departs(s, e)
  {
    match e
    case ReadRefresh(_, id) =>
      var row := s.db.tokens[id];
      if row.revokedAt.Some? || row.usedAt.Some? then Rejecting(row.familyId) else Refreshing(id, row, s.now)
    case ReadLogout(_, id) => LoggingOut(s.db.tokens[id])
    case ReadRevoke(_, administrator, session) => Revoking(administrator, session)
    case ReadAuthenticate(_, id) => Touching(id)
    case ReadLogin(_, id, verified) =>
      if LockedAt(s.db.administrators[id], s.now) || !verified then CountingFailure(id, s.now)
      else LoggingIn(id, s.db.administrators[id], s.now)
    case ReadChange(_, id, session) => ChangingPassword(id, s.db.administrators[id].passwordHash, session)
    case ReadBootstrap(_, digest) => Bootstrapping(digest, s.now)
    case ReadEnsure(_) => IssuingBootstrap
    // A conditional write that fails sends the request on to its failure path.
    case CommitRefresh(f, _, _) => Rejecting(s.flights[f].row.familyId)
    case CommitLogin(f, _, _) => CountingFailure(s.flights[f].administratorId, s.now)
  }

  ghost predicate Departs(s: State, e: Event)
    requires Enabled(s, e)
  {
    match e
    case ReadRefresh(_, id) =>
      s.db.tokens[id].revokedAt.Some? || s.db.tokens[id].usedAt.Some? || s.db.tokens[id].expiresAt > s.now
    case ReadLogout(_, _) => true
    case ReadRevoke(_, _, _) => true
    case ReadAuthenticate(_, _) => true
    case ReadLogin(_, _, _) => true
    case ReadChange(_, _, _) => true
    case ReadBootstrap(_, _) => true
    case ReadEnsure(_) => true
    case CommitRefresh(_, _, _) => OutcomeOf(s, e).ConditionalWriteFailed?
    case CommitLogin(_, _, _) => OutcomeOf(s, e).ConditionalWriteFailed?
    case _ => false
  }

  ghost function Next(s: State, e: Event): State
    requires Enabled(s, e)
  {
    if Departs(s, e) then Depart(s, e.flight, Departing(s, e))
    else if e.Tick? then s.(now := s.now + e.elapsed)
    else if e.ReadRefresh? then s
    else
      var outcome := OutcomeOf(s, e);
      var landed := if e.IssueExecution? || e.RevokeExecution? then s.(db := AfterTransaction(s.db, outcome))
                    else Land(s, e.flight, outcome);
      if !outcome.Committed? then landed
      else
        match e
        case CommitLogin(f, minted, _) =>
          landed.(openedWith := s.openedWith[minted.sessionId := s.flights[f].administrator.passwordHash])
        case CommitChange(_, newHash, _, _) => landed.(hashes := s.hashes + [newHash])
        case CommitBootstrap(_, _, hash, minted, _) =>
          landed.(hashes := s.hashes + [hash], openedWith := s.openedWith[minted.sessionId := hash])
        case _ => landed
  }

  ghost predicate Step(s: State, e: Event, t: State) {
    Enabled(s, e) && t == Next(s, e)
  }

  predicate Fresh(s: State) {
    s.db == Database(map[], map[], None, 0) && s.flights == map[] && s.hashes == [] && s.openedWith == map[]
  }

  ghost predicate IsRun(s: State, events: seq<Event>)
    decreases |events|
  {
    events == [] || (Enabled(s, events[0]) && IsRun(Next(s, events[0]), events[1..]))
  }

  ghost function After(s: State, events: seq<Event>): State
    requires IsRun(s, events)
    decreases |events|
  {
    if events == [] then s else After(Next(s, events[0]), events[1..])
  }
}
