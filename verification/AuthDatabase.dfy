/** The authentication tables and the statements the services run on them, as the database worker
    executes them: one at a time, or several in a transaction that commits whole or not at all. */
module AuthDatabase {
  import opened Options

  type Id = nat
  type Time = int

  datatype Kind = Access | Refresh | Execution

  datatype TokenRow = TokenRow(
    administratorId: Option<Id>, kind: Kind, digest: nat, familyId: Option<Id>, parentId: Option<Id>,
    sessionId: Option<Id>, expiresAt: Time, usedAt: Option<Time>, revokedAt: Option<Time>)

  datatype AdministratorRow = AdministratorRow(passwordHash: nat, failedAttempts: nat, lockedUntil: Option<Time>)

  datatype BootstrapRow = BootstrapRow(digest: nat, expiresAt: Time, consumedAt: Option<Time>)

  datatype Database = Database(
    tokens: map<Id, TokenRow>, administrators: map<Id, AdministratorRow>, bootstrap: Option<BootstrapRow>,
    auditEvents: nat)

  const MAX_LOGIN_FAILURES := 8

  datatype Operation =
    | ConsumeToken(id: Id, now: Time)
    | TouchToken(id: Id, now: Time)
    | InsertToken(id: Id, row: TokenRow)
    | RevokeToken(id: Id, now: Time)
    | RevokeFamily(familyId: Id, now: Time)
    | RevokeSession(administratorId: Id, sessionId: Id, now: Time)
    | RevokeOtherSessions(administratorId: Id, sessionId: Id, now: Time)
    | ClearFailures(administratorId: Id, passwordHash: nat, now: Time)
    | CountFailure(administratorId: Id, now: Time, lockedUntil: Time)
    | ReplaceHash(administratorId: Id, passwordHash: nat, newHash: nat)
    | ConsumeBootstrap(digest: nat, now: Time)
    | IssueBootstrap(digest: nat, expiresAt: Time)
    | InsertAdministrator(id: Id, passwordHash: nat)
    | AppendAudit

  /** Which rows a bulk revocation matches. SQL comparisons with NULL never hold. */
  predicate Revokes(op: Operation, id: Id, row: TokenRow) {
    row.revokedAt.None? &&
    match op
    case RevokeToken(target, _) => id == target
    case RevokeFamily(family, _) => row.familyId == Some(family)
    case RevokeSession(administrator, session, _) =>
      row.administratorId == Some(administrator) && row.sessionId == Some(session)
    case RevokeOtherSessions(administrator, session, _) =>
      row.administratorId == Some(administrator) && row.sessionId.Some? && row.sessionId.value != session
    case _ => false
  }

  function Revoked(tokens: map<Id, TokenRow>, op: Operation, now: Time): map<Id, TokenRow> {
    map id | id in tokens :: if Revokes(op, id, tokens[id]) then tokens[id].(revokedAt := Some(now)) else tokens[id]
  }

  function RevokedCount(tokens: map<Id, TokenRow>, op: Operation): nat {
    |set id | id in tokens && Revokes(op, id, tokens[id])|
  }

  predicate Consumable(row: TokenRow, now: Time) {
    row.usedAt.None? && row.revokedAt.None? && row.expiresAt > now
  }

  /** Primary key, unique digest and both foreign keys of `auth_tokens`. */
  predicate Insertable(db: Database, id: Id, row: TokenRow) {
    && id !in db.tokens
    && (forall other | other in db.tokens :: db.tokens[other].digest != row.digest)
    && (row.administratorId.Some? ==> row.administratorId.value in db.administrators)
    && (row.parentId.Some? ==> row.parentId.value in db.tokens)
  }

  predicate LockedAt(row: AdministratorRow, now: Time) {
    row.lockedUntil.Some? && row.lockedUntil.value > now
  }

  function Failed(row: AdministratorRow, now: Time, lockedUntil: Time): AdministratorRow {
    AdministratorRow(
      row.passwordHash, row.failedAttempts + 1,
      if LockedAt(row, now) then row.lockedUntil
      else if row.failedAttempts + 1 >= MAX_LOGIN_FAILURES then Some(lockedUntil)
      else None)
  }

  datatype Effect = Changed(db: Database, changes: nat) | Violated

  function Update(db: Database, matches: bool, changed: Database): Effect {
    if matches then Changed(changed, 1) else Changed(db, 0)
  }

  function Apply(db: Database, op: Operation): Effect {
    match op
    case ConsumeToken(id, now) =>
      var matches := id in db.tokens && Consumable(db.tokens[id], now);
      Update(db, matches,
             if matches then db.(tokens := db.tokens[id := db.tokens[id].(usedAt := Some(now), revokedAt := Some(now))])
             else db)
    case TouchToken(id, now) =>
      Update(db, id in db.tokens,
             if id in db.tokens then db.(tokens := db.tokens[id := db.tokens[id].(usedAt := Some(now))]) else db)
    case InsertToken(id, row) =>
      if Insertable(db, id, row) then Changed(db.(tokens := db.tokens[id := row]), 1) else Violated
    case RevokeToken(_, now) => Changed(db.(tokens := Revoked(db.tokens, op, now)), RevokedCount(db.tokens, op))
    case RevokeFamily(_, now) => Changed(db.(tokens := Revoked(db.tokens, op, now)), RevokedCount(db.tokens, op))
    case RevokeSession(_, _, now) => Changed(db.(tokens := Revoked(db.tokens, op, now)), RevokedCount(db.tokens, op))
    case RevokeOtherSessions(_, _, now) =>
      Changed(db.(tokens := Revoked(db.tokens, op, now)), RevokedCount(db.tokens, op))
    case ClearFailures(id, hash, now) =>
      var matches := id in db.administrators && db.administrators[id].passwordHash == hash
                     && !LockedAt(db.administrators[id], now);
      Update(db, matches,
             db.(administrators := db.administrators[id := AdministratorRow(hash, 0, None)]))
    case CountFailure(id, now, lockedUntil) =>
      Update(db, id in db.administrators,
             if id in db.administrators
             then db.(administrators := db.administrators[id := Failed(db.administrators[id], now, lockedUntil)])
             else db)
    case ReplaceHash(id, hash, newHash) =>
      var matches := id in db.administrators && db.administrators[id].passwordHash == hash;
      Update(db, matches,
             if matches
             then db.(administrators := db.administrators[id := db.administrators[id].(passwordHash := newHash)])
             else db)
    case ConsumeBootstrap(digest, now) =>
      var matches := db.bootstrap.Some? && db.bootstrap.value.digest == digest
                     && db.bootstrap.value.consumedAt.None? && db.bootstrap.value.expiresAt > now;
      Update(db, matches,
             if matches then db.(bootstrap := Some(db.bootstrap.value.(consumedAt := Some(now)))) else db)
    case IssueBootstrap(digest, expiresAt) =>
      Changed(db.(bootstrap := Some(BootstrapRow(digest, expiresAt, None))), 1)
    case InsertAdministrator(id, hash) =>
      // The index of migration 7 admits a single row.
      if db.administrators == map[] then Changed(db.(administrators := map[id := AdministratorRow(hash, 0, None)]), 1)
      else Violated
    case AppendAudit => Changed(db.(auditEvents := db.auditEvents + 1), 1)
  }

  datatype Statement = Statement(op: Operation, expectedChanges: Option<nat>)

  datatype Outcome = Committed(db: Database) | ConditionalWriteFailed | Failure

  /** One statement; a wrong number of changed rows is the conditional failure. `fault` is any other
      error the statement may raise. */
  function Executed(db: Database, statement: Statement, fault: bool): Outcome {
    if fault then Failure
    else
      match Apply(db, statement.op)
      case Violated => Failure
      case Changed(next, changes) =>
        if statement.expectedChanges.Some? && statement.expectedChanges.value != changes then ConditionalWriteFailed
        else Committed(next)
  }

  /** A transaction. `fault`, if any, is the position at which an unrelated error strikes; the
      position after the last statement is the commit itself. */
  function RunTransaction(db: Database, statements: seq<Statement>, fault: Option<nat>): Outcome
    decreases |statements|
  {
    if statements == [] then if fault == Some(0) then Failure else Committed(db)
    else
      match Executed(db, statements[0], fault == Some(0))
      case Committed(next) =>
        RunTransaction(next, statements[1..],
                       if fault.Some? && fault.value > 0 then Some(fault.value - 1) else None)
      case ConditionalWriteFailed => ConditionalWriteFailed
      case Failure => Failure
  }

  /** The state after a transaction: everything or nothing. */
  function AfterTransaction(db: Database, outcome: Outcome): Database {
    if outcome.Committed? then outcome.db else db
  }

  /** The intermediate databases of a transaction, first to last. */
  ghost predicate IsTrace(db: Database, statements: seq<Statement>, trace: seq<Database>) {
    |trace| == |statements| + 1 && trace[0] == db
    && forall i | 0 <= i < |statements| :: Executed(trace[i], statements[i], false) == Committed(trace[i + 1])
  }

  /** A transaction commits exactly when no fault strikes it and every statement in turn changes the
      number of rows it expects; what it commits is the effect of all of them. */
  lemma {:induction false} CommitsExactlyWhole(db: Database, statements: seq<Statement>, fault: Option<nat>)
    ensures RunTransaction(db, statements, fault).Committed? ==>
      exists trace :: IsTrace(db, statements, trace) && trace[|statements|] == RunTransaction(db, statements, fault).db
    ensures (fault.None? || fault.value > |statements|) && (exists trace :: IsTrace(db, statements, trace)) ==>
      RunTransaction(db, statements, fault).Committed?
    ensures fault.Some? && fault.value <= |statements| ==> !RunTransaction(db, statements, fault).Committed?
    decreases |statements|
  {
    var outcome := RunTransaction(db, statements, fault);
    if statements == [] {
      assert IsTrace(db, statements, [db]);
    } else {
      var first := Executed(db, statements[0], fault == Some(0));
      var rest, later := statements[1..], if fault.Some? && fault.value > 0 then Some(fault.value - 1) else None;
      if first.Committed? {
        CommitsExactlyWhole(first.db, rest, later);
        if outcome.Committed? {
          var trace :| IsTrace(first.db, rest, trace) && trace[|rest|] == outcome.db;
          assert IsTrace(db, statements, [db] + trace);
        }
      }
      if trace :| IsTrace(db, statements, trace) {
        assert Executed(trace[0], statements[0], false) == Committed(trace[1]);
        if fault.None? || fault.value > |statements| {
          assert IsTrace(first.db, rest, trace[1..]);
        }
      }
    }
  }

  class DatabaseWorker {
    var database: Database

    method Execute(statement: Statement, fault: bool) returns (outcome: Outcome)
      modifies this
      ensures outcome == Executed(old(database), statement, fault)
      ensures outcome.Committed? ==> database == outcome.db
      ensures outcome.Failure? ==> database == old(database)
      ensures outcome.ConditionalWriteFailed? ==> database == Apply(old(database), statement.op).db
    {
      if fault {
        return Failure;
      }
      match Apply(database, statement.op)
      case Violated =>
        return Failure;
      case Changed(next, changes) =>
        database := next;
        if statement.expectedChanges.Some? && statement.expectedChanges.value != changes {
          return ConditionalWriteFailed;
        }
        return Committed(next);
    }

    /** BEGIN, every statement, COMMIT; any error rolls back what was already executed. */
    method Transact(statements: seq<Statement>, fault: Option<nat>) returns (outcome: Outcome)
      modifies this
      ensures outcome == RunTransaction(old(database), statements, fault)
      ensures database == AfterTransaction(old(database), outcome)
    {
      var begun := database;
      var index := 0;
      while index < |statements|
        invariant 0 <= index <= |statements|
        invariant fault.Some? ==> fault.value >= index
        invariant RunTransaction(begun, statements, fault)
               == RunTransaction(database, statements[index..], if fault.Some? then Some(fault.value - index) else None)
      {
        outcome := Execute(statements[index], fault == Some(index));
        if !outcome.Committed? {
          database := begun;
          return;
        }
        assert statements[index..][1..] == statements[index + 1..];
        index := index + 1;
      }
      if fault == Some(index) {
        database := begun;
        return Failure;
      }
      outcome := Committed(database);
    }
  }
}
