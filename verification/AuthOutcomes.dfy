/** What the authentication services answer: which request goes through, what it leaves in the tables, and
    what happens to a refresh token that is presented again. Lifetimes and limits are given in numbers. */
module AuthOutcomes {
  import opened Options
  import opened AuthDatabase
  import opened AuthFlows
  import opened AuthSafety

  /** Two identifiers and two digests that no row has. */
  ghost predicate New(tokens: Tokens, minted: Minted) {
    && minted.accessId !in tokens && minted.refreshId !in tokens && minted.accessId != minted.refreshId
    && minted.accessDigest != minted.refreshDigest
    && forall id | id in tokens :: tokens[id].digest != minted.accessDigest && tokens[id].digest != minted.refreshDigest
  }

  /** A session as it starts: an access token for fifteen minutes and a refresh token for thirty days. */
  ghost predicate SessionRows(
    tokens: Tokens, minted: Minted, administratorId: Id, familyId: Id, parentId: Option<Id>, sessionId: Id)
  {
    && minted.accessId in tokens && minted.refreshId in tokens
    && tokens[minted.accessId] == TokenRow(
         Some(administratorId), Access, minted.accessDigest, Some(familyId), parentId, Some(sessionId),
         minted.issuedAt + 900_000, None, None)
    && tokens[minted.refreshId] == TokenRow(
         Some(administratorId), Refresh, minted.refreshDigest, Some(familyId), parentId, Some(sessionId),
         minted.issuedAt + 2_592_000_000, None, None)
  }

  /** Nothing but the two rows of a session is new. */
  ghost predicate OnlyAdds(before: Tokens, after: Tokens, minted: Minted) {
    after.Keys == before.Keys + {minted.accessId, minted.refreshId} && forall id | id in before :: after[id] == before[id]
  }

  lemma SessionInserts(
    db: Database, administratorId: Id, minted: Minted, familyId: Id, parentId: Option<Id>, sessionId: Id) returns (between: Database, after: Database)
    requires administratorId in db.administrators && (parentId.Some? ==> parentId.value in db.tokens) && New(db.tokens, minted)
    ensures var statements := SessionStatements(administratorId, minted, familyId, parentId, sessionId);
            && Executed(db, statements[0], false) == Committed(between)
            && Executed(between, statements[1], false) == Committed(after)
    ensures SessionRows(after.tokens, minted, administratorId, familyId, parentId, sessionId)
    ensures OnlyAdds(db.tokens, after.tokens, minted) && after == db.(tokens := after.tokens)
  {
    var access := AccessRow(administratorId, minted, familyId, parentId, sessionId);
    var refresh := RefreshRow(administratorId, minted, familyId, parentId, sessionId);
    between := db.(tokens := db.tokens[minted.accessId := access]);
    after := between.(tokens := between.tokens[minted.refreshId := refresh]);
    assert Insertable(db, minted.accessId, access);
    assert Insertable(between, minted.refreshId, refresh);
  }

  lemma InsertsNeedNew(
    db: Database, between: Database, after: Database, administratorId: Id, minted: Minted, familyId: Id, parentId: Option<Id>, sessionId: Id)
    requires var statements := SessionStatements(administratorId, minted, familyId, parentId, sessionId);
             && Executed(db, statements[0], false) == Committed(between)
             && Executed(between, statements[1], false) == Committed(after)
    ensures New(db.tokens, minted)
  {
    assert minted.accessId in between.tokens;
    assert between.tokens[minted.accessId].digest == minted.accessDigest;
    forall id | id in db.tokens ensures between.tokens[id] == db.tokens[id] {
    }
  }

  /** A token that can still be rotated. */
  ghost predicate Live(tokens: Tokens, id: Id, at: Time) {
    id in tokens && tokens[id].usedAt.None? && tokens[id].revokedAt.None? && tokens[id].expiresAt > at
  }

  lemma AddedRows(
    before: Tokens, after: Tokens, minted: Minted, administratorId: Id, familyId: Id, parentId: Option<Id>, sessionId: Id)
    requires AddedSession(before, after, minted, administratorId, familyId, parentId, sessionId)
    ensures SessionRows(after, minted, administratorId, familyId, parentId, sessionId) && OnlyAdds(before, after, minted)
  {
  }

  /** A rotation goes through exactly when its token is live at the moment it was read at and the drawn
      identifiers are new. It then leaves the token used and revoked, two rows of the same family and session
      beside it, and every other row as it was. */
  lemma RotatesExactly(db: Database, id: Id, row: TokenRow, minted: Minted, readAt: Time)
    requires Whole(row) && row.administratorId.value in db.administrators
    ensures var outcome := RunTransaction(db, RefreshStatements(id, row, minted, readAt), None);
            && (outcome.Committed? <==> Live(db.tokens, id, readAt) && New(db.tokens, minted))
            && (!Live(db.tokens, id, readAt) ==> outcome == ConditionalWriteFailed)
            && (outcome.Committed? ==>
                  var spent := db.tokens[id := db.tokens[id].(usedAt := Some(readAt), revokedAt := Some(readAt))];
                  && SessionRows(outcome.db.tokens, minted, row.administratorId.value, row.familyId.value, Some(id), row.sessionId.value)
                  && OnlyAdds(spent, outcome.db.tokens, minted) && outcome.db.administrators == db.administrators)
  {
    var statements := RefreshStatements(id, row, minted, readAt);
    var outcome := RunTransaction(db, statements, None);
    if Live(db.tokens, id, readAt) {
      var spent := db.(tokens := db.tokens[id := Spent(db.tokens[id], readAt)]);
      RotationRuns(db, spent, id, row, minted, readAt);
      if outcome.Committed? {
        RefreshEffect(db, id, row, minted, readAt, None);
        AddedRows(spent.tokens, outcome.db.tokens, minted, row.administratorId.value, row.familyId.value, Some(id), row.sessionId.value);
      }
    } else {
      assert Executed(db, statements[0], false) == ConditionalWriteFailed;
    }
  }

  lemma RotationRuns(db: Database, spent: Database, id: Id, row: TokenRow, minted: Minted, readAt: Time)
    requires Whole(row) && row.administratorId.value in db.administrators && Live(db.tokens, id, readAt)
    requires spent == db.(tokens := db.tokens[id := Spent(db.tokens[id], readAt)])
    ensures RunTransaction(db, RefreshStatements(id, row, minted, readAt), None).Committed? <==> New(db.tokens, minted)
  {
    var statements := RefreshStatements(id, row, minted, readAt);
    assert Executed(db, statements[0], false) == Committed(spent);
    SameNews(db.tokens, spent.tokens, minted);
    SessionRuns(spent, statements[1..], row.administratorId.value, minted, row.familyId.value, Some(id), row.sessionId.value);
    FirstRuns(db, statements, spent);
  }

  lemma SameNews(before: Tokens, after: Tokens, minted: Minted)
    requires before.Keys == after.Keys && forall id | id in before :: after[id].digest == before[id].digest
    ensures New(before, minted) <==> New(after, minted)
  {
  }

  lemma FirstRuns(db: Database, statements: seq<Statement>, next: Database)
    requires statements != [] && Executed(db, statements[0], false) == Committed(next)
    ensures RunTransaction(db, statements, None) == RunTransaction(next, statements[1..], None)
  {
  }

  /** The two inserts of a session and the audit entry go through exactly when the drawn identifiers are new. */
  lemma SessionRuns(
    db: Database, rest: seq<Statement>, administratorId: Id, minted: Minted, familyId: Id, parentId: Option<Id>, sessionId: Id)
    requires administratorId in db.administrators && (parentId.Some? ==> parentId.value in db.tokens)
    requires rest == SessionStatements(administratorId, minted, familyId, parentId, sessionId) + [Plain(AppendAudit)]
    ensures RunTransaction(db, rest, None).Committed? <==> New(db.tokens, minted)
  {
    hide RunTransaction, SessionRows, OnlyAdds, AccessRow, RefreshRow, Insertable;
    if New(db.tokens, minted) {
      var between, after := SessionInserts(db, administratorId, minted, familyId, parentId, sessionId);
      var last := after.(auditEvents := after.auditEvents + 1);
      assert Executed(after, rest[2], false) == Committed(last);
      assert IsTrace(db, rest, [db, between, after, last]);
      CommitsExactlyWhole(db, rest, None);
    }
    if RunTransaction(db, rest, None).Committed? {
      CommitsExactlyWhole(db, rest, None);
      var trace :| IsTrace(db, rest, trace) && trace[|rest|] == RunTransaction(db, rest, None).db;
      assert Executed(trace[0], rest[0], false) == Committed(trace[1]);
      assert Executed(trace[1], rest[1], false) == Committed(trace[2]);
      InsertsNeedNew(trace[0], trace[1], trace[2], administratorId, minted, familyId, parentId, sessionId);
    }
  }

  /** A login goes through exactly when the password hash is still the one that was verified, no lock stood
      at the moment the administrator was read, and the drawn identifiers are new. It clears the failures. */
  lemma LogsInExactly(db: Database, id: Id, hash: nat, minted: Minted, readAt: Time)
    ensures var outcome := RunTransaction(db, LoginStatements(id, hash, minted, readAt), None);
            var admits := id in db.administrators && db.administrators[id].passwordHash == hash
                          && (db.administrators[id].lockedUntil.None? || db.administrators[id].lockedUntil.value <= readAt);
            && (outcome.Committed? <==> admits && New(db.tokens, minted))
            && (!admits ==> outcome == ConditionalWriteFailed)
            && (outcome.Committed? ==>
                  && SessionRows(outcome.db.tokens, minted, id, minted.familyId, None, minted.sessionId)
                  && OnlyAdds(db.tokens, outcome.db.tokens, minted)
                  && outcome.db.administrators == db.administrators[id := AdministratorRow(hash, 0, None)])
  {
    var statements := LoginStatements(id, hash, minted, readAt);
    var outcome := RunTransaction(db, statements, None);
    if id in db.administrators && db.administrators[id].passwordHash == hash && !LockedAt(db.administrators[id], readAt) {
      var cleared := db.(administrators := db.administrators[id := AdministratorRow(hash, 0, None)]);
      assert Executed(db, statements[0], false) == Committed(cleared);
      SessionRuns(cleared, statements[1..], id, minted, minted.familyId, None, minted.sessionId);
      FirstRuns(db, statements, cleared);
      if outcome.Committed? {
        LoginEffect(db, id, hash, minted, readAt, None);
        AddedRows(db.tokens, outcome.db.tokens, minted, id, minted.familyId, None, minted.sessionId);
      }
    } else {
      assert Executed(db, statements[0], false) == ConditionalWriteFailed;
    }
  }

  /** A bootstrap goes through exactly when its token is the issued one, unused and unexpired, there is no
      administrator and the drawn identifiers are new. It leaves one administrator and uses the token up. */
  lemma BootstrapsExactly(db: Database, id: Id, hash: nat, digest: nat, minted: Minted, readAt: Time)
    ensures var outcome := RunTransaction(db, BootstrapStatements(id, hash, digest, minted, readAt), None);
            && (outcome.Committed? <==>
                  && db.bootstrap.Some? && db.bootstrap.value.digest == digest && db.bootstrap.value.consumedAt.None?
                  && db.bootstrap.value.expiresAt > readAt && db.administrators == map[] && New(db.tokens, minted))
            && (outcome.Committed? ==>
                  && SessionRows(outcome.db.tokens, minted, id, minted.familyId, None, minted.sessionId)
                  && OnlyAdds(db.tokens, outcome.db.tokens, minted)
                  && outcome.db.administrators == map[id := AdministratorRow(hash, 0, None)]
                  && outcome.db.bootstrap == Some(db.bootstrap.value.(consumedAt := Some(readAt))))
  {
    var statements := BootstrapStatements(id, hash, digest, minted, readAt);
    var outcome := RunTransaction(db, statements, None);
    if db.bootstrap.Some? && db.bootstrap.value.digest == digest && ActiveBootstrap(db, readAt) {
      var consumed := db.(bootstrap := Some(db.bootstrap.value.(consumedAt := Some(readAt))));
      assert Executed(db, statements[0], false) == Committed(consumed);
      FirstRuns(db, statements, consumed);
      if db.administrators == map[] {
        var installed := consumed.(administrators := map[id := AdministratorRow(hash, 0, None)]);
        assert Executed(consumed, statements[1..][0], false) == Committed(installed);
        FirstRuns(consumed, statements[1..], installed);
        SessionRuns(installed, statements[1..][1..], id, minted, minted.familyId, None, minted.sessionId);
        if outcome.Committed? {
          BootstrapEffect(db, id, hash, digest, minted, readAt, None);
          AddedRows(db.tokens, outcome.db.tokens, minted, id, minted.familyId, None, minted.sessionId);
          SessionKeepsBootstrap(installed, statements[1..][1..], id, minted);
        }
      } else {
        assert Executed(consumed, statements[1..][0], false) == Failure;
      }
    } else {
      assert Executed(db, statements[0], false) == ConditionalWriteFailed;
    }
  }

  lemma SessionKeepsBootstrap(db: Database, rest: seq<Statement>, id: Id, minted: Minted)
    requires rest == SessionStatements(id, minted, minted.familyId, None, minted.sessionId) + [Plain(AppendAudit)]
    requires RunTransaction(db, rest, None).Committed?
    ensures RunTransaction(db, rest, None).db.bootstrap == db.bootstrap
  {
    hide RunTransaction, Insertable;
    CommitsExactlyWhole(db, rest, None);
    var trace :| IsTrace(db, rest, trace) && trace[|rest|] == RunTransaction(db, rest, None).db;
    assert Executed(trace[0], rest[0], false) == Committed(trace[1]);
    assert Executed(trace[1], rest[1], false) == Committed(trace[2]);
    assert Executed(trace[2], rest[2], false) == Committed(trace[3]);
  }

  /** A password change goes through exactly when the hash is still the one that was verified. It replaces the
      hash, revokes the tokens of the administrator's other sessions and touches no other token: neither one
      of the kept session nor an execution token. */
  lemma ChangesExactly(db: Database, id: Id, hash: nat, newHash: nat, session: Id, at: Time)
    ensures var outcome := RunTransaction(db, ChangeStatements(id, hash, newHash, session, at), None);
            && (outcome.Committed? <==> id in db.administrators && db.administrators[id].passwordHash == hash)
            && (outcome.Committed? ==>
                  && outcome.db.administrators == db.administrators[id := db.administrators[id].(passwordHash := newHash)]
                  && outcome.db.tokens.Keys == db.tokens.Keys
                  && forall token | token in db.tokens ::
                       var row := db.tokens[token];
                       outcome.db.tokens[token] ==
                         if row.administratorId == Some(id) && row.sessionId.Some? && row.sessionId != Some(session)
                            && row.revokedAt.None?
                         then row.(revokedAt := Some(at)) else row)
  {
    var statements := ChangeStatements(id, hash, newHash, session, at);
    if id in db.administrators && db.administrators[id].passwordHash == hash {
      var changed := db.(administrators := db.administrators[id := db.administrators[id].(passwordHash := newHash)]);
      var revoked := changed.(tokens := Revoked(db.tokens, RevokeOtherSessions(id, session, at), at));
      assert Executed(db, statements[0], false) == Committed(changed);
      FirstRuns(db, statements, changed);
      FirstRuns(changed, statements[1..], revoked);
      AuditRuns(revoked, statements[1..][1..]);
    } else {
      assert Executed(db, statements[0], false) == ConditionalWriteFailed;
    }
  }

  lemma AuditRuns(db: Database, rest: seq<Statement>)
    requires rest == [Plain(AppendAudit)]
    ensures RunTransaction(db, rest, None) == Committed(db.(auditEvents := db.auditEvents + 1))
  {
    var counted := db.(auditEvents := db.auditEvents + 1);
    assert Executed(db, rest[0], false) == Committed(counted);
    FirstRuns(db, rest, counted);
    assert rest[1..] == [];
  }

  /** One plain statement with its audit entry goes through exactly when no constraint stands against it. */
  lemma AuditedExactly(db: Database, op: Operation)
    ensures RunTransaction(db, [Plain(op), Plain(AppendAudit)], None) ==
      match Apply(db, op)
      case Changed(next, _) => Committed(next.(auditEvents := next.auditEvents + 1))
      case Violated => Failure
  {
    var statements := [Plain(op), Plain(AppendAudit)];
    if Apply(db, op).Changed? {
      FirstRuns(db, statements, Apply(db, op).db);
      AuditRuns(Apply(db, op).db, statements[1..]);
    }
  }

  // ----- refresh tokens

  /** What the read of a refresh token leads to: a used or revoked one to a reuse rejection, a live one to a
      rotation, an expired one to nothing. */
  lemma RefreshIsRead(s: State, f: nat, id: Id)
    requires Enabled(s, ReadRefresh(f, id))
    ensures var row, t := s.db.tokens[id], Next(s, ReadRefresh(f, id));
            if row.usedAt.Some? || row.revokedAt.Some? then t == s.(flights := s.flights[f := Rejecting(row.familyId)])
            else if row.expiresAt > s.now then t == s.(flights := s.flights[f := Refreshing(id, row, s.now)])
            else t == s
  {
  }

  /** Presenting a refresh token that was used or revoked takes its whole family down. */
  lemma ReuseIsRejected(s: State, f: nat, id: Id)
    requires Inv(s) && Enabled(s, ReadRefresh(f, id))
    requires s.db.tokens[id].usedAt.Some? || s.db.tokens[id].revokedAt.Some?
    ensures var read := Next(s, ReadRefresh(f, id));
            && Enabled(read, CommitRejection(f, s.now, None))
            && var rejected := Next(read, CommitRejection(f, s.now, None));
               && s.db.tokens[id].familyId.Some? && Dead(rejected.db.tokens, Family(s.db.tokens[id].familyId.value))
               && f !in rejected.flights
  {
    hide Inv, Next, OutcomeOf, Dead;
    RefreshIsRead(s, f, id);
    var read := Next(s, ReadRefresh(f, id));
    StepKeepsInv(s, ReadRefresh(f, id), read);
    RejectionTakesDown(read, f, s.now);
  }

  lemma RejectionTakesDown(s: State, f: nat, at: Time)
    requires Inv(s) && Enabled(s, CommitRejection(f, at, None))
    ensures var t := Next(s, CommitRejection(f, at, None));
            && s.flights[f].familyId.Some? && Dead(t.db.tokens, Family(s.flights[f].familyId.value)) && f !in t.flights
  {
    hide HasChain, AdministratorKept, RowsKept, Dead;
    assert FlightKept(s, s.flights[f]);
    var e := CommitRejection(f, at, None);
    assert OutcomeOf(s, e).Committed?;
    assert f !in Next(s, e).flights;
    hide Next, OutcomeOf;
    TakesDown(s, e, Next(s, e));
  }

  /** The commit of a rotation, whatever happened since its token was read: it goes through exactly when the
      token is still live; when it is not, another request has spent it, and the family is taken down. */
  lemma RotationCommits(s: State, f: nat, minted: Minted)
    requires Inv(s) && Enabled(s, CommitRefresh(f, minted, None))
    ensures var id, row, readAt := s.flights[f].id, s.flights[f].row, s.flights[f].readAt;
            var t := Next(s, CommitRefresh(f, minted, None));
            && Whole(row)
            && (Live(s.db.tokens, id, readAt) && New(s.db.tokens, minted) ==>
                  && SessionRows(t.db.tokens, minted, row.administratorId.value, row.familyId.value, Some(id), row.sessionId.value)
                  && OnlyAdds(s.db.tokens[id := s.db.tokens[id].(usedAt := Some(readAt), revokedAt := Some(readAt))], t.db.tokens, minted)
                  && f !in t.flights)
            && (!Live(s.db.tokens, id, readAt) ==>
                  && t == s.(flights := s.flights[f := Rejecting(row.familyId)])
                  && Enabled(t, CommitRejection(f, s.now, None))
                  && Dead(Next(t, CommitRejection(f, s.now, None)).db.tokens, Family(row.familyId.value)))
  {
    hide HasChain, RunTransaction, SessionRows, OnlyAdds, New, Live, Dead, RefreshStatements;
    var flight, e := s.flights[f], CommitRefresh(f, minted, None);
    assert FlightKept(s, flight) && flight.row.administratorId.value in s.db.administrators by {
      assert s.db.tokens[flight.id].administratorId == flight.row.administratorId;
    }
    var t := Next(s, e);
    RotatesExactly(s.db, flight.id, flight.row, minted, flight.readAt);
    assert OutcomeOf(s, e) == RunTransaction(s.db, RefreshStatements(flight.id, flight.row, minted, flight.readAt), None);
    if !Live(s.db.tokens, flight.id, flight.readAt) {
      assert t == s.(flights := s.flights[f := Rejecting(flight.row.familyId)]);
      assert Enabled(t, CommitRejection(f, s.now, None));
      hide Next;
      StepKeepsInv(s, e, t);
      RejectionTakesDown(t, f, s.now);
    }
  }

  /** A live refresh token presented at any moment can be read and rotated in that same moment. */
  lemma LiveTokenIsRotated(s: State, f: nat, id: Id, minted: Minted)
    requires Inv(s) && f !in s.flights && Live(s.db.tokens, id, s.now) && s.db.tokens[id].kind.Refresh?
    requires s.db.tokens[id].administratorId.Some? && New(s.db.tokens, minted) && minted.issuedAt == s.now
    requires forall other | other in s.db.tokens ::
               s.db.tokens[other].familyId != Some(minted.familyId) && s.db.tokens[other].sessionId != Some(minted.sessionId)
    ensures Enabled(s, ReadRefresh(f, id)) && Enabled(Next(s, ReadRefresh(f, id)), CommitRefresh(f, minted, None))
    ensures var row, t := s.db.tokens[id], Next(Next(s, ReadRefresh(f, id)), CommitRefresh(f, minted, None));
            && Whole(row) && id in t.db.tokens && t.db.tokens[id] == row.(usedAt := Some(s.now), revokedAt := Some(s.now))
            && SessionRows(t.db.tokens, minted, row.administratorId.value, row.familyId.value, Some(id), row.sessionId.value)
  {
    RefreshIsRead(s, f, id);
    var read := Next(s, ReadRefresh(f, id));
    assert Enabled(read, CommitRefresh(f, minted, None));
    hide Next, HasChain, SessionRows, New;
    StepKeepsInv(s, ReadRefresh(f, id), read);
    RotationCommits(read, f, minted);
  }

  /** The tokens of a session serve until they expire: the access token authenticates, and the refresh token
      can be rotated. */
  lemma SessionServes(
    s: State, minted: Minted, administratorId: Id, familyId: Id, parentId: Option<Id>, sessionId: Id, f: nat)
    requires SessionRows(s.db.tokens, minted, administratorId, familyId, parentId, sessionId) && f !in s.flights
    ensures Enabled(s, ReadAuthenticate(f, minted.accessId)) <==> s.now < minted.issuedAt + 900_000
    ensures Enabled(s, ReadRefresh(f, minted.refreshId))
    ensures Next(s, ReadRefresh(f, minted.refreshId)) ==
      if s.now < minted.issuedAt + 2_592_000_000
      then s.(flights := s.flights[f := Refreshing(minted.refreshId, s.db.tokens[minted.refreshId], s.now)]) else s
    ensures Enabled(s, ReadLogout(f, minted.accessId))
  {
    RefreshIsRead(s, f, minted.refreshId);
  }

  /** Authenticating records the use of the access token and changes nothing else. */
  lemma UseIsRecorded(s: State, f: nat, id: Id)
    requires Inv(s) && Enabled(s, ReadAuthenticate(f, id))
    ensures var read := Next(s, ReadAuthenticate(f, id));
            && Enabled(read, CommitTouch(f, s.now, None))
            && Next(read, CommitTouch(f, s.now, None))
               == s.(db := s.db.(tokens := s.db.tokens[id := s.db.tokens[id].(usedAt := Some(s.now))]))
  {
    hide HasChain, RowsKept, AdministratorKept;
    var read := Next(s, ReadAuthenticate(f, id));
    assert read == s.(flights := s.flights[f := Touching(id)]);
    assert read.flights - {f} == s.flights;
  }

  // ----- revocation

  /** A rejection, a logout and a session revocation revoke the tokens of their group and touch no other; the
      revocation of an execution token touches that one alone. */
  lemma RevokesNoOther(s: State, e: Event, t: State)
    requires Inv(s) && Step(s, e, t) && OutcomeOf(s, e).Committed?
    requires e.CommitRejection? || e.CommitLogout? || e.CommitRevoke? || e.RevokeExecution?
    ensures t.db.administrators == s.db.administrators && t.db.tokens.Keys == s.db.tokens.Keys
    ensures forall id | id in s.db.tokens ::
      var row := s.db.tokens[id];
      t.db.tokens[id] ==
        if (if e.RevokeExecution? then id == e.id else InGroup(row, TakenDown(s, e))) && row.revokedAt.None?
        then row.(revokedAt := Some(e.at)) else row
  {
    hide Next, OutcomeOf, HasChain;
    RevocationEffect(s, e, t);
    if !e.RevokeExecution? { assert FlightKept(s, s.flights[e.flight]); }
    assert RowsKept(s.db);
  }

  /** Without a fault each of them commits. */
  lemma RevocationCommits(s: State, e: Event)
    requires Inv(s) && Enabled(s, e) && (e.CommitRejection? || e.CommitLogout? || e.CommitRevoke? || e.RevokeExecution?)
    requires e.fault.None?
    ensures OutcomeOf(s, e).Committed?
  {
    hide HasChain, RunTransaction, RowsKept, AdministratorKept;
    match e
    case CommitRejection(f, at, _) => assert FlightKept(s, s.flights[f]);
    case CommitLogout(f, at, _) => AuditedExactly(s.db, RevokeFamily(s.flights[f].row.familyId.value, at));
    case CommitRevoke(f, at, _) => AuditedExactly(s.db, RevokeSession(s.flights[f].administratorId, s.flights[f].sessionId, at));
    case RevokeExecution(id, at, _) => AuditedExactly(s.db, RevokeToken(id, at));
  }

  /** A logout takes down the family of the access token it was asked with. */
  lemma LogsOut(s: State, f: nat, id: Id)
    requires Inv(s) && Enabled(s, ReadLogout(f, id))
    ensures var read := Next(s, ReadLogout(f, id));
            && Enabled(read, CommitLogout(f, s.now, None))
            && Dead(Next(read, CommitLogout(f, s.now, None)).db.tokens, Family(s.db.tokens[id].familyId.value))
  {
    hide HasChain, Dead, OutcomeOf;
    var read, e := Next(s, ReadLogout(f, id)), CommitLogout(f, s.now, None);
    assert read == s.(flights := s.flights[f := LoggingOut(s.db.tokens[id])]);
    assert Enabled(read, e);
    hide Next;
    StepKeepsInv(s, ReadLogout(f, id), read);
    RevocationCommits(read, e);
    TakesDown(read, e, Next(read, e));
  }

  /** A session is revoked by its administrator. */
  lemma SessionIsRevoked(s: State, f: nat, administratorId: Id, sessionId: Id)
    requires Inv(s) && Enabled(s, ReadRevoke(f, administratorId, sessionId))
    ensures var read := Next(s, ReadRevoke(f, administratorId, sessionId));
            && Enabled(read, CommitRevoke(f, s.now, None))
            && Dead(Next(read, CommitRevoke(f, s.now, None)).db.tokens, Session(sessionId))
  {
    hide HasChain, Dead, OutcomeOf, HasSession;
    var read, e := Next(s, ReadRevoke(f, administratorId, sessionId)), CommitRevoke(f, s.now, None);
    assert read == s.(flights := s.flights[f := Revoking(administratorId, sessionId)]);
    assert Enabled(read, e);
    hide Next;
    StepKeepsInv(s, ReadRevoke(f, administratorId, sessionId), read);
    RevocationCommits(read, e);
    TakesDown(read, e, Next(read, e));
  }

  // ----- logins

  /** A login whose password is right and that finds no lock sets out for a session, any other to be counted. */
  lemma LoginIsRead(s: State, f: nat, id: Id, verified: bool)
    requires Enabled(s, ReadLogin(f, id, verified))
    ensures var row := s.db.administrators[id];
            Next(s, ReadLogin(f, id, verified)) == s.(flights := s.flights[f :=
              if verified && (row.lockedUntil.None? || row.lockedUntil.value <= s.now) then LoggingIn(id, row, s.now)
              else CountingFailure(id, s.now)])
  {
  }

  /** The commit of a login: a session when the administrator row still admits it, otherwise one failure more. */
  lemma LoginCommits(s: State, f: nat, minted: Minted)
    requires Inv(s) && Enabled(s, CommitLogin(f, minted, None))
    ensures var id, read, readAt := s.flights[f].administratorId, s.flights[f].administrator, s.flights[f].readAt;
            var t := Next(s, CommitLogin(f, minted, None));
            && id in s.db.administrators
            && var row := s.db.administrators[id];
               var admits := row.passwordHash == read.passwordHash && (row.lockedUntil.None? || row.lockedUntil.value <= readAt);
               && (admits && New(s.db.tokens, minted) ==>
                     && SessionRows(t.db.tokens, minted, id, minted.familyId, None, minted.sessionId)
                     && OnlyAdds(s.db.tokens, t.db.tokens, minted) && f !in t.flights
                     && t.db.administrators == s.db.administrators[id := AdministratorRow(read.passwordHash, 0, None)])
               && (!admits ==> t == s.(flights := s.flights[f := CountingFailure(id, s.now)]))
  {
    hide HasChain, RunTransaction, SessionRows, OnlyAdds, New, LoginStatements, RowsKept;
    var flight := s.flights[f];
    assert FlightKept(s, flight);
    LogsInExactly(s.db, flight.administratorId, flight.administrator.passwordHash, minted, flight.readAt);
  }

  /** A failure is counted once; the eighth in a row locks for fifteen minutes, and a lock that stands is
      not moved. */
  lemma FailureCounts(s: State, f: nat)
    requires Inv(s) && Enabled(s, CommitFailure(f, None))
    ensures var id, at := s.flights[f].administratorId, s.flights[f].failedAt;
            var t := Next(s, CommitFailure(f, None));
            && id in s.db.administrators && t.db.tokens == s.db.tokens && f !in t.flights
            && var row := s.db.administrators[id];
               t.db.administrators == s.db.administrators[id := AdministratorRow(
                 row.passwordHash, row.failedAttempts + 1,
                 if row.lockedUntil.Some? && row.lockedUntil.value > at then row.lockedUntil
                 else if row.failedAttempts >= 7 then Some(at + 900_000) else None)]
  {
    hide HasChain, RunTransaction, RowsKept;
    var flight := s.flights[f];
    assert FlightKept(s, flight);
    AuditedExactly(s.db, CountFailure(flight.administratorId, flight.failedAt, flight.failedAt + LOCKOUT));
  }

  /** How many failures of an administrator a run commits, and whether it commits a login. */
  ghost function FailuresIn(s: State, events: seq<Event>, id: Id): nat
    requires IsRun(s, events)
    decreases |events|
  {
    if events == [] then 0
    else
      var e := events[0];
      (if e.CommitFailure? && s.flights[e.flight].administratorId == id && OutcomeOf(s, e).Committed? then 1 else 0)
      + FailuresIn(Next(s, e), events[1..], id)
  }

  ghost predicate NoLoginIn(s: State, events: seq<Event>)
    requires IsRun(s, events)
    decreases |events|
  {
    events == [] || (!(events[0].CommitLogin? && OutcomeOf(s, events[0]).Committed?) && NoLoginIn(Next(s, events[0]), events[1..]))
  }

  /** Between two logins the failures add up, whatever else interleaves; from the eighth on a lock is set, and
      with fewer none is. */
  lemma {:induction false} FailuresAddUp(s: State, events: seq<Event>, id: Id)
    requires Inv(s) && IsRun(s, events) && NoLoginIn(s, events) && id in s.db.administrators
    requires s.db.administrators[id].lockedUntil.Some? <==> s.db.administrators[id].failedAttempts >= 8
    ensures var rows := After(s, events).db.administrators;
            && id in rows && rows[id].failedAttempts == s.db.administrators[id].failedAttempts + FailuresIn(s, events, id)
            && (rows[id].lockedUntil.Some? <==> rows[id].failedAttempts >= 8)
    decreases |events|
  {
    if events != [] {
      hide Inv, Next, OutcomeOf;
      var t := Next(s, events[0]);
      StepKeepsInv(s, events[0], t);
      OneFailure(s, events[0], t, id);
      FailuresAddUp(t, events[1..], id);
    }
  }

  lemma OneFailure(s: State, e: Event, t: State, id: Id)
    requires Inv(s) && Step(s, e, t) && id in s.db.administrators && !(e.CommitLogin? && OutcomeOf(s, e).Committed?)
    requires s.db.administrators[id].lockedUntil.Some? <==> s.db.administrators[id].failedAttempts >= 8
    ensures id in t.db.administrators
    ensures t.db.administrators[id].failedAttempts == s.db.administrators[id].failedAttempts
      + if e.CommitFailure? && s.flights[e.flight].administratorId == id && OutcomeOf(s, e).Committed? then 1 else 0
    ensures t.db.administrators[id].lockedUntil.Some? <==> t.db.administrators[id].failedAttempts >= 8
  {
    hide Next, OutcomeOf, HasChain, RowsKept, FlightKept;
    StepAdministrators(s, e, t);
  }

  // ----- password changes, bootstrap and execution tokens

  /** A password change, read and committed: the new hash stands, the other sessions are gone and the kept
      one is not touched. */
  lemma PasswordChanges(s: State, f: nat, id: Id, session: Id, newHash: nat)
    requires Inv(s) && Enabled(s, ReadChange(f, id, session))
    ensures var read := Next(s, ReadChange(f, id, session));
            && Enabled(read, CommitChange(f, newHash, s.now, None))
            && var t := Next(read, CommitChange(f, newHash, s.now, None));
               && t.db.administrators == s.db.administrators[id := s.db.administrators[id].(passwordHash := newHash)]
               && t.db.tokens.Keys == s.db.tokens.Keys
               && forall token | token in s.db.tokens ::
                    var row := s.db.tokens[token];
                    if row.sessionId.None? || row.sessionId == Some(session) then t.db.tokens[token] == row
                    else row.administratorId == Some(id) ==> t.db.tokens[token].revokedAt.Some?
  {
    hide HasChain, RunTransaction, RowsKept, FlightKept, ChangeStatements;
    var read := Next(s, ReadChange(f, id, session));
    assert read == s.(flights := s.flights[f := ChangingPassword(id, s.db.administrators[id].passwordHash, session)]);
    ChangesExactly(s.db, id, s.db.administrators[id].passwordHash, newHash, session, s.now);
  }

  /** A fresh instance is bootstrapped by its token: one administrator and a first session. */
  lemma Bootstraps(s: State, f: nat, id: Id, hash: nat, minted: Minted)
    requires Inv(s) && Enabled(s, CommitBootstrap(f, id, hash, minted, None)) && New(s.db.tokens, minted)
    requires s.db.administrators == map[] && s.db.bootstrap.Some? && s.db.bootstrap.value.digest == s.flights[f].digest
    requires s.db.bootstrap.value.consumedAt.None? && s.db.bootstrap.value.expiresAt > s.flights[f].readAt
    ensures var t := Next(s, CommitBootstrap(f, id, hash, minted, None));
            && t.db.administrators == map[id := AdministratorRow(hash, 0, None)]
            && t.db.bootstrap.Some? && t.db.bootstrap.value.consumedAt.Some? && f !in t.flights
            && SessionRows(t.db.tokens, minted, id, minted.familyId, None, minted.sessionId)
  {
    hide HasChain, RunTransaction, RowsKept, FlightKept, BootstrapStatements, SessionRows, OnlyAdds, New;
    BootstrapsExactly(s.db, id, hash, s.flights[f].digest, minted, s.flights[f].readAt);
  }

  /** An issued bootstrap token is active for thirty minutes, on an instance without an administrator. */
  lemma BootstrapIssued(s: State, f: nat, digest: nat, other: nat, later: nat)
    requires Enabled(s, CommitIssue(f, digest, s.now, None)) && s.db.administrators == map[]
    ensures var t := Next(s, CommitIssue(f, digest, s.now, None));
            && t.db == s.db.(bootstrap := Some(BootstrapRow(digest, s.now + 1_800_000, None))) && f !in t.flights
            && (other !in t.flights ==> (Enabled(t.(now := s.now + later), ReadBootstrap(other, digest)) <==> later < 1_800_000))
  {
  }

  /** An execution token is issued under a new identifier and digest for a known administrator, with the expiry
      it was asked for, and belongs to no session. */
  lemma ExecutionIssued(s: State, id: Id, administratorId: Id, digest: nat, expiresAt: Time)
    requires id !in s.db.tokens && administratorId in s.db.administrators
    requires forall other | other in s.db.tokens :: s.db.tokens[other].digest != digest
    ensures var t := Next(s, IssueExecution(id, administratorId, digest, expiresAt, None));
            t.db.tokens == s.db.tokens[id := TokenRow(Some(administratorId), Execution, digest, None, None, None, expiresAt, None, None)]
  {
    hide RunTransaction;
    AuditedExactly(s.db, InsertToken(id, ExecutionRow(administratorId, digest, expiresAt)));
  }
}
