/** What every run of the authentication services keeps, however their requests interleave. */
module AuthSafety {
  import opened Options
  import opened AuthDatabase
  import opened AuthFlows

  type Tokens = map<Id, TokenRow>

  // ----- what a step does to the token table

  /** Rows that may since have been used or revoked, but are otherwise the same; only the rotation
      itself, a change of its own, marks a refresh token as used. */
  ghost predicate Aged(old_: Tokens, new_: Tokens) {
    && new_.Keys == old_.Keys
    && forall id | id in old_ ::
         && new_[id] == old_[id].(usedAt := new_[id].usedAt, revokedAt := new_[id].revokedAt)
         && (old_[id].revokedAt.Some? ==> new_[id].revokedAt.Some?)
         && (old_[id].kind.Refresh? ==> new_[id].usedAt == old_[id].usedAt)
  }

  ghost predicate Added(before: Tokens, after: Tokens, minted: Minted, access: TokenRow, refresh: TokenRow) {
    && minted.accessId !in before && minted.refreshId !in before && minted.accessId != minted.refreshId
    && after == before[minted.accessId := access][minted.refreshId := refresh]
  }

  ghost predicate AddedSession(
    before: Tokens, after: Tokens, minted: Minted, administratorId: Id, familyId: Id, parentId: Option<Id>, sessionId: Id)
  {
    Added(before, after, minted, AccessRow(administratorId, minted, familyId, parentId, sessionId),
          RefreshRow(administratorId, minted, familyId, parentId, sessionId))
  }

  datatype Change =
    | Ages
    | Opens(minted: Minted, administratorId: Id)
    | Rotates(id: Id, at: Time, minted: Minted)
    | Issues(id: Id, row: TokenRow)

  function Spent(row: TokenRow, at: Time): TokenRow { row.(usedAt := Some(at), revokedAt := Some(at)) }

  ghost predicate Whole(row: TokenRow) {
    row.administratorId.Some? && row.familyId.Some? && row.sessionId.Some?
  }

  ghost predicate Changes(before: Tokens, after: Tokens, change: Change) {
    match change
    case Ages => Aged(before, after)
    case Opens(minted, administrator) =>
      && AddedSession(before, after, minted, administrator, minted.familyId, None, minted.sessionId)
      && forall id | id in before ::
           before[id].familyId != Some(minted.familyId) && before[id].sessionId != Some(minted.sessionId)
    case Rotates(id, at, minted) =>
      && id in before && before[id].kind.Refresh? && Whole(before[id]) && Consumable(before[id], at)
      && AddedSession(before[id := Spent(before[id], at)], after, minted, before[id].administratorId.value,
                      before[id].familyId.value, Some(id), before[id].sessionId.value)
    case Issues(id, row) =>
      id !in before && after == before[id := row] && row.kind.Execution? && row.familyId.None? && row.sessionId.None?
  }

  // ----- what each transaction commits

  lemma SessionEffect(
    db: Database, between: Database, after: Database, id: Id, minted: Minted, familyId: Id, parentId: Option<Id>, sessionId: Id)
    requires var statements := SessionStatements(id, minted, familyId, parentId, sessionId);
             && Executed(db, statements[0], false) == Committed(between)
             && Executed(between, statements[1], false) == Committed(after)
    ensures AddedSession(db.tokens, after.tokens, minted, id, familyId, parentId, sessionId)
    ensures after == db.(tokens := after.tokens)
  {
  }

  lemma RefreshEffect(db: Database, id: Id, row: TokenRow, minted: Minted, readAt: Time, fault: Option<nat>)
    requires Whole(row) && RunTransaction(db, RefreshStatements(id, row, minted, readAt), fault).Committed?
    ensures id in db.tokens && Consumable(db.tokens[id], readAt)
    ensures var after := RunTransaction(db, RefreshStatements(id, row, minted, readAt), fault).db;
            && AddedSession(db.tokens[id := Spent(db.tokens[id], readAt)], after.tokens, minted, row.administratorId.value,
                            row.familyId.value, Some(id), row.sessionId.value)
            && after.administrators == db.administrators
  {
    hide AddedSession, RunTransaction, Insertable, Revoked, RevokedCount, Revokes, Failed;
    var statements := RefreshStatements(id, row, minted, readAt);
    CommitsExactlyWhole(db, statements, fault);
    var trace :| IsTrace(db, statements, trace) && trace[|statements|] == RunTransaction(db, statements, fault).db;
    assert Executed(trace[0], statements[0], false) == Committed(trace[1]);
    SessionEffect(trace[1], trace[2], trace[3], row.administratorId.value, minted, row.familyId.value, Some(id), row.sessionId.value);
    assert Executed(trace[3], statements[3], false) == Committed(trace[4]);
  }

  lemma LoginEffect(db: Database, id: Id, hash: nat, minted: Minted, readAt: Time, fault: Option<nat>)
    requires RunTransaction(db, LoginStatements(id, hash, minted, readAt), fault).Committed?
    ensures id in db.administrators && db.administrators[id].passwordHash == hash && !LockedAt(db.administrators[id], readAt)
    ensures var after := RunTransaction(db, LoginStatements(id, hash, minted, readAt), fault).db;
            && AddedSession(db.tokens, after.tokens, minted, id, minted.familyId, None, minted.sessionId)
            && after.administrators == db.administrators[id := AdministratorRow(hash, 0, None)]
  {
    hide AddedSession, RunTransaction, Insertable, Revoked, RevokedCount, Revokes, Failed;
    var statements := LoginStatements(id, hash, minted, readAt);
    CommitsExactlyWhole(db, statements, fault);
    var trace :| IsTrace(db, statements, trace) && trace[|statements|] == RunTransaction(db, statements, fault).db;
    assert Executed(trace[0], statements[0], false) == Committed(trace[1]);
    SessionEffect(trace[1], trace[2], trace[3], id, minted, minted.familyId, None, minted.sessionId);
    assert Executed(trace[3], statements[3], false) == Committed(trace[4]);
  }

  lemma BootstrapEffect(db: Database, id: Id, hash: nat, digest: nat, minted: Minted, readAt: Time, fault: Option<nat>)
    requires RunTransaction(db, BootstrapStatements(id, hash, digest, minted, readAt), fault).Committed?
    ensures db.administrators == map[]
    ensures var after := RunTransaction(db, BootstrapStatements(id, hash, digest, minted, readAt), fault).db;
            && AddedSession(db.tokens, after.tokens, minted, id, minted.familyId, None, minted.sessionId)
            && after.administrators == map[id := AdministratorRow(hash, 0, None)]
  {
    hide AddedSession, RunTransaction, Insertable, Revoked, RevokedCount, Revokes, Failed;
    var statements := BootstrapStatements(id, hash, digest, minted, readAt);
    CommitsExactlyWhole(db, statements, fault);
    var trace :| IsTrace(db, statements, trace) && trace[|statements|] == RunTransaction(db, statements, fault).db;
    assert Executed(trace[0], statements[0], false) == Committed(trace[1]);
    assert Executed(trace[1], statements[1], false) == Committed(trace[2]);
    SessionEffect(trace[2], trace[3], trace[4], id, minted, minted.familyId, None, minted.sessionId);
    assert Executed(trace[4], statements[4], false) == Committed(trace[5]);
  }

  lemma ChangeEffect(db: Database, id: Id, hash: nat, newHash: nat, session: Id, at: Time, fault: Option<nat>)
    requires RunTransaction(db, ChangeStatements(id, hash, newHash, session, at), fault).Committed?
    ensures id in db.administrators && db.administrators[id].passwordHash == hash
    ensures var after := RunTransaction(db, ChangeStatements(id, hash, newHash, session, at), fault).db;
            && after.tokens == Revoked(db.tokens, RevokeOtherSessions(id, session, at), at)
            && after.administrators == db.administrators[id := db.administrators[id].(passwordHash := newHash)]
  {
    var statements := ChangeStatements(id, hash, newHash, session, at);
    CommitsExactlyWhole(db, statements, fault);
    var trace :| IsTrace(db, statements, trace) && trace[|statements|] == RunTransaction(db, statements, fault).db;
    hide RunTransaction;
    assert Executed(trace[0], statements[0], false) == Committed(trace[1]);
    assert Executed(trace[1], statements[1], false) == Committed(trace[2]);
    assert Executed(trace[2], statements[2], false) == Committed(trace[3]);
  }

  /** One plain statement and its audit entry. */
  lemma AuditedEffect(db: Database, op: Operation, fault: Option<nat>)
    requires RunTransaction(db, [Plain(op), Plain(AppendAudit)], fault).Committed?
    ensures Apply(db, op).Changed?
    ensures var after := RunTransaction(db, [Plain(op), Plain(AppendAudit)], fault).db;
            after == Apply(db, op).db.(auditEvents := after.auditEvents)
  {
    var statements := [Plain(op), Plain(AppendAudit)];
    CommitsExactlyWhole(db, statements, fault);
    var trace :| IsTrace(db, statements, trace) && trace[|statements|] == RunTransaction(db, statements, fault).db;
    hide RunTransaction;
    assert Executed(trace[0], statements[0], false) == Committed(trace[1]);
    assert Executed(trace[1], statements[1], false) == Committed(trace[2]);
  }

  lemma RevocationAges(tokens: Tokens, op: Operation, at: Time)
    ensures Aged(tokens, Revoked(tokens, op, at))
    ensures forall id | id in tokens ::
      if Revokes(op, id, tokens[id]) then Revoked(tokens, op, at)[id].revokedAt.Some? else Revoked(tokens, op, at)[id] == tokens[id]
  {
  }

  // ----- the invariant

  ghost predicate RowsKept(db: Database) {
    forall id | id in db.tokens ::
      var row := db.tokens[id];
      && (row.administratorId.Some? ==> row.administratorId.value in db.administrators)
      && (if row.kind.Execution? then row.familyId.None? && row.sessionId.None? else Whole(row))
  }

  /** What a request in flight remembers is still true of the rows it read, apart from their use and
      revocation. */
  ghost predicate FlightKept(s: State, flight: Flight) {
    match flight
    case Refreshing(id, row, _) =>
      && id in s.db.tokens && row.kind.Refresh? && Whole(row)
      && s.db.tokens[id] == row.(usedAt := s.db.tokens[id].usedAt, revokedAt := s.db.tokens[id].revokedAt)
    case Rejecting(familyId) => familyId.Some? && KnownIn(s.db.tokens, Family(familyId.value))
    case LoggingOut(row) => row.familyId.Some? && KnownIn(s.db.tokens, Family(row.familyId.value))
    case Revoking(administrator, session) => administrator in s.db.administrators && KnownIn(s.db.tokens, Session(session))
    case Touching(id) => id in s.db.tokens && s.db.tokens[id].kind.Access?
    case LoggingIn(id, _, readAt) => id in s.db.administrators && readAt <= s.now
    case CountingFailure(id, failedAt) => id in s.db.administrators && failedAt <= s.now
    case ChangingPassword(id, _, _) => id in s.db.administrators
    case _ => true
  }

  /** There is at most one administrator, and its hash is the last one set. */
  ghost predicate AdministratorKept(s: State) {
    && (forall a, b | a in s.db.administrators && b in s.db.administrators :: a == b)
    && (forall id | id in s.db.administrators ::
          s.hashes != [] && s.db.administrators[id].passwordHash == s.hashes[|s.hashes| - 1])
  }

  /** A family or a session: what revocation takes down as a whole. */
  datatype Group = Family(id: Id) | Session(id: Id)

  ghost predicate InGroup(row: TokenRow, group: Group) {
    match group
    case Family(id) => row.familyId == Some(id)
    case Session(id) => row.sessionId == Some(id)
  }

  ghost predicate KnownIn(tokens: Tokens, group: Group) {
    exists id | id in tokens :: InGroup(tokens[id], group)
  }

  predicate Refreshes(tokens: Tokens, id: Id, familyId: Id) {
    id in tokens && tokens[id].kind.Refresh? && tokens[id].familyId == Some(familyId)
  }

  predicate Linked(tokens: Tokens, chain: seq<Id>, i: int)
    requires 0 <= i < |chain|
  {
    chain[i] in tokens && tokens[chain[i]].parentId == if i == 0 then None else Some(chain[i - 1])
  }

  /** The refresh tokens of a family, oldest first: each is the parent of the next, and all but the
      last are used up. */
  ghost predicate IsChain(tokens: Tokens, familyId: Id, chain: seq<Id>) {
    && (forall id :: id in chain <==> Refreshes(tokens, id, familyId))
    && (forall i, j | 0 <= i < j < |chain| :: chain[i] != chain[j])
    && (forall i | 0 <= i < |chain| :: Linked(tokens, chain, i))
    && (forall i | 0 <= i < |chain| - 1 :: chain[i] in tokens && tokens[chain[i]].usedAt.Some? && tokens[chain[i]].revokedAt.Some?)
  }

  ghost predicate HasChain(tokens: Tokens, familyId: Id) {
    exists chain :: IsChain(tokens, familyId, chain)
  }

  ghost predicate Inv(s: State) {
    && RowsKept(s.db)
    && (forall f | f in s.flights :: FlightKept(s, s.flights[f]))
    && AdministratorKept(s)
    && (forall family :: HasChain(s.db.tokens, family))
  }

  // ----- how each change of the token table keeps it

  lemma SameChain(before: Tokens, after: Tokens, family: Id, chain: seq<Id>)
    requires IsChain(before, family, chain)
    requires forall id :: Refreshes(before, id, family) <==> Refreshes(after, id, family)
    requires forall id | Refreshes(before, id, family) ::
               && id in after && after[id].parentId == before[id].parentId
               && (before[id].usedAt.Some? && before[id].revokedAt.Some? ==> after[id].usedAt.Some? && after[id].revokedAt.Some?)
    ensures IsChain(after, family, chain)
  {
    forall i | 0 <= i < |chain| ensures Refreshes(before, chain[i], family) && Linked(after, chain, i) {
      assert chain[i] in chain && Linked(before, chain, i);
    }
  }

  lemma LongerChain(tokens: Tokens, after: Tokens, family: Id, minted: Minted, access: TokenRow, refresh: TokenRow, chain: seq<Id>)
    requires IsChain(tokens, family, chain) && chain != []
    requires var last := chain[|chain| - 1];
             Refreshes(tokens, last, family) && tokens[last].usedAt.Some? && tokens[last].revokedAt.Some?
             && refresh.parentId == Some(last)
    requires Added(tokens, after, minted, access, refresh)
    requires !access.kind.Refresh? && refresh.kind.Refresh? && refresh.familyId == Some(family)
    ensures IsChain(after, family, chain + [minted.refreshId])
  {
    var longer := chain + [minted.refreshId];
    LongerMembers(tokens, after, family, minted, access, refresh, chain);
    hide Refreshes;
    forall i | 0 <= i < |longer| ensures Linked(after, longer, i) {
      if i < |chain| { assert chain[i] in chain && Linked(tokens, chain, i); }
    }
    forall i, j | 0 <= i < j < |longer| ensures longer[i] != longer[j] {
      assert longer[i] in chain;
    }
    forall i | 0 <= i < |chain| ensures after[longer[i]] == tokens[longer[i]] { assert longer[i] in chain; }
  }

  lemma LongerMembers(tokens: Tokens, after: Tokens, family: Id, minted: Minted, access: TokenRow, refresh: TokenRow, chain: seq<Id>)
    requires forall id :: id in chain <==> Refreshes(tokens, id, family)
    requires Added(tokens, after, minted, access, refresh)
    requires !access.kind.Refresh? && refresh.kind.Refresh? && refresh.familyId == Some(family)
    ensures forall id :: id in chain + [minted.refreshId] <==> Refreshes(after, id, family)
    ensures forall id | id in chain :: id in tokens && id in after && after[id] == tokens[id] && id != minted.refreshId
  {
    forall id ensures id in chain + [minted.refreshId] <==> Refreshes(after, id, family) {
      assert id in chain + [minted.refreshId] <==> id in chain || id == minted.refreshId;
    }
  }

  /** A rotation appends to the chain: the token it spends can only be the last one. */
  lemma RotatedChain(before: Tokens, after: Tokens, id: Id, at: Time, minted: Minted, chain: seq<Id>)
    requires Changes(before, after, Rotates(id, at, minted)) && IsChain(before, before[id].familyId.value, chain)
    ensures IsChain(after, before[id].familyId.value, chain + [minted.refreshId])
  {
    var family := before[id].familyId.value;
    var spent := before[id := Spent(before[id], at)];
    assert id in chain by { assert Refreshes(before, id, family); }
    var k :| 0 <= k < |chain| && chain[k] == id;
    assert k == |chain| - 1;
    SameChain(before, spent, family, chain);
    LongerChain(spent, after, family, minted, after[minted.accessId], after[minted.refreshId], chain);
  }

  lemma ChainKept(before: Tokens, after: Tokens, change: Change, family: Id)
    requires Changes(before, after, change) && HasChain(before, family)
    ensures HasChain(after, family)
  {
    hide IsChain;
    var chain :| IsChain(before, family, chain);
    match change
    case Ages => SameChain(before, after, family, chain);
    case Issues(_, _) => SameChain(before, after, family, chain);
    case Opens(minted, _) =>
      if family == minted.familyId { NewChain(before, after, change); } else { SameChain(before, after, family, chain); }
    case Rotates(id, at, minted) =>
      if before[id].familyId == Some(family) { RotatedChain(before, after, id, at, minted, chain); }
      else { SameChain(before, after, family, chain); }
  }

  lemma NewChain(before: Tokens, after: Tokens, change: Change)
    requires Changes(before, after, change) && change.Opens?
    ensures IsChain(after, change.minted.familyId, [change.minted.refreshId])
  {
  }

  lemma KnownKept(before: Tokens, after: Tokens, change: Change, group: Group)
    requires Changes(before, after, change) && KnownIn(before, group)
    ensures KnownIn(after, group)
  {
    var id :| id in before && InGroup(before[id], group);
    assert id in after && InGroup(after[id], group);
  }

  ghost function ChangeOf(s: State, e: Event): Change
    requires Enabled(s, e)
  {
    if !OutcomeOf(s, e).Committed? then Ages
    else
      match e
      case CommitRefresh(f, minted, _) => Rotates(s.flights[f].id, s.flights[f].readAt, minted)
      case CommitLogin(f, minted, _) => Opens(minted, s.flights[f].administratorId)
      case CommitBootstrap(_, id, _, minted, _) => Opens(minted, id)
      case IssueExecution(id, administrator, digest, expiresAt, _) => Issues(id, ExecutionRow(administrator, digest, expiresAt))
      case _ => Ages
  }

  /** The database after a step is what its commit left, and nothing else writes to it. */
  lemma StepCommits(s: State, e: Event, t: State)
    requires Step(s, e, t)
    ensures t.db == AfterTransaction(s.db, OutcomeOf(s, e))
    ensures t.now == s.now + if e.Tick? then e.elapsed else 0
  {
  }

  ghost predicate IsRevocation(e: Event) {
    e.CommitRejection? || e.CommitLogout? || e.CommitRevoke? || e.CommitChange? || e.RevokeExecution?
  }

  /** The bulk revocation that the commit of a revoking request runs. */
  ghost function RevocationOf(s: State, e: Event): Operation
    requires Enabled(s, e) && IsRevocation(e) && OutcomeOf(s, e).Committed?
  {
    match e
    case CommitRejection(f, at, _) => RevokeFamily(s.flights[f].familyId.value, at)
    case CommitLogout(f, at, _) => RevokeFamily(s.flights[f].row.familyId.value, at)
    case CommitRevoke(f, at, _) => RevokeSession(s.flights[f].administratorId, s.flights[f].sessionId, at)
    case CommitChange(f, _, at, _) => RevokeOtherSessions(s.flights[f].administratorId, s.flights[f].sessionId, at)
    case RevokeExecution(id, at, _) => RevokeToken(id, at)
  }

  lemma RevocationEffect(s: State, e: Event, t: State)
    requires Step(s, e, t) && IsRevocation(e) && OutcomeOf(s, e).Committed?
    ensures t.db.tokens == Revoked(s.db.tokens, RevocationOf(s, e), e.at)
    ensures !e.CommitChange? ==> t.db.administrators == s.db.administrators
  {
    hide RunTransaction, Next, Departs, Departing, Revoked, RevokedCount;
    StepCommits(s, e, t);
    match e
    case CommitRejection(_, _, _) =>
    case CommitChange(f, newHash, at, fault) =>
      ChangeEffect(s.db, s.flights[f].administratorId, s.flights[f].passwordHash, newHash, s.flights[f].sessionId, at, fault);
    case CommitLogout(f, _, fault) => AuditedEffect(s.db, RevocationOf(s, e), fault);
    case CommitRevoke(f, _, fault) => AuditedEffect(s.db, RevocationOf(s, e), fault);
    case RevokeExecution(f, _, fault) => AuditedEffect(s.db, RevocationOf(s, e), fault);
  }

  lemma StepChanges(s: State, e: Event, t: State)
    requires Inv(s) && Step(s, e, t)
    ensures Changes(s.db.tokens, t.db.tokens, ChangeOf(s, e))
  {
    hide RunTransaction, Next, Departs, Departing, HasChain, AdministratorKept, Apply, Revoked, RevocationOf, AddedSession;
    StepCommits(s, e, t);
    if OutcomeOf(s, e).Committed? {
      if IsRevocation(e) {
        RevocationEffect(s, e, t);
        RevocationAges(s.db.tokens, RevocationOf(s, e), e.at);
      } else if e.CommitRefresh? {
        var flight := s.flights[e.flight];
        assert FlightKept(s, flight);
        RefreshEffect(s.db, flight.id, flight.row, e.minted, flight.readAt, e.fault);
      } else if e.CommitLogin? {
        var flight := s.flights[e.flight];
        LoginEffect(s.db, flight.administratorId, flight.administrator.passwordHash, e.minted, flight.readAt, e.fault);
      } else if e.CommitBootstrap? {
        var flight := s.flights[e.flight];
        BootstrapEffect(s.db, e.administratorId, e.passwordHash, flight.digest, e.minted, flight.readAt, e.fault);
      } else {
        OtherwiseAges(s, e, t);
      }
    }
  }

  lemma OtherwiseAges(s: State, e: Event, t: State)
    requires Inv(s) && Step(s, e, t) && OutcomeOf(s, e).Committed? && !IsRevocation(e)
    requires !e.CommitRefresh? && !e.CommitLogin? && !e.CommitBootstrap?
    ensures Changes(s.db.tokens, t.db.tokens, ChangeOf(s, e))
  {
    hide RunTransaction, Next, Departs, Departing, HasChain, AdministratorKept, Revoked, AddedSession;
    StepCommits(s, e, t);
    match e
    case CommitTouch(f, _, _) => assert FlightKept(s, s.flights[f]);
    case CommitFailure(f, fault) =>
      AuditedEffect(s.db, CountFailure(s.flights[f].administratorId, s.flights[f].failedAt, s.flights[f].failedAt + LOCKOUT), fault);
    case CommitIssue(_, _, _, _) =>
    case IssueExecution(id, administrator, digest, expiresAt, fault) =>
      AuditedEffect(s.db, InsertToken(id, ExecutionRow(administrator, digest, expiresAt)), fault);
  }

  // ----- the invariant is kept

  /** The administrator rows a committed step leaves. */
  ghost function AdministratorsOf(s: State, e: Event): map<Id, AdministratorRow>
    requires Enabled(s, e)
  {
    var rows := s.db.administrators;
    if !OutcomeOf(s, e).Committed? then rows
    else
      match e
      case CommitLogin(f, _, _) =>
        rows[s.flights[f].administratorId := AdministratorRow(s.flights[f].administrator.passwordHash, 0, None)]
      case CommitBootstrap(_, id, hash, _, _) => map[id := AdministratorRow(hash, 0, None)]
      case CommitChange(f, newHash, _, _) =>
        var id := s.flights[f].administratorId;
        if id in rows then rows[id := rows[id].(passwordHash := newHash)] else rows
      case CommitFailure(f, _) =>
        var id, at := s.flights[f].administratorId, s.flights[f].failedAt;
        if id in rows then rows[id := Failed(rows[id], at, at + LOCKOUT)] else rows
      case _ => rows
  }

  /** The administrator table after a step, and the conditions under which its writes commit. */
  lemma StepAdministrators(s: State, e: Event, t: State)
    requires Inv(s) && Step(s, e, t)
    ensures t.db.administrators == AdministratorsOf(s, e)
    ensures OutcomeOf(s, e).Committed? && e.CommitBootstrap? ==> s.db.administrators == map[]
    ensures OutcomeOf(s, e).Committed? && e.CommitChange? ==>
      var flight := s.flights[e.flight];
      flight.administratorId in s.db.administrators
      && s.db.administrators[flight.administratorId].passwordHash == flight.passwordHash
    ensures OutcomeOf(s, e).Committed? && e.CommitLogin? ==>
      var flight := s.flights[e.flight];
      flight.administratorId in s.db.administrators
      && s.db.administrators[flight.administratorId].passwordHash == flight.administrator.passwordHash
      && !LockedAt(s.db.administrators[flight.administratorId], flight.readAt)
  {
    hide RunTransaction, Next, Departs, Departing, HasChain, RowsKept, Revoked, AddedSession, RevocationOf, AdministratorKept;
    StepCommits(s, e, t);
    if OutcomeOf(s, e).Committed? {
      if IsRevocation(e) {
        RevocationEffect(s, e, t);
        if e.CommitChange? {
          var flight := s.flights[e.flight];
          ChangeEffect(s.db, flight.administratorId, flight.passwordHash, e.newHash, flight.sessionId, e.at, e.fault);
        }
      } else if e.CommitRefresh? {
        var flight := s.flights[e.flight];
        assert FlightKept(s, flight);
        RefreshEffect(s.db, flight.id, flight.row, e.minted, flight.readAt, e.fault);
      } else if e.CommitLogin? {
        var flight := s.flights[e.flight];
        LoginEffect(s.db, flight.administratorId, flight.administrator.passwordHash, e.minted, flight.readAt, e.fault);
      } else if e.CommitBootstrap? {
        var flight := s.flights[e.flight];
        BootstrapEffect(s.db, e.administratorId, e.passwordHash, flight.digest, e.minted, flight.readAt, e.fault);
      } else if e.CommitFailure? {
        var flight := s.flights[e.flight];
        AuditedEffect(s.db, CountFailure(flight.administratorId, flight.failedAt, flight.failedAt + LOCKOUT), e.fault);
      } else if e.IssueExecution? {
        AuditedEffect(s.db, InsertToken(e.id, ExecutionRow(e.administratorId, e.digest, e.expiresAt)), e.fault);
      }
    }
  }

  /** What the history records of a step. */
  lemma StepRecords(s: State, e: Event, t: State)
    requires Step(s, e, t)
    ensures t.hashes == s.hashes + if OutcomeOf(s, e).Committed? && e.CommitChange? then [e.newHash]
                                   else if OutcomeOf(s, e).Committed? && e.CommitBootstrap? then [e.passwordHash] else []
    ensures t.openedWith ==
      if OutcomeOf(s, e).Committed? && e.CommitLogin?
      then s.openedWith[e.minted.sessionId := s.flights[e.flight].administrator.passwordHash]
      else if OutcomeOf(s, e).Committed? && e.CommitBootstrap? then s.openedWith[e.minted.sessionId := e.passwordHash]
      else s.openedWith
  {
    hide RunTransaction;
  }

  lemma AdministratorStays(s: State, e: Event, t: State)
    requires Inv(s) && Step(s, e, t)
    ensures AdministratorKept(t)
    ensures s.db.administrators.Keys <= t.db.administrators.Keys
    ensures s.db.administrators != map[] ==> t.db.administrators.Keys == s.db.administrators.Keys
  {
    hide RunTransaction, Next, Departs, Departing, HasChain, RowsKept, FlightKept, OutcomeOf;
    StepAdministrators(s, e, t);
    StepRecords(s, e, t);
  }

  lemma RowsStay(s: State, e: Event, t: State)
    requires Inv(s) && Step(s, e, t)
    ensures RowsKept(t.db)
  {
    hide RunTransaction, Next, Departs, Departing, HasChain, FlightKept, AdministratorKept;
    StepChanges(s, e, t);
    AdministratorStays(s, e, t);
    var change := ChangeOf(s, e);
    if change.Issues? {
      StepCommits(s, e, t);
      AuditedEffect(s.db, InsertToken(e.id, ExecutionRow(e.administratorId, e.digest, e.expiresAt)), e.fault);
    } else if change.Opens? {
      StepAdministrators(s, e, t);
    }
  }

  lemma FlightStays(s: State, e: Event, t: State, flight: Flight)
    requires Inv(s) && Step(s, e, t) && FlightKept(s, flight)
    ensures FlightKept(t, flight)
  {
    hide RunTransaction, Next, Departs, Departing, HasChain, AdministratorKept, RowsKept, InGroup, KnownIn, OutcomeOf, Enabled, ChangeOf;
    StepChanges(s, e, t);
    AdministratorStays(s, e, t);
    StepCommits(s, e, t);
    match flight
    case Rejecting(family) => KnownKept(s.db.tokens, t.db.tokens, ChangeOf(s, e), Family(family.value));
    case LoggingOut(row) => KnownKept(s.db.tokens, t.db.tokens, ChangeOf(s, e), Family(row.familyId.value));
    case Revoking(_, session) => KnownKept(s.db.tokens, t.db.tokens, ChangeOf(s, e), Session(session));
    case _ =>
  }

  lemma DepartureKept(s: State, e: Event)
    requires Inv(s) && Enabled(s, e) && Departs(s, e)
    ensures FlightKept(s, Departing(s, e))
  {
    hide RunTransaction, HasChain, AdministratorKept, OutcomeOf, Next;
    match e
    case ReadRefresh(_, id) => assert InGroup(s.db.tokens[id], Family(s.db.tokens[id].familyId.value));
    case ReadLogout(_, id) => assert InGroup(s.db.tokens[id], Family(s.db.tokens[id].familyId.value));
    case ReadRevoke(_, administrator, session) =>
      var id :| id in s.db.tokens && s.db.tokens[id].administratorId == Some(administrator)
                && s.db.tokens[id].sessionId == Some(session) && !s.db.tokens[id].kind.Execution?;
      assert InGroup(s.db.tokens[id], Session(session));
    case CommitRefresh(f, _, _) =>
      assert FlightKept(s, s.flights[f]);
      assert InGroup(s.db.tokens[s.flights[f].id], Family(s.flights[f].row.familyId.value));
    case CommitLogin(f, _, _) => assert FlightKept(s, s.flights[f]);
    case _ =>
  }

  lemma StepFlights(s: State, e: Event, t: State)
    requires Step(s, e, t)
    ensures forall f | f in t.flights ::
      (f in s.flights && t.flights[f] == s.flights[f]) || (Departs(s, e) && t.flights[f] == Departing(s, e))
  {
    hide RunTransaction, OutcomeOf, Departs, Departing;
  }

  lemma StepKeepsInv(s: State, e: Event, t: State)
    requires Inv(s) && Step(s, e, t)
    ensures Inv(t)
  {
    hide RunTransaction, Next, Departs, Departing, HasChain, AdministratorKept, RowsKept, OutcomeOf, FlightKept, Changes, ChangeOf;
    AdministratorStays(s, e, t);
    RowsStay(s, e, t);
    StepFlights(s, e, t);
    forall f | f in t.flights ensures FlightKept(t, t.flights[f]) {
      if Departs(s, e) && t.flights[f] == Departing(s, e) { DepartureKept(s, e); }
      FlightStays(s, e, t, t.flights[f]);
    }
    StepChanges(s, e, t);
    forall family ensures HasChain(t.db.tokens, family) {
      ChainKept(s.db.tokens, t.db.tokens, ChangeOf(s, e), family);
    }
  }

  // ----- runs

  lemma {:induction false} RunKeepsInv(s: State, events: seq<Event>)
    requires Inv(s) && IsRun(s, events)
    ensures Inv(After(s, events))
    decreases |events|
  {
    if events != [] {
      hide Inv, Next;
      StepKeepsInv(s, events[0], Next(s, events[0]));
      RunKeepsInv(Next(s, events[0]), events[1..]);
    }
  }

  ghost predicate Reachable(s: State) {
    exists start, events :: Fresh(start) && IsRun(start, events) && After(start, events) == s
  }

  lemma ReachableKept(s: State)
    requires Reachable(s)
    ensures Inv(s)
  {
    var start, events :| Fresh(start) && IsRun(start, events) && After(start, events) == s;
    forall family ensures HasChain(start.db.tokens, family) {
      assert IsChain(start.db.tokens, family, []);
    }
    RunKeepsInv(start, events);
  }

  /** The refresh tokens of a family form one chain of parents, so a token is rotated at most once
      and at most one token of the family is still good. */
  lemma FamilyIsOneChain(s: State, family: Id)
    requires Reachable(s)
    ensures HasChain(s.db.tokens, family)
    ensures forall a, b | Refreshes(s.db.tokens, a, family) && Refreshes(s.db.tokens, b, family) ::
      (s.db.tokens[a].parentId == s.db.tokens[b].parentId ==> a == b)
      && (s.db.tokens[a].revokedAt.None? && s.db.tokens[b].revokedAt.None? ==> a == b)
      && (s.db.tokens[a].usedAt.None? && s.db.tokens[b].usedAt.None? ==> a == b)
  {
    ReachableKept(s);
    assert HasChain(s.db.tokens, family);
    var chain :| IsChain(s.db.tokens, family, chain);
    forall a, b | Refreshes(s.db.tokens, a, family) && Refreshes(s.db.tokens, b, family) && a != b
      ensures s.db.tokens[a].parentId != s.db.tokens[b].parentId
      ensures s.db.tokens[a].revokedAt.Some? || s.db.tokens[b].revokedAt.Some?
      ensures s.db.tokens[a].usedAt.Some? || s.db.tokens[b].usedAt.Some?
    {
      TwoOfAChain(s.db.tokens, family, chain, a, b);
    }
  }

  lemma TwoOfAChain(tokens: Tokens, family: Id, chain: seq<Id>, a: Id, b: Id)
    requires IsChain(tokens, family, chain) && Refreshes(tokens, a, family) && Refreshes(tokens, b, family) && a != b
    ensures tokens[a].parentId != tokens[b].parentId
    ensures tokens[a].revokedAt.Some? || tokens[b].revokedAt.Some?
    ensures tokens[a].usedAt.Some? || tokens[b].usedAt.Some?
  {
    assert a in chain && b in chain;
    var i :| 0 <= i < |chain| && chain[i] == a;
    var j :| 0 <= j < |chain| && chain[j] == b;
    assert Linked(tokens, chain, i) && Linked(tokens, chain, j);
    if i > 0 && j > 0 {
      var k, l := if i < j then i - 1 else j - 1, if i < j then j - 1 else i - 1;
      assert 0 <= k < l < |chain| && chain[k] != chain[l];
    }
  }

  ghost predicate Dead(tokens: Tokens, group: Group) {
    KnownIn(tokens, group) && forall id | id in tokens && InGroup(tokens[id], group) :: tokens[id].revokedAt.Some?
  }

  lemma DeadStays(s: State, e: Event, t: State, group: Group)
    requires Inv(s) && Step(s, e, t) && Dead(s.db.tokens, group)
    ensures Dead(t.db.tokens, group)
  {
    hide Inv, Next, Enabled, ChangeOf, HasChain;
    StepChanges(s, e, t);
    KnownKept(s.db.tokens, t.db.tokens, ChangeOf(s, e), group);
    var id :| id in s.db.tokens && InGroup(s.db.tokens[id], group);
  }

  lemma {:induction false} DeadForever(s: State, events: seq<Event>, group: Group)
    requires Inv(s) && IsRun(s, events) && Dead(s.db.tokens, group)
    ensures Dead(After(s, events).db.tokens, group)
    decreases |events|
  {
    if events != [] {
      hide Inv, Next, Dead;
      StepKeepsInv(s, events[0], Next(s, events[0]));
      DeadStays(s, events[0], Next(s, events[0]), group);
      DeadForever(Next(s, events[0]), events[1..], group);
    }
  }

  // ----- families are sessions

  /** Two tokens of sessions share a family exactly when they share a session. */
  ghost predicate Paired(tokens: Tokens) {
    forall a, b | a in tokens && b in tokens && !tokens[a].kind.Execution? && !tokens[b].kind.Execution? ::
      tokens[a].familyId == tokens[b].familyId <==> tokens[a].sessionId == tokens[b].sessionId
  }

  lemma PairedKept(before: Tokens, after: Tokens, change: Change)
    requires Changes(before, after, change) && Paired(before)
    ensures Paired(after)
  {
  }

  lemma {:induction false} RunKeepsPaired(s: State, events: seq<Event>)
    requires Inv(s) && Paired(s.db.tokens) && IsRun(s, events)
    ensures Paired(After(s, events).db.tokens)
    decreases |events|
  {
    if events != [] {
      hide Inv, Next, Paired, Changes, Enabled, ChangeOf;
      var t := Next(s, events[0]);
      StepKeepsInv(s, events[0], t);
      StepChanges(s, events[0], t);
      PairedKept(s.db.tokens, t.db.tokens, ChangeOf(s, events[0]));
      RunKeepsPaired(t, events[1..]);
    }
  }

  /** In every reachable state a family and a session are one and the same set of tokens. */
  lemma FamilyIsSession(s: State)
    requires Reachable(s)
    ensures Inv(s) && Paired(s.db.tokens)
  {
    var start, events :| Fresh(start) && IsRun(start, events) && After(start, events) == s;
    ReachableKept(s);
    assert Reachable(start) by { assert IsRun(start, []) && After(start, []) == start; }
    ReachableKept(start);
    hide Inv;
    RunKeepsPaired(start, events);
  }

  /** What is dead as a family is dead as a session, and the other way round. */
  lemma DeadBothWays(s: State, group: Group, id: Id)
    requires Inv(s) && Paired(s.db.tokens) && Dead(s.db.tokens, group) && id in s.db.tokens && InGroup(s.db.tokens[id], group)
    ensures var row := s.db.tokens[id];
            && row.familyId.Some? && Dead(s.db.tokens, Family(row.familyId.value))
            && row.sessionId.Some? && Dead(s.db.tokens, Session(row.sessionId.value))
  {
    hide HasChain, FlightKept, AdministratorKept;
    var tokens, row := s.db.tokens, s.db.tokens[id];
    assert RowsKept(s.db) && Whole(row);
    forall other | other in tokens && (tokens[other].familyId == row.familyId || tokens[other].sessionId == row.sessionId)
      ensures InGroup(tokens[other], group)
    {
      assert Whole(tokens[other]);
    }
  }

  /** What a committed reuse rejection, logout or session revocation takes down. */
  ghost function TakenDown(s: State, e: Event): Group
    requires Enabled(s, e) && (e.CommitRejection? || e.CommitLogout? || e.CommitRevoke?)
    requires OutcomeOf(s, e).Committed?
  {
    match e
    case CommitRejection(f, _, _) => Family(s.flights[f].familyId.value)
    case CommitLogout(f, _, _) => Family(s.flights[f].row.familyId.value)
    case CommitRevoke(f, _, _) => Session(s.flights[f].sessionId)
  }

  /** Once reuse rejection, logout or a session revocation has committed, no token of that family or
      session is ever good again, whatever rotations and logins were in flight; and with the family the
      session is dead, and with the session the family. */
  lemma RevocationIsFinal(s: State, e: Event, t: State, later: seq<Event>)
    requires Reachable(s) && Step(s, e, t) && (e.CommitRejection? || e.CommitLogout? || e.CommitRevoke?)
    requires OutcomeOf(s, e).Committed? && IsRun(t, later)
    ensures Dead(After(t, later).db.tokens, TakenDown(s, e))
    ensures var tokens := After(t, later).db.tokens;
            forall id | id in tokens && InGroup(tokens[id], TakenDown(s, e)) ::
              && tokens[id].familyId.Some? && Dead(tokens, Family(tokens[id].familyId.value))
              && tokens[id].sessionId.Some? && Dead(tokens, Session(tokens[id].sessionId.value))
  {
    hide Inv, Next, Enabled, Dead, InGroup, OutcomeOf, Paired, Changes, ChangeOf;
    FamilyIsSession(s);
    StepKeepsInv(s, e, t);
    StepChanges(s, e, t);
    PairedKept(s.db.tokens, t.db.tokens, ChangeOf(s, e));
    TakesDown(s, e, t);
    DeadForever(t, later, TakenDown(s, e));
    RunKeepsInv(t, later);
    RunKeepsPaired(t, later);
    var end := After(t, later);
    forall id | id in end.db.tokens && InGroup(end.db.tokens[id], TakenDown(s, e))
      ensures end.db.tokens[id].familyId.Some? && Dead(end.db.tokens, Family(end.db.tokens[id].familyId.value))
      ensures end.db.tokens[id].sessionId.Some? && Dead(end.db.tokens, Session(end.db.tokens[id].sessionId.value))
    {
      DeadBothWays(end, TakenDown(s, e), id);
    }
  }

  lemma TakesDown(s: State, e: Event, t: State)
    requires Inv(s) && Step(s, e, t) && (e.CommitRejection? || e.CommitLogout? || e.CommitRevoke?)
    requires OutcomeOf(s, e).Committed?
    ensures Dead(t.db.tokens, TakenDown(s, e))
  {
    hide Next, OutcomeOf, HasChain, Changes, Departs, Departing;
    var group, op := TakenDown(s, e), RevocationOf(s, e);
    assert FlightKept(s, s.flights[e.flight]);
    RevocationEffect(s, e, t);
    StepChanges(s, e, t);
    KnownKept(s.db.tokens, t.db.tokens, ChangeOf(s, e), group);
    forall id | id in t.db.tokens && InGroup(t.db.tokens[id], group) ensures t.db.tokens[id].revokedAt.Some? {
      assert InGroup(s.db.tokens[id], group);
    }
  }

  /** Every good session token belongs to the given session or to one opened by a transaction that was
      conditioned on a hash set no earlier than the given position. */
  ghost predicate OpenedSince(s: State, session: Id, since: nat)
    requires since <= |s.hashes|
  {
    forall id | id in s.db.tokens && !s.db.tokens[id].kind.Execution? && s.db.tokens[id].revokedAt.None? ::
      var of := s.db.tokens[id].sessionId;
      && of.Some?
      && (of == Some(session) || (of.value in s.openedWith && s.openedWith[of.value] in s.hashes[since..]))
  }

  lemma LaterHashes(before: seq<nat>, after: seq<nat>, since: nat)
    requires since < |before| && before <= after
    ensures forall h | h in before[since..] :: h in after[since..]
    ensures before[|before| - 1] in after[since..]
    ensures |after| > |before| ==> after[|after| - 1] in after[since..]
  {
    assert after[since..][|before| - 1 - since] == before[|before| - 1];
    assert after[since..][..|before| - since] == before[since..];
    if |after| > |before| { assert after[since..][|after| - 1 - since] == after[|after| - 1]; }
  }

  lemma OpenedSinceStays(s: State, e: Event, t: State, session: Id, since: nat)
    requires Inv(s) && Step(s, e, t) && since < |s.hashes| && OpenedSince(s, session, since)
    ensures since < |t.hashes| && OpenedSince(t, session, since)
  {
    hide Next, Enabled, OutcomeOf, HasChain, FlightKept;
    StepChanges(s, e, t);
    StepRecords(s, e, t);
    StepAdministrators(s, e, t);
    LaterHashes(s.hashes, t.hashes, since);
    forall id | id in t.db.tokens && !t.db.tokens[id].kind.Execution? && t.db.tokens[id].revokedAt.None?
      ensures var of := t.db.tokens[id].sessionId;
              of.Some? && (of == Some(session) || (of.value in t.openedWith && t.openedWith[of.value] in t.hashes[since..]))
    {
      if id in s.db.tokens { assert s.db.tokens[id].revokedAt.None?; }
    }
  }

  lemma {:induction false} OpenedSinceForever(s: State, events: seq<Event>, session: Id, since: nat)
    requires Inv(s) && IsRun(s, events) && since < |s.hashes| && OpenedSince(s, session, since)
    ensures since < |After(s, events).hashes| && OpenedSince(After(s, events), session, since)
    decreases |events|
  {
    if events != [] {
      hide Inv, Next, OpenedSince;
      StepKeepsInv(s, events[0], Next(s, events[0]));
      OpenedSinceStays(s, events[0], Next(s, events[0]), session, since);
      OpenedSinceForever(Next(s, events[0]), events[1..], session, since);
    }
  }

  /** After a password change has committed, every good session token is of the session that changed it
      or of a session opened with the new or a later password, even when logins with the old password
      and rotations were in flight. */
  lemma PasswordChangeEvicts(s: State, e: Event, t: State, later: seq<Event>)
    requires Reachable(s) && Step(s, e, t) && e.CommitChange? && OutcomeOf(s, e).Committed? && IsRun(t, later)
    ensures |s.hashes| < |After(t, later).hashes|
    ensures OpenedSince(After(t, later), s.flights[e.flight].sessionId, |s.hashes|)
  {
    ReachableKept(s);
    StepKeepsInv(s, e, t);
    PasswordChangeRevokes(s, e, t);
    OpenedSinceForever(t, later, s.flights[e.flight].sessionId, |s.hashes|);
  }

  lemma PasswordChangeRevokes(s: State, e: Event, t: State)
    requires Inv(s) && Step(s, e, t) && e.CommitChange? && OutcomeOf(s, e).Committed?
    ensures |s.hashes| < |t.hashes| && OpenedSince(t, s.flights[e.flight].sessionId, |s.hashes|)
  {
    hide Next, HasChain, OutcomeOf;
    RevocationEffect(s, e, t);
    StepRecords(s, e, t);
    StepAdministrators(s, e, t);
    assert FlightKept(s, s.flights[e.flight]);
    forall id | id in t.db.tokens && !t.db.tokens[id].kind.Execution? && t.db.tokens[id].revokedAt.None?
      ensures t.db.tokens[id].sessionId == Some(s.flights[e.flight].sessionId)
    {
      assert s.db.tokens[id].administratorId == Some(s.flights[e.flight].administratorId);
    }
  }

  lemma {:induction false} ClockAdvances(s: State, events: seq<Event>)
    requires IsRun(s, events)
    ensures s.now <= After(s, events).now
    decreases |events|
  {
    if events != [] {
      hide Next;
      StepCommits(s, events[0], Next(s, events[0]));
      ClockAdvances(Next(s, events[0]), events[1..]);
    }
  }

  lemma LockStays(s: State, e: Event, t: State, id: Id, until: Time)
    requires Inv(s) && Step(s, e, t) && id in s.db.administrators && s.db.administrators[id].lockedUntil == Some(until)
    requires t.now < until
    ensures id in t.db.administrators && t.db.administrators[id].lockedUntil == Some(until)
    ensures t.openedWith == s.openedWith
  {
    hide Next, HasChain, OutcomeOf;
    StepAdministrators(s, e, t);
    StepRecords(s, e, t);
    StepCommits(s, e, t);
    if e.CommitLogin? || e.CommitFailure? || e.CommitChange? { assert FlightKept(s, s.flights[e.flight]); }
  }

  lemma {:induction false} LockHolds(s: State, events: seq<Event>, id: Id, until: Time)
    requires Inv(s) && IsRun(s, events) && id in s.db.administrators && s.db.administrators[id].lockedUntil == Some(until)
    requires After(s, events).now < until
    ensures var end := After(s, events);
            && id in end.db.administrators && end.db.administrators[id].lockedUntil == Some(until)
            && end.openedWith == s.openedWith
    decreases |events|
  {
    if events != [] {
      hide Inv, Next;
      ClockAdvances(Next(s, events[0]), events[1..]);
      StepKeepsInv(s, events[0], Next(s, events[0]));
      LockStays(s, events[0], Next(s, events[0]), id, until);
      LockHolds(Next(s, events[0]), events[1..], id, until);
    }
  }

  /** A lock, once set, keeps its expiry and no login commits until the clock has reached it; logins that
      had read the administrator before the lock are no exception. */
  lemma NoLoginWhileLocked(s: State, events: seq<Event>, id: Id, until: Time)
    requires Reachable(s) && IsRun(s, events)
    requires id in s.db.administrators && s.db.administrators[id].lockedUntil == Some(until)
    requires After(s, events).now < until
    ensures var end := After(s, events);
            && id in end.db.administrators && end.db.administrators[id].lockedUntil == Some(until)
            && end.openedWith == s.openedWith
            && forall e | Enabled(end, e) && e.CommitLogin? :: !OutcomeOf(end, e).Committed?
  {
    hide Next, OutcomeOf;
    ReachableKept(s);
    LockHolds(s, events, id, until);
    RunKeepsInv(s, events);
    var end := After(s, events);
    forall e | Enabled(end, e) && e.CommitLogin? ensures !OutcomeOf(end, e).Committed? {
      StepAdministrators(end, e, Next(end, e));
      assert FlightKept(end, end.flights[e.flight]);
    }
  }

  /** An instance is bootstrapped once: with an administrator present the table keeps its one row and a
      bootstrap in flight commits nothing. */
  lemma BootstrappedOnce(s: State, events: seq<Event>)
    requires Reachable(s) && IsRun(s, events) && s.db.administrators != map[]
    ensures After(s, events).db.administrators.Keys == s.db.administrators.Keys && |s.db.administrators| == 1
    ensures forall e | Enabled(After(s, events), e) && e.CommitBootstrap? :: !OutcomeOf(After(s, events), e).Committed?
  {
    hide Next, OutcomeOf, IsRun;
    ReachableKept(s);
    AdministratorsStay(s, events);
    RunKeepsInv(s, events);
    var end := After(s, events);
    var id :| id in s.db.administrators;
    assert s.db.administrators.Keys == {id};
    assert |s.db.administrators| == |s.db.administrators.Keys|;
    forall e | Enabled(end, e) && e.CommitBootstrap? ensures !OutcomeOf(end, e).Committed? {
      StepAdministrators(end, e, Next(end, e));
      assert id in end.db.administrators.Keys;
    }
  }

  lemma {:induction false} AdministratorsStay(s: State, events: seq<Event>)
    requires Inv(s) && IsRun(s, events) && s.db.administrators != map[]
    ensures After(s, events).db.administrators.Keys == s.db.administrators.Keys
    decreases |events|
  {
    if events != [] {
      hide Inv, Next;
      StepKeepsInv(s, events[0], Next(s, events[0]));
      AdministratorStays(s, events[0], Next(s, events[0]));
      var id :| id in s.db.administrators;
      assert id in Next(s, events[0]).db.administrators.Keys;
      AdministratorsStay(Next(s, events[0]), events[1..]);
    }
  }
}
