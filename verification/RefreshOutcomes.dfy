/** What a refresh leaves behind: which token the browser holds afterwards, and what the caller gets. */
module RefreshOutcomes {
  import opened ProfileStorage
  import opened RefreshProtocol
  import opened RefreshExpiry

  /** What a tab reads for a profile. */
  function Holding(s: State, tab: TabId, profile: Profile): Located { Read(ViewOf(s, tab), profile, s.now) }

  /** After the storing step of the task that called, its tab holds the new token, in the area the old one was
      in, until it expires; in the shared area every tab without a token of its own holds it. */
  lemma NewTokenIsStored(s: State, id: TaskId, tab: TabId)
    requires Enabled(s, Store(id, false))
    ensures var task, t := s.tasks[id], Next(s, Store(id, false));
            var pair, profile := task.stage.pair, task.scope.profile;
            && t.tasks[id].stage == Confirming(pair)
            && (pair.refresh.expiresAt > s.now ==> Holding(t, task.tab, profile) == Located(pair.refresh, task.persistent))
            && (pair.refresh.expiresAt > s.now && task.persistent && !Holds(Area(s.sessions, tab), profile, s.now) ==>
                  Holding(t, tab, profile) == Located(pair.refresh, true))
  {
  }

  /** A write that leaves alone what it holds for other profiles is not seen by their reads, in any tab. */
  lemma OneProfileWritten(s: State, tab: TabId, view: View, written: Profile, other: TabId, profile: Profile)
    requires view.session - {written} == Area(s.sessions, tab) - {written} && view.local - {written} == s.local - {written}
    requires profile != written
    ensures Holding(WithView(s, tab, view), other, profile) == Holding(s, other, profile)
  {
    var before, after := ViewOf(s, other), ViewOf(WithView(s, tab, view), other);
    SameAway(before.local, after.local, written, profile, s.now);
    if other == tab { SameAway(before.session, after.session, written, profile, s.now); }
  }

  lemma SameAway(before: map<Profile, Slot>, after: map<Profile, Slot>, written: Profile, profile: Profile, now: int)
    requires before - {written} == after - {written} && profile != written
    ensures Holds(before, profile, now) <==> Holds(after, profile, now)
    ensures Holds(before, profile, now) ==> before[profile] == after[profile]
  {
    assert profile in before <==> profile in before - {written};
    assert profile in after <==> profile in after - {written};
  }

  /** Storing a pair, logging in or out, or ending in an error touches one profile. */
  lemma OtherProfilesStand(s: State, id: TaskId, pair: Pair, refused: bool, other: TabId, profile: Profile)
    requires id in s.tasks && s.tasks[id].scope.profile != profile
    ensures Holding(StorePair(s, id, pair, refused), other, profile) == Holding(s, other, profile)
    ensures Holding(Throw(s, id), other, profile) == Holding(s, other, profile)
  {
    var task, view := s.tasks[id], ViewOf(s, s.tasks[id].tab);
    var stored := Stored(view, task.scope.profile, pair.refresh, task.persistent, refused);
    OneProfileWritten(s, task.tab, stored, task.scope.profile, other, profile);
    OneProfileWritten(s, task.tab, Cleared(view, task.scope.profile), task.scope.profile, other, profile);
  }

  /** A task that joins returns the pair it has heard of and stores its token. */
  lemma JoinReturns(s: State, id: TaskId)
    requires Enabled(s, Join(id, false)) && s.tasks[id].observed.Heard? && s.tasks[id].observed.message.Success?
    ensures var task, t := s.tasks[id], Next(s, Join(id, false));
            var pair := task.observed.message.pair;
            && id in t.tasks && t.tasks[id].stage == Returned(pair)
            && t.results == s.results + [Result(task.scope, pair, s.now)] && t.calls == s.calls
            && (pair.refresh.expiresAt > s.now ==>
                  Holding(t, task.tab, task.scope.profile) == Located(pair.refresh, task.persistent))
  {
  }

  /** Without a success to join, or when the token cannot be stored, a task that joins ends in an error. */
  lemma JoinFails(s: State, id: TaskId, refused: bool)
    requires Enabled(s, Join(id, refused))
    requires refused || !s.tasks[id].observed.Heard? || !s.tasks[id].observed.message.Success?
    ensures var t := Next(s, Join(id, refused));
            id in t.tasks && t.tasks[id].stage == Thrown && t.results == s.results && t.calls == s.calls
  {
    hide Stored, Cleared, ViewOf;
  }

  /** A task that ends in an error leaves its tab without a token, so that a login is required. */
  lemma ThrownHoldsNothing(s: State, e: Event, t: State, id: TaskId)
    requires Step(s, e, t) && id in s.tasks && id in t.tasks && t.tasks[id].stage.Thrown? && !s.tasks[id].stage.Thrown?
    ensures Holding(t, s.tasks[id].tab, s.tasks[id].scope.profile) == Nowhere
  {
    hide Next, Enabled, Holding;
    if Staged(e) {
      OneStageMoves(s, e, t);
      StageFollows(s, e, t);
      if e.id == id { ThrowClears(s, e, t); }
    } else {
      OthersChange(s, e, t);
    }
  }

  lemma ThrowClears(s: State, e: Event, t: State)
    requires Step(s, e, t) && Staged(e) && e.id in t.tasks && t.tasks[e.id].stage.Thrown?
    ensures e.id in s.tasks && Holding(t, s.tasks[e.id].tab, s.tasks[e.id].scope.profile) == Nowhere
  {
    StageFollows(s, e, t);
    hide Throw, StorePair, Holding, HandOver;
    var scope := s.tasks[e.id].scope;
    match e
    case Abandon(id) => ThrownReads(s, id);
    case Mark(id, _) => ThrownReads(s, id);
    case Fail(id, refused, posted) =>
      var failed := Post(WriteMarker(s, scope, ProfileStorage.Failed), Failure(scope), posted && s.tasks[id].listening);
      ThrownReads(if refused then s else failed, id);
    case Join(id, refused) =>
      var task := s.tasks[id];
      if task.observed.Heard? && task.observed.message.Success? {
        FailedStore(s, id, task.observed.message.pair);
        HandedOver(s, id, task.observed.message.pair);
        ThrownReads(StorePair(s, id, task.observed.message.pair, true), id);
      } else {
        ThrownReads(s, id);
      }
    case _ =>
  }

  lemma ThrownReads(s: State, id: TaskId)
    requires id in s.tasks
    ensures Holding(Throw(s, id), s.tasks[id].tab, s.tasks[id].scope.profile) == Nowhere
  {
  }

  lemma FailedStore(s: State, id: TaskId, pair: Pair)
    requires id in s.tasks
    ensures StorePair(s, id, pair, true).tasks == s.tasks && StorePair(s, id, pair, false).tasks == s.tasks
  {
  }

  lemma HandedOver(s: State, id: TaskId, pair: Pair)
    requires id in s.tasks
    ensures var t := HandOver(StorePair(s, id, pair, false), id, pair); id in t.tasks && t.tasks[id].stage == Returned(pair)
  {
  }

  /** While the server is asked, the tab does not hold the token that is being spent. */
  lemma SpentIsCleared(s: State, id: TaskId)
    requires Enabled(s, Clear(id))
    ensures var t := Next(s, Clear(id));
            t.tasks[id].stage == Calling && Holding(t, s.tasks[id].tab, s.tasks[id].scope.profile) == Nowhere
  {
  }

  /** The steps after a granted answer. */
  function GrantedEvents(id: TaskId, pair: Pair): seq<Event> {
    [Respond(id, Granted(pair)), Store(id, false), Confirm(id, false)]
  }

  /** A task alone with its scope, granted a pair, returns that pair: the server was asked once, the tab holds
      the new token, and the others are told. */
  lemma RefreshSucceeds(s: State, id: TaskId, pair: Pair)
    requires At(s, id, Queued) && LockFree(s, s.tasks[id].scope) && pair.refresh.expiresAt > s.now
    requires s.tasks[id].scope in s.markers ==> MarkerExpired(s.markers[s.tasks[id].scope], s.now)
    ensures var events := CallEvents(id) + GrantedEvents(id, pair) + [Publish(id, true)];
            && IsRun(s, events)
            && var t, task := After(s, events), s.tasks[id];
               && OnlyStage(s, t, id, Returned(pair))
               && t.results == s.results + [Result(task.scope, pair, s.now)]
               && t.calls == s.calls + [Call(task.scope, s.now, Granted(pair))]
               && t.posted == s.posted + (if task.listening then [Success(task.scope, pair)] else [])
               && Holding(t, task.tab, task.scope.profile) == Located(pair.refresh, task.persistent)
               && t.markers == s.markers[task.scope := Marker(task.scope.token.expiresAt, Succeeded)]
  {
    hide Next, Enabled, IsRun, After, OnlyStage, Holding, CallEvents, GrantedEvents;
    TaskCalls(s, id);
    CallsAlone(s, id);
    var called := After(s, CallEvents(id));
    StageReached(s, s, called, id, Queued, Awaiting(|s.calls|));
    PairIsKept(called, id, pair);
    var confirmed := After(called, GrantedEvents(id, pair));
    StageReached(s, called, confirmed, id, Awaiting(|s.calls|), Publishing(pair));
    Published(confirmed, id);
    var t := Next(confirmed, Publish(id, true));
    StageReached(s, confirmed, t, id, Publishing(pair), Returned(pair));
    LastStep(confirmed, Publish(id, true));
    RunJoins(s, CallEvents(id), GrantedEvents(id, pair));
    RunJoins(s, CallEvents(id) + GrantedEvents(id, pair), [Publish(id, true)]);
    SameTask(s, called, id);
    SameTask(s, confirmed, id);
  }

  lemma SameTask(s: State, t: State, id: TaskId)
    requires exists stage :: OnlyStage(s, t, id, stage)
    ensures id in t.tasks && t.tasks[id] == s.tasks[id].(stage := t.tasks[id].stage)
  {
  }

  /** Up to the call nothing is posted or handed over. */
  lemma CallsAlone(s: State, id: TaskId)
    requires IsRun(s, CallEvents(id))
    ensures After(s, CallEvents(id)).posted == s.posted && After(s, CallEvents(id)).results == s.results
  {
    hide Next, Enabled;
    RunStandsStill(s, CallEvents(id));
  }

  lemma {:induction false} RunStandsStill(s: State, events: seq<Event>)
    requires IsRun(s, events)
    requires forall i | 0 <= i < |events| :: !events[i].Publish? && !events[i].Fail? && !events[i].Join?
    ensures After(s, events).posted == s.posted && After(s, events).results == s.results
    decreases |events|
  {
    if events != [] {
      hide Next, Enabled;
      PostedFrame(s, events[0], Next(s, events[0]));
      ResultsFrame(s, events[0], Next(s, events[0]));
      RunStandsStill(Next(s, events[0]), events[1..]);
    }
  }

  lemma PairIsKept(s: State, id: TaskId, pair: Pair)
    requires id in s.tasks && s.tasks[id].stage.Awaiting? && s.tasks[id].stage.call < |s.calls| && pair.refresh.expiresAt > s.now
    ensures IsRun(s, GrantedEvents(id, pair))
    ensures var t, task := After(s, GrantedEvents(id, pair)), s.tasks[id];
            && OnlyStage(s, t, id, Publishing(pair)) && t.posted == s.posted && t.results == s.results
            && t.calls == s.calls[task.stage.call := s.calls[task.stage.call].(answer := Granted(pair))]
            && t.markers == s.markers[task.scope := Marker(task.scope.token.expiresAt, Succeeded)]
            && Holding(t, task.tab, task.scope.profile) == Located(pair.refresh, task.persistent)
  {
    hide Next, Enabled, IsRun, After, OnlyStage, Holding;
    AnswerGranted(s, id, pair);
    var granted := Next(s, Respond(id, Granted(pair)));
    StageReached(s, s, granted, id, s.tasks[id].stage, Storing(pair));
    SameTask(s, granted, id);
    PairStored(granted, id);
    var stored := Next(granted, Store(id, false));
    NewTokenIsStored(granted, id, granted.tasks[id].tab);
    StageReached(s, granted, stored, id, Storing(pair), Confirming(pair));
    SameTask(s, stored, id);
    Confirmed(stored, id, s.tasks[id].tab, s.tasks[id].scope.profile);
    var confirmed := Next(stored, Confirm(id, false));
    StageReached(s, stored, confirmed, id, Confirming(pair), Publishing(pair));
    ThreeSteps(s, Respond(id, Granted(pair)), granted, Store(id, false), stored, Confirm(id, false));
  }

  lemma AnswerGranted(s: State, id: TaskId, pair: Pair)
    requires id in s.tasks && s.tasks[id].stage.Awaiting? && s.tasks[id].stage.call < |s.calls|
    ensures Enabled(s, Respond(id, Granted(pair))) && OnlyStage(s, Next(s, Respond(id, Granted(pair))), id, Storing(pair))
    ensures var t, call := Next(s, Respond(id, Granted(pair))), s.tasks[id].stage.call;
            t.calls == s.calls[call := s.calls[call].(answer := Granted(pair))] && t.markers == s.markers
            && t.posted == s.posted && t.results == s.results
  {
  }

  lemma PairStored(s: State, id: TaskId)
    requires id in s.tasks && s.tasks[id].stage.Storing?
    ensures Enabled(s, Store(id, false)) && OnlyStage(s, Next(s, Store(id, false)), id, Confirming(s.tasks[id].stage.pair))
    ensures var t := Next(s, Store(id, false));
            t.calls == s.calls && t.markers == s.markers && t.posted == s.posted && t.results == s.results
  {
  }

  lemma Confirmed(s: State, id: TaskId, tab: TabId, profile: Profile)
    requires id in s.tasks && s.tasks[id].stage.Confirming?
    ensures Enabled(s, Confirm(id, false))
    ensures var t, scope := Next(s, Confirm(id, false)), s.tasks[id].scope;
            && OnlyStage(s, t, id, Publishing(s.tasks[id].stage.pair))
            && t.calls == s.calls && t.posted == s.posted && t.results == s.results
            && t.markers == s.markers[scope := Marker(scope.token.expiresAt, Succeeded)]
            && Holding(t, tab, profile) == Holding(s, tab, profile)
  {
  }

  lemma Published(s: State, id: TaskId)
    requires id in s.tasks && s.tasks[id].stage.Publishing?
    ensures Enabled(s, Publish(id, true))
    ensures var t, task := Next(s, Publish(id, true)), s.tasks[id];
            && OnlyStage(s, t, id, Returned(task.stage.pair)) && t.calls == s.calls && t.markers == s.markers
            && t.results == s.results + [Result(task.scope, task.stage.pair, s.now)]
            && t.posted == s.posted + (if task.listening then [Success(task.scope, task.stage.pair)] else [])
            && Holding(t, task.tab, task.scope.profile) == Holding(s, task.tab, task.scope.profile)
  {
  }

  /** A task that finds the scope consumed and has heard of the success joins it: without asking the server
      it returns the same pair, and its tab holds the new token. */
  lemma OtherTabJoins(s: State, id: TaskId, index: nat)
    requires At(s, id, Queued) && s.tasks[id].listening && LockFree(s, s.tasks[id].scope)
    requires s.tasks[id].scope in s.markers && !MarkerExpired(s.markers[s.tasks[id].scope], s.now)
    requires index < |s.posted| && s.posted[index].Success? && s.posted[index].scope == s.tasks[id].scope
    requires s.posted[index].pair.refresh.expiresAt > s.now
    ensures var events := [Deliver(id, index), Grant(id), Check(id, true, true), Join(id, false)];
            && IsRun(s, events)
            && var t, task, pair := After(s, events), s.tasks[id], s.posted[index].pair;
               && id in t.tasks && t.tasks[id].stage == Returned(pair)
               && t.results == s.results + [Result(task.scope, pair, s.now)]
               && t.calls == s.calls && Holding(t, task.tab, task.scope.profile) == Located(pair.refresh, task.persistent)
  {
    hide Next, IsRun, After, Holding, Enabled;
    var checked := ReadyToJoin(s, id, index);
    JoinStarts(checked, id);
    JoinReturns(checked, id);
    LastStep(checked, Join(id, false));
    var first := [Deliver(id, index), Grant(id), Check(id, true, true)];
    RunJoins(s, first, [Join(id, false)]);
    assert first + [Join(id, false)] == [Deliver(id, index), Grant(id), Check(id, true, true), Join(id, false)];
  }

  lemma ReadyToJoin(s: State, id: TaskId, index: nat) returns (checked: State)
    requires At(s, id, Queued) && s.tasks[id].listening && LockFree(s, s.tasks[id].scope)
    requires s.tasks[id].scope in s.markers && !MarkerExpired(s.markers[s.tasks[id].scope], s.now)
    requires index < |s.posted| && s.posted[index].scope == s.tasks[id].scope
    ensures var events := [Deliver(id, index), Grant(id), Check(id, true, true)];
            IsRun(s, events) && checked == After(s, events)
    ensures checked == s.(tasks := s.tasks[id := s.tasks[id].(observed := Heard(s.posted[index]), stage := Joining)])
  {
    hide Next, IsRun, After, Enabled;
    MessageHeard(s, id, index);
    var heard := Next(s, Deliver(id, index));
    OthersFree(s, heard, id);
    LockFound(heard, id);
    var granted := Next(heard, Grant(id));
    FoundConsumed(granted, id);
    checked := Next(granted, Check(id, true, true));
    ThreeSteps(s, Deliver(id, index), heard, Grant(id), granted, Check(id, true, true));
  }

  lemma OthersFree(s: State, t: State, id: TaskId)
    requires At(s, id, Queued) && LockFree(s, s.tasks[id].scope)
    requires exists observed :: t == s.(tasks := s.tasks[id := s.tasks[id].(observed := observed)])
    ensures At(t, id, Queued) && LockFree(t, t.tasks[id].scope)
  {
  }

  lemma MessageHeard(s: State, id: TaskId, index: nat)
    requires At(s, id, Queued) && s.tasks[id].listening && index < |s.posted| && s.posted[index].scope == s.tasks[id].scope
    ensures Enabled(s, Deliver(id, index))
    ensures Next(s, Deliver(id, index)) == s.(tasks := s.tasks[id := s.tasks[id].(observed := Heard(s.posted[index]))])
  {
  }

  lemma LockFound(s: State, id: TaskId)
    requires At(s, id, Queued) && LockFree(s, s.tasks[id].scope)
    ensures Enabled(s, Grant(id)) && Next(s, Grant(id)) == s.(tasks := s.tasks[id := s.tasks[id].(stage := Checking)])
  {
  }

  lemma FoundConsumed(s: State, id: TaskId)
    requires At(s, id, Checking) && s.tasks[id].scope in s.markers && !MarkerExpired(s.markers[s.tasks[id].scope], s.now)
    ensures Enabled(s, Check(id, true, true))
    ensures Next(s, Check(id, true, true)) == s.(tasks := s.tasks[id := s.tasks[id].(stage := Joining)])
  {
  }

  lemma JoinStarts(s: State, id: TaskId)
    requires At(s, id, Joining)
    ensures Enabled(s, Join(id, false))
  {
  }

  /** A task whose call failed marks the scope as failed and tells the others, if it can. */
  lemma FailureIsTold(s: State, id: TaskId, refused: bool, posted: bool)
    requires Enabled(s, Fail(id, refused, posted))
    ensures var t, task := Next(s, Fail(id, refused, posted)), s.tasks[id];
            && id in t.tasks && t.tasks[id].stage == Thrown && t.results == s.results
            && t.posted == s.posted + (if !refused && posted && task.listening then [Failure(task.scope)] else [])
            && t.markers == if refused then s.markers else s.markers[task.scope := Marker(task.scope.token.expiresAt, Failed)]
  {
    hide Cleared, ViewOf;
  }

  /** Closing a tab stops its tasks where they are and loses its own area; shared storage, the markers and every
      other tab go on as they were. A lock that only its tasks held is free again. */
  lemma TabCloses(s: State, tab: TabId, scope: Scope)
    ensures var t := Next(s, CloseTab(tab));
            && t.tasks.Keys == s.tasks.Keys
            && (forall id | id in s.tasks :: t.tasks[id] ==
                  if s.tasks[id].tab == tab && !s.tasks[id].stage.Returned? && !s.tasks[id].stage.Thrown? then
                    s.tasks[id].(stage := Crashed)
                  else s.tasks[id])
            && Area(t.sessions, tab) == map[] && (forall other | other != tab :: Area(t.sessions, other) == Area(s.sessions, other))
            && t == s.(tasks := t.tasks, sessions := t.sessions)
            && ((forall id | id in s.tasks && s.tasks[id].scope == scope && s.tasks[id].tab != tab :: !HoldsLock(s.tasks[id])) ==>
                  LockFree(t, scope))
  {
  }

  /** A task begins with the token its tab holds, and only when it holds one. */
  lemma BeginsWithItsToken(s: State, id: TaskId, tab: TabId, profile: Profile, listening: bool)
    requires id !in s.tasks
    ensures Enabled(s, Begin(id, tab, profile, listening)) <==> Holding(s, tab, profile).Located?
    ensures Enabled(s, Begin(id, tab, profile, listening)) ==>
      var found := Holding(s, tab, profile);
      Next(s, Begin(id, tab, profile, listening)).tasks
        == s.tasks[id := Task(tab, Scope(profile, found.token), found.persistent, listening, Queued, Nothing)]
  {
  }
}
