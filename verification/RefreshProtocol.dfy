/** Cross-tab refresh: every call of `refreshSession`, in any number of tabs, as a task that takes
    one storage operation or one await at a time. The lock, the marker, the lossy channel, refused
    writes and crashes are steps; any interleaving of them is a run. */
module RefreshProtocol {
  import opened ProfileStorage

  type TabId = nat
  type TaskId = nat

  datatype Pair = Pair(access: nat, refresh: RefreshToken)
  datatype Message = Success(scope: Scope, pair: Pair) | Failure(scope: Scope)

  /** Where a task stands. Everything from Checking to Handing runs inside the lock. */
  datatype Stage =
    | Queued
    | Checking
    | Marking
    | Clearing
    | Calling
    | Awaiting(call: nat)
    | Storing(pair: Pair)
    | Confirming(pair: Pair)
    | Publishing(pair: Pair)
    | Failing
    | Joining
    | Returned(pair: Pair)
    | Thrown
    | Crashed

  datatype Observed = Nothing | Heard(message: Message)

  datatype Task = Task(tab: TabId, scope: Scope, persistent: bool, listening: bool, stage: Stage, observed: Observed)

  /** One invocation of the `refresh` callback, and what the server answered. */
  datatype Call = Call(scope: Scope, time: int, answer: Answer)
  datatype Answer = Unanswered | Granted(pair: Pair) | Refused

  /** A pair handed to the caller of `refreshSession`. */
  datatype Result = Result(scope: Scope, pair: Pair, time: int)

  datatype State = State(
    now: int,
    sessions: map<TabId, map<Profile, Slot>>,
    local: map<Profile, Slot>,
    markers: map<Scope, Marker>,
    posted: seq<Message>,
    tasks: map<TaskId, Task>,
    calls: seq<Call>,
    results: seq<Result>)

  function Area(sessions: map<TabId, map<Profile, Slot>>, tab: TabId): map<Profile, Slot> {
    if tab in sessions then sessions[tab] else map[]
  }

  function ViewOf(s: State, tab: TabId): View {
    View(Area(s.sessions, tab), s.local)
  }

  function WithView(s: State, tab: TabId, view: View): State {
    s.(sessions := s.sessions[tab := view.session], local := view.local)
  }

  predicate Finished(task: Task) {
    task.stage.Returned? || task.stage.Thrown? || task.stage.Crashed?
  }

  predicate HoldsLock(task: Task) {
    !task.stage.Queued? && !Finished(task)
  }

  predicate LockFree(s: State, scope: Scope) {
    forall id :: id in s.tasks && s.tasks[id].scope == scope ==> !HoldsLock(s.tasks[id])
  }

  datatype Event =
    | Tick(elapsed: nat)
    | Login(tab: TabId, profile: Profile, token: RefreshToken, persistent: bool)
    | Logout(tab: TabId, profile: Profile)
    | Begin(id: TaskId, tab: TabId, profile: Profile, listening: bool)
    | Abandon(id: TaskId)
    | Grant(id: TaskId)
    | Check(id: TaskId, readable: bool, removable: bool)
    | Mark(id: TaskId, refused: bool)
    | Clear(id: TaskId)
    | Invoke(id: TaskId)
    | Respond(id: TaskId, answer: Answer)
    | Store(id: TaskId, refused: bool)
    | Confirm(id: TaskId, refused: bool)
    | Publish(id: TaskId, posted: bool)
    | Fail(id: TaskId, refused: bool, posted: bool)
    | Deliver(id: TaskId, index: nat)
    | Join(id: TaskId, refused: bool)
    | CloseTab(tab: TabId)

  predicate At(s: State, id: TaskId, stage: Stage) {
    id in s.tasks && s.tasks[id].stage == stage
  }

  predicate Enabled(s: State, e: Event) {
    match e
    case Tick(_) => true
    case Login(_, _, _, _) => true
    case Logout(_, _) => true
    case Begin(id, tab, profile, _) => id !in s.tasks && Read(ViewOf(s, tab), profile, s.now).Located?
    case Abandon(id) => At(s, id, Queued)
    case Grant(id) => At(s, id, Queued) && LockFree(s, s.tasks[id].scope)
    case Check(id, _, _) => At(s, id, Checking)
    case Mark(id, _) => At(s, id, Marking)
    case Clear(id) => At(s, id, Clearing)
    case Invoke(id) => At(s, id, Calling)
    case Respond(id, answer) => id in s.tasks && s.tasks[id].stage.Awaiting? && !answer.Unanswered?
                                && s.tasks[id].stage.call < |s.calls|
    case Store(id, _) => id in s.tasks && s.tasks[id].stage.Storing?
    case Confirm(id, _) => id in s.tasks && s.tasks[id].stage.Confirming?
    case Publish(id, _) => id in s.tasks && s.tasks[id].stage.Publishing?
    case Fail(id, _, _) => At(s, id, Failing)
    case Deliver(id, index) => id in s.tasks && s.tasks[id].listening && !Finished(s.tasks[id]) && index < |s.posted|
    case Join(id, _) => At(s, id, Joining)
    case CloseTab(_) => true
  }

  function Move(s: State, id: TaskId, stage: Stage): State
    requires id in s.tasks
  {
    s.(tasks := s.tasks[id := s.tasks[id].(stage := stage)])
  }

  /** The way out of an error: the tokens of the profile are cleared and a login is required. */
  function Throw(s: State, id: TaskId): State
    requires id in s.tasks
  {
    var task := s.tasks[id];
    Move(WithView(s, task.tab, Cleared(ViewOf(s, task.tab), task.scope.profile)), id, Thrown)
  }

  function HandOver(s: State, id: TaskId, pair: Pair): State
    requires id in s.tasks
  {
    Move(s, id, Returned(pair)).(results := s.results + [Result(s.tasks[id].scope, pair, s.now)])
  }

  function StorePair(s: State, id: TaskId, pair: Pair, refused: bool): State
    requires id in s.tasks
  {
    var task := s.tasks[id];
    WithView(s, task.tab, Stored(ViewOf(s, task.tab), task.scope.profile, pair.refresh, task.persistent, refused))
  }

  function Post(s: State, message: Message, posted: bool): State {
    if posted then s.(posted := s.posted + [message]) else s
  }

  function WriteMarker(s: State, scope: Scope, phase: Phase): State {
    s.(markers := s.markers[scope := Marker(scope.token.expiresAt, phase)])
  }

  /** A crash or a closed tab: its tasks stop where they are, their locks are released, and its
      session area is gone. */
  function Killed(s: State, tab: TabId): State {
    s.(sessions := s.sessions - {tab},
       tasks := map id | id in s.tasks ::
         if s.tasks[id].tab == tab && !Finished(s.tasks[id]) then s.tasks[id].(stage := Crashed) else s.tasks[id])
  }

  /** Only a message about the task's own scope is taken; a later one replaces an earlier one. */
  function Hear(task: Task, message: Message): Task {
    if message.scope == task.scope then task.(observed := Heard(message)) else task
  }

  function Next(s: State, e: Event): State
    requires Enabled(s, e)
  {
    match e
    case Tick(elapsed) => s.(now := s.now + elapsed)
    case Login(tab, profile, token, persistent) =>
      WithView(s, tab, Stored(ViewOf(s, tab), profile, token, persistent, false))
    case Logout(tab, profile) => WithView(s, tab, Cleared(ViewOf(s, tab), profile))
    case Begin(id, tab, profile, listening) =>
      var found := Read(ViewOf(s, tab), profile, s.now);
      s.(tasks := s.tasks[id := Task(tab, Scope(profile, found.token), found.persistent, listening, Queued, Nothing)])
    case Abandon(id) => Throw(s, id)
    case Grant(id) => Move(s, id, Checking)
    case Check(id, readable, removable) =>
      var scope := s.tasks[id].scope;
      if Consumed(s.markers, scope, s.now, readable, removable) then Move(s, id, Joining)
      else Move(s, id, Marking).(markers := s.markers - {scope})
    case Mark(id, refused) =>
      if refused then Throw(s, id)
      else Move(WriteMarker(s, s.tasks[id].scope, Pending), id, Clearing)
    case Clear(id) =>
      var task := s.tasks[id];
      Move(WithView(s, task.tab, Cleared(ViewOf(s, task.tab), task.scope.profile)), id, Calling)
    case Invoke(id) =>
      Move(s, id, Awaiting(|s.calls|)).(calls := s.calls + [Call(s.tasks[id].scope, s.now, Unanswered)])
    case Respond(id, answer) =>
      var call := s.tasks[id].stage.call;
      Move(s, id, if answer.Granted? then Storing(answer.pair) else Failing)
        .(calls := s.calls[call := s.calls[call].(answer := answer)])
    case Store(id, refused) =>
      var pair := s.tasks[id].stage.pair;
      Move(StorePair(s, id, pair, refused), id, if refused then Failing else Confirming(pair))
    case Confirm(id, refused) =>
      if refused then Move(s, id, Failing)
      else Move(WriteMarker(s, s.tasks[id].scope, Succeeded), id, Publishing(s.tasks[id].stage.pair))
    case Publish(id, posted) =>
      var pair := s.tasks[id].stage.pair;
      HandOver(Post(s, Success(s.tasks[id].scope, pair), posted && s.tasks[id].listening), id, pair)
    case Fail(id, refused, posted) =>
      var scope := s.tasks[id].scope;
      if refused then Throw(s, id)
      else Throw(Post(WriteMarker(s, scope, Failed), Failure(scope), posted && s.tasks[id].listening), id)
    case Deliver(id, index) => s.(tasks := s.tasks[id := Hear(s.tasks[id], s.posted[index])])
    case Join(id, refused) =>
      var task := s.tasks[id];
      if task.observed.Heard? && task.observed.message.Success? then
        var pair := task.observed.message.pair;
        if refused then Throw(StorePair(s, id, pair, true), id) else HandOver(StorePair(s, id, pair, false), id, pair)
      else Throw(s, id)
    case CloseTab(tab) => Killed(s, tab)
  }

  predicate Step(s: State, e: Event, t: State) {
    Enabled(s, e) && t == Next(s, e)
  }

  ghost predicate Starts(s: State) {
    s.tasks == map[] && s.calls == [] && s.results == [] && s.posted == [] && MarkersAgree(s)
  }

  ghost predicate IsRun(s: State, events: seq<Event>)
    decreases |events|
  {
    events == [] || (Enabled(s, events[0]) && IsRun(Next(s, events[0]), events[1..]))
  }

  ghost function After(s: State, events: seq<Event>): State
    requires IsRun(s, events)
    decreases |events|
  {
    if events == [] then s else After(Next(s, events[0]), events[1..])
  }

  // ----- what every step keeps

  /** Web Locks: one task a scope is inside the lock. */
  ghost predicate Exclusive(s: State) {
    forall a, b | a in s.tasks && b in s.tasks && s.tasks[a].scope == s.tasks[b].scope ::
      HoldsLock(s.tasks[a]) && HoldsLock(s.tasks[b]) ==> a == b
  }

  ghost predicate MarkersAgree(s: State) {
    forall scope | scope in s.markers :: s.markers[scope].Marker? ==> s.markers[scope].expiresAt == scope.token.expiresAt
  }

  /** A marker, readable or damaged, stands in the way of another call until the token expires. */
  predicate Barred(s: State, scope: Scope) {
    s.now >= scope.token.expiresAt || scope in s.markers
  }

  /** A call made while its token was unexpired. */
  predicate Early(call: Call) {
    call.time < call.scope.token.expiresAt
  }

  predicate CalledEarly(s: State, scope: Scope) {
    exists i :: 0 <= i < |s.calls| && s.calls[i].scope == scope && Early(s.calls[i])
  }

  ghost predicate CallsBar(s: State) {
    forall i | 0 <= i < |s.calls| :: s.calls[i].time <= s.now && Barred(s, s.calls[i].scope)
  }

  predicate ToCall(s: State, scope: Scope) {
    s.now >= scope.token.expiresAt || !CalledEarly(s, scope)
  }

  /** Between the check and the call: nobody has called in time, and from the marker on the scope is barred. */
  predicate TaskReady(s: State, task: Task) {
    && (task.stage.Marking? || task.stage.Clearing? || task.stage.Calling? ==> ToCall(s, task.scope))
    && (task.stage.Clearing? || task.stage.Calling? ==> Barred(s, task.scope))
  }

  ghost predicate TasksReady(s: State) {
    forall id | id in s.tasks :: TaskReady(s, s.tasks[id])
  }

  /** For each scope at most one call is made while its token is unexpired. */
  ghost predicate AtMostOneEarlyCall(s: State) {
    forall i, j | 0 <= i < |s.calls| && 0 <= j < |s.calls| && s.calls[i].scope == s.calls[j].scope ::
      Early(s.calls[i]) && Early(s.calls[j]) ==> i == j
  }

  ghost predicate CallInv(s: State) {
    Exclusive(s) && MarkersAgree(s) && CallsBar(s) && TasksReady(s) && AtMostOneEarlyCall(s)
  }

  /** The task a step is taken by. */
  predicate By(e: Event, id: TaskId) {
    !Ambient(e) && e.id == id
  }

  /** Time, the session beside the tasks, and the closing of tabs. */
  predicate Ambient(e: Event) {
    e.Tick? || e.Login? || e.Logout? || e.CloseTab?
  }

  /** A step that its task takes from one stage to another. */
  predicate Staged(e: Event) {
    !Ambient(e) && !e.Begin? && !e.Deliver?
  }

  /** Such a step changes nothing but that stage among the tasks. */
  ghost predicate OneStage(s: State, e: Event, t: State)
    requires !Ambient(e)
  {
    e.id in s.tasks && e.id in t.tasks && t.tasks == s.tasks[e.id := s.tasks[e.id].(stage := t.tasks[e.id].stage)]
  }

  /** A step up to the call of the callback. */
  predicate UpToCall(e: Event) {
    e.Abandon? || e.Grant? || e.Check? || e.Mark? || e.Clear? || e.Invoke?
  }

  lemma OneStageMoves(s: State, e: Event, t: State)
    requires Step(s, e, t) && Staged(e)
    ensures OneStage(s, e, t)
  {
    hide Next, Enabled, OneStage;
    if UpToCall(e) { MovesUpToCall(s, e, t); } else { MovesAfterCall(s, e, t); }
  }

  lemma MovesUpToCall(s: State, e: Event, t: State)
    requires Step(s, e, t) && UpToCall(e)
    ensures OneStage(s, e, t)
  {
    hide Stored, Cleared, ViewOf, Read, Consumed;
  }

  lemma MovesAfterCall(s: State, e: Event, t: State)
    requires Step(s, e, t) && Staged(e) && !UpToCall(e)
    ensures OneStage(s, e, t)
  {
    hide Stored, Cleared, ViewOf, Read, Consumed;
  }

  lemma OthersChange(s: State, e: Event, t: State)
    requires Step(s, e, t) && !Staged(e)
    ensures e.Tick? || e.Login? || e.Logout? ==> t.tasks == s.tasks
    ensures e.CloseTab? ==> t.tasks == Killed(s, e.tab).tasks
    ensures e.Begin? ==>
      && e.id !in s.tasks && e.id in t.tasks && t.tasks == s.tasks[e.id := t.tasks[e.id]]
      && t.tasks[e.id].stage == Queued && t.tasks[e.id].observed == Nothing
    ensures e.Deliver? ==>
      e.id in s.tasks && e.index < |s.posted| && t.tasks == s.tasks[e.id := Hear(s.tasks[e.id], s.posted[e.index])]
  {
    hide Stored, Cleared, ViewOf, Read, Consumed;
  }

  /** A task stands still while others move, unless its tab is closed. */
  lemma StandsStill(s: State, e: Event, t: State, id: TaskId)
    requires Step(s, e, t) && id in s.tasks && !By(e, id)
    ensures id in t.tasks && t.tasks[id].scope == s.tasks[id].scope && t.tasks[id].observed == s.tasks[id].observed
    ensures t.tasks[id].stage == s.tasks[id].stage || t.tasks[id].stage == Crashed
  {
    hide Next, Enabled;
    if Staged(e) { OneStageMoves(s, e, t); } else { OthersChange(s, e, t); }
  }

  /** A task keeps its scope. */
  lemma Moves(s: State, e: Event, t: State, id: TaskId)
    requires Step(s, e, t) && id in s.tasks && By(e, id)
    ensures id in t.tasks && t.tasks[id].scope == s.tasks[id].scope
    ensures if e.Deliver? then e.index < |s.posted| && t.tasks[id] == Hear(s.tasks[id], s.posted[e.index])
            else t.tasks[id].observed == s.tasks[id].observed
  {
    hide Next, Enabled;
    if Staged(e) { OneStageMoves(s, e, t); } else { OthersChange(s, e, t); }
  }

  lemma Arrives(s: State, e: Event, t: State, id: TaskId)
    requires Step(s, e, t) && id in t.tasks && id !in s.tasks
    ensures t.tasks[id].stage == Queued && t.tasks[id].observed == Nothing
  {
    hide Next, Enabled;
    if Staged(e) { OneStageMoves(s, e, t); } else { OthersChange(s, e, t); }
  }

  /** A task enters the lock only by a grant. */
  lemma LockFrame(s: State, e: Event, t: State, id: TaskId)
    requires Step(s, e, t) && id in t.tasks && HoldsLock(t.tasks[id])
    ensures id in s.tasks && t.tasks[id].scope == s.tasks[id].scope && (HoldsLock(s.tasks[id]) || e == Grant(id))
  {
    hide Next, Enabled;
    if id !in s.tasks {
      Arrives(s, e, t, id);
    } else if !By(e, id) {
      StandsStill(s, e, t, id);
    } else {
      Moves(s, e, t, id);
      if Staged(e) { StageFollows(s, e, t); } else { OthersChange(s, e, t); }
    }
  }

  /** Which stages a task's own step joins. */
  lemma StageFollows(s: State, e: Event, t: State)
    requires Step(s, e, t) && Staged(e)
    ensures e.id in s.tasks && e.id in t.tasks
    ensures
      var before, after := s.tasks[e.id].stage, t.tasks[e.id].stage;
      match e
      case Grant(_) => before == Queued && after == Checking
      case Abandon(_) => before == Queued && after == Thrown
      case Check(_, _, _) => before == Checking && (after == Joining || after == Marking)
      case Mark(_, refused) => before == Marking && after == (if refused then Thrown else Clearing)
      case Clear(_) => before == Clearing && after == Calling
      case Invoke(_) => before == Calling && after == Awaiting(|s.calls|)
      case Respond(_, answer) => before.Awaiting? && after == (if answer.Granted? then Storing(answer.pair) else Failing)
      case Store(_, refused) => before.Storing? && after == (if refused then Failing else Confirming(before.pair))
      case Confirm(_, refused) => before.Confirming? && after == (if refused then Failing else Publishing(before.pair))
      case Publish(_, _) => before.Publishing? && after == Returned(before.pair)
      case Fail(_, _, _) => before == Failing && after == Thrown
      case Join(_, _) => before == Joining && (after.Returned? || after == Thrown)
      case _ => true
  {
    hide Stored, Cleared, ViewOf, Read, Consumed;
  }

  lemma ExclusiveKept(s: State, e: Event, t: State)
    requires Exclusive(s) && Step(s, e, t)
    ensures Exclusive(t)
  {
    hide Next, Enabled;
    forall a, b | a in t.tasks && b in t.tasks && t.tasks[a].scope == t.tasks[b].scope
      ensures HoldsLock(t.tasks[a]) && HoldsLock(t.tasks[b]) ==> a == b
    {
      if HoldsLock(t.tasks[a]) && HoldsLock(t.tasks[b]) {
        LockFrame(s, e, t, a);
        LockFrame(s, e, t, b);
        if e == Grant(a) {
          GrantNeedsFreeLock(s, e, t, a, b);
        } else if e == Grant(b) {
          GrantNeedsFreeLock(s, e, t, b, a);
        }
      }
    }
  }

  lemma GrantNeedsFreeLock(s: State, e: Event, t: State, a: TaskId, b: TaskId)
    requires Step(s, e, t) && e == Grant(a) && a in s.tasks && b in s.tasks && s.tasks[a].scope == s.tasks[b].scope
    ensures !HoldsLock(s.tasks[b])
  {
  }

  /** What a step does to the markers, and only to that of its own scope. */
  lemma MarkersFrame(s: State, e: Event, t: State)
    requires Step(s, e, t)
    ensures t.now >= s.now
    ensures e.Check? || e.Mark? || e.Confirm? || e.Fail? ==> e.id in s.tasks
    ensures
      if e.Check? then
        var scope := s.tasks[e.id].scope;
        || t.markers == s.markers
        || (t.markers == s.markers - {scope} && (scope in s.markers ==> MarkerExpired(s.markers[scope], s.now)))
      else if e.Mark? || e.Confirm? || e.Fail? then
        t.markers == s.markers || exists phase :: t.markers == WriteMarker(s, s.tasks[e.id].scope, phase).markers
      else t.markers == s.markers
    ensures e.Mark? && t.tasks[e.id].stage.Clearing? ==> s.tasks[e.id].scope in t.markers
  {
    hide Stored, Cleared, ViewOf, Read;
  }

  lemma MarkersAgreeKept(s: State, e: Event, t: State)
    requires MarkersAgree(s) && Step(s, e, t)
    ensures MarkersAgree(t)
  {
    hide Next, Enabled;
    MarkersFrame(s, e, t);
  }

  /** No step lifts the bar: a marker goes away only once its token has expired. */
  lemma BarKept(s: State, e: Event, t: State, scope: Scope)
    requires MarkersAgree(s) && Step(s, e, t) && Barred(s, scope)
    ensures Barred(t, scope)
  {
    hide Next, Enabled;
    MarkersFrame(s, e, t);
  }

  /** The log of calls only grows at its end; an answer changes neither scope nor time. */
  lemma CallsFrame(s: State, e: Event, t: State)
    requires Step(s, e, t)
    ensures |t.calls| == |s.calls| + (if e.Invoke? then 1 else 0)
    ensures forall i | 0 <= i < |s.calls| :: t.calls[i].scope == s.calls[i].scope && t.calls[i].time == s.calls[i].time
    ensures e.Invoke? ==> e.id in s.tasks && t.calls[|s.calls|] == Call(s.tasks[e.id].scope, s.now, Unanswered)
    ensures t.now >= s.now && (e.Invoke? ==> s.tasks[e.id].stage.Calling?)
  {
    hide Stored, Cleared, ViewOf, Read, Consumed;
  }

  lemma CallsBarKept(s: State, e: Event, t: State)
    requires CallInv(s) && Step(s, e, t)
    ensures CallsBar(t)
  {
    hide Next, Enabled;
    CallsFrame(s, e, t);
    forall i | 0 <= i < |t.calls|
      ensures t.calls[i].time <= t.now && Barred(t, t.calls[i].scope)
    {
      if i == |s.calls| {
        assert TaskReady(s, s.tasks[e.id]);
      } else {
        assert Barred(s, s.calls[i].scope);
      }
      BarKept(s, e, t, t.calls[i].scope);
    }
  }

  /** Inside the lock no other task can call for the same scope. */
  lemma ToCallKept(s: State, e: Event, t: State, id: TaskId)
    requires Exclusive(s) && Step(s, e, t) && id in s.tasks && HoldsLock(s.tasks[id]) && e != Invoke(id)
    requires ToCall(s, s.tasks[id].scope)
    ensures ToCall(t, s.tasks[id].scope)
  {
    hide Next, Enabled;
    var scope := s.tasks[id].scope;
    CallsFrame(s, e, t);
    if CalledEarly(t, scope) {
      var i :| 0 <= i < |t.calls| && t.calls[i].scope == scope && Early(t.calls[i]);
      if i < |s.calls| {
        assert s.calls[i].scope == scope && Early(s.calls[i]);
      }
    }
  }

  lemma TasksReadyKept(s: State, e: Event, t: State)
    requires CallInv(s) && Step(s, e, t)
    ensures TasksReady(t)
  {
    forall id | id in t.tasks
      ensures TaskReady(t, t.tasks[id])
    {
      TaskReadyKept(s, e, t, id);
    }
  }

  lemma TaskReadyKept(s: State, e: Event, t: State, id: TaskId)
    requires CallInv(s) && Step(s, e, t) && id in t.tasks
    ensures TaskReady(t, t.tasks[id])
  {
    hide Next, Enabled;
    if id !in s.tasks {
      Arrives(s, e, t, id);
    } else if HoldsLock(t.tasks[id]) {
      LockFrame(s, e, t, id);
      assert TaskReady(s, s.tasks[id]);
      if By(e, id) {
        StageFrame(s, e, t, id);
      } else {
        StandsStill(s, e, t, id);
      }
      if Barred(s, s.tasks[id].scope) {
        BarKept(s, e, t, s.tasks[id].scope);
      }
      if e == Grant(id) || e == Invoke(id) {
        EntersOrLeaves(s, e, t, id);
      } else if ToCall(s, s.tasks[id].scope) {
        ToCallKept(s, e, t, id);
      }
    }
  }

  lemma EntersOrLeaves(s: State, e: Event, t: State, id: TaskId)
    requires Step(s, e, t) && (e == Grant(id) || e == Invoke(id))
    ensures t.tasks[id].stage.Checking? || t.tasks[id].stage.Awaiting?
  {
  }

  /** How a task comes to stand between the check and the call. */
  lemma StageFrame(s: State, e: Event, t: State, id: TaskId)
    requires CallInv(s) && Step(s, e, t) && id in s.tasks && By(e, id) && id in t.tasks
    ensures
      var stage, before := t.tasks[id].stage, s.tasks[id].stage;
      && (stage.Marking? ==> before.Marking? || ToCall(s, s.tasks[id].scope))
      && (stage.Clearing? ==> before.Clearing? || (before.Marking? && Barred(t, s.tasks[id].scope)))
      && (stage.Calling? ==> before.Calling? || before.Clearing?)
  {
    if e.Check? && t.tasks[id].stage.Marking? {
      UncalledAfterCheck(s, e, t);
    }
    hide Next, Enabled;
    if Staged(e) {
      StageFollows(s, e, t);
      MarkersFrame(s, e, t);
    } else {
      OthersChange(s, e, t);
    }
  }

  lemma UncalledAfterCheck(s: State, e: Event, t: State)
    requires CallInv(s) && Step(s, e, t) && e.Check? && t.tasks[e.id].stage.Marking?
    ensures ToCall(s, s.tasks[e.id].scope)
  {
    var scope := s.tasks[e.id].scope;
    if CalledEarly(s, scope) {
      var i :| 0 <= i < |s.calls| && s.calls[i].scope == scope && Early(s.calls[i]);
      assert Barred(s, s.calls[i].scope);
    }
  }

  lemma AtMostOneKept(s: State, e: Event, t: State)
    requires CallInv(s) && Step(s, e, t)
    ensures AtMostOneEarlyCall(t)
  {
    hide Next, Enabled;
    CallsFrame(s, e, t);
    if e.Invoke? {
      assert TaskReady(s, s.tasks[e.id]);
    }
  }

  // ----- who holds which pair

  /** The server granted this pair to a call of this scope. */
  predicate GrantedTo(s: State, scope: Scope, pair: Pair) {
    exists i :: 0 <= i < |s.calls| && s.calls[i].scope == scope && s.calls[i].answer == Granted(pair)
  }

  predicate MessageTrue(s: State, message: Message) {
    message.Success? ==> GrantedTo(s, message.scope, message.pair)
  }

  /** A pair that a task carries, or has heard of, was granted to its scope. */
  predicate TaskTrue(s: State, task: Task) {
    && (task.stage.Storing? || task.stage.Confirming? || task.stage.Publishing? ==> GrantedTo(s, task.scope, task.stage.pair))
    && (task.observed.Heard? ==> task.observed.message.scope == task.scope && MessageTrue(s, task.observed.message))
  }

  /** A waiting task has its own unanswered call. */
  predicate TaskAwaits(s: State, task: Task) {
    task.stage.Awaiting? ==>
      var k := task.stage.call;
      k < |s.calls| && s.calls[k].scope == task.scope && s.calls[k].answer.Unanswered?
  }

  predicate ResultTrue(s: State, r: Result) {
    exists i :: 0 <= i < |s.calls| && s.calls[i].scope == r.scope && s.calls[i].answer == Granted(r.pair)
                && s.calls[i].time <= r.time
  }

  ghost predicate PairInv(s: State) {
    && (forall i | 0 <= i < |s.posted| :: MessageTrue(s, s.posted[i]))
    && (forall id | id in s.tasks :: TaskTrue(s, s.tasks[id]))
    && (forall id | id in s.tasks :: TaskAwaits(s, s.tasks[id]))
    && (forall a, b | a in s.tasks && b in s.tasks && s.tasks[a].stage.Awaiting? && s.tasks[b].stage.Awaiting? ::
          s.tasks[a].stage.call == s.tasks[b].stage.call ==> a == b)
    && (forall i | 0 <= i < |s.results| :: ResultTrue(s, s.results[i]))
  }

  /** An answer, once given, stays. */
  lemma AnswersFrame(s: State, e: Event, t: State, i: nat)
    requires PairInv(s) && Step(s, e, t) && i < |s.calls|
    ensures i < |t.calls| && t.calls[i].scope == s.calls[i].scope && t.calls[i].time == s.calls[i].time
    ensures t.calls[i].answer == s.calls[i].answer
         || (s.calls[i].answer.Unanswered? && e.Respond? && s.tasks[e.id].stage == Awaiting(i))
  {
    hide Stored, Cleared, ViewOf, Read, Consumed;
    if e.Respond? {
      assert TaskAwaits(s, s.tasks[e.id]);
    }
  }

  lemma GrantStays(s: State, e: Event, t: State, scope: Scope, pair: Pair)
    requires PairInv(s) && Step(s, e, t) && GrantedTo(s, scope, pair)
    ensures GrantedTo(t, scope, pair)
  {
    hide Next, Enabled;
    var i :| 0 <= i < |s.calls| && s.calls[i].scope == scope && s.calls[i].answer == Granted(pair);
    AnswersFrame(s, e, t, i);
  }

  lemma ResultStays(s: State, e: Event, t: State, r: Result)
    requires PairInv(s) && Step(s, e, t) && ResultTrue(s, r)
    ensures ResultTrue(t, r)
  {
    hide Next, Enabled;
    var i :| 0 <= i < |s.calls| && s.calls[i].scope == r.scope && s.calls[i].answer == Granted(r.pair)
             && s.calls[i].time <= r.time;
    AnswersFrame(s, e, t, i);
  }

  /** What is newly posted is what the poster carries. */
  lemma PostedFrame(s: State, e: Event, t: State)
    requires Step(s, e, t)
    ensures t.posted == s.posted
         || (e.Publish? && t.posted == s.posted + [Success(s.tasks[e.id].scope, s.tasks[e.id].stage.pair)])
         || (e.Fail? && t.posted == s.posted + [Failure(s.tasks[e.id].scope)])
  {
    hide Stored, Cleared, ViewOf, Read, Consumed;
  }

  /** What is newly handed over is what the task carries or has heard. */
  lemma ResultsFrame(s: State, e: Event, t: State)
    requires Step(s, e, t)
    ensures t.results == s.results || ((e.Publish? || e.Join?) && |t.results| == |s.results| + 1
      && t.results[..|s.results|] == s.results
      && var r := t.results[|s.results|];
         r.scope == s.tasks[e.id].scope && r.time == s.now
         && (if e.Publish? then r.pair == s.tasks[e.id].stage.pair
             else s.tasks[e.id].observed.Heard? && s.tasks[e.id].observed.message.Success?
                  && r.pair == s.tasks[e.id].observed.message.pair))
  {
    hide Stored, Cleared, ViewOf, Read, Consumed;
  }

  lemma PostedKept(s: State, e: Event, t: State)
    requires PairInv(s) && Step(s, e, t)
    ensures forall i | 0 <= i < |t.posted| :: MessageTrue(t, t.posted[i])
  {
    hide Next, Enabled;
    PostedFrame(s, e, t);
    forall i | 0 <= i < |t.posted|
      ensures MessageTrue(t, t.posted[i])
    {
      var m := t.posted[i];
      if m.Success? {
        if i < |s.posted| {
          assert MessageTrue(s, s.posted[i]);
        } else {
          PublisherCarries(s, e, t);
        }
        GrantStays(s, e, t, m.scope, m.pair);
      }
    }
  }

  lemma PublisherCarries(s: State, e: Event, t: State)
    requires PairInv(s) && Step(s, e, t) && e.Publish?
    ensures e.id in s.tasks && s.tasks[e.id].stage.Publishing?
    ensures GrantedTo(s, s.tasks[e.id].scope, s.tasks[e.id].stage.pair)
  {
    assert TaskTrue(s, s.tasks[e.id]);
  }

  /** Where a task's own step gets a pair or a message from. */
  lemma PairFrame(s: State, e: Event, t: State, id: TaskId)
    requires PairInv(s) && Step(s, e, t) && id in s.tasks && By(e, id) && id in t.tasks
    ensures
      var after, before := t.tasks[id], s.tasks[id];
      && (after.stage.Storing? ==> GrantedTo(t, before.scope, after.stage.pair) || before.stage == after.stage)
      && (after.stage.Confirming? ==> before.stage == Storing(after.stage.pair) || before.stage == after.stage)
      && (after.stage.Publishing? ==> before.stage == Confirming(after.stage.pair) || before.stage == after.stage)
      && (after.observed != before.observed ==>
            e.Deliver? && e.index < |s.posted| && after.observed == Heard(s.posted[e.index])
            && s.posted[e.index].scope == before.scope)
  {
    hide Next, Enabled;
    Moves(s, e, t, id);
    if Staged(e) {
      StageFollows(s, e, t);
      if e.Respond? {
        assert TaskAwaits(s, s.tasks[id]);
        AnswerGiven(s, e, t);
        assert t.calls[s.tasks[id].stage.call].scope == s.tasks[id].scope;
      }
    } else {
      OthersChange(s, e, t);
    }
  }

  lemma AnswerGiven(s: State, e: Event, t: State)
    requires Step(s, e, t) && e.Respond?
    ensures e.id in s.tasks && s.tasks[e.id].stage.Awaiting?
    ensures var call := s.tasks[e.id].stage.call;
            call < |s.calls| && t.calls == s.calls[call := s.calls[call].(answer := e.answer)]
  {
  }

  lemma TaskTrueKept(s: State, e: Event, t: State, id: TaskId)
    requires PairInv(s) && Step(s, e, t) && id in t.tasks
    ensures TaskTrue(t, t.tasks[id])
  {
    hide Next, Enabled;
    if id !in s.tasks {
      Arrives(s, e, t, id);
    } else {
      var before, after := s.tasks[id], t.tasks[id];
      assert TaskTrue(s, before);
      if By(e, id) {
        Moves(s, e, t, id);
        PairFrame(s, e, t, id);
        if e.Deliver? && after.observed != before.observed {
          assert MessageTrue(s, s.posted[e.index]);
        }
      } else {
        StandsStill(s, e, t, id);
      }
      if before.stage.Storing? || before.stage.Confirming? || before.stage.Publishing? {
        GrantStays(s, e, t, before.scope, before.stage.pair);
      }
      if after.observed.Heard? && after.observed.message.Success? {
        GrantStays(s, e, t, after.scope, after.observed.message.pair);
      }
    }
  }

  /** A task waits for the call it made itself. */
  lemma AwaitFrame(s: State, e: Event, t: State, id: TaskId)
    requires Step(s, e, t) && id in t.tasks && t.tasks[id].stage.Awaiting?
    ensures id in s.tasks && t.tasks[id].scope == s.tasks[id].scope
    ensures if e == Invoke(id) then t.tasks[id].stage.call == |s.calls|
            else t.tasks[id].stage == s.tasks[id].stage && !(e.Respond? && e.id == id)
  {
    hide Next, Enabled;
    if id !in s.tasks {
      Arrives(s, e, t, id);
    } else if !By(e, id) {
      StandsStill(s, e, t, id);
    } else {
      Moves(s, e, t, id);
      if Staged(e) { StageFollows(s, e, t); } else { OthersChange(s, e, t); }
    }
  }

  lemma AwaitsKept(s: State, e: Event, t: State)
    requires PairInv(s) && Step(s, e, t)
    ensures forall id | id in t.tasks :: TaskAwaits(t, t.tasks[id])
    ensures forall a, b | a in t.tasks && b in t.tasks && t.tasks[a].stage.Awaiting? && t.tasks[b].stage.Awaiting? ::
              t.tasks[a].stage.call == t.tasks[b].stage.call ==> a == b
  {
    hide Next, Enabled;
    CallsFrame(s, e, t);
    forall id | id in t.tasks && t.tasks[id].stage.Awaiting?
      ensures TaskAwaits(t, t.tasks[id])
    {
      AwaitFrame(s, e, t, id);
      if e != Invoke(id) {
        assert TaskAwaits(s, s.tasks[id]);
        AnswersFrame(s, e, t, s.tasks[id].stage.call);
        RespondentAwaits(s, e, t);
      }
    }
    forall a, b | a in t.tasks && b in t.tasks && t.tasks[a].stage.Awaiting? && t.tasks[b].stage.Awaiting?
      ensures t.tasks[a].stage.call == t.tasks[b].stage.call ==> a == b
    {
      AwaitFrame(s, e, t, a);
      AwaitFrame(s, e, t, b);
      assert TaskAwaits(s, s.tasks[a]) && TaskAwaits(s, s.tasks[b]);
    }
  }

  lemma RespondentAwaits(s: State, e: Event, t: State)
    requires Step(s, e, t)
    ensures e.Respond? ==> e.id in s.tasks && s.tasks[e.id].stage.Awaiting?
  {
  }

  lemma ResultsKept(s: State, e: Event, t: State)
    requires CallInv(s) && PairInv(s) && Step(s, e, t)
    ensures forall i | 0 <= i < |t.results| :: ResultTrue(t, t.results[i])
  {
    hide Next, Enabled;
    ResultsFrame(s, e, t);
    forall i | 0 <= i < |t.results|
      ensures ResultTrue(t, t.results[i])
    {
      var r := t.results[i];
      if i < |s.results| {
        assert r == s.results[i];
      } else {
        ActorKnown(s, e, t);
        assert TaskTrue(s, s.tasks[e.id]);
        assert GrantedTo(s, r.scope, r.pair);
        GrantIsPast(s, r);
      }
      ResultStays(s, e, t, r);
    }
  }

  lemma ActorKnown(s: State, e: Event, t: State)
    requires Step(s, e, t) && (e.Publish? || e.Join?)
    ensures e.id in s.tasks && (e.Publish? ==> s.tasks[e.id].stage.Publishing?)
  {
  }

  lemma GrantIsPast(s: State, r: Result)
    requires CallInv(s) && GrantedTo(s, r.scope, r.pair) && r.time == s.now
    ensures ResultTrue(s, r)
  {
    var i :| 0 <= i < |s.calls| && s.calls[i].scope == r.scope && s.calls[i].answer == Granted(r.pair);
    assert s.calls[i].time <= s.now;
  }

  // ----- over whole runs

  ghost predicate Inv(s: State) {
    CallInv(s) && PairInv(s)
  }

  lemma InvKept(s: State, e: Event, t: State)
    requires Inv(s) && Step(s, e, t)
    ensures Inv(t)
  {
    hide Next, Enabled;
    ExclusiveKept(s, e, t);
    MarkersAgreeKept(s, e, t);
    CallsBarKept(s, e, t);
    TasksReadyKept(s, e, t);
    AtMostOneKept(s, e, t);
    PostedKept(s, e, t);
    forall id | id in t.tasks
      ensures TaskTrue(t, t.tasks[id])
    {
      TaskTrueKept(s, e, t, id);
    }
    AwaitsKept(s, e, t);
    ResultsKept(s, e, t);
  }

  lemma {:induction false} RunKeepsInv(s: State, events: seq<Event>)
    requires Inv(s) && IsRun(s, events)
    ensures Inv(After(s, events))
    decreases |events|
  {
    if events != [] {
      InvKept(s, events[0], Next(s, events[0]));
      RunKeepsInv(Next(s, events[0]), events[1..]);
    }
  }

  /** However the tabs interleave, whatever is lost or refused and whoever crashes: while a token is
      unexpired its scope reaches the server at most once. */
  lemma AtMostOneCallBeforeExpiry(start: State, events: seq<Event>)
    requires Starts(start) && IsRun(start, events)
    ensures AtMostOneEarlyCall(After(start, events))
  {
    RunKeepsInv(start, events);
  }

  /** Every pair handed over before the expiry is the pair that single call was granted. */
  lemma SamePairForEveryTab(start: State, events: seq<Event>, scope: Scope)
    requires Starts(start) && IsRun(start, events)
    ensures
      var s := After(start, events);
      forall a, b | 0 <= a < |s.results| && 0 <= b < |s.results|
                    && s.results[a].scope == scope && s.results[b].scope == scope
                    && s.results[a].time < scope.token.expiresAt && s.results[b].time < scope.token.expiresAt ::
        s.results[a].pair == s.results[b].pair && GrantedTo(s, scope, s.results[a].pair)
  {
    var s := After(start, events);
    RunKeepsInv(start, events);
    forall a, b | 0 <= a < |s.results| && 0 <= b < |s.results|
                  && s.results[a].scope == scope && s.results[b].scope == scope
                  && s.results[a].time < scope.token.expiresAt && s.results[b].time < scope.token.expiresAt
      ensures s.results[a].pair == s.results[b].pair && GrantedTo(s, scope, s.results[a].pair)
    {
      assert ResultTrue(s, s.results[a]) && ResultTrue(s, s.results[b]);
    }
  }
}
