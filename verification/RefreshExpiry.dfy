/** Where the cross-tab guarantee ends: at the expiry of the token, and not before or after. */
module RefreshExpiry {
  import opened ProfileStorage
  import opened RefreshProtocol

  /** From a place in the queue to the marker. */
  function MarkEvents(id: TaskId): seq<Event> {
    [Grant(id), Check(id, true, true), Mark(id, false)]
  }

  /** From a place in the queue to the call of the callback. */
  function CallEvents(id: TaskId): seq<Event> {
    MarkEvents(id) + [Clear(id), Invoke(id)]
  }

  /** The expiry is where the guarantee ends: a task still in the queue then finds the marker expired
      and calls, whether or not the scope was called before. */
  lemma LateTaskCalls(s: State, id: TaskId)
    requires Inv(s) && At(s, id, Queued) && LockFree(s, s.tasks[id].scope)
    requires s.now >= s.tasks[id].scope.token.expiresAt
    requires s.tasks[id].scope in s.markers ==> s.markers[s.tasks[id].scope].Marker?
    ensures IsRun(s, CallEvents(id))
    ensures After(s, CallEvents(id)).calls == s.calls + [Call(s.tasks[id].scope, s.now, Unanswered)]
  {
    TaskCalls(s, id);
  }

  /** For every profile and token, and from every moment before the expiry, there is a run in which the scope
      reaches the server twice: two tasks begin, the first is refused, and the second, which has waited for
      the lock, calls at the expiry. */
  lemma CalledTwice(profile: Profile, token: RefreshToken, now: int) returns (start: State, events: seq<Event>)
    requires now < token.expiresAt
    ensures Starts(start) && start.now == now && IsRun(start, events)
    ensures var scope := Scope(profile, token);
            After(start, events).calls == [Call(scope, now, Refused), Call(scope, token.expiresAt, Unanswered)]
  {
    start := State(now, map[], map[profile := Record(token)], map[], [], map[], [], []);
    hide Next, Enabled, IsRun, After, Inv, CallEvents;
    StartsInv(start);
    events := FirstIsRefused(start, profile, token);
    var late := After(start, events);
    RunKeepsInv(start, events);
    LateTaskCalls(late, 1);
    RunJoins(start, events, CallEvents(1));
    events := events + CallEvents(1);
  }

  predicate OneStored(start: State, profile: Profile, token: RefreshToken) {
    && start.tasks == map[] && start.sessions == map[] && start.markers == map[] && start.calls == []
    && start.local == map[profile := Record(token)] && start.now < token.expiresAt
  }

  lemma FirstIsRefused(start: State, profile: Profile, token: RefreshToken) returns (events: seq<Event>)
    requires OneStored(start, profile, token)
    ensures IsRun(start, events)
    ensures var late, task := After(start, events), Task(0, Scope(profile, token), true, true, Queued, Nothing);
            && late.tasks == map[0 := task.(stage := Thrown), 1 := task] && late.now == token.expiresAt
            && late.calls == [Call(task.scope, start.now, Refused)]
            && late.markers == map[task.scope := Marker(token.expiresAt, Failed)]
  {
    hide Next, Enabled, IsRun, After, Read;
    var begins := [Begin(0, 0, profile, true), Begin(1, 0, profile, true)];
    var refusal := [Respond(0, Refused), Fail(0, false, false), Tick(token.expiresAt - start.now)];
    TwoBegin(start, profile, token);
    var begun := After(start, begins);
    TaskCalls(begun, 0);
    var called := After(begun, CallEvents(0));
    RefusedUntilExpiry(called, 0, token.expiresAt - start.now);
    hide CallEvents;
    RunJoins(start, begins, CallEvents(0));
    RunJoins(start, begins + CallEvents(0), refusal);
    events := begins + CallEvents(0) + refusal;
  }

  lemma StartsInv(s: State)
    requires Starts(s)
    ensures Inv(s)
  {
  }

  lemma TwoBegin(start: State, profile: Profile, token: RefreshToken)
    requires OneStored(start, profile, token)
    ensures var events := [Begin(0, 0, profile, true), Begin(1, 0, profile, true)];
            && IsRun(start, events)
            && var t := After(start, events);
               var task := Task(0, Scope(profile, token), true, true, Queued, Nothing);
               t.tasks == map[0 := task, 1 := task] && t.now == start.now && t.markers == map[] && t.calls == []
  {
    hide IsRun, After;
    var one := Next(start, Begin(0, 0, profile, true));
    LastStep(one, Begin(1, 0, profile, true));
    RunStep(start, Begin(0, 0, profile, true), [Begin(1, 0, profile, true)]);
    assert [Begin(0, 0, profile, true)] + [Begin(1, 0, profile, true)] == [Begin(0, 0, profile, true), Begin(1, 0, profile, true)];
  }

  /** The server refuses the call of a task, the refusal is recorded, and time passes. */
  lemma RefusedUntilExpiry(s: State, id: TaskId, elapsed: nat)
    requires id in s.tasks && s.tasks[id].stage.Awaiting? && s.tasks[id].stage.call < |s.calls|
    ensures var events := [Respond(id, Refused), Fail(id, false, false), Tick(elapsed)];
            && IsRun(s, events)
            && var t, call, scope := After(s, events), s.tasks[id].stage.call, s.tasks[id].scope;
               && t.tasks == s.tasks[id := s.tasks[id].(stage := Thrown)] && t.now == s.now + elapsed
               && t.calls == s.calls[call := s.calls[call].(answer := Refused)]
               && t.markers == s.markers[scope := Marker(scope.token.expiresAt, Failed)]
  {
    hide Next, Enabled, OnlyStage, IsRun, After;
    AnswerRefused(s, id);
    var failing := Next(s, Respond(id, Refused));
    StageReached(s, s, failing, id, s.tasks[id].stage, Failing);
    FailureRecorded(failing, id);
    var thrown := Next(failing, Fail(id, false, false));
    StageReached(s, failing, thrown, id, Failing, Thrown);
    TimePasses(s, thrown, id, elapsed);
    ThreeSteps(s, Respond(id, Refused), failing, Fail(id, false, false), thrown, Tick(elapsed));
  }

  lemma AnswerRefused(s: State, id: TaskId)
    requires id in s.tasks && s.tasks[id].stage.Awaiting? && s.tasks[id].stage.call < |s.calls|
    ensures Enabled(s, Respond(id, Refused)) && OnlyStage(s, Next(s, Respond(id, Refused)), id, Failing)
    ensures var t, call := Next(s, Respond(id, Refused)), s.tasks[id].stage.call;
            t.calls == s.calls[call := s.calls[call].(answer := Refused)] && t.markers == s.markers
  {
  }

  lemma FailureRecorded(s: State, id: TaskId)
    requires At(s, id, Failing)
    ensures Enabled(s, Fail(id, false, false)) && OnlyStage(s, Next(s, Fail(id, false, false)), id, Thrown)
    ensures var t, scope := Next(s, Fail(id, false, false)), s.tasks[id].scope;
            t.markers == s.markers[scope := Marker(scope.token.expiresAt, Failed)] && t.calls == s.calls
  {
  }

  lemma TimePasses(s: State, thrown: State, id: TaskId, elapsed: nat)
    requires OnlyStage(s, thrown, id, Thrown)
    ensures Enabled(thrown, Tick(elapsed)) && Next(thrown, Tick(elapsed)) == thrown.(now := thrown.now + elapsed)
    ensures thrown.tasks == s.tasks[id := s.tasks[id].(stage := Thrown)]
  {
  }

  lemma TwoSteps(s0: State, e0: Event, s1: State, e1: Event)
    requires Step(s0, e0, s1) && Enabled(s1, e1)
    ensures IsRun(s0, [e0, e1]) && After(s0, [e0, e1]) == Next(s1, e1)
  {
    hide Next, Enabled;
    LastStep(s1, e1);
    RunStep(s0, e0, [e1]);
    assert [e0] + [e1] == [e0, e1];
  }

  lemma ThreeSteps(s0: State, e0: Event, s1: State, e1: Event, s2: State, e2: Event)
    requires Step(s0, e0, s1) && Step(s1, e1, s2) && Enabled(s2, e2)
    ensures IsRun(s0, [e0, e1, e2]) && After(s0, [e0, e1, e2]) == Next(s2, e2)
  {
    hide Next, Enabled;
    TwoSteps(s1, e1, s2, e2);
    RunStep(s0, e0, [e1, e2]);
    assert [e0] + [e1, e2] == [e0, e1, e2];
  }

  lemma {:induction false} RunJoins(s: State, first: seq<Event>, second: seq<Event>)
    requires IsRun(s, first) && IsRun(After(s, first), second)
    ensures IsRun(s, first + second) && After(s, first + second) == After(After(s, first), second)
    decreases |first|
  {
    if first == [] {
      assert first + second == second;
    } else {
      RunJoins(Next(s, first[0]), first[1..], second);
      assert (first + second)[1..] == first[1..] + second;
    }
  }

  /** A queued task whose scope carries no marker, or an expired one, gets to call. */
  lemma TaskCalls(s: State, id: TaskId)
    requires At(s, id, Queued) && LockFree(s, s.tasks[id].scope)
    requires s.tasks[id].scope in s.markers ==> MarkerExpired(s.markers[s.tasks[id].scope], s.now)
    ensures IsRun(s, CallEvents(id))
    ensures var t, scope := After(s, CallEvents(id)), s.tasks[id].scope;
            && OnlyStage(s, t, id, Awaiting(|s.calls|))
            && t.calls == s.calls + [Call(scope, s.now, Unanswered)]
            && t.markers == s.markers[scope := Marker(scope.token.expiresAt, Pending)]
  {
    hide Next, Enabled, OnlyStage, IsRun, After, MarkEvents;
    TaskMarks(s, id);
    var marked := After(s, MarkEvents(id));
    TokensCleared(marked, id);
    var cleared := Next(marked, Clear(id));
    StageReached(s, marked, cleared, id, Clearing, Calling);
    Invoked(cleared, id);
    StageReached(s, cleared, Next(cleared, Invoke(id)), id, Calling, Awaiting(|s.calls|));
    TwoSteps(marked, Clear(id), cleared, Invoke(id));
    RunJoins(s, MarkEvents(id), [Clear(id), Invoke(id)]);
  }

  lemma TaskMarks(s: State, id: TaskId)
    requires At(s, id, Queued) && LockFree(s, s.tasks[id].scope)
    requires s.tasks[id].scope in s.markers ==> MarkerExpired(s.markers[s.tasks[id].scope], s.now)
    ensures IsRun(s, MarkEvents(id))
    ensures var t, scope := After(s, MarkEvents(id)), s.tasks[id].scope;
            && OnlyStage(s, t, id, Clearing) && At(t, id, Clearing) && t.tasks[id].scope == scope && t.now == s.now
            && t.markers == s.markers[scope := Marker(scope.token.expiresAt, Pending)] && t.calls == s.calls
  {
    hide Next, Enabled, OnlyStage, IsRun, After;
    LockGranted(s, id);
    var granted := Next(s, Grant(id));
    StageReached(s, s, granted, id, Queued, Checking);
    Checked(granted, id);
    var checked := Next(granted, Check(id, true, true));
    StageReached(s, granted, checked, id, Checking, Marking);
    Marked(checked, id);
    var marked := Next(checked, Mark(id, false));
    StageReached(s, checked, marked, id, Marking, Clearing);
    ThreeSteps(s, Grant(id), granted, Check(id, true, true), checked, Mark(id, false));
  }

  lemma StageReached(s: State, t: State, u: State, id: TaskId, before: Stage, after: Stage)
    requires (s == t && At(s, id, before)) || OnlyStage(s, t, id, before)
    requires OnlyStage(t, u, id, after)
    ensures OnlyStage(s, u, id, after)
    ensures At(u, id, after) && u.tasks[id].scope == s.tasks[id].scope && u.now == s.now
  {
  }

  /** Of the tasks only this one has moved, and the clock has not. */
  predicate OnlyStage(s: State, t: State, id: TaskId, stage: Stage) {
    id in s.tasks && t.tasks == s.tasks[id := s.tasks[id].(stage := stage)] && t.now == s.now
  }

  lemma LockGranted(s: State, id: TaskId)
    requires At(s, id, Queued) && LockFree(s, s.tasks[id].scope)
    ensures Enabled(s, Grant(id)) && OnlyStage(s, Next(s, Grant(id)), id, Checking)
    ensures Next(s, Grant(id)).markers == s.markers && Next(s, Grant(id)).calls == s.calls
  {
  }

  lemma Checked(s: State, id: TaskId)
    requires At(s, id, Checking)
    requires s.tasks[id].scope in s.markers ==> MarkerExpired(s.markers[s.tasks[id].scope], s.now)
    ensures Enabled(s, Check(id, true, true)) && OnlyStage(s, Next(s, Check(id, true, true)), id, Marking)
    ensures var t := Next(s, Check(id, true, true)); t.markers == s.markers - {s.tasks[id].scope} && t.calls == s.calls
  {
  }

  lemma Marked(s: State, id: TaskId)
    requires At(s, id, Marking)
    ensures Enabled(s, Mark(id, false)) && OnlyStage(s, Next(s, Mark(id, false)), id, Clearing)
    ensures var t, scope := Next(s, Mark(id, false)), s.tasks[id].scope;
            t.markers == s.markers[scope := Marker(scope.token.expiresAt, Pending)] && t.calls == s.calls
  {
  }

  lemma TokensCleared(s: State, id: TaskId)
    requires At(s, id, Clearing)
    ensures Enabled(s, Clear(id)) && OnlyStage(s, Next(s, Clear(id)), id, Calling)
    ensures Next(s, Clear(id)).markers == s.markers && Next(s, Clear(id)).calls == s.calls
  {
  }

  lemma Invoked(s: State, id: TaskId)
    requires At(s, id, Calling)
    ensures Enabled(s, Invoke(id)) && OnlyStage(s, Next(s, Invoke(id)), id, Awaiting(|s.calls|))
    ensures Next(s, Invoke(id)).markers == s.markers
    ensures Next(s, Invoke(id)).calls == s.calls + [Call(s.tasks[id].scope, s.now, Unanswered)]
  {
  }

  lemma LastStep(s: State, e: Event)
    requires Enabled(s, e)
    ensures IsRun(s, [e]) && After(s, [e]) == Next(s, e)
  {
    assert [e][1..] == [];
  }

  lemma RunStep(s: State, e: Event, rest: seq<Event>)
    requires Enabled(s, e) && IsRun(Next(s, e), rest)
    ensures IsRun(s, [e] + rest) && After(s, [e] + rest) == After(Next(s, e), rest)
  {
    assert ([e] + rest)[1..] == rest;
  }
}
