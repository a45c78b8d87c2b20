/** How the requests of the database client are settled, and with what. */
module DatabaseOutcomes {
  import opened DatabaseClient
  import opened Options

  /** The worker's answer settles its request, and no other: a value resolves it, and a conditional write that
      did not apply and any other failure reject it. */
  lemma AnswerSettles(s: State, id: nat, result: Result)
    requires id in s.pending
    ensures var t := Next(s, Response(id, result));
            && (result.Value? ==> t.settled == s.settled + [Resolved(id, result.value)])
            && (result.Conditional? ==> t.settled == s.settled + [Rejected(id, ConditionalWrite(result.text))])
            && (result.Failed? ==> t.settled == s.settled + [Rejected(id, Fault(result.text))])
            && forall other :: other in t.pending <==> other in s.pending && other != id
  {
    WithoutExactly(s.pending, id);
  }

  lemma {:induction false} WithoutExactly(ids: seq<nat>, id: nat)
    ensures forall other :: other in Without(ids, id) <==> other in ids && other != id
  {
    if ids != [] {
      assert ids == [ids[0]] + ids[1..];
      WithoutExactly(ids[1..], id);
    }
  }

  /** Startup is settled by the first event that can settle it: it resolves exactly when the worker is ready with
      the schema of version 7, and a close or an end of the client rejects it. */
  lemma StartupSettles(s: State, e: Event)
    requires Inv(s) && Enabled(s, e) && !s.startupSettled
    ensures var t := Next(s, e);
            && (t.startup == [Ready] <==> e == StartupReady(7))
            && (t.startup == [StartupRejected(Closed)] ==> e.Close? || Ends(e, Closed))
            && (t.startup == [] <==> e.Response? || ((e.WorkerError? || e.WorkerExit?) && s.expectedExit))
            && (t.startup == [] || t.startupSettled)
  {
    hide OnceEach;
    assert s.startup == [] && [Ready][0] == Ready;
    assert forall how :: s.startup + [how] == [how] && [how][0] == how;
  }

  /** An event that ends the client's work with an error of its own. */
  predicate Ends(e: Event, error: Error) {
    match e
    case Request(postError) => postError == Some(error)
    case StartupReady(version) => version != 7 && error == Fault("schema")
    case StartupFatal(text) => error == Fault(text)
    case WorkerError(text) => error == Fault(text)
    case WorkerExit(text) => error == Fault(text)
    case _ => false
  }

  /** An answer that settles a request that way. */
  predicate Answers(e: Event, settlement: Settlement) {
    match settlement
    case Resolved(id, value) => e == Response(id, Value(value))
    case Rejected(id, ConditionalWrite(text)) => e == Response(id, Conditional(text))
    case Rejected(id, Fault(text)) => e == Response(id, Failed(text))
    case Rejected(_, Closed) => false
  }

  /** Why a request was settled the way it was: the worker answered so, or for a rejection the client was being
      closed or had failed with that error. */
  ghost predicate Explained(s: State, log: seq<Event>, settlement: Settlement) {
    || (exists i :: 0 <= i < |log| && Answers(log[i], settlement))
    || (settlement.Rejected? && ((settlement.error == Closed && s.closed) || Some(settlement.error) == s.terminalError))
  }

  ghost predicate AllExplained(s: State, log: seq<Event>) {
    && (forall settlement | settlement in s.settled :: Explained(s, log, settlement))
    && (s.terminalError.Some? ==> exists i :: 0 <= i < |log| && Ends(log[i], s.terminalError.value))
  }

  lemma LongerExplains(s: State, t: State, log: seq<Event>, e: Event)
    requires AllExplained(s, log) && (s.closed ==> t.closed) && (s.terminalError.Some? ==> t.terminalError == s.terminalError)
    ensures forall settlement | settlement in s.settled :: Explained(t, log + [e], settlement)
    ensures s.terminalError.Some? ==> exists i :: 0 <= i < |log + [e]| && Ends((log + [e])[i], s.terminalError.value)
  {
    var longer := log + [e];
    assert forall i | 0 <= i < |log| :: longer[i] == log[i];
    forall settlement | settlement in s.settled ensures Explained(t, longer, settlement) {
      assert Explained(s, log, settlement);
      if i :| 0 <= i < |log| && Answers(log[i], settlement) { assert Answers(longer[i], settlement); }
    }
    if s.terminalError.Some? {
      var i :| 0 <= i < |log| && Ends(log[i], s.terminalError.value);
      assert Ends(longer[i], s.terminalError.value);
    }
  }

  /** What one event adds to the settlements and to the error. */
  ghost predicate AddsExplained(s: State, e: Event, t: State) {
    && (forall settlement | settlement in t.settled ::
          || settlement in s.settled || Answers(e, settlement)
          || (settlement.Rejected? && ((settlement.error == Closed && t.closed) || Some(settlement.error) == t.terminalError)))
    && (s.closed ==> t.closed)
    && (s.terminalError.Some? ==> t.terminalError == s.terminalError)
    && (s.terminalError.None? && t.terminalError.Some? ==> Ends(e, t.terminalError.value))
  }

  lemma MarkFatalAdds(s: State, error: Error)
    ensures var t := MarkFatal(s, error);
            && t.closed == s.closed && t.terminalError == Some(if s.terminalError.Some? then s.terminalError.value else error)
            && forall settlement | settlement in t.settled ::
                 settlement in s.settled || (settlement.Rejected? && Some(settlement.error) == t.terminalError)
  {
  }

  lemma EnteredAdds(s: State, postError: Option<Error>)
    requires s.terminalError.None?
    ensures var t := Entered(s, postError);
            && t.closed == s.closed && (t.terminalError.Some? ==> t.terminalError == postError && !s.expectedExit)
            && forall settlement | settlement in t.settled ::
                 || settlement in s.settled
                 || (settlement.Rejected? && ((settlement.error == Closed && s.expectedExit) || Some(settlement.error) == t.terminalError))
  {
    hide MarkFatal, Without;
    var entered := s.(nextId := s.nextId + 1, pending := s.pending + [s.nextId]);
    if postError.Some? && !s.expectedExit { MarkFatalAdds(entered, postError.value); }
  }

  lemma StepAdds(s: State, e: Event)
    requires Inv(s) && Enabled(s, e)
    ensures AddsExplained(s, e, Next(s, e))
  {
    hide OnceEach, MarkFatal, Entered, Without;
    match e
    case Request(postError) => EnteredAdds(s, postError);
    case StartupReady(version) => if version != SCHEMA_VERSION { MarkFatalAdds(s, Fault("schema")); }
    case StartupFatal(error) => MarkFatalAdds(s, Fault(error));
    case WorkerError(error) => if !s.expectedExit { MarkFatalAdds(s, Fault(error)); }
    case WorkerExit(error) => if !s.expectedExit { MarkFatalAdds(s, Fault(error)); }
    case Close(postError) =>
      var closed := SettleStartup(s.(closed := true, expectedExit := true), StartupRejected(Closed));
      if s.closing.Open? && closed.startupReady && closed.terminalError.None? {
        EnteredAdds(closed.(closing := Waiting(s.nextId)), postError);
      }
    case _ =>
  }

  lemma {:induction false} RunExplains(s: State, log: seq<Event>, events: seq<Event>)
    requires Inv(s) && AllExplained(s, log) && IsRun(s, events)
    ensures AllExplained(After(s, events), log + events)
    decreases |events|
  {
    if events == [] {
      assert log + events == log;
    } else {
      var e, t := events[0], Next(s, events[0]);
      hide Inv, Next, Enabled;
      StepKeepsInv(s, e);
      StepAdds(s, e);
      EventExplains(s, log, e, t);
      RunExplains(t, log + [e], events[1..]);
      assert log + events == (log + [e]) + events[1..];
    }
  }

  lemma EventExplains(s: State, log: seq<Event>, e: Event, t: State)
    requires AllExplained(s, log) && AddsExplained(s, e, t)
    ensures AllExplained(t, log + [e])
  {
    LongerExplains(s, t, log, e);
    hide Answers, Ends;
    var longer := log + [e];
    assert longer[|log|] == e;
    forall settlement | settlement in t.settled ensures Explained(t, longer, settlement) {
      if Answers(e, settlement) { assert Answers(longer[|log|], settlement); }
    }
    if s.terminalError.None? && t.terminalError.Some? { assert Ends(longer[|log|], t.terminalError.value); }
  }

  /** In every order of events a request resolves only with a value that the worker answered to it, and is
      rejected only with a failure that the worker answered to it, because of a close, or with the error that
      ended the client; and that error is one that an event brought. */
  lemma SettledForAReason(events: seq<Event>)
    requires IsRun(INITIAL, events)
    ensures AllExplained(After(INITIAL, events), events)
  {
    RunExplains(INITIAL, [], events);
    assert [] + events == events;
  }
}
