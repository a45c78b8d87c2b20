/** The client of the database worker: requests by number, and the races between answers, worker faults,
    worker exit, startup and close. Every call that settles a promise is recorded. */
module DatabaseClient {
  import opened Options

  const SCHEMA_VERSION := 7

  datatype Error = Closed | ConditionalWrite(text: string) | Fault(text: string)

  datatype Settlement = Resolved(id: nat, value: nat) | Rejected(id: nat, error: Error)

  datatype StartupSettlement = Ready | StartupRejected(error: Error)

  /** `Waiting` is a close that awaits the worker's answer to request `id`. */
  datatype Closing = Open | Waiting(id: nat) | Finished

  /** `pending` keeps the order in which requests were entered. The last three fields list the settling
      calls on requests, on startup and on the fatal promise. */
  datatype State = State(
    pending: seq<nat>, nextId: nat, closed: bool, closing: Closing, expectedExit: bool, terminationStarted: bool,
    startupReady: bool, startupSettled: bool, terminalError: Option<Error>,
    settled: seq<Settlement>, startup: seq<StartupSettlement>, fatal: seq<Error>)

  datatype Event =
    | Request(postError: Option<Error>)
    | StartupReady(schemaVersion: int)
    | StartupFatal(error: string)
    | Response(id: nat, result: Result)
    | WorkerError(error: string)
    | WorkerExit(error: string)
    | Close(postError: Option<Error>)
    | CloseAnswered

  datatype Result = Value(value: nat) | Conditional(text: string) | Failed(text: string)

  function Rejections(ids: seq<nat>, error: Error): seq<Settlement> {
    seq(|ids|, i requires 0 <= i < |ids| => Rejected(ids[i], error))
  }

  function RejectAll(s: State, error: Error): State {
    s.(pending := [], settled := s.settled + Rejections(s.pending, error))
  }

  function SettleStartup(s: State, how: StartupSettlement): State {
    if s.startupSettled then s else s.(startupSettled := true, startup := s.startup + [how])
  }

  function MarkFatal(s: State, error: Error): State {
    var first := s.terminalError.None?;
    var terminal := if first then error else s.terminalError.value;
    var rejected := RejectAll(SettleStartup(s.(terminalError := Some(terminal)), StartupRejected(terminal)), terminal);
    if first then rejected.(fatal := s.fatal + [terminal], terminationStarted := true) else rejected
  }

  function Without(ids: seq<nat>, id: nat): seq<nat> {
    if ids == [] then [] else (if ids[0] == id then [] else [ids[0]]) + Without(ids[1..], id)
  }

  function SettlementOf(id: nat, result: Result): Settlement {
    match result
    case Value(value) => Resolved(id, value)
    case Conditional(text) => Rejected(id, ConditionalWrite(text))
    case Failed(text) => Rejected(id, Fault(text))
  }

  /** Entering a request and posting it; posting may throw. */
  function Entered(s: State, postError: Option<Error>): State {
    var entered := s.(nextId := s.nextId + 1, pending := s.pending + [s.nextId]);
    if postError.None? then entered
    else if s.expectedExit then
      entered.(pending := Without(entered.pending, s.nextId), settled := s.settled + [Rejected(s.nextId, Closed)])
    else MarkFatal(entered, postError.value)
  }

  function BegunClose(s: State, postError: Option<Error>): State {
    if !s.closing.Open? then s
    else
      var closed := SettleStartup(s.(closed := true, expectedExit := true), StartupRejected(Closed));
      if closed.startupReady && closed.terminalError.None? then Entered(closed.(closing := Waiting(s.nextId)), postError)
      else FinishClose(closed)
  }

  function FinishClose(s: State): State {
    RejectAll(s, Closed).(closing := Finished)
  }

  predicate Enabled(s: State, e: Event) {
    match e
    // A request goes on once startup has been resolved; it is refused outright when unavailable.
    case Request(_) => s.startupReady && s.terminalError.None? && !s.closed
    case CloseAnswered => s.closing.Waiting? && s.closing.id !in s.pending
    case _ => true
  }

  function Next(s: State, e: Event): State
    requires Enabled(s, e)
  {
    match e
    case Request(postError) => Entered(s, postError)
    case StartupReady(version) =>
      if version != SCHEMA_VERSION then MarkFatal(s, Fault("schema"))
      else if s.startupSettled then s
      else SettleStartup(s.(startupReady := true), Ready)
    case StartupFatal(error) => MarkFatal(s, Fault(error))
    case Response(id, result) =>
      if id in s.pending then s.(pending := Without(s.pending, id), settled := s.settled + [SettlementOf(id, result)]) else s
    case WorkerError(error) => if s.expectedExit then RejectAll(s, Closed) else MarkFatal(s, Fault(error))
    case WorkerExit(error) => if s.expectedExit then RejectAll(s, Closed) else MarkFatal(s, Fault(error))
    case Close(postError) => BegunClose(s, postError)
    case CloseAnswered => FinishClose(s)
  }

  const INITIAL := State([], 1, false, Open, false, false, false, false, None, [], [], [])

  class Client {
    var pending: seq<nat>
    var nextId: nat
    var closed: bool
    var closing: Closing
    var expectedExit: bool
    var terminationStarted: bool
    var startupReady: bool
    var startupSettled: bool
    var terminalError: Option<Error>
    ghost var settled: seq<Settlement>
    ghost var startup: seq<StartupSettlement>
    ghost var fatal: seq<Error>

    ghost function Now(): State
      reads this
    {
      State(pending, nextId, closed, closing, expectedExit, terminationStarted, startupReady, startupSettled, terminalError,
            settled, startup, fatal)
    }

    constructor ()
      ensures Now() == INITIAL
    {
      pending, nextId, closed, closing, expectedExit, terminationStarted := [], 1, false, Open, false, false;
      startupReady, startupSettled, terminalError, settled, startup, fatal := false, false, None, [], [], [];
    }

    method Send(postError: Option<Error>, allowClosed: bool) returns (id: Option<nat>)
      modifies this
      ensures if old(terminalError).Some? || (old(closed) && !allowClosed) then id.None? && Now() == old(Now())
              else id == Some(old(nextId)) && Now() == Entered(old(Now()), postError)
    {
      if terminalError.Some? || (closed && !allowClosed) {
        return None;
      }
      id := Some(nextId);
      nextId := nextId + 1;
      pending := pending + [id.value];
      if postError.Some? {
        if expectedExit {
          pending := Without(pending, id.value);
          settled := settled + [Rejected(id.value, Closed)];
        } else {
          Fail(postError.value);
        }
      }
    }

    method HandleStartup(schemaVersion: int)
      modifies this
      ensures Now() == Next(old(Now()), StartupReady(schemaVersion))
    {
      if schemaVersion != SCHEMA_VERSION {
        Fail(Fault("schema"));
      } else if !startupSettled {
        startupReady, startupSettled := true, true;
        startup := startup + [Ready];
      }
    }

    method Resolve(id: nat, result: Result)
      modifies this
      ensures Now() == Next(old(Now()), Response(id, result))
    {
      if id !in pending {
        return;
      }
      pending := Without(pending, id);
      match result
      case Value(value) => settled := settled + [Resolved(id, value)];
      case Conditional(text) => settled := settled + [Rejected(id, ConditionalWrite(text))];
      case Failed(text) => settled := settled + [Rejected(id, Fault(text))];
    }

    /** The handlers of the worker's `error` and `exit` events. */
    method HandleEnd(error: string)
      modifies this
      ensures Now() == Next(old(Now()), WorkerExit(error)) == Next(old(Now()), WorkerError(error))
    {
      if expectedExit {
        Reject(Closed);
      } else {
        Fail(Fault(error));
      }
    }

    /** Rejects what is pending, in order. */
    method Reject(error: Error)
      modifies `pending, `settled
      ensures Now() == RejectAll(old(Now()), error)
    {
      var index := 0;
      while index < |pending|
        invariant 0 <= index <= |pending| && pending == old(pending)
        invariant settled == old(settled) + Rejections(pending[..index], error)
      {
        assert Rejections(pending[..index + 1], error) == Rejections(pending[..index], error) + [Rejected(pending[index], error)];
        settled := settled + [Rejected(pending[index], error)];
        index := index + 1;
      }
      assert pending[..index] == pending;
      pending := [];
    }

    /** Startup is rejected unless it has been settled. */
    method RejectStartup(error: Error)
      modifies `startupSettled, `startup
      ensures Now() == SettleStartup(old(Now()), StartupRejected(error))
    {
      if !startupSettled {
        startupSettled := true;
        startup := startup + [StartupRejected(error)];
      }
    }

    method Fail(error: Error)
      modifies this
      ensures Now() == MarkFatal(old(Now()), error)
    {
      hide SettleStartup, RejectAll;
      var firstFailure := terminalError.None?;
      if firstFailure {
        terminalError := Some(error);
      }
      RejectStartup(terminalError.value);
      Reject(terminalError.value);
      if firstFailure {
        fatal := fatal + [terminalError.value];
        if !terminationStarted {
          terminationStarted := true;
        }
      }
    }

    /** The first part of a close, up to waiting for the worker's answer if there is one to wait for. */
    method BeginClose(postError: Option<Error>)
      modifies this
      ensures Now() == BegunClose(old(Now()), postError)
    {
      hide SettleStartup, RejectAll, Entered, MarkFatal;
      if !closing.Open? {
        return;
      }
      closed, expectedExit := true, true;
      RejectStartup(Closed);
      if startupReady && terminalError.None? {
        closing := Waiting(nextId);
        var id := Send(postError, true);
      } else {
        Reject(Closed);
        closing := Finished;
      }
    }

    method FinishClosing()
      requires closing.Waiting? && closing.id !in pending
      modifies this
      ensures Now() == Next(old(Now()), CloseAnswered)
    {
      Reject(Closed);
      closing := Finished;
    }
  }

  // ----- every order of events

  predicate IsRun(s: State, events: seq<Event>)
    decreases |events|
  {
    events == [] || (Enabled(s, events[0]) && IsRun(Next(s, events[0]), events[1..]))
  }

  function After(s: State, events: seq<Event>): State
    requires IsRun(s, events)
    decreases |events|
  {
    if events == [] then s else After(Next(s, events[0]), events[1..])
  }

  /** How often a request was settled. */
  function Settlings(settled: seq<Settlement>, id: nat): nat {
    if settled == [] then 0
    else Settlings(settled[..|settled| - 1], id) + if settled[|settled| - 1].id == id then 1 else 0
  }

  function Occurrences(ids: seq<nat>, id: nat): nat {
    if ids == [] then 0 else Occurrences(ids[..|ids| - 1], id) + if ids[|ids| - 1] == id then 1 else 0
  }

  /** A request that was entered is either pending once or settled once. */
  ghost predicate OnceEach(s: State) {
    forall id: nat :: Occurrences(s.pending, id) + Settlings(s.settled, id) == if 1 <= id < s.nextId then 1 else 0
  }

  ghost predicate Inv(s: State) {
    && s.nextId >= 1 && OnceEach(s)
    && (s.terminalError.Some? ==> s.pending == []) && (s.closing.Finished? ==> s.pending == [])
    && |s.startup| == (if s.startupSettled then 1 else 0)
    && (s.startupReady ==> s.startup == [Ready])
    && s.fatal == (if s.terminalError.Some? then [s.terminalError.value] else [])
    && (s.terminationStarted <==> s.terminalError.Some?)
    && (s.closed <==> s.expectedExit) && (s.closed <==> !s.closing.Open?) && (s.closed ==> s.startupSettled)
    && (s.terminalError.Some? ==> s.startupSettled)
  }

  lemma {:induction false} SettlingsAppend(a: seq<Settlement>, b: seq<Settlement>, id: nat)
    ensures Settlings(a + b, id) == Settlings(a, id) + Settlings(b, id)
    decreases |b|
  {
    if b == [] {
      assert a + b == a;
    } else {
      assert (a + b)[..|a + b| - 1] == a + b[..|b| - 1];
      SettlingsAppend(a, b[..|b| - 1], id);
    }
  }

  lemma {:induction false} RejectionsSettle(ids: seq<nat>, error: Error, id: nat)
    ensures Settlings(Rejections(ids, error), id) == Occurrences(ids, id)
    decreases |ids|
  {
    if ids != [] {
      assert Rejections(ids, error)[..|ids| - 1] == Rejections(ids[..|ids| - 1], error);
      RejectionsSettle(ids[..|ids| - 1], error, id);
    }
  }

  lemma {:induction false} OccurrencesAppend(a: seq<nat>, b: seq<nat>, id: nat)
    ensures Occurrences(a + b, id) == Occurrences(a, id) + Occurrences(b, id)
    decreases |b|
  {
    if b == [] {
      assert a + b == a;
    } else {
      assert (a + b)[..|a + b| - 1] == a + b[..|b| - 1];
      OccurrencesAppend(a, b[..|b| - 1], id);
    }
  }

  lemma {:induction false} WithoutOccurrences(ids: seq<nat>, gone: nat, id: nat)
    ensures Occurrences(Without(ids, gone), id) == if id == gone then 0 else Occurrences(ids, id)
    ensures id in ids <==> Occurrences(ids, id) > 0
    decreases |ids|
  {
    if ids != [] {
      var first, rest := [ids[0]], ids[1..];
      assert ids == first + rest;
      WithoutOccurrences(rest, gone, id);
      OccurrencesAppend(first, rest, id);
      OccurrencesAppend(if ids[0] == gone then [] else first, Without(rest, gone), id);
      assert first[..0] == [];
      assert Occurrences(first, id) == if ids[0] == id then 1 else 0;
    }
  }

  lemma RejectAllOnce(s: State, error: Error)
    requires OnceEach(s)
    ensures OnceEach(RejectAll(s, error))
  {
    forall id: nat ensures Settlings(s.settled + Rejections(s.pending, error), id)
      == Settlings(s.settled, id) + Occurrences(s.pending, id)
    {
      SettlingsAppend(s.settled, Rejections(s.pending, error), id);
      RejectionsSettle(s.pending, error, id);
    }
  }

  lemma SettleOnce(s: State, settlement: Settlement)
    requires OnceEach(s) && settlement.id in s.pending
    ensures OnceEach(s.(pending := Without(s.pending, settlement.id), settled := s.settled + [settlement]))
  {
    var longer := s.settled + [settlement];
    assert longer[..|longer| - 1] == s.settled;
    forall id: nat ensures Occurrences(Without(s.pending, settlement.id), id) + Settlings(longer, id)
      == if 1 <= id < s.nextId then 1 else 0
    {
      WithoutOccurrences(s.pending, settlement.id, id);
      WithoutOccurrences(s.pending, settlement.id, settlement.id);
    }
  }

  lemma EnterOnce(s: State)
    requires OnceEach(s) && s.nextId >= 1
    ensures OnceEach(s.(nextId := s.nextId + 1, pending := s.pending + [s.nextId]))
    ensures s.nextId in s.pending + [s.nextId]
  {
    forall id: nat ensures Occurrences(s.pending + [s.nextId], id) == Occurrences(s.pending, id) + if id == s.nextId then 1 else 0 {
      assert (s.pending + [s.nextId])[..|s.pending|] == s.pending;
    }
  }

  lemma EnteredKept(s: State, postError: Option<Error>)
    requires Inv(s) && s.terminalError.None? && !s.closing.Finished?
    ensures Inv(Entered(s, postError))
  {
    hide OnceEach, Without;
    var entered := s.(nextId := s.nextId + 1, pending := s.pending + [s.nextId]);
    EnterOnce(s);
    if postError.Some? {
      if s.expectedExit {
        SettleOnce(entered, Rejected(s.nextId, Closed));
      } else {
        MarkFatalKept(entered, postError.value);
      }
    }
  }

  lemma MarkFatalKept(s: State, error: Error)
    requires Inv(s)
    ensures Inv(MarkFatal(s, error))
  {
    hide OnceEach;
    var terminal := if s.terminalError.None? then error else s.terminalError.value;
    var settled := SettleStartup(s.(terminalError := Some(terminal)), StartupRejected(terminal));
    assert OnceEach(settled) by { SameOnce(s, settled); }
    RejectAllOnce(settled, terminal);
    SameOnce(RejectAll(settled, terminal), MarkFatal(s, error));
  }

  lemma SameOnce(s: State, t: State)
    requires OnceEach(s) && t.pending == s.pending && t.settled == s.settled && t.nextId == s.nextId
    ensures OnceEach(t)
  {
  }

  lemma FinishKept(s: State)
    requires Inv(s) && s.closed
    ensures Inv(FinishClose(s))
  {
    hide OnceEach;
    RejectAllOnce(s, Closed);
    SameOnce(RejectAll(s, Closed), FinishClose(s));
  }

  lemma StepKeepsInv(s: State, e: Event)
    requires Inv(s) && Enabled(s, e)
    ensures Inv(Next(s, e))
  {
    hide OnceEach, MarkFatal, Entered, Without, RejectAll;
    match e
    case Request(postError) => EnteredKept(s, postError);
    case StartupReady(version) =>
      if version != SCHEMA_VERSION { MarkFatalKept(s, Fault("schema")); } else { SameOnce(s, Next(s, e)); }
    case StartupFatal(error) => MarkFatalKept(s, Fault(error));
    case Response(id, result) => if id in s.pending { SettleOnce(s, SettlementOf(id, result)); ResponseKept(s, id, result); }
    case WorkerError(error) => EndKept(s, error);
    case WorkerExit(error) => EndKept(s, error);
    case Close(postError) =>
      if s.closing.Open? { CloseKept(s, postError); }
    case CloseAnswered => FinishKept(s);
  }

  lemma ResponseKept(s: State, id: nat, result: Result)
    requires Inv(s) && id in s.pending
    ensures Next(s, Response(id, result)) == s.(pending := Without(s.pending, id), settled := s.settled + [SettlementOf(id, result)])
  {
  }

  lemma EndKept(s: State, error: string)
    requires Inv(s)
    ensures Inv(if s.expectedExit then RejectAll(s, Closed) else MarkFatal(s, Fault(error)))
  {
    hide OnceEach, MarkFatal;
    if s.expectedExit { RejectAllOnce(s, Closed); } else { MarkFatalKept(s, Fault(error)); }
  }

  lemma CloseKept(s: State, postError: Option<Error>)
    requires Inv(s) && s.closing.Open?
    ensures Inv(Next(s, Close(postError)))
  {
    hide OnceEach, Entered, RejectAll;
    var closed := SettleStartup(s.(closed := true, expectedExit := true), StartupRejected(Closed));
    SameOnce(s, closed);
    var waiting := closed.(closing := Waiting(s.nextId));
    SameOnce(closed, waiting);
    if closed.startupReady && closed.terminalError.None? {
      EnteredKept(waiting, postError);
    } else {
      FinishKept(waiting);
      FinishedElsewhere(closed, waiting);
    }
  }

  lemma FinishedElsewhere(s: State, t: State)
    requires t == s.(closing := t.closing)
    ensures FinishClose(t) == FinishClose(s)
  {
  }

  lemma {:induction false} RunKeepsInv(s: State, events: seq<Event>)
    requires Inv(s) && IsRun(s, events)
    ensures Inv(After(s, events))
    decreases |events|
  {
    if events != [] {
      hide Inv, Next, Enabled;
      StepKeepsInv(s, events[0]);
      RunKeepsInv(Next(s, events[0]), events[1..]);
    }
  }

  /** In every order of events each request that was entered is settled at most once, and exactly once as
      soon as it is no longer pending; startup is settled at most once and the fatal promise resolves at
      most once, with the first failure. */
  lemma SettledExactlyOnce(events: seq<Event>)
    requires IsRun(INITIAL, events)
    ensures var s := After(INITIAL, events);
            && (forall id: nat | 1 <= id < s.nextId :: Settlings(s.settled, id) == if id in s.pending then 0 else 1)
            && (forall id: nat | !(1 <= id < s.nextId) :: Settlings(s.settled, id) == 0)
            && |s.startup| <= 1
            && s.fatal == (if s.terminalError.Some? then [s.terminalError.value] else [])
  {
    RunKeepsInv(INITIAL, events);
    var s := After(INITIAL, events);
    forall id: nat ensures id in s.pending <==> Occurrences(s.pending, id) > 0 { WithoutOccurrences(s.pending, 0, id); }
  }

  /** A fatal error or a finished close. */
  predicate Over(s: State) { s.terminalError.Some? || s.closing.Finished? }

  lemma {:induction false} OverForGood(s: State, events: seq<Event>)
    requires Inv(s) && IsRun(s, events) && Over(s)
    ensures Over(After(s, events)) && After(s, events).nextId == s.nextId && After(s, events).settled == s.settled
    ensures s.terminalError.Some? ==> After(s, events).terminalError == s.terminalError
    decreases |events|
  {
    if events != [] {
      StepKeepsInv(s, events[0]);
      OverStays(s, events[0]);
      hide Inv, Next, Enabled;
      OverForGood(Next(s, events[0]), events[1..]);
    }
  }

  lemma OverStays(s: State, e: Event)
    requires Inv(s) && Enabled(s, e) && Over(s)
    ensures Over(Next(s, e)) && Next(s, e).nextId == s.nextId && Next(s, e).settled == s.settled
    ensures s.terminalError.Some? ==> Next(s, e).terminalError == s.terminalError
  {
    hide OnceEach;
    assert s.pending == [];
    assert forall error :: s.settled + Rejections([], error) == s.settled;
  }

  /** Once a fatal error has struck or a close has finished, nothing is pending, everything entered has been
      settled, and it stays so: no later event enters or settles a request, and the first error stands. */
  lemma NothingPendingAfterwards(events: seq<Event>, later: seq<Event>)
    requires IsRun(INITIAL, events) && Over(After(INITIAL, events)) && IsRun(After(INITIAL, events), later)
    ensures var s, t := After(INITIAL, events), After(After(INITIAL, events), later);
            && t.pending == [] && (forall id: nat | 1 <= id < t.nextId :: Settlings(t.settled, id) == 1)
            && t.nextId == s.nextId && t.settled == s.settled
            && (s.terminalError.Some? ==> t.terminalError == s.terminalError)
  {
    RunKeepsInv(INITIAL, events);
    OverForGood(After(INITIAL, events), later);
    RunKeepsInv(After(INITIAL, events), later);
    assert forall id: nat :: Occurrences([], id) == 0;
  }
}
