/** Whole runs of the quota engine. Calls queue up on a chain of promises; inside its section a call
    reads the rows it needs one by one and commits at the end, while other calls keep arriving. */
module QuotaRuns {
  import opened Arithmetic
  import opened Options
  import opened QuotaRules
  import opened Sequences

  datatype Work =
    | Acquire(id: Id, bytes: int)
    | Charge(id: Id, bytes: int)
    | Release

  datatype Rates = Rates(token: RateRow, instance: RateRow)

  /** How far a call has come in its section, with what it has read so far. */
  datatype Phase =
    | Waiting
    | Entered(at: int)
    | TokenPriced(at: int, token: RateRow)
    | Priced(at: int, rates: Option<Rates>)
    | TokenRead(at: int, rates: Option<Rates>, tokenUsed: int)
    | BothRead(at: int, rates: Option<Rates>, tokenUsed: int, instanceUsed: int)
    | Done(ok: bool)

  /** A call remembers the tail it found: the promise it waits for. Promises are numbered by their calls. */
  datatype Task = Task(work: Work, previous: Option<nat>, phase: Phase)

  datatype Admission = Admission(id: Id, at: int)

  datatype ChargeEntry = ChargeEntry(day: int, id: Id, bytes: int)

  /** `admissions` and `charges` only record what was committed. */
  datatype State = State(
    quotas: Id -> Quota, ledgers: Ledgers, tasks: seq<Task>, tail: Option<nat>, admissions: seq<Admission>,
    charges: seq<ChargeEntry>)

  datatype Event =
    | Call(work: Work)
    | Enter(i: nat, now: int, refused: bool)
    | Read(i: nat)
    | Throw(i: nat)
    | Commit(i: nat)

  predicate Resolved(s: State, promise: Option<nat>) {
    promise.None? || (promise.value < |s.tasks| && s.tasks[promise.value].phase.Done?)
  }

  predicate Running(phase: Phase) { !phase.Waiting? && !phase.Done? }

  predicate Enabled(s: State, e: Event) {
    match e
    case Call(_) => true
    case Enter(i, _, _) => i < |s.tasks| && s.tasks[i].phase.Waiting? && Resolved(s, s.tasks[i].previous)
    case Read(i) => i < |s.tasks| && Running(s.tasks[i].phase) && !s.tasks[i].phase.BothRead? && !s.tasks[i].work.Release?
    case Throw(i) => i < |s.tasks| && Running(s.tasks[i].phase)
    case Commit(i) => i < |s.tasks| && s.tasks[i].phase.BothRead? && !s.tasks[i].work.Release?
  }

  /** Entering the section: validation, concurrency (`refused`), and the clock. */
  function EnterPhase(work: Work, now: int, refused: bool): Phase {
    match work
    case Release => Done(true)
    case Acquire(_, bytes) => if !ChargeableBytes(bytes) || refused then Done(false) else Entered(now)
    case Charge(_, bytes) =>
      if !ChargeableBytes(bytes) then Done(false) else if bytes == 0 then Done(true) else Priced(now, None)
  }

  /** The next read of a section, which ends it when a limit is exceeded. */
  function ReadPhase(ledgers: Ledgers, quota: Quota, work: Work, phase: Phase): Phase
    requires Running(phase) && !phase.BothRead? && !work.Release?
  {
    match phase
    case Entered(at) =>
      var plan := PlanRate(Row(ledgers, Token(work.id)), quota, at);
      if plan.None? then Done(false) else TokenPriced(at, plan.value)
    case TokenPriced(at, token) =>
      var plan := PlanRate(Row(ledgers, Instance), INSTANCE_QUOTA, at);
      if plan.None? then Done(false) else Priced(at, Some(Rates(token, plan.value)))
    case Priced(at, rates) => TokenRead(at, rates, Used(ledgers, DayAt(at), Token(work.id)))
    case TokenRead(at, rates, tokenUsed) =>
      var instanceUsed := Used(ledgers, DayAt(at), Instance);
      if Fits(tokenUsed, work.bytes, quota) && Fits(instanceUsed, work.bytes, INSTANCE_QUOTA)
      then BothRead(at, rates, tokenUsed, instanceUsed)
      else Done(false)
  }

  /** The transaction of a section: the planned rows are written as they were computed. */
  function Written(ledgers: Ledgers, work: Work, phase: Phase): Ledgers
    requires phase.BothRead? && !work.Release?
  {
    var rated := if phase.rates.Some? then Rated(ledgers, work.id, phase.rates.value.token, phase.rates.value.instance)
                 else ledgers;
    Charged(rated, work.id, DayAt(phase.at), phase.tokenUsed, phase.instanceUsed, work.bytes)
  }

  function SetPhase(s: State, i: nat, phase: Phase): State
    requires i < |s.tasks|
  {
    s.(tasks := s.tasks[i := s.tasks[i].(phase := phase)])
  }

  function Next(s: State, e: Event): State
    requires Enabled(s, e)
  {
    match e
    case Call(work) => s.(tasks := s.tasks + [Task(work, s.tail, Waiting)], tail := Some(|s.tasks|))
    case Enter(i, now, refused) => SetPhase(s, i, EnterPhase(s.tasks[i].work, now, refused))
    case Read(i) =>
      var work := s.tasks[i].work;
      SetPhase(s, i, ReadPhase(s.ledgers, s.quotas(work.id), work, s.tasks[i].phase))
    case Throw(i) => SetPhase(s, i, Done(false))
    case Commit(i) =>
      var work, phase := s.tasks[i].work, s.tasks[i].phase;
      SetPhase(s, i, Done(true)).(
        ledgers := Written(s.ledgers, work, phase),
        admissions := if phase.rates.Some? then s.admissions + [Admission(work.id, phase.at)] else s.admissions,
        charges := s.charges + [ChargeEntry(DayAt(phase.at), work.id, work.bytes)])
  }

  ghost predicate Step(s: State, e: Event, t: State) {
    Enabled(s, e) && t == Next(s, e)
  }

  predicate IsRun(s: State, events: seq<Event>)
    decreases |events|
  {
    events == [] || (Enabled(s, events[0]) && IsRun(Next(s, events[0]), events[1..]))
  }

  function After(s: State, events: seq<Event>): State
    requires IsRun(s, events)
    decreases |events|
  {
    if events == [] then s else After(Next(s, events[0]), events[1..])
  }

  // ----- the promise chain

  /** Every call waits for the one before it, and whatever has begun has only ended calls before it. */
  ghost predicate ChainKept(s: State) {
    && s.tail == (if s.tasks == [] then None else Some(|s.tasks| - 1))
    && (forall i | 0 <= i < |s.tasks| :: s.tasks[i].previous == if i == 0 then None else Some(i - 1))
    && (forall i, j | 0 <= i < j < |s.tasks| && !s.tasks[j].phase.Waiting? :: s.tasks[i].phase.Done?)
  }

  /** What a running section has read is still what the rows say. */
  ghost predicate ReadsKept(s: State, task: Task) {
    Running(task.phase) ==>
      !task.work.Release? && ChargeableBytes(task.work.bytes) &&
      var quota, phase, ledgers := s.quotas(task.work.id), task.phase, s.ledgers;
      var rates := if phase.Priced? || phase.TokenRead? || phase.BothRead? then phase.rates else None;
      && (phase.Entered? ==> task.work.Acquire?)
      && (phase.TokenPriced? ==>
            task.work.Acquire? && Some(phase.token) == PlanRate(Row(ledgers, Token(task.work.id)), quota, phase.at))
      && (phase.Priced? || phase.TokenRead? || phase.BothRead? ==> (rates.Some? <==> task.work.Acquire?))
      && (rates.Some? ==>
            && Some(rates.value.token) == PlanRate(Row(ledgers, Token(task.work.id)), quota, phase.at)
            && Some(rates.value.instance) == PlanRate(Row(ledgers, Instance), INSTANCE_QUOTA, phase.at))
      && (phase.TokenRead? || phase.BothRead? ==>
            phase.tokenUsed == Used(ledgers, DayAt(phase.at), Token(task.work.id)))
      && (phase.BothRead? ==>
            && phase.instanceUsed == Used(ledgers, DayAt(phase.at), Instance)
            && Fits(phase.tokenUsed, task.work.bytes, quota) && Fits(phase.instanceUsed, task.work.bytes, INSTANCE_QUOTA))
  }

  ghost predicate SectionsKept(s: State) {
    ChainKept(s) && forall i | 0 <= i < |s.tasks| :: ReadsKept(s, s.tasks[i])
  }

  lemma StepKeepsChain(s: State, e: Event, t: State)
    requires ChainKept(s) && Step(s, e, t)
    ensures ChainKept(t)
  {
    hide EnterPhase, ReadPhase, Written, ReadsKept;
    if e.Enter? && e.i > 0 { assert s.tasks[e.i].previous == Some(e.i - 1); }
  }

  lemma StepKeepsReads(s: State, e: Event, t: State)
    requires SectionsKept(s) && Step(s, e, t)
    ensures forall i | 0 <= i < |t.tasks| :: ReadsKept(t, t.tasks[i])
  {
    hide PlanRate, Charged, Rated, Row, Used, Fits, ChargeableBytes;
    forall i | 0 <= i < |t.tasks| ensures ReadsKept(t, t.tasks[i]) {
      if e.Commit? {
        // No other section is running.
        assert i != e.i && Running(s.tasks[i].phase) ==> false;
      }
    }
  }

  lemma StepKeepsSections(s: State, e: Event, t: State)
    requires SectionsKept(s) && Step(s, e, t)
    ensures SectionsKept(t)
  {
    hide Next, ChainKept, ReadsKept;
    StepKeepsChain(s, e, t);
    StepKeepsReads(s, e, t);
  }

  predicate Fresh(s: State) {
    s.tasks == [] && s.tail.None? && s.admissions == [] && s.charges == []
  }

  lemma {:induction false} RunKeepsSections(s: State, events: seq<Event>)
    requires SectionsKept(s) && IsRun(s, events)
    ensures SectionsKept(After(s, events))
    decreases |events|
  {
    if events != [] {
      hide SectionsKept, Next;
      StepKeepsSections(s, events[0], Next(s, events[0]));
      RunKeepsSections(Next(s, events[0]), events[1..]);
    }
  }

  /** The chain is a first-come mutex: at most one section runs, calls enter in the order they were
      made, and when no section runs - however the last one ended - the oldest waiting call may enter. */
  lemma FirstComeMutex(start: State, events: seq<Event>)
    requires Fresh(start) && IsRun(start, events)
    ensures var s := After(start, events);
            && (forall i, j | 0 <= i < j < |s.tasks| && !s.tasks[j].phase.Waiting? :: s.tasks[i].phase.Done?)
            && (forall i, now, refused | 0 <= i < |s.tasks| ::
                  Enabled(s, Enter(i, now, refused))
                  <==> s.tasks[i].phase.Waiting? && forall j | 0 <= j < i :: s.tasks[j].phase.Done?)
  {
    RunKeepsSections(start, events);
    var s := After(start, events);
    forall i, now, refused | 0 <= i < |s.tasks|
      ensures Enabled(s, Enter(i, now, refused))
         <==> s.tasks[i].phase.Waiting? && forall j | 0 <= j < i :: s.tasks[j].phase.Done?
    {
      assert s.tasks[i].previous == if i == 0 then None else Some(i - 1);
    }
  }

  /** What a call amounts to as one atomic step. */
  function Effect(s: State, work: Work, at: int): Option<Ledgers>
    requires !work.Release?
  {
    if work.Acquire? then AcquireEffect(s.ledgers, work.id, s.quotas(work.id), work.bytes, at)
    else ChargeEffect(s.ledgers, work.id, s.quotas(work.id), work.bytes, at)
  }

  lemma CommitIsAtomic(s: State, e: Event, t: State)
    requires SectionsKept(s) && Step(s, e, t)
    ensures e.Commit? ==> ChargeableBytes(s.tasks[e.i].work.bytes)
    ensures e.Commit? ==>
      var work, at := s.tasks[e.i].work, s.tasks[e.i].phase.at;
      && Some(t.ledgers) == Effect(s, work, at)
      && t.admissions == s.admissions + (if work.Acquire? then [Admission(work.id, at)] else [])
      && t.charges == s.charges + [ChargeEntry(DayAt(at), work.id, work.bytes)]
    ensures !e.Commit? ==> t.ledgers == s.ledgers && t.admissions == s.admissions && t.charges == s.charges
    ensures t.quotas == s.quotas
  {
    hide PlanRate, Fits, Row, ChargeableBytes, ChainKept;
    if e.Commit? {
      assert ReadsKept(s, s.tasks[e.i]);
    }
  }

  /** Interleaved sections are atomic: in every run a commit writes exactly what the whole call would
      have written in one step on the rows as they are, and no other event touches a row; so a call that
      is denied or throws leaves every row as it was. */
  lemma SectionsAreAtomic(start: State, events: seq<Event>, e: Event)
    requires Fresh(start) && IsRun(start, events) && Enabled(After(start, events), e)
    ensures var s := After(start, events);
            var t := Next(s, e);
            if e.Commit? then Some(t.ledgers) == Effect(s, s.tasks[e.i].work, s.tasks[e.i].phase.at)
            else t.ledgers == s.ledgers && t.admissions == s.admissions && t.charges == s.charges
  {
    hide Next, SectionsKept;
    FreshKept(start);
    RunKeepsSections(start, events);
    CommitIsAtomic(After(start, events), e, Next(After(start, events), e));
  }

  lemma FreshKept(start: State)
    requires Fresh(start)
    ensures SectionsKept(start) && BucketsKept(start)
  {
  }

  // ----- the token bucket

  /** When a key was admitted: the instance counts every admission, a token its own. */
  function Times(admissions: seq<Admission>, key: Key): seq<int> {
    if admissions == [] then []
    else
      var last := admissions[|admissions| - 1];
      Times(admissions[..|admissions| - 1], key) + if key.Instance? || key.id == last.id then [last.at] else []
  }

  /** How far the clock moved forward over some readings; moving back counts for nothing. */
  function Forward(times: seq<int>): int {
    if |times| < 2 then 0
    else Forward(times[..|times| - 1]) + Max(0, times[|times| - 1] - times[|times| - 2])
  }

  /** From any admission to any later one there are at most as many as the burst and the rate over the
      clock's forward movement between the two allow. */
  ghost predicate Bounded(times: seq<int>, quota: Quota) {
    forall i, j | 0 <= i <= j < |times| :: Affordable(times, i, j, quota)
  }

  predicate Affordable(times: seq<int>, i: int, j: int, quota: Quota)
    requires 0 <= i <= j < |times|
  {
    (j - i + 1) as real <= quota.burst as real + Refill(quota, Forward(times[i..j + 1]))
  }

  /** The bucket holds at least what the bound still leaves open, counted from any earlier admission. */
  ghost predicate Open(times: seq<int>, quota: Quota, tokens: real) {
    forall i | 0 <= i < |times| ::
      (|times| - i) as real + tokens <= quota.burst as real + Refill(quota, Forward(times[i..]))
  }

  ghost predicate BucketKept(ledgers: Ledgers, times: seq<int>, key: Key, quota: Quota) {
    && Bounded(times, quota)
    && (times != [] ==>
          && key in ledgers.rates && ledgers.rates[key].updatedAt == times[|times| - 1]
          && ledgers.rates[key].tokens >= 0.0 && Open(times, quota, ledgers.rates[key].tokens))
  }

  lemma RefillAdds(quota: Quota, a: int, b: int)
    ensures Refill(quota, a + b) == Refill(quota, a) + Refill(quota, b)
    ensures a >= 0 ==> Refill(quota, a) >= 0.0
  {
    Distributes(a, b, quota.requestsPerMinute);
    if a >= 0 { Monotone(0, a, quota.requestsPerMinute); }
  }

  lemma ForwardAppends(times: seq<int>, i: nat, at: int)
    requires i < |times|
    ensures (times + [at])[i..] == times[i..] + [at]
    ensures Forward((times + [at])[i..]) == Forward(times[i..]) + Max(0, at - times[|times| - 1])
  {
    var longer := times[i..] + [at];
    assert (times + [at])[i..] == longer;
    assert longer[..|longer| - 1] == times[i..];
  }

  /** One admission keeps the bound: a full bucket is at most the burst, and what was taken is paid for by
      the time that passed. */
  lemma AdmissionKeepsOpen(times: seq<int>, quota: Quota, before: RateRow, at: int, after: RateRow)
    requires Some(after) == PlanRate(Some(before), quota, at)
    requires times != [] && before.updatedAt == times[|times| - 1] && Open(times, quota, before.tokens)
    ensures Open(times + [at], quota, after.tokens)
  {
    var longer := times + [at];
    var elapsed := Max(0, at - before.updatedAt);
    forall i | 0 <= i < |longer|
      ensures (|longer| - i) as real + after.tokens <= quota.burst as real + Refill(quota, Forward(longer[i..]))
    {
      if i < |times| {
        ForwardAppends(times, i, at);
        RefillAdds(quota, Forward(times[i..]), elapsed);
        assert (|times| - i) as real + before.tokens <= quota.burst as real + Refill(quota, Forward(times[i..]));
      } else {
        RefillAdds(quota, 0, 0);
        assert Forward(longer[i..]) == 0;
      }
    }
  }

  lemma OpenKeepsBounded(times: seq<int>, quota: Quota, at: int, tokens: real)
    requires Bounded(times, quota) && Open(times + [at], quota, tokens) && tokens >= 0.0
    ensures Bounded(times + [at], quota)
  {
    var longer := times + [at];
    forall i, j | 0 <= i <= j < |longer| ensures Affordable(longer, i, j, quota) {
      if j < |times| {
        assert longer[i..j + 1] == times[i..j + 1] && Affordable(times, i, j, quota);
      } else {
        assert longer[i..j + 1] == longer[i..];
        assert (|longer| - i) as real + tokens <= quota.burst as real + Refill(quota, Forward(longer[i..]));
      }
    }
  }

  lemma AdmissionKeepsBucket(ledgers: Ledgers, after: Ledgers, times: seq<int>, key: Key, quota: Quota, at: int)
    requires BucketKept(ledgers, times, key, quota)
    requires key in after.rates && Some(after.rates[key]) == PlanRate(Row(ledgers, key), quota, at)
    ensures BucketKept(after, times + [at], key, quota)
  {
    var row := after.rates[key];
    if times == [] {
      RefillAdds(quota, 0, 0);
      assert Open([at], quota, row.tokens);
    } else {
      AdmissionKeepsOpen(times, quota, ledgers.rates[key], at, row);
    }
    OpenKeepsBounded(times, quota, at, row.tokens);
  }

  function QuotaOf(s: State, key: Key): Quota {
    if key.Instance? then INSTANCE_QUOTA else s.quotas(key.id)
  }

  ghost predicate BucketsKept(s: State) {
    forall key :: BucketKept(s.ledgers, Times(s.admissions, key), key, QuotaOf(s, key))
  }

  lemma StepKeepsBuckets(s: State, e: Event, t: State)
    requires SectionsKept(s) && BucketsKept(s) && Step(s, e, t)
    ensures BucketsKept(t)
  {
    CommitIsAtomic(s, e, t);
    hide SectionsKept, BucketKept, PlanRate, Times, AcquireEffect, ChargeEffect;
    forall key ensures BucketKept(t.ledgers, Times(t.admissions, key), key, QuotaOf(t, key)) {
      assert BucketKept(s.ledgers, Times(s.admissions, key), key, QuotaOf(s, key));
      if e.Commit? {
        var work, at := s.tasks[e.i].work, s.tasks[e.i].phase.at;
        if work.Acquire? {
          AcquireKeepsBucket(s.ledgers, work.id, s.quotas(work.id), work.bytes, at, s.admissions, key, QuotaOf(s, key));
        } else {
          ChargeKeepsRates(s.ledgers, work.id, s.quotas(work.id), work.bytes, at);
          SameBucket(s.ledgers, t.ledgers, Times(s.admissions, key), key, QuotaOf(s, key));
          assert t.admissions == s.admissions;
        }
      }
    }
  }

  lemma AcquireKeepsBucket(
    ledgers: Ledgers, id: Id, tokenQuota: Quota, bytes: int, at: int, admissions: seq<Admission>, key: Key, quota: Quota)
    requires BucketKept(ledgers, Times(admissions, key), key, quota)
    requires AcquireEffect(ledgers, id, tokenQuota, bytes, at).Some?
    requires key == Instance ==> quota == INSTANCE_QUOTA
    requires key == Token(id) ==> quota == tokenQuota
    ensures BucketKept(AcquireEffect(ledgers, id, tokenQuota, bytes, at).value, Times(admissions + [Admission(id, at)], key), key, quota)
  {
    AcquireRates(ledgers, id, tokenQuota, bytes, at);
    hide PlanRate, BucketKept, AcquireEffect;
    var after, longer := AcquireEffect(ledgers, id, tokenQuota, bytes, at).value, admissions + [Admission(id, at)];
    assert longer[..|longer| - 1] == admissions;
    if key == Instance || key == Token(id) {
      AdmissionKeepsBucket(ledgers, after, Times(admissions, key), key, quota, at);
    } else {
      assert Times(longer, key) == Times(admissions, key);
      SameBucket(ledgers, after, Times(admissions, key), key, quota);
    }
  }

  lemma ChargeKeepsRates(ledgers: Ledgers, id: Id, quota: Quota, bytes: int, at: int)
    requires ChargeEffect(ledgers, id, quota, bytes, at).Some?
    ensures forall key :: Row(ChargeEffect(ledgers, id, quota, bytes, at).value, key) == Row(ledgers, key)
  {
  }

  lemma AcquireRates(ledgers: Ledgers, id: Id, quota: Quota, bytes: int, at: int)
    requires AcquireEffect(ledgers, id, quota, bytes, at).Some?
    ensures var after := AcquireEffect(ledgers, id, quota, bytes, at).value;
            && Token(id) in after.rates && Some(after.rates[Token(id)]) == PlanRate(Row(ledgers, Token(id)), quota, at)
            && Instance in after.rates && Some(after.rates[Instance]) == PlanRate(Row(ledgers, Instance), INSTANCE_QUOTA, at)
            && forall key | key != Token(id) && key != Instance :: Row(after, key) == Row(ledgers, key)
  {
  }

  lemma SameBucket(ledgers: Ledgers, after: Ledgers, times: seq<int>, key: Key, quota: Quota)
    requires BucketKept(ledgers, times, key, quota)
    requires Row(ledgers, key) == Row(after, key)
    ensures BucketKept(after, times, key, quota)
  {
  }

  lemma {:induction false} RunKeepsBuckets(s: State, events: seq<Event>)
    requires SectionsKept(s) && BucketsKept(s) && IsRun(s, events)
    ensures BucketsKept(After(s, events)) && After(s, events).quotas == s.quotas
    decreases |events|
  {
    if events != [] {
      hide SectionsKept, BucketsKept, Next;
      var next := Next(s, events[0]);
      StepKeepsSections(s, events[0], next);
      StepKeepsBuckets(s, events[0], next);
      CommitIsAtomic(s, events[0], next);
      RunKeepsBuckets(next, events[1..]);
    }
  }

  /** The token bucket bound over whole runs, for every token and for the instance at once, whatever rate
      rows the run started with and however the clock jumps. */
  lemma RateBound(start: State, events: seq<Event>, key: Key, i: nat, j: nat)
    requires Fresh(start) && IsRun(start, events)
    requires i <= j < |Times(After(start, events).admissions, key)|
    ensures var times, quota := Times(After(start, events).admissions, key), QuotaOf(start, key);
            (j - i + 1) as real <= quota.burst as real + Refill(quota, Forward(times[i..j + 1]))
  {
    FreshKept(start);
    RunKeepsBuckets(start, events);
    assert BucketKept(After(start, events).ledgers, Times(After(start, events).admissions, key), key, QuotaOf(start, key));
    assert Affordable(Times(After(start, events).admissions, key), i, j, QuotaOf(start, key));
  }

  predicate NonDecreasing(times: seq<int>) {
    forall i, j | 0 <= i <= j < |times| :: times[i] <= times[j]
  }

  lemma {:induction false} ForwardIsElapsed(times: seq<int>)
    requires NonDecreasing(times) && times != []
    ensures Forward(times) == times[|times| - 1] - times[0]
    decreases |times|
  {
    if |times| > 1 { ForwardIsElapsed(times[..|times| - 1]); }
  }

  function LastIn(times: seq<int>, from: int, to: int): (j: nat)
    requires CountIn(times, from, to) > 0
    ensures j < |times| && from <= times[j] <= to
  {
    if from <= times[|times| - 1] <= to then |times| - 1 else LastIn(times[..|times| - 1], from, to)
  }

  /** Of a non-decreasing sequence, the elements of an interval stand together. */
  lemma {:induction false} IntervalIsRange(times: seq<int>, from: int, to: int)
    requires NonDecreasing(times) && CountIn(times, from, to) > 0
    ensures var first := LastIn(times, from, to) - CountIn(times, from, to) + 1;
            0 <= first && from <= times[first]
    decreases |times|
  {
    var n := |times| - 1;
    var rest := times[..n];
    if CountIn(rest, from, to) > 0 {
      IntervalIsRange(rest, from, to);
      if from <= times[n] <= to {
        assert rest[LastIn(rest, from, to)] <= rest[n - 1] == times[n - 1] <= times[n];
        assert LastIn(rest, from, to) == n - 1;
      }
    }
  }

  lemma BoundedInterval(times: seq<int>, quota: Quota, from: int, to: int)
    requires Bounded(times, quota) && NonDecreasing(times) && from <= to
    ensures CountIn(times, from, to) as real <= quota.burst as real + Refill(quota, to - from)
  {
    hide Refill;
    if CountIn(times, from, to) == 0 {
      RefillAdds(quota, to - from, 0);
    } else {
      IntervalIsRange(times, from, to);
      var j := LastIn(times, from, to);
      var i := j - CountIn(times, from, to) + 1;
      assert Affordable(times, i, j, quota);
      ForwardIsElapsed(times[i..j + 1]);
      RefillAdds(quota, times[j] - times[i], (to - from) - (times[j] - times[i]));
      RefillAdds(quota, (to - from) - (times[j] - times[i]), 0);
    }
  }

  /** With a clock that does not go back, any interval admits at most the burst plus the rate over the
      interval's length. */
  lemma IntervalBound(start: State, events: seq<Event>, key: Key, from: int, to: int)
    requires Fresh(start) && IsRun(start, events) && from <= to
    requires NonDecreasing(Times(After(start, events).admissions, key))
    ensures CountIn(Times(After(start, events).admissions, key), from, to) as real
         <= QuotaOf(start, key).burst as real + Refill(QuotaOf(start, key), to - from)
  {
    hide Times, Bounded, CountIn, NonDecreasing, Refill, Next;
    FreshKept(start);
    RunKeepsBuckets(start, events);
    var s := After(start, events);
    assert BucketKept(s.ledgers, Times(s.admissions, key), key, QuotaOf(start, key));
    BoundedInterval(Times(s.admissions, key), QuotaOf(start, key), from, to);
  }

  // ----- the byte ledger

  function Total(charges: seq<ChargeEntry>, day: int): int {
    if charges == [] then 0
    else
      var last := charges[|charges| - 1];
      Total(charges[..|charges| - 1], day) + if last.day == day then last.bytes else 0
  }

  function TokenTotal(charges: seq<ChargeEntry>, day: int, id: Id): int {
    if charges == [] then 0
    else
      var last := charges[|charges| - 1];
      TokenTotal(charges[..|charges| - 1], day, id) + if last.day == day && last.id == id then last.bytes else 0
  }

  /** Each row is what it was at first and the committed charges, and is within its quota unless it was above
      that at first. */
  ghost predicate DayKept(first: Ledgers, s: State, day: int, id: Id) {
    var tokenFirst, instanceFirst := Used(first, day, Token(id)), Used(first, day, Instance);
    && Used(s.ledgers, day, Token(id)) == tokenFirst + TokenTotal(s.charges, day, id)
    && Used(s.ledgers, day, Instance) == instanceFirst + Total(s.charges, day)
    && Used(s.ledgers, day, Token(id)) <= Max(tokenFirst, s.quotas(id).bytesPerDay)
    && Used(s.ledgers, day, Instance) <= Max(instanceFirst, INSTANCE_QUOTA.bytesPerDay)
  }

  /** What a committed call does to the daily rows. */
  lemma EffectCharges(s: State, work: Work, at: int)
    requires !work.Release? && Effect(s, work, at).Some?
    ensures var day := DayAt(at);
            var tokenUsed, instanceUsed := Used(s.ledgers, day, Token(work.id)), Used(s.ledgers, day, Instance);
            && Fits(tokenUsed, work.bytes, s.quotas(work.id)) && Fits(instanceUsed, work.bytes, INSTANCE_QUOTA)
            && Effect(s, work, at).value.daily == Charged(s.ledgers, work.id, day, tokenUsed, instanceUsed, work.bytes).daily
  {
    hide PlanRate;
  }

  lemma ChargeKeepsDay(first: Ledgers, s: State, t: State, charge: ChargeEntry, day: int, id: Id)
    requires DayKept(first, s, day, id) && t.quotas == s.quotas && t.charges == s.charges + [charge]
    requires var tokenUsed, instanceUsed := Used(s.ledgers, charge.day, Token(charge.id)), Used(s.ledgers, charge.day, Instance);
             && Fits(tokenUsed, charge.bytes, s.quotas(charge.id)) && Fits(instanceUsed, charge.bytes, INSTANCE_QUOTA)
             && t.ledgers.daily == Charged(s.ledgers, charge.id, charge.day, tokenUsed, instanceUsed, charge.bytes).daily
    ensures DayKept(first, t, day, id)
  {
    assert t.charges[..|t.charges| - 1] == s.charges;
    UsedAfter(s.ledgers, t.ledgers, charge, Token(id), day);
    UsedAfter(s.ledgers, t.ledgers, charge, Instance, day);
    hide Used, Charged;
  }

  /** A charge adds its bytes to the two rows it is for and leaves every other row. */
  lemma UsedAfter(ledgers: Ledgers, after: Ledgers, charge: ChargeEntry, key: Key, day: int)
    requires var tokenUsed, instanceUsed := Used(ledgers, charge.day, Token(charge.id)), Used(ledgers, charge.day, Instance);
             after.daily == Charged(ledgers, charge.id, charge.day, tokenUsed, instanceUsed, charge.bytes).daily
    ensures Used(after, day, key) == Used(ledgers, day, key)
              + if day == charge.day && (key == Instance || key == Token(charge.id)) then charge.bytes else 0
  {
  }

  lemma {:induction false} RunKeepsDay(first: Ledgers, s: State, events: seq<Event>, day: int, id: Id)
    requires SectionsKept(s) && DayKept(first, s, day, id) && IsRun(s, events)
    ensures DayKept(first, After(s, events), day, id) && After(s, events).quotas == s.quotas
    decreases |events|
  {
    if events != [] {
      var e, next := events[0], Next(s, events[0]);
      hide SectionsKept, Next, AcquireEffect, ChargeEffect;
      StepKeepsSections(s, e, next);
      CommitIsAtomic(s, e, next);
      if e.Commit? {
        var work, at := s.tasks[e.i].work, s.tasks[e.i].phase.at;
        EffectCharges(s, work, at);
        ChargeKeepsDay(first, s, next, ChargeEntry(DayAt(at), work.id, work.bytes), day, id);
      }
      RunKeepsDay(first, next, events[1..], day, id);
    }
  }

  /** The sum of the token rows of a day. */
  function SumOfRows(ledgers: Ledgers, day: int, ids: seq<Id>): int {
    if ids == [] then 0 else Used(ledgers, day, Token(ids[0])) + SumOfRows(ledgers, day, ids[1..])
  }

  function SumOfTotals(charges: seq<ChargeEntry>, day: int, ids: seq<Id>): int {
    if ids == [] then 0 else TokenTotal(charges, day, ids[0]) + SumOfTotals(charges, day, ids[1..])
  }

  lemma {:induction false} OneEntryOnce(charges: seq<ChargeEntry>, day: int, ids: seq<Id>)
    requires charges != [] && Distinct(ids)
    ensures var last := charges[|charges| - 1];
            SumOfTotals(charges, day, ids) == SumOfTotals(charges[..|charges| - 1], day, ids)
              + if last.day == day && last.id in ids then last.bytes else 0
    decreases |ids|
  {
    if ids != [] {
      assert ids == [ids[0]] + ids[1..];
      OneEntryOnce(charges, day, ids[1..]);
    }
  }

  lemma {:induction false} TotalsAddUp(charges: seq<ChargeEntry>, day: int, ids: seq<Id>)
    requires Distinct(ids) && forall i | 0 <= i < |charges| :: charges[i].id in ids
    ensures SumOfTotals(charges, day, ids) == Total(charges, day)
    decreases |charges|
  {
    if charges == [] {
      NothingCharged(day, ids);
    } else {
      OneEntryOnce(charges, day, ids);
      TotalsAddUp(charges[..|charges| - 1], day, ids);
    }
  }

  lemma {:induction false} NothingCharged(day: int, ids: seq<Id>)
    ensures SumOfTotals([], day, ids) == 0
    decreases |ids|
  {
    if ids != [] { NothingCharged(day, ids[1..]); }
  }

  /** Conservation: whatever rows the run found, under any interleaving each token's row of a day grows by
      its committed charges and no charge takes it above its quota, and the same of the instance; so a ledger
      whose instance row is the sum of its token rows stays one. */
  lemma LedgerConserved(start: State, events: seq<Event>, day: int, ids: seq<Id>)
    requires Fresh(start) && IsRun(start, events) && Distinct(ids)
    requires forall i | 0 <= i < |After(start, events).charges| :: After(start, events).charges[i].id in ids
    ensures var s := After(start, events);
            && s.quotas == start.quotas && (forall id :: DayKept(start.ledgers, s, day, id))
            && (Used(s.ledgers, day, Instance) == SumOfRows(s.ledgers, day, ids)
                <==> Used(start.ledgers, day, Instance) == SumOfRows(start.ledgers, day, ids))
  {
    FreshKept(start);
    var first, s := start.ledgers, After(start, events);
    forall id ensures DayKept(first, s, day, id) && s.quotas == start.quotas { RunKeepsDay(first, start, events, day, id); }
    assert DayKept(first, s, day, 0);
    TotalsAddUp(s.charges, day, ids);
    RowsAreTotals(first, s, day, ids);
  }

  lemma {:induction false} RowsAreTotals(first: Ledgers, s: State, day: int, ids: seq<Id>)
    requires forall id :: DayKept(first, s, day, id)
    ensures SumOfRows(s.ledgers, day, ids) == SumOfRows(first, day, ids) + SumOfTotals(s.charges, day, ids)
    decreases |ids|
  {
    if ids != [] {
      assert DayKept(first, s, day, ids[0]);
      RowsAreTotals(first, s, day, ids[1..]);
    }
  }
}
