/** What the quota engine admits, and what it leaves on the rows: the conditions in numbers, and calls that
    run from their place in the queue to their end. */
module QuotaOutcomes {
  import opened Arithmetic
  import opened Options
  import opened QuotaRules
  import opened QuotaRuns

  /** The lesser of two numbers. */
  predicate IsLesser(r: real, a: real, b: real) { r <= a && r <= b && (r == a || r == b) }

  /** What a bucket has after a pause, before it is capped: each minute brings `perMinute`. */
  predicate IsRefilled(refilled: real, row: RateRow, perMinute: nat, now: int) {
    60_000.0 * (refilled - row.tokens) == if now > row.updatedAt then ((now - row.updatedAt) * perMinute) as real else 0.0
  }

  /** A bucket admits a request exactly from one whole token on; it keeps the lesser of the burst and the
      refilled bucket, less that token. */
  lemma RateAdmitsExactly(row: RateRow, quota: Quota, now: int, refilled: real)
    requires IsRefilled(refilled, row, quota.requestsPerMinute, now)
    ensures PlanRate(Some(row), quota, now).Some? <==> quota.burst >= 1 && refilled >= 1.0
    ensures PlanRate(Some(row), quota, now).Some? ==>
      var after := PlanRate(Some(row), quota, now).value;
      after.updatedAt == now && IsLesser(after.tokens + 1.0, quota.burst as real, refilled)
  {
    assert Refill(quota, 0) == 0.0;
  }

  /** A key that was never seen starts with a full bucket. */
  lemma NewKeyStartsFull(quota: Quota, now: int)
    ensures PlanRate(None, quota, now) == if quota.burst >= 1 then Some(RateRow(quota.burst as real - 1.0, now)) else None
  {
    assert Refill(quota, 0) == 0.0;
  }

  /** Requests planned one after the other on the row of one key. */
  function Planned(row: Option<RateRow>, quota: Quota, times: seq<int>): Option<RateRow> {
    if times == [] then row
    else
      var before := Planned(row, quota, times[..|times| - 1]);
      if |times| > 1 && before.None? then None else PlanRate(before, quota, times[|times| - 1])
  }

  predicate AllAt(times: seq<int>, at: int) { forall i | 0 <= i < |times| :: times[i] == at }

  /** A new key may send exactly its burst at one moment. */
  lemma {:induction false} BurstExactly(quota: Quota, times: seq<int>, at: int)
    requires times != [] && AllAt(times, at)
    ensures Planned(None, quota, times).Some? <==> |times| <= quota.burst
    ensures Planned(None, quota, times).Some? ==> Planned(None, quota, times).value == RateRow((quota.burst - |times|) as real, at)
    decreases |times|
  {
    NewKeyStartsFull(quota, at);
    var before := times[..|times| - 1];
    if |times| > 1 {
      BurstExactly(quota, before, at);
      if Planned(None, quota, before).Some? {
        var row := Planned(None, quota, before).value;
        RateAdmitsExactly(row, quota, at, row.tokens);
      }
    } else {
      assert before == [];
    }
  }

  /** Between any two requests passes the time that brings one token. */
  predicate Spaced(times: seq<int>, perMinute: nat) {
    forall i | 0 < i < |times| :: (times[i] - times[i - 1]) * perMinute >= 60_000
  }

  /** A key whose requests are spaced by its rate is never refused, however long it goes on. */
  lemma {:induction false} SteadyRateIsServed(quota: Quota, row: Option<RateRow>, times: seq<int>)
    requires times != [] && quota.burst >= 1 && Spaced(times, quota.requestsPerMinute)
    requires row.Some? ==> row.value.tokens >= 0.0 && (times[0] - row.value.updatedAt) * quota.requestsPerMinute >= 60_000
    ensures var after := Planned(row, quota, times);
            after.Some? && after.value.tokens >= 0.0 && after.value.updatedAt == times[|times| - 1]
    decreases |times|
  {
    var n := |times| - 1;
    NewKeyStartsFull(quota, times[n]);
    if n > 0 {
      assert Spaced(times[..n], quota.requestsPerMinute);
      SteadyRateIsServed(quota, row, times[..n]);
      IdleKeyIsServed(Planned(row, quota, times[..n]).value, quota, times[n]);
    } else {
      assert times[..n] == [];
      if row.Some? { IdleKeyIsServed(row.value, quota, times[n]); }
    }
  }

  lemma IdleKeyIsServed(row: RateRow, quota: Quota, now: int)
    requires row.tokens >= 0.0 && quota.burst >= 1 && (now - row.updatedAt) * quota.requestsPerMinute >= 60_000
    ensures var after := PlanRate(Some(row), quota, now); after.Some? && after.value.tokens >= 0.0 && after.value.updatedAt == now
  {
    var gained := ((now - row.updatedAt) * quota.requestsPerMinute) as real / 60_000.0;
    if now <= row.updatedAt { Monotone(now - row.updatedAt, 0, quota.requestsPerMinute); }
    RateAdmitsExactly(row, quota, now, row.tokens + gained);
  }

  // ----- one admission in numbers

  /** The bucket of a key has a token for one request. */
  predicate Affords(ledgers: Ledgers, key: Key, burst: nat, perMinute: nat, now: int) {
    burst >= 1 &&
    (key in ledgers.rates ==>
       var row := ledgers.rates[key];
       60_000.0 * row.tokens + (if now > row.updatedAt then (now - row.updatedAt) * perMinute else 0) as real >= 60_000.0)
  }

  /** The bytes of the UTC day leave room for more. */
  predicate HasRoom(ledgers: Ledgers, key: Key, perDay: nat, bytes: int, now: int) {
    (if (now / 86_400_000, key) in ledgers.daily then ledgers.daily[(now / 86_400_000, key)] else 0) + bytes <= perDay
  }

  predicate HasRooms(ledgers: Ledgers, id: Id, quota: Quota, bytes: int, now: int) {
    HasRoom(ledgers, Token(id), quota.bytesPerDay, bytes, now) && HasRoom(ledgers, Instance, 10_737_418_240, bytes, now)
  }

  /** The token by its own quota, the instance by 300 requests a minute and 10 GiB a day. */
  predicate Admits(ledgers: Ledgers, id: Id, quota: Quota, bytes: int, now: int) {
    && Affords(ledgers, Token(id), quota.burst, quota.requestsPerMinute, now) && Affords(ledgers, Instance, 300, 300, now)
    && HasRooms(ledgers, id, quota, bytes, now)
  }

  lemma AffordsExactly(ledgers: Ledgers, key: Key, quota: Quota, now: int)
    ensures PlanRate(Row(ledgers, key), quota, now).Some? <==> Affords(ledgers, key, quota.burst, quota.requestsPerMinute, now)
  {
    if key in ledgers.rates {
      var row := ledgers.rates[key];
      var gained := if now > row.updatedAt then (now - row.updatedAt) * quota.requestsPerMinute else 0;
      RateAdmitsExactly(row, quota, now, row.tokens + gained as real / 60_000.0);
    } else {
      NewKeyStartsFull(quota, now);
    }
  }

  /** A charge is admitted exactly when both days have room for it. */
  lemma ChargeAdmittedExactly(ledgers: Ledgers, id: Id, quota: Quota, bytes: int, now: int)
    ensures ChargeEffect(ledgers, id, quota, bytes, now).Some? <==> HasRooms(ledgers, id, quota, bytes, now)
  {
  }

  /** A request is admitted exactly when both buckets have a token and both days have room. */
  lemma AdmittedExactly(ledgers: Ledgers, id: Id, quota: Quota, bytes: int, now: int)
    ensures AcquireEffect(ledgers, id, quota, bytes, now).Some? <==> Admits(ledgers, id, quota, bytes, now)
  {
    AffordsExactly(ledgers, Token(id), quota, now);
    AffordsExactly(ledgers, Instance, INSTANCE_QUOTA, now);
    hide PlanRate, Affords;
    var tokenRate := PlanRate(Row(ledgers, Token(id)), quota, now);
    var instanceRate := PlanRate(Row(ledgers, Instance), INSTANCE_QUOTA, now);
    if tokenRate.Some? && instanceRate.Some? {
      ChargeAdmittedExactly(Rated(ledgers, id, tokenRate.value, instanceRate.value), id, quota, bytes, now);
    }
  }

  /** The row of a key after a request: one token less, dated now. */
  predicate Taken(before: Ledgers, after: Ledgers, key: Key, burst: nat, perMinute: nat, now: int) {
    && key in after.rates && after.rates[key].updatedAt == now
    && if key in before.rates then
         var row := before.rates[key];
         var gained := if now > row.updatedAt then (now - row.updatedAt) * perMinute else 0;
         IsLesser(after.rates[key].tokens + 1.0, burst as real, row.tokens + gained as real / 60_000.0)
       else after.rates[key].tokens + 1.0 == burst as real
  }

  /** Which rows an admission writes, and what they say. */
  lemma AdmissionLeaves(ledgers: Ledgers, id: Id, quota: Quota, bytes: int, now: int)
    requires AcquireEffect(ledgers, id, quota, bytes, now).Some?
    ensures var after := AcquireEffect(ledgers, id, quota, bytes, now).value;
            && Taken(ledgers, after, Token(id), quota.burst, quota.requestsPerMinute, now)
            && Taken(ledgers, after, Instance, 300, 300, now)
            && after.rates.Keys == ledgers.rates.Keys + {Token(id), Instance}
            && forall key | key in ledgers.rates && key != Token(id) && key != Instance :: after.rates[key] == ledgers.rates[key]
  {
    AcquireRates(ledgers, id, quota, bytes, now);
    TakenByPlan(ledgers, AcquireEffect(ledgers, id, quota, bytes, now).value, Token(id), quota, now);
    TakenByPlan(ledgers, AcquireEffect(ledgers, id, quota, bytes, now).value, Instance, INSTANCE_QUOTA, now);
    hide PlanRate, Taken;
  }

  lemma TakenByPlan(ledgers: Ledgers, after: Ledgers, key: Key, quota: Quota, now: int)
    requires key in after.rates && Some(after.rates[key]) == PlanRate(Row(ledgers, key), quota, now)
    ensures Taken(ledgers, after, key, quota.burst, quota.requestsPerMinute, now)
  {
    if key in ledgers.rates {
      var row := ledgers.rates[key];
      var gained := if now > row.updatedAt then (now - row.updatedAt) * quota.requestsPerMinute else 0;
      RateAdmitsExactly(row, quota, now, row.tokens + gained as real / 60_000.0);
    } else {
      NewKeyStartsFull(quota, now);
    }
  }

  /** A charge adds its bytes to the day of the token and of the instance, and to no other row. */
  lemma ChargeLeaves(ledgers: Ledgers, id: Id, quota: Quota, bytes: int, now: int, day: int, key: Key)
    requires ChargeEffect(ledgers, id, quota, bytes, now).Some?
    ensures var after := ChargeEffect(ledgers, id, quota, bytes, now).value;
            var charged := day == now / 86_400_000 && (key == Token(id) || key == Instance);
            && after.rates == ledgers.rates && ((day, key) in after.daily <==> charged || (day, key) in ledgers.daily)
            && (charged ==>
                  after.daily[(day, key)] == bytes + if (day, key) in ledgers.daily then ledgers.daily[(day, key)] else 0)
            && (!charged && (day, key) in ledgers.daily ==> after.daily[(day, key)] == ledgers.daily[(day, key)])
  {
  }

  /** The bytes of an admission are charged like any others. */
  lemma AdmissionCharges(ledgers: Ledgers, id: Id, quota: Quota, bytes: int, now: int)
    requires AcquireEffect(ledgers, id, quota, bytes, now).Some?
    ensures ChargeEffect(ledgers, id, quota, bytes, now).Some?
    ensures AcquireEffect(ledgers, id, quota, bytes, now).value.daily == ChargeEffect(ledgers, id, quota, bytes, now).value.daily
  {
    hide PlanRate;
  }

  // ----- from the queue to the end

  lemma RunsOn(s: State, e: Event, rest: seq<Event>)
    requires Enabled(s, e) && IsRun(Next(s, e), rest)
    ensures IsRun(s, [e] + rest) && After(s, [e] + rest) == After(Next(s, e), rest)
  {
    hide Next, Enabled;
    assert ([e] + rest)[1..] == rest;
  }

  lemma LastEvent(s: State, e: Event)
    requires Enabled(s, e)
    ensures IsRun(s, [e]) && After(s, [e]) == Next(s, e)
  {
    hide Next, Enabled;
    RunsNowhere(Next(s, e));
  }

  lemma RunsNowhere(s: State)
    ensures IsRun(s, []) && After(s, []) == s
  {
  }

  lemma ReadMoves(s: State, i: nat, phase: Phase)
    requires i < |s.tasks| && !s.tasks[i].work.Release? && Running(phase) && !phase.BothRead?
    ensures Enabled(SetPhase(s, i, phase), Read(i))
    ensures Next(SetPhase(s, i, phase), Read(i))
         == SetPhase(s, i, ReadPhase(s.ledgers, s.quotas(s.tasks[i].work.id), s.tasks[i].work, phase))
  {
    hide ReadPhase;
  }

  /** Every event is of this call's section. */
  predicate OfCall(section: seq<Event>, i: nat) {
    forall e | e in section :: (e.Enter? || e.Read? || e.Commit?) && e.i == i
  }

  lemma BytesAreRead(s: State, i: nat, at: int, rates: Option<Rates>) returns (section: seq<Event>)
    requires i < |s.tasks| && !s.tasks[i].work.Release?
    ensures OfCall(section, i) && IsRun(SetPhase(s, i, Priced(at, rates)), section)
    ensures var work, t := s.tasks[i].work, After(SetPhase(s, i, Priced(at, rates)), section);
            if HasRooms(s.ledgers, work.id, s.quotas(work.id), work.bytes, at) then
              t == SetPhase(s, i, BothRead(at, rates, Used(s.ledgers, DayAt(at), Token(work.id)), Used(s.ledgers, DayAt(at), Instance)))
            else t == SetPhase(s, i, Done(false))
  {
    var work, quota := s.tasks[i].work, s.quotas(s.tasks[i].work.id);
    var priced := Priced(at, rates);
    var read := ReadPhase(s.ledgers, quota, work, priced);
    ReadMoves(s, i, priced);
    ReadMoves(s, i, read);
    hide Next, Enabled, IsRun, After;
    LastEvent(SetPhase(s, i, read), Read(i));
    RunsOn(SetPhase(s, i, priced), Read(i), [Read(i)]);
    section := [Read(i)] + [Read(i)];
  }

  /** A call is at the head of the queue: it waits, and those before it have ended. */
  ghost predicate AtHead(s: State, i: nat) {
    i < |s.tasks| && s.tasks[i].phase.Waiting? && forall j | 0 <= j < i :: s.tasks[j].phase.Done?
  }

  /** A call joins the end of the queue as it was made, and is at its head when the calls before it have ended. */
  lemma CallIsQueued(s: State, work: Work)
    ensures Enabled(s, Call(work))
    ensures var t, i := Next(s, Call(work)), |s.tasks|;
            && |t.tasks| == i + 1 && t.tasks[..i] == s.tasks && t.tasks[i].work == work
            && (AtHead(t, i) <==> forall j | 0 <= j < i :: s.tasks[j].phase.Done?)
            && t.ledgers == s.ledgers && t.admissions == s.admissions && t.charges == s.charges
  {
    var t := Next(s, Call(work));
    assert forall j | 0 <= j < |s.tasks| :: t.tasks[j] == s.tasks[j];
  }

  lemma HeadEnters(s: State, i: nat, now: int, refused: bool)
    requires SectionsKept(s) && AtHead(s, i)
    ensures Enabled(s, Enter(i, now, refused))
    ensures Next(s, Enter(i, now, refused)) == SetPhase(s, i, EnterPhase(s.tasks[i].work, now, refused))
  {
    hide ReadsKept, EnterPhase;
    assert s.tasks[i].previous == if i == 0 then None else Some(i - 1);
  }

  /** Which calls end as soon as they enter: releases and charges of nothing well, bad byte counts and requests
      that find no room for one more badly. */
  lemma EndsAtOnce(s: State, i: nat, now: int, refused: bool)
    requires SectionsKept(s) && AtHead(s, i)
    ensures var work, t := s.tasks[i].work, Next(s, Enter(i, now, refused));
            var bad := !work.Release? && !(0 <= work.bytes <= 9_007_199_254_740_991);
            && (t == SetPhase(s, i, Done(true)) <==> work.Release? || (work.Charge? && work.bytes == 0))
            && (t == SetPhase(s, i, Done(false)) <==> bad || (work.Acquire? && refused))
  {
    HeadEnters(s, i, now, refused);
    var t := Next(s, Enter(i, now, refused));
    assert t.tasks[i].phase == EnterPhase(s.tasks[i].work, now, refused);
  }

  /** What a section that has read everything commits. */
  lemma SectionCommits(s: State, i: nat, phase: Phase)
    requires i < |s.tasks| && phase.BothRead? && SectionsKept(SetPhase(s, i, phase)) && !s.tasks[i].work.Release?
    ensures Enabled(SetPhase(s, i, phase), Commit(i))
    ensures var work, t := s.tasks[i].work, Next(SetPhase(s, i, phase), Commit(i));
            && t.tasks == s.tasks[i := s.tasks[i].(phase := Done(true))]
            && Some(t.ledgers) == Effect(s, work, phase.at)
            && t.admissions == s.admissions + (if work.Acquire? then [Admission(work.id, phase.at)] else [])
            && t.charges == s.charges + [ChargeEntry(DayAt(phase.at), work.id, work.bytes)]
  {
    var read := SetPhase(s, i, phase);
    hide Written, SectionsKept, AcquireEffect, ChargeEffect;
    CommitIsAtomic(read, Commit(i), Next(read, Commit(i)));
  }

  /** What a decided call leaves: it has committed as one step, or nothing but its own end has changed. */
  ghost predicate Decided(s: State, t: State, i: nat, at: int, admitted: bool)
    requires i < |s.tasks| && !s.tasks[i].work.Release?
  {
    var work := s.tasks[i].work;
    if admitted then
      && t.tasks == s.tasks[i := s.tasks[i].(phase := Done(true))]
      && Some(t.ledgers) == Effect(s, work, at)
      && t.admissions == s.admissions + (if work.Acquire? then [Admission(work.id, at)] else [])
      && t.charges == s.charges + [ChargeEntry(DayAt(at), work.id, work.bytes)]
    else t == SetPhase(s, i, Done(false))
  }

  lemma PricedIsDecided(s: State, i: nat, at: int, rates: Option<Rates>) returns (section: seq<Event>)
    requires i < |s.tasks| && !s.tasks[i].work.Release? && SectionsKept(SetPhase(s, i, Priced(at, rates)))
    ensures OfCall(section, i) && IsRun(SetPhase(s, i, Priced(at, rates)), section)
    ensures var work := s.tasks[i].work;
            Decided(s, After(SetPhase(s, i, Priced(at, rates)), section), i, at,
                    HasRooms(s.ledgers, work.id, s.quotas(work.id), work.bytes, at))
  {
    hide Next, Enabled, SectionsKept, HasRooms, Effect, IsRun, After;
    var work, priced := s.tasks[i].work, SetPhase(s, i, Priced(at, rates));
    section := BytesAreRead(s, i, at, rates);
    RunKeepsSections(priced, section);
    var read := After(priced, section);
    if HasRooms(s.ledgers, work.id, s.quotas(work.id), work.bytes, at) {
      SectionCommits(s, i, read.tasks[i].phase);
      LastEvent(read, Commit(i));
      RunsFurther(priced, section, Commit(i));
      section := section + [Commit(i)];
    }
  }

  lemma {:induction false} RunsFurther(s: State, events: seq<Event>, e: Event)
    requires IsRun(s, events) && Enabled(After(s, events), e)
    ensures IsRun(s, events + [e]) && After(s, events + [e]) == Next(After(s, events), e)
    decreases |events|
  {
    hide Next, Enabled;
    if events == [] {
      LastEvent(s, e);
      assert events + [e] == [e];
    } else {
      RunsFurther(Next(s, events[0]), events[1..], e);
      RunsOn(s, events[0], events[1..] + [e]);
      assert events + [e] == [events[0]] + (events[1..] + [e]);
    }
  }

  lemma EnteredIsDecided(s: State, i: nat, at: int) returns (section: seq<Event>)
    requires i < |s.tasks| && s.tasks[i].work.Acquire? && SectionsKept(SetPhase(s, i, Entered(at)))
    ensures OfCall(section, i) && IsRun(SetPhase(s, i, Entered(at)), section)
    ensures var work := s.tasks[i].work;
            Decided(s, After(SetPhase(s, i, Entered(at)), section), i, at,
                    Admits(s.ledgers, work.id, s.quotas(work.id), work.bytes, at))
  {
    var work := s.tasks[i].work;
    var quota := s.quotas(work.id);
    AffordsExactly(s.ledgers, Token(work.id), quota, at);
    AffordsExactly(s.ledgers, Instance, INSTANCE_QUOTA, at);
    ReadMoves(s, i, Entered(at));
    hide Next, Enabled, SectionsKept, HasRooms, Affords, Effect, PlanRate, IsRun, After;
    var first := ReadPhase(s.ledgers, quota, work, Entered(at));
    if first.Done? {
      LastEvent(SetPhase(s, i, Entered(at)), Read(i));
      section := [Read(i)];
    } else {
      ReadMoves(s, i, first);
      var second := ReadPhase(s.ledgers, quota, work, first);
      var rest: seq<Event>;
      if second.Done? {
        RunsNowhere(SetPhase(s, i, second));
        rest := [];
      } else {
        StepKeepsSections(SetPhase(s, i, Entered(at)), Read(i), SetPhase(s, i, first));
        StepKeepsSections(SetPhase(s, i, first), Read(i), SetPhase(s, i, second));
        rest := PricedIsDecided(s, i, at, second.rates);
      }
      RunsOn(SetPhase(s, i, first), Read(i), rest);
      RunsOn(SetPhase(s, i, Entered(at)), Read(i), [Read(i)] + rest);
      section := [Read(i)] + ([Read(i)] + rest);
    }
  }

  /** In every run, a request at the head of the queue that finds room for one more active request, left to
      itself, is admitted exactly when both buckets have a token and both days have room. */
  lemma RequestIsDecided(start: State, events: seq<Event>, i: nat, now: int) returns (section: seq<Event>)
    requires Fresh(start) && IsRun(start, events) && AtHead(After(start, events), i)
    requires After(start, events).tasks[i].work.Acquire? && ChargeableBytes(After(start, events).tasks[i].work.bytes)
    ensures var s, work := After(start, events), After(start, events).tasks[i].work;
            && OfCall(section, i) && IsRun(s, section)
            && Decided(s, After(s, section), i, now, Admits(s.ledgers, work.id, s.quotas(work.id), work.bytes, now))
  {
    hide SectionsKept, Decided, Admits, Next, Enabled;
    FreshKept(start);
    RunKeepsSections(start, events);
    var s := After(start, events);
    HeadEnters(s, i, now, false);
    StepKeepsSections(s, Enter(i, now, false), SetPhase(s, i, Entered(now)));
    hide IsRun, After;
    section := EnteredIsDecided(s, i, now);
    RunsOn(s, Enter(i, now, false), section);
    section := [Enter(i, now, false)] + section;
  }

  /** The same of a charge, which asks no rate. */
  lemma ChargeIsDecided(start: State, events: seq<Event>, i: nat, now: int) returns (section: seq<Event>)
    requires Fresh(start) && IsRun(start, events) && AtHead(After(start, events), i)
    requires var work := After(start, events).tasks[i].work; work.Charge? && 0 < work.bytes <= MAX_SAFE_INTEGER
    ensures var s, work := After(start, events), After(start, events).tasks[i].work;
            && OfCall(section, i) && IsRun(s, section)
            && Decided(s, After(s, section), i, now, HasRooms(s.ledgers, work.id, s.quotas(work.id), work.bytes, now))
  {
    hide SectionsKept, Decided, HasRooms, Next, Enabled;
    FreshKept(start);
    RunKeepsSections(start, events);
    var s := After(start, events);
    HeadEnters(s, i, now, false);
    StepKeepsSections(s, Enter(i, now, false), SetPhase(s, i, Priced(now, None)));
    hide IsRun, After;
    section := PricedIsDecided(s, i, now, None);
    RunsOn(s, Enter(i, now, false), section);
    section := [Enter(i, now, false)] + section;
  }

  /** Over whole runs: a token that has been idle for the time of one request, or has never been seen, is not
      refused by the rate, nor is the instance. */
  lemma IdleIsNotRefused(start: State, events: seq<Event>, key: Key, now: int)
    requires Fresh(start) && IsRun(start, events) && QuotaOf(start, key).burst >= 1
    requires forall other | other in start.ledgers.rates :: start.ledgers.rates[other].tokens >= 0.0
    requires var s := After(start, events);
             key in s.ledgers.rates ==> (now - s.ledgers.rates[key].updatedAt) * QuotaOf(start, key).requestsPerMinute >= 60_000
    ensures var s, quota := After(start, events), QuotaOf(start, key);
            Affords(s.ledgers, key, quota.burst, quota.requestsPerMinute, now)
  {
    var s, quota := After(start, events), QuotaOf(start, key);
    NeverOverdrawn(start, events);
    AffordsExactly(s.ledgers, key, quota, now);
    if key in s.ledgers.rates {
      IdleKeyIsServed(s.ledgers.rates[key], quota, now);
    } else {
      NewKeyStartsFull(quota, now);
    }
  }

  lemma NeverOverdrawn(start: State, events: seq<Event>)
    requires Fresh(start) && IsRun(start, events)
    requires forall key | key in start.ledgers.rates :: start.ledgers.rates[key].tokens >= 0.0
    ensures forall key | key in After(start, events).ledgers.rates :: After(start, events).ledgers.rates[key].tokens >= 0.0
  {
    hide SectionsKept;
    FreshKept(start);
    RunNeverOverdraws(start, events);
  }

  lemma {:induction false} RunNeverOverdraws(s: State, events: seq<Event>)
    requires SectionsKept(s) && IsRun(s, events)
    requires forall key | key in s.ledgers.rates :: s.ledgers.rates[key].tokens >= 0.0
    ensures forall key | key in After(s, events).ledgers.rates :: After(s, events).ledgers.rates[key].tokens >= 0.0
    decreases |events|
  {
    if events != [] {
      hide SectionsKept, Next, AcquireEffect, ChargeEffect;
      var e, next := events[0], Next(s, events[0]);
      StepKeepsSections(s, e, next);
      CommitIsAtomic(s, e, next);
      if e.Commit? { EffectKeepsTokens(s, s.tasks[e.i].work, s.tasks[e.i].phase.at); }
      RunNeverOverdraws(next, events[1..]);
    }
  }

  lemma EffectKeepsTokens(s: State, work: Work, at: int)
    requires !work.Release? && Effect(s, work, at).Some?
    requires forall key | key in s.ledgers.rates :: s.ledgers.rates[key].tokens >= 0.0
    ensures var after := Effect(s, work, at).value; forall key | key in after.rates :: after.rates[key].tokens >= 0.0
  {
    if work.Acquire? {
      AcquireRates(s.ledgers, work.id, s.quotas(work.id), work.bytes, at);
      var after := Effect(s, work, at).value;
      forall key | key in after.rates ensures after.rates[key].tokens >= 0.0 {
        if key != Token(work.id) && key != Instance { assert Row(after, key) == Row(s.ledgers, key); }
      }
    }
  }
}
