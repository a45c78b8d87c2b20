/** What the quota object answers: exactly which requests it admits, why it refuses the others, and what its
    advice to retry later is worth. */
module DurableOutcomes {
  import opened Arithmetic
  import opened DurableQuota
  import opened Options

  function Requests(store: Store, window: Window, bucket: int): int {
    if (window, bucket) in store.buckets then store.buckets[(window, bucket)].count else 0
  }

  function Bytes(store: Store, day: int): int {
    if (Day, day) in store.buckets then store.buckets[(Day, day)].bytes else 0
  }

  /** The leases that count against a request: those that have not expired, of its kind. */
  function Rivals(leases: seq<Lease>, now: int, http: bool): set<Lease> {
    set lease | lease in leases && lease.expiresAt > now && lease.transport.Http? == http
  }

  /** A lease of that id has not expired. */
  predicate InUse(store: Store, input: Input) {
    exists lease :: lease in store.leases && lease.requestId == input.requestId && lease.expiresAt > input.now
  }

  predicate MinuteFull(store: Store, input: Input) {
    Requests(store, Minute, input.now / 60_000) >= input.limits.requestsPerMinute
  }

  predicate SecondFull(store: Store, input: Input) {
    Requests(store, Second, input.now / 1_000) >= input.limits.burstPerSecond
  }

  predicate Crowded(store: Store, input: Input) {
    |Rivals(store.leases, input.now, input.transport.Http?)| >= if input.transport.Http? then input.limits.concurrentHttp else input.limits.concurrentTunnels
  }

  predicate DayFull(store: Store, input: Input) {
    Bytes(store, input.now / 86_400_000) + input.requestBytes > input.limits.bytesPerDay
  }

  /** The wait ends at the first moment of the next window. */
  predicate UntilNext(now: int, wait: int, span: int)
    requires span > 0
  {
    (now + wait) / span == now / span + 1 && (now + wait - 1) / span == now / span
  }

  lemma RivalsFirst(leases: seq<Lease>, now: int, http: bool)
    requires leases != []
    ensures var first, others := leases[0], Rivals(leases[1..], now, http);
            Rivals(leases, now, http) == if first.expiresAt > now && first.transport.Http? == http then others + {first} else others
  {
    assert leases == [leases[0]] + leases[1..];
  }

  lemma {:induction false} ActiveAreRivals(leases: seq<Lease>, now: int, http: bool)
    requires DistinctIds(leases)
    ensures ActiveCount(Unexpired(leases, now), !http) == |Rivals(leases, now, http)|
    decreases |leases|
  {
    if leases == [] {
      assert Rivals(leases, now, http) == {};
    } else {
      var first, rest := leases[0], leases[1..];
      ActiveAreRivals(rest, now, http);
      RivalsFirst(leases, now, http);
      assert first !in Rivals(rest, now, http);
      hide Rivals;
      CountFirst(first, Unexpired(rest, now), !http);
      assert [] + Unexpired(rest, now) == Unexpired(rest, now);
    }
  }

  lemma InUseExactly(store: Store, input: Input)
    ensures var found := Find(Unexpired(store.leases, input.now), input.requestId);
            && (found.Some? <==> InUse(store, input))
            && (found.Some? ==> found.value in store.leases && found.value.requestId == input.requestId
                                && found.value.expiresAt > input.now)
  {
    UnexpiredExactly(store.leases, input.now);
    Finds(Unexpired(store.leases, input.now), input.requestId);
    hide Unexpired, Find;
  }

  /** Every answer, from the stored rows: what is admitted and until when, and why the rest is refused. */
  lemma VerdictExactly(store: Store, input: Input)
    requires DistinctIds(store.leases)
    ensures var verdict := Verdict(store, input);
            var rated := MinuteFull(store, input) || SecondFull(store, input);
            && (verdict == Allowed(input.now + input.leaseTtlMs)
                <==> !InUse(store, input) && !rated && !Crowded(store, input) && !DayFull(store, input))
            && (verdict.Denied? <==> verdict != Allowed(input.now + input.leaseTtlMs))
            && (verdict.Denied? ==>
                  && (verdict.code == RateLimited <==> !InUse(store, input) && rated)
                  && (verdict.code == QuotaExceeded <==> !InUse(store, input) && !rated && !Crowded(store, input)))
  {
    InUseExactly(store, input);
    ActiveAreRivals(store.leases, input.now, input.transport.Http?);
    hide InUse, Find, Unexpired, ActiveCount;
  }

  /** How long a refused request is told to wait: until its id is free, until the window that is full has
      passed, or a second when there are too many like it. */
  lemma WaitsExactly(store: Store, input: Input)
    requires Verdict(store, input).Denied?
    ensures var wait := Verdict(store, input).retryAfterMs;
            if InUse(store, input) then
              exists lease :: lease in store.leases && lease.requestId == input.requestId && wait == lease.expiresAt - input.now > 0
            else if MinuteFull(store, input) then UntilNext(input.now, wait, 60_000)
            else if SecondFull(store, input) then UntilNext(input.now, wait, 1_000)
            else if Verdict(store, input).code == QuotaExceeded then UntilNext(input.now, wait, 86_400_000)
            else wait == 1_000
  {
    InUseExactly(store, input);
    WindowEnds(input.now, 1_000);
    WindowEnds(input.now, 60_000);
    WindowEnds(input.now, 86_400_000);
    hide InUse, Find, Unexpired, ActiveCount, UntilNext;
  }

  lemma WindowEnds(now: int, span: int)
    requires span in {1_000, 60_000, 86_400_000}
    ensures UntilNext(now, (now / span + 1) * span - now, span)
  {
    if span == 1_000 {
    } else if span == 60_000 {
    } else {
    }
  }

  /** What a release leaves of the rows: those of the last two minutes of seconds, two hours of minutes and two
      days, and the row it charges. */
  lemma SweptExactly(store: Store, id: nat, responseBytes: int, requestBytes: int, now: int, window: Window, bucket: int)
    ensures (window, bucket) in AfterRelease(store, id, responseBytes, requestBytes, now).buckets <==>
      && ((window, bucket) in store.buckets || (window.Day? && bucket == now / 86_400_000))
      && bucket >= match window
                   case Second => now / 1_000 - 120
                   case Minute => now / 60_000 - 120
                   case Day => now / 86_400_000 - 2
  {
    hide WithoutLease, Find, ChargedOnRelease;
  }

  /** The alarm is set to the expiry of the lease that expires first. */
  lemma AlarmIsFirstExpiry(leases: seq<Lease>)
    ensures NextAlarm(leases).Some? ==>
      && (forall lease | lease in leases :: NextAlarm(leases).value <= lease.expiresAt)
      && exists lease :: lease in leases && lease.expiresAt == NextAlarm(leases).value
    ensures NextAlarm(leases).None? ==> leases == [] || exists lease :: lease in leases && lease.expiresAt == 0
  {
    if leases != [] {
      EarliestIsLeast(leases);
      hide Earliest;
      var lease :| lease in leases && lease.expiresAt == Earliest(leases);
    }
  }

  /** A release frees the lease of its request and no other. */
  lemma ReleaseFrees(store: Store, id: nat, responseBytes: int, requestBytes: int, now: int)
    ensures forall lease :: lease in AfterRelease(store, id, responseBytes, requestBytes, now).leases
              <==> lease in store.leases && lease.requestId != id
  {
    WithoutExactly(store.leases, id);
    hide WithoutLease;
  }

  lemma {:induction false} WithoutExactly(leases: seq<Lease>, id: nat)
    ensures forall lease :: lease in WithoutLease(leases, id) <==> lease in leases && lease.requestId != id
  {
    if leases != [] {
      assert leases == [leases[0]] + leases[1..];
      WithoutExactly(leases[1..], id);
    }
  }

  /** A lease that is renewed holds until the new time and is otherwise what it was. */
  lemma RenewedUntil(store: Store, lease: Lease, now: int, leaseTtlMs: int)
    requires lease in store.leases && lease.expiresAt > now
    ensures lease.(expiresAt := now + leaseTtlMs) in AfterRenew(store, lease.requestId, now, leaseTtlMs).leases
  {
    UnexpiredExactly(store.leases, now);
    Finds(Unexpired(store.leases, now), lease.requestId);
    RenewedHere(Unexpired(store.leases, now), lease, now + leaseTtlMs);
    hide Unexpired, Find, Renewed;
  }

  lemma {:induction false} RenewedHere(leases: seq<Lease>, lease: Lease, expiresAt: int)
    requires lease in leases
    ensures lease.(expiresAt := expiresAt) in Renewed(leases, lease.requestId, expiresAt)
  {
    if lease != leases[0] { RenewedHere(leases[1..], lease, expiresAt); }
  }

  // ----- over whole runs

  /** The leases after each operation: expired ones are gone, except that a release looks at its own alone; an
      admission adds one, and a renewal moves one. */
  lemma LeasesAfter(s: State, e: Event)
    ensures var before, after := s.store.leases, Next(s, e).store.leases;
            match e
            case Acquire(input) =>
              var granted := Lease(input.requestId, input.transport, input.requestBytes, input.now + input.leaseTtlMs);
              forall lease :: lease in after <==>
                (lease in before && lease.expiresAt > input.now) || (Verdict(s.store, input).Allowed? && lease == granted)
            case Release(id, _, _, _) => forall lease :: lease in after <==> lease in before && lease.requestId != id
            case Renew(id, now, ttl) =>
              && (forall lease: Lease | lease.requestId != id :: lease in after <==> lease in before && lease.expiresAt > now)
              && (forall lease | lease in before && lease.requestId == id && lease.expiresAt > now ::
                    lease.(expiresAt := now + ttl) in after)
            case Observe(now) => forall lease :: lease in after <==> lease in before && lease.expiresAt > now
            case Alarm(now) => forall lease :: lease in after <==> lease in before && lease.expiresAt > now
  {
    hide Unexpired, WithoutLease, Renewed, Find, Verdict, NextAlarm, Added, Purged, ChargedOnRelease;
    match e
    case Acquire(input) =>
      UnexpiredExactly(s.store.leases, input.now);
      GrantedUntil(s.store, input);
    case Release(id, responseBytes, requestBytes, now) => ReleaseFrees(s.store, id, responseBytes, requestBytes, now);
    case Renew(id, now, ttl) =>
      UnexpiredExactly(s.store.leases, now);
      RenewedExactly(Unexpired(s.store.leases, now), id, now + ttl);
      forall lease | lease in s.store.leases && lease.requestId == id && lease.expiresAt > now
        ensures lease.(expiresAt := now + ttl) in Next(s, e).store.leases
      {
        RenewedUntil(s.store, lease, now, ttl);
      }
    case Observe(now) => UnexpiredExactly(s.store.leases, now);
    case Alarm(now) => UnexpiredExactly(s.store.leases, now);
  }

  lemma GrantedUntil(store: Store, input: Input)
    ensures Verdict(store, input).Allowed? ==> Verdict(store, input) == Allowed(input.now + input.leaseTtlMs)
  {
    hide Unexpired, Find, ActiveCount;
  }

  /** In every run, as long as no release has swept the windows of the moment, a request is admitted exactly
      when its id is free, the admissions of this minute and of this second are below their limits, there is
      room among the leases of its kind, and the bytes charged today leave room for its own. */
  lemma AdmittedByRecord(start: State, events: seq<Event>, limits: Limits, input: Input)
    requires Fresh(start) && FixedLimits(events, limits) && input.limits == limits
    requires forall window :: Unswept(After(start, events), window, BucketOf(window, input.now))
    ensures var s := After(start, events);
            Verdict(s.store, input).Allowed? <==>
              && !InUse(s.store, input) && !Crowded(s.store, input)
              && CountBucket(s.admitted, Minute, input.now / 60_000) < limits.requestsPerMinute
              && CountBucket(s.admitted, Second, input.now / 1_000) < limits.burstPerSecond
              && DayTotal(s.charges, input.now / 86_400_000) + input.requestBytes <= limits.bytesPerDay
  {
    var s := After(start, events);
    RunKeepsLeases(start, events, limits);
    RunKeepsRow(start, events, Minute, input.now / 60_000);
    RunKeepsRow(start, events, Second, input.now / 1_000);
    RunKeepsRow(start, events, Day, input.now / 86_400_000);
    assert Unswept(s, Minute, BucketOf(Minute, input.now)) && Unswept(s, Second, BucketOf(Second, input.now))
      && Unswept(s, Day, BucketOf(Day, input.now));
    hide InUse, Crowded, Verdict, After, Unswept, CountBucket, DayTotal;
    VerdictExactly(s.store, input);
  }

  /** Nothing was recorded in that window: no admission, or for a day no charge. */
  predicate Untouched(s: State, window: Window, bucket: int) {
    if window.Day? then forall i | 0 <= i < |s.charges| :: BucketOf(Day, s.charges[i].at) != bucket
    else forall i | 0 <= i < |s.admitted| :: BucketOf(window, s.admitted[i]) != bucket
  }

  /** A window in which nothing was recorded has an empty row, swept or not. */
  ghost predicate GroundedRow(s: State, window: Window, bucket: int) {
    Untouched(s, window, bucket) ==>
      var row := BucketAt(s.store.buckets, window, bucket);
      (if window.Day? then row.bytes else row.count) == 0
  }

  lemma StepGroundsRow(s: State, e: Event, window: Window, bucket: int)
    requires GroundedRow(s, window, bucket)
    ensures GroundedRow(Next(s, e), window, bucket)
  {
    hide Unexpired, Renewed, WithoutLease, NextAlarm, ChargedOnRelease, BucketOf, Find, ActiveCount, BucketAt, Verdict, Added, Purged;
    var t := Next(s, e);
    assert forall i | 0 <= i < |s.admitted| :: t.admitted[i] == s.admitted[i];
    assert forall i | 0 <= i < |s.charges| :: t.charges[i] == s.charges[i];
    match e
    case Acquire(input) =>
      if Verdict(s.store, input).Allowed? {
        AdmissionCounts(s.store, input, window, bucket);
        assert t.admitted[|s.admitted|] == input.now && t.charges[|s.charges|].at == input.now;
      }
    case Release(id, responseBytes, requestBytes, now) =>
      ReleaseCharges(s.store, id, responseBytes, requestBytes, now, window, bucket);
      assert t.charges[|s.charges|].at == now;
    case _ =>
  }

  lemma {:induction false} RunGroundsRow(s: State, events: seq<Event>, window: Window, bucket: int)
    requires GroundedRow(s, window, bucket)
    ensures GroundedRow(After(s, events), window, bucket)
    decreases |events|
  {
    if events != [] {
      hide GroundedRow, Next;
      StepGroundsRow(s, events[0], window, bucket);
      RunGroundsRow(Next(s, events[0]), events[1..], window, bucket);
    }
  }

  /** The clock of the object has not run ahead of a moment. */
  predicate Past(s: State, now: int) {
    (forall i | 0 <= i < |s.admitted| :: s.admitted[i] <= now) && forall i | 0 <= i < |s.charges| :: s.charges[i].at <= now
  }

  lemma LaterIsEmpty(start: State, events: seq<Event>, window: Window, now: int, later: int)
    requires Fresh(start) && Past(After(start, events), now) && BucketOf(window, later) > BucketOf(window, now)
    ensures var store := After(start, events).store;
            if window.Day? then Bytes(store, BucketOf(Day, later)) == 0 else Requests(store, window, BucketOf(window, later)) == 0
  {
    var s := After(start, events);
    RunGroundsRow(start, events, window, BucketOf(window, later));
    forall at | at <= now ensures BucketOf(window, at) <= BucketOf(window, now) {}
    hide After;
    assert Untouched(s, window, BucketOf(window, later));
  }

  lemma NextIsLater(now: int, wait: int, span: int)
    requires (span == 1_000 || span == 60_000) && UntilNext(now, wait, span)
    ensures (now + wait) / 1_000 > now / 1_000 && (now + wait) / 60_000 >= now / 60_000
    ensures span == 60_000 ==> (now + wait) / 60_000 > now / 60_000
  {
    if span == 60_000 {
      assert now + wait == 60_000 * (now / 60_000 + 1);
    } else {
      assert now + wait == 1_000 * (now / 1_000 + 1);
    }
  }

  lemma RateOpens(start: State, events: seq<Event>, input: Input, wait: int)
    requires Fresh(start) && Past(After(start, events), input.now)
    requires input.limits.requestsPerMinute > 0 && input.limits.burstPerSecond > 0
    requires UntilNext(input.now, wait, if MinuteFull(After(start, events).store, input) then 60_000 else 1_000)
    ensures var store, later := After(start, events).store, input.(now := input.now + wait);
            !MinuteFull(store, later) && !SecondFull(store, later)
  {
    hide After, Requests, Past, UntilNext;
    var later := input.now + wait;
    NextIsLater(input.now, wait, if MinuteFull(After(start, events).store, input) then 60_000 else 1_000);
    LaterIsEmpty(start, events, Second, input.now, later);
    if later / 60_000 > input.now / 60_000 {
      LaterIsEmpty(start, events, Minute, input.now, later);
    }
  }

  lemma BytesOpen(start: State, events: seq<Event>, input: Input, wait: int)
    requires Fresh(start) && Past(After(start, events), input.now) && input.requestBytes <= input.limits.bytesPerDay
    requires UntilNext(input.now, wait, 86_400_000)
    ensures !DayFull(After(start, events).store, input.(now := input.now + wait))
  {
    hide After, Bytes, Past;
    LaterIsEmpty(start, events, Day, input.now, input.now + wait);
  }

  /** A refusal leaves the rows as they are. */
  lemma RefusalKeepsRows(store: Store, input: Input, later: Input)
    requires Verdict(store, input).Denied?
    ensures var after := AfterAcquire(store, input);
            && MinuteFull(after, later) == MinuteFull(store, later) && SecondFull(after, later) == SecondFull(store, later)
            && DayFull(after, later) == DayFull(store, later)
  {
    hide Verdict, Unexpired;
  }

  lemma StaysDistinct(start: State, events: seq<Event>, limits: Limits, now: int)
    requires Fresh(start) && FixedLimits(events, limits)
    ensures var leases := After(start, events).store.leases; DistinctIds(leases) && DistinctIds(Unexpired(leases, now))
  {
    RunKeepsLeases(start, events, limits);
    hide DistinctIds;
    DistinctKept(After(start, events).store.leases, now, 0, 0);
  }

  /** The advice is sound: in every run a request refused for its rate and sent again after the wait it was
      told, with nothing in between, is not refused for its rate; nor is one refused for its bytes refused for
      them again, if it is not above the quota by itself. */
  lemma RetryIsHeard(start: State, events: seq<Event>, limits: Limits, input: Input)
    requires Fresh(start) && FixedLimits(events, limits) && input.limits == limits
    requires limits.requestsPerMinute > 0 && limits.burstPerSecond > 0 && input.requestBytes <= limits.bytesPerDay
    requires Past(After(start, events), input.now) && Verdict(After(start, events).store, input).Denied?
    ensures var s := After(start, events);
            var refused := Verdict(s.store, input);
            var again := Verdict(AfterAcquire(s.store, input), input.(now := input.now + refused.retryAfterMs));
            refused.code != ConcurrencyLimited && again.Denied? ==> again.code != refused.code
  {
    var s := After(start, events);
    var refused := Verdict(s.store, input);
    var later := input.(now := input.now + refused.retryAfterMs);
    hide Fresh, Verdict, AfterAcquire, After, Unexpired, Past, DistinctIds, MinuteFull, SecondFull, DayFull, UntilNext, InUse;
    StaysDistinct(start, events, limits, input.now);
    if refused.code == RateLimited {
      RefusedForRate(s.store, input);
      RateOpens(start, events, input, refused.retryAfterMs);
      HeardForRate(s.store, input, later);
    } else if refused.code == QuotaExceeded {
      RefusedForBytes(s.store, input);
      BytesOpen(start, events, input, refused.retryAfterMs);
      HeardForBytes(s.store, input, later);
    }
  }

  lemma RefusedForRate(store: Store, input: Input)
    requires DistinctIds(store.leases) && Verdict(store, input).Denied? && Verdict(store, input).code == RateLimited
    ensures UntilNext(input.now, Verdict(store, input).retryAfterMs, if MinuteFull(store, input) then 60_000 else 1_000)
  {
    hide Verdict, UntilNext, InUse, Crowded, MinuteFull, SecondFull, DayFull, DistinctIds;
    VerdictExactly(store, input);
    WaitsExactly(store, input);
  }

  lemma RefusedForBytes(store: Store, input: Input)
    requires DistinctIds(store.leases) && Verdict(store, input).Denied? && Verdict(store, input).code == QuotaExceeded
    ensures UntilNext(input.now, Verdict(store, input).retryAfterMs, 86_400_000)
  {
    hide Verdict, UntilNext, InUse, Crowded, MinuteFull, SecondFull, DayFull, DistinctIds;
    VerdictExactly(store, input);
    WaitsExactly(store, input);
  }

  lemma HeardForRate(store: Store, input: Input, later: Input)
    requires Verdict(store, input).Denied? && DistinctIds(Unexpired(store.leases, input.now))
    requires !MinuteFull(store, later) && !SecondFull(store, later)
    ensures var again := Verdict(AfterAcquire(store, input), later); again.Denied? ==> again.code != RateLimited
  {
    RefusalKeepsRows(store, input, later);
    hide Verdict, InUse, Crowded, MinuteFull, SecondFull, DayFull, DistinctIds, Unexpired;
    VerdictExactly(AfterAcquire(store, input), later);
  }

  lemma HeardForBytes(store: Store, input: Input, later: Input)
    requires Verdict(store, input).Denied? && DistinctIds(Unexpired(store.leases, input.now)) && !DayFull(store, later)
    ensures var again := Verdict(AfterAcquire(store, input), later); again.Denied? ==> again.code != QuotaExceeded
  {
    RefusalKeepsRows(store, input, later);
    hide Verdict, InUse, Crowded, MinuteFull, SecondFull, DayFull, DistinctIds, Unexpired;
    VerdictExactly(AfterAcquire(store, input), later);
  }
}
