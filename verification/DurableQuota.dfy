/** The quota object of the Cloudflare adapter: counters per time window, leases that expire and an alarm
    that clears them. */
module DurableQuota {
  import opened Arithmetic
  import opened Options
  import opened Sequences

  datatype Window = Second | Minute | Day

  function Span(window: Window): (ms: nat)
    ensures ms > 0
  {
    match window case Second => 1_000 case Minute => 60_000 case Day => 86_400_000
  }

  /** How many windows a bucket outlives the present one. */
  function Slack(window: Window): nat {
    if window.Day? then 2 else 120
  }

  function BucketOf(window: Window, now: int): int {
    match window case Second => now / 1_000 case Minute => now / 60_000 case Day => now / 86_400_000
  }

  datatype Transport = Http | WebSocket | Tcp | Tls

  predicate IsTunnel(transport: Transport) { !transport.Http? }

  datatype Bucket = Bucket(count: int, bytes: int)

  datatype Lease = Lease(requestId: nat, transport: Transport, requestBytes: int, expiresAt: int)

  datatype Limits = Limits(
    requestsPerMinute: nat, burstPerSecond: nat, concurrentHttp: nat, concurrentTunnels: nat, bytesPerDay: nat)

  datatype Input = Input(requestId: nat, transport: Transport, now: int, requestBytes: int, leaseTtlMs: int, limits: Limits)

  datatype Code = RateLimited | ConcurrencyLimited | QuotaExceeded

  datatype Result = Allowed(leaseExpiresAt: int) | Denied(code: Code, retryAfterMs: int)

  type Buckets = map<(Window, int), Bucket>

  datatype Store = Store(buckets: Buckets, leases: seq<Lease>, alarm: Option<int>)

  // ----- the tables

  function BucketAt(buckets: Buckets, window: Window, bucket: int): Bucket {
    if (window, bucket) in buckets then buckets[(window, bucket)] else Bucket(0, 0)
  }

  function Added(buckets: Buckets, window: Window, bucket: int, count: int, bytes: int): Buckets {
    var row := BucketAt(buckets, window, bucket);
    buckets[(window, bucket) := Bucket(row.count + count, row.bytes + bytes)]
  }

  function Purged(buckets: Buckets, now: int): Buckets {
    map key | key in buckets && !(key.1 < BucketOf(key.0, now) - Slack(key.0)) :: buckets[key]
  }

  function Unexpired(leases: seq<Lease>, now: int): seq<Lease> {
    if leases == [] then []
    else (if leases[0].expiresAt <= now then [] else [leases[0]]) + Unexpired(leases[1..], now)
  }

  function WithoutLease(leases: seq<Lease>, requestId: nat): seq<Lease> {
    if leases == [] then []
    else (if leases[0].requestId == requestId then [] else [leases[0]]) + WithoutLease(leases[1..], requestId)
  }

  function Renewed(leases: seq<Lease>, requestId: nat, expiresAt: int): seq<Lease> {
    if leases == [] then []
    else [if leases[0].requestId == requestId then leases[0].(expiresAt := expiresAt) else leases[0]]
         + Renewed(leases[1..], requestId, expiresAt)
  }

  function Find(leases: seq<Lease>, requestId: nat): Option<Lease> {
    if leases == [] then None
    else if leases[0].requestId == requestId then Some(leases[0])
    else Find(leases[1..], requestId)
  }

  function ActiveCount(leases: seq<Lease>, tunnel: bool): nat {
    if leases == [] then 0
    else (if IsTunnel(leases[0].transport) == tunnel then 1 else 0) + ActiveCount(leases[1..], tunnel)
  }

  function Earliest(leases: seq<Lease>): int
    requires leases != []
  {
    if |leases| == 1 then leases[0].expiresAt else Min(leases[0].expiresAt, Earliest(leases[1..]))
  }

  /** The alarm is set to the earliest expiry; an expiry of zero counts as none. */
  function NextAlarm(leases: seq<Lease>): Option<int> {
    if leases != [] && Earliest(leases) != 0 then Some(Earliest(leases)) else None
  }

  function ConcurrencyLimit(limits: Limits, tunnel: bool): nat {
    if tunnel then limits.concurrentTunnels else limits.concurrentHttp
  }

  // ----- the operations, one step each

  function Verdict(store: Store, input: Input): Result {
    var leases, now, limits := Unexpired(store.leases, input.now), input.now, input.limits;
    var minute, second, day := BucketOf(Minute, now), BucketOf(Second, now), BucketOf(Day, now);
    var existing := Find(leases, input.requestId);
    if existing.Some? then Denied(ConcurrencyLimited, Max(1, existing.value.expiresAt - now))
    else if BucketAt(store.buckets, Minute, minute).count >= limits.requestsPerMinute
      then Denied(RateLimited, (minute + 1) * 60_000 - now)
    else if BucketAt(store.buckets, Second, second).count >= limits.burstPerSecond
      then Denied(RateLimited, (second + 1) * 1_000 - now)
    else if ActiveCount(leases, IsTunnel(input.transport)) >= ConcurrencyLimit(limits, IsTunnel(input.transport))
      then Denied(ConcurrencyLimited, 1_000)
    else if BucketAt(store.buckets, Day, day).bytes + input.requestBytes > limits.bytesPerDay
      then Denied(QuotaExceeded, (day + 1) * 86_400_000 - now)
    else Allowed(now + input.leaseTtlMs)
  }

  function AfterAcquire(store: Store, input: Input): Store {
    var leases, now := Unexpired(store.leases, input.now), input.now;
    match Verdict(store, input)
    case Denied(_, _) => store.(leases := leases)
    case Allowed(expiresAt) =>
      var granted := leases + [Lease(input.requestId, input.transport, input.requestBytes, expiresAt)];
      Store(Added(Added(Added(store.buckets, Minute, BucketOf(Minute, now), 1, 0), Second, BucketOf(Second, now), 1, 0),
                  Day, BucketOf(Day, now), 0, input.requestBytes),
            granted, NextAlarm(granted))
  }

  function ChargedOnRelease(lease: Option<Lease>, responseBytes: int, requestBytes: int): int {
    Max(0, responseBytes) + Max(0, requestBytes - if lease.Some? then lease.value.requestBytes else 0)
  }

  function AfterRelease(store: Store, requestId: nat, responseBytes: int, requestBytes: int, now: int): Store {
    var leases := WithoutLease(store.leases, requestId);
    var charged := ChargedOnRelease(Find(store.leases, requestId), responseBytes, requestBytes);
    Store(Purged(Added(store.buckets, Day, BucketOf(Day, now), 0, charged), now), leases, NextAlarm(leases))
  }

  function AfterRenew(store: Store, requestId: nat, now: int, leaseTtlMs: int): Store {
    var leases := Unexpired(store.leases, now);
    if Find(leases, requestId).None? then store.(leases := leases)
    else
      var renewed := Renewed(leases, requestId, now + leaseTtlMs);
      Store(store.buckets, renewed, NextAlarm(renewed))
  }

  function AfterAlarm(store: Store, now: int): Store {
    var leases := Unexpired(store.leases, now);
    Store(store.buckets, leases, NextAlarm(leases))
  }

  datatype Snapshot = Snapshot(
    minuteRequests: int, secondRequests: int, activeHttp: int, activeTunnels: int, dailyBytes: int)

  function Reported(store: Store, now: int): Snapshot {
    var leases := Unexpired(store.leases, now);
    Snapshot(
      BucketAt(store.buckets, Minute, BucketOf(Minute, now)).count,
      BucketAt(store.buckets, Second, BucketOf(Second, now)).count,
      ActiveCount(leases, false), ActiveCount(leases, true), BucketAt(store.buckets, Day, BucketOf(Day, now)).bytes)
  }

  class QuotaDurableObject {
    var buckets: Buckets
    var leases: seq<Lease>
    var alarm: Option<int>

    function Stored(): Store
      reads this
    {
      Store(buckets, leases, alarm)
    }

    constructor ()
      ensures Stored() == Store(map[], [], None)
    {
      buckets, leases, alarm := map[], [], None;
    }

    method Acquire(input: Input) returns (result: Result)
      modifies this
      ensures result == Verdict(old(Stored()), input)
      ensures Stored() == AfterAcquire(old(Stored()), input)
    {
      ExpireLeases(input.now);
      var existing := Find(leases, input.requestId);
      if existing.Some? {
        return Denied(ConcurrencyLimited, Max(1, existing.value.expiresAt - input.now));
      }
      var minute, second, day := BucketOf(Minute, input.now), BucketOf(Second, input.now), BucketOf(Day, input.now);
      if BucketAt(buckets, Minute, minute).count >= input.limits.requestsPerMinute {
        return Denied(RateLimited, (minute + 1) * 60_000 - input.now);
      }
      if BucketAt(buckets, Second, second).count >= input.limits.burstPerSecond {
        return Denied(RateLimited, (second + 1) * 1_000 - input.now);
      }
      var tunnel := IsTunnel(input.transport);
      if ActiveCount(leases, tunnel) >= ConcurrencyLimit(input.limits, tunnel) {
        return Denied(ConcurrencyLimited, 1_000);
      }
      if BucketAt(buckets, Day, day).bytes + input.requestBytes > input.limits.bytesPerDay {
        return Denied(QuotaExceeded, (day + 1) * 86_400_000 - input.now);
      }
      var leaseExpiresAt := input.now + input.leaseTtlMs;
      buckets := Added(buckets, Minute, minute, 1, 0);
      buckets := Added(buckets, Second, second, 1, 0);
      buckets := Added(buckets, Day, day, 0, input.requestBytes);
      leases := leases + [Lease(input.requestId, input.transport, input.requestBytes, leaseExpiresAt)];
      ScheduleNextAlarm();
      result := Allowed(leaseExpiresAt);
    }

    method Release(requestId: nat, responseBytes: int, requestBytes: int, now: int)
      modifies this
      ensures Stored() == AfterRelease(old(Stored()), requestId, responseBytes, requestBytes, now)
    {
      var lease := Find(leases, requestId);
      leases := WithoutLease(leases, requestId);
      var day := BucketOf(Day, now);
      buckets := Added(
        buckets, Day, day, 0,
        Max(0, responseBytes) + Max(0, requestBytes - if lease.Some? then lease.value.requestBytes else 0));
      buckets := Purged(buckets, now);
      ScheduleNextAlarm();
    }

    /** A lease is renewed exactly when it exists and has not expired. */
    method Renew(requestId: nat, now: int, leaseTtlMs: int) returns (renewed: bool)
      modifies this
      ensures renewed == Find(Unexpired(old(leases), now), requestId).Some?
      ensures Stored() == AfterRenew(old(Stored()), requestId, now, leaseTtlMs)
    {
      ExpireLeases(now);
      renewed := Find(leases, requestId).Some?;
      if !renewed { NothingRenewed(leases, requestId, now + leaseTtlMs); }
      leases := Renewed(leases, requestId, now + leaseTtlMs);
      if renewed {
        ScheduleNextAlarm();
      }
    }

    method TakeSnapshot(now: int) returns (snapshot: Snapshot)
      modifies this
      ensures Stored() == old(Stored()).(leases := Unexpired(old(leases), now))
      ensures snapshot == Reported(old(Stored()), now)
    {
      ExpireLeases(now);
      snapshot := Snapshot(
        BucketAt(buckets, Minute, BucketOf(Minute, now)).count, BucketAt(buckets, Second, BucketOf(Second, now)).count,
        ActiveCount(leases, IsTunnel(Http)), ActiveCount(leases, IsTunnel(WebSocket)),
        BucketAt(buckets, Day, BucketOf(Day, now)).bytes);
    }

    method Alarm(now: int)
      modifies this
      ensures Stored() == AfterAlarm(old(Stored()), now)
    {
      ExpireLeases(now);
      ScheduleNextAlarm();
    }

    method ExpireLeases(now: int)
      modifies `leases
      ensures leases == Unexpired(old(leases), now)
    {
      leases := Unexpired(leases, now);
    }

    method ScheduleNextAlarm()
      modifies `alarm
      ensures alarm == NextAlarm(leases)
    {
      if leases != [] && Earliest(leases) != 0 {
        alarm := Some(Earliest(leases));
      } else {
        alarm := None;
      }
    }
  }

  lemma {:induction false} NothingRenewed(leases: seq<Lease>, requestId: nat, expiresAt: int)
    requires Find(leases, requestId).None?
    ensures Renewed(leases, requestId, expiresAt) == leases
  {
    if leases != [] { NothingRenewed(leases[1..], requestId, expiresAt); }
  }

  // ----- runs

  datatype Event =
    | Acquire(input: Input)
    | Release(requestId: nat, responseBytes: int, requestBytes: int, now: int)
    | Renew(requestId: nat, now: int, leaseTtlMs: int)
    | Observe(now: int)
    | Alarm(now: int)

  datatype Charge = Charge(at: int, bytes: int)

  /** The last three only record what happened: the times of the admissions, the bytes charged by admissions
      and releases, and the times of the releases. */
  datatype State = State(store: Store, admitted: seq<int>, charges: seq<Charge>, released: seq<int>)

  function Next(s: State, e: Event): State {
    match e
    case Acquire(input) =>
      if Verdict(s.store, input).Denied? then s.(store := AfterAcquire(s.store, input))
      else
        s.(store := AfterAcquire(s.store, input),
           admitted := s.admitted + [input.now], charges := s.charges + [Charge(input.now, input.requestBytes)])
    case Release(id, responseBytes, requestBytes, now) =>
      s.(store := AfterRelease(s.store, id, responseBytes, requestBytes, now),
         charges := s.charges + [Charge(now, ChargedOnRelease(Find(s.store.leases, id), responseBytes, requestBytes))],
         released := s.released + [now])
    case Renew(id, now, ttl) => s.(store := AfterRenew(s.store, id, now, ttl))
    case Observe(now) => s.(store := s.store.(leases := Unexpired(s.store.leases, now)))
    case Alarm(now) => s.(store := AfterAlarm(s.store, now))
  }

  /** No release so far has swept the bucket. */
  ghost predicate Unswept(s: State, window: Window, bucket: int) {
    forall i | 0 <= i < |s.released| :: bucket >= BucketOf(window, s.released[i]) - Slack(window)
  }

  ghost predicate FixedLimits(events: seq<Event>, limits: Limits) {
    forall i | 0 <= i < |events| :: events[i].Acquire? ==> events[i].input.limits == limits
  }

  /** No acquire falls into a window that an earlier release has swept. */
  ghost predicate Timely(s: State, events: seq<Event>, window: Window)
    decreases |events|
  {
    events == [] || (TimelyAt(s, events[0], window) && Timely(Next(s, events[0]), events[1..], window))
  }

  ghost predicate TimelyAt(s: State, e: Event, window: Window) {
    e.Acquire? ==> Unswept(s, window, BucketOf(window, e.input.now))
  }

  /** No acquire's clock is more than `skew` milliseconds behind that of an earlier release. */
  ghost predicate Close(s: State, events: seq<Event>, skew: nat)
    decreases |events|
  {
    events == [] || (CloseAt(s, events[0], skew) && Close(Next(s, events[0]), events[1..], skew))
  }

  ghost predicate CloseAt(s: State, e: Event, skew: nat) {
    e.Acquire? ==> forall i | 0 <= i < |s.released| :: s.released[i] - e.input.now <= skew
  }

  /** Clocks that disagree by no more than the purge slack keep every acquire out of the windows swept. */
  lemma {:induction false} CloseIsTimely(s: State, events: seq<Event>, window: Window)
    requires Close(s, events, Slack(window) * Span(window))
    ensures Timely(s, events, window)
    decreases |events|
  {
    if events != [] {
      if events[0].Acquire? {
        var now := events[0].input.now;
        forall i | 0 <= i < |s.released| ensures BucketOf(window, now) >= BucketOf(window, s.released[i]) - Slack(window) {
          SlackCovers(window, now, s.released[i]);
        }
      }
      CloseIsTimely(Next(s, events[0]), events[1..], window);
    }
  }

  lemma SlackCovers(window: Window, now: int, released: int)
    requires released - now <= Slack(window) * Span(window)
    ensures BucketOf(window, now) >= BucketOf(window, released) - Slack(window)
  {
  }

  function After(s: State, events: seq<Event>): State
    decreases |events|
  {
    if events == [] then s else After(Next(s, events[0]), events[1..])
  }

  ghost predicate Fresh(s: State) {
    s == State(Store(map[], [], None), [], [], [])
  }

  // ----- leases

  predicate DistinctIds(leases: seq<Lease>) {
    forall i, j | 0 <= i < j < |leases| :: leases[i].requestId != leases[j].requestId
  }

  /** What the filters and the renewal do to a list of leases. */
  lemma {:induction false} LeaseFacts(leases: seq<Lease>, now: int, requestId: nat, expiresAt: int, tunnel: bool)
    ensures ActiveCount(Unexpired(leases, now), tunnel) <= ActiveCount(leases, tunnel)
    ensures ActiveCount(WithoutLease(leases, requestId), tunnel) <= ActiveCount(leases, tunnel)
    ensures ActiveCount(Renewed(leases, requestId, expiresAt), tunnel) == ActiveCount(leases, tunnel)
  {
    if leases != [] {
      var rest := leases[1..];
      LeaseFacts(rest, now, requestId, expiresAt, tunnel);
      CountFirst(leases[0], Unexpired(rest, now), tunnel);
      CountFirst(leases[0], WithoutLease(rest, requestId), tunnel);
      assert [] + Unexpired(rest, now) == Unexpired(rest, now) && [] + WithoutLease(rest, requestId) == WithoutLease(rest, requestId);
    }
  }

  lemma CountFirst(lease: Lease, rest: seq<Lease>, tunnel: bool)
    ensures ActiveCount([lease] + rest, tunnel) == ActiveCount(rest, tunnel) + if IsTunnel(lease.transport) == tunnel then 1 else 0
  {
    assert ([lease] + rest)[1..] == rest;
  }

  lemma {:induction false} CountAppend(leases: seq<Lease>, lease: Lease, tunnel: bool)
    ensures ActiveCount(leases + [lease], tunnel) == ActiveCount(leases, tunnel) + if IsTunnel(lease.transport) == tunnel then 1 else 0
  {
    if leases == [] {
      assert leases + [lease] == [lease];
    } else {
      assert (leases + [lease])[1..] == leases[1..] + [lease];
      CountAppend(leases[1..], lease, tunnel);
    }
  }

  lemma {:induction false} UnexpiredExactly(leases: seq<Lease>, now: int)
    ensures forall lease :: lease in Unexpired(leases, now) <==> lease in leases && lease.expiresAt > now
  {
    if leases != [] {
      assert leases == [leases[0]] + leases[1..];
      UnexpiredExactly(leases[1..], now);
    }
  }

  lemma {:induction false} Finds(leases: seq<Lease>, requestId: nat)
    ensures Find(leases, requestId).Some? ==> Find(leases, requestId).value in leases && Find(leases, requestId).value.requestId == requestId
    ensures Find(leases, requestId).None? ==> forall lease | lease in leases :: lease.requestId != requestId
  {
    if leases != [] {
      assert leases == [leases[0]] + leases[1..];
      Finds(leases[1..], requestId);
    }
  }

  /** A lease is renewed exactly when there is one of that id that has not expired: an expired lease is
      never revived, and its slot is gone. */
  lemma RenewNeverRevives(store: Store, requestId: nat, now: int, leaseTtlMs: int)
    ensures Find(Unexpired(store.leases, now), requestId).Some?
       <==> exists lease :: lease in store.leases && lease.requestId == requestId && lease.expiresAt > now
    ensures forall lease | lease in store.leases && lease.expiresAt <= now && lease.requestId != requestId ::
              lease !in AfterRenew(store, requestId, now, leaseTtlMs).leases
    ensures (forall lease | lease in store.leases && lease.requestId == requestId :: lease.expiresAt <= now) ==>
      forall lease | lease in AfterRenew(store, requestId, now, leaseTtlMs).leases :: lease.requestId != requestId
  {
    hide Unexpired, Find, Renewed, NextAlarm;
    var left := Unexpired(store.leases, now);
    UnexpiredExactly(store.leases, now);
    Finds(left, requestId);
    RenewedExactly(left, requestId, now + leaseTtlMs);
  }

  lemma {:induction false} RenewedExactly(leases: seq<Lease>, requestId: nat, expiresAt: int)
    ensures forall lease: Lease | lease.requestId != requestId :: lease in Renewed(leases, requestId, expiresAt) <==> lease in leases
  {
    if leases != [] {
      assert leases == [leases[0]] + leases[1..];
      RenewedExactly(leases[1..], requestId, expiresAt);
    }
  }

  // ----- the alarm

  lemma {:induction false} EarliestIsLeast(leases: seq<Lease>)
    requires leases != []
    ensures forall lease | lease in leases :: Earliest(leases) <= lease.expiresAt
    ensures exists lease :: lease in leases && lease.expiresAt == Earliest(leases)
  {
    assert leases[0] in leases && leases == [leases[0]] + leases[1..];
    if |leases| > 1 {
      EarliestIsLeast(leases[1..]);
      var lease :| lease in leases[1..] && lease.expiresAt == Earliest(leases[1..]);
      assert lease in leases;
    }
  }

  /** Whenever a lease exists an alarm is set, no later than the earliest expiry. */
  ghost predicate Guarded(store: Store) {
    forall lease | lease in store.leases :: store.alarm.Some? && store.alarm.value <= lease.expiresAt
  }

  /** Scheduling guards every lease exactly when no earliest expiry is zero, which would pass for none. */
  lemma ScheduledIsGuarded(buckets: Buckets, leases: seq<Lease>)
    ensures Guarded(Store(buckets, leases, NextAlarm(leases))) <==> leases == [] || Earliest(leases) != 0
  {
    if leases != [] {
      EarliestIsLeast(leases);
      assert leases[0] in leases;
    }
  }

  lemma {:induction false} DistinctKept(leases: seq<Lease>, now: int, requestId: nat, expiresAt: int)
    requires DistinctIds(leases)
    ensures DistinctIds(Unexpired(leases, now)) && DistinctIds(WithoutLease(leases, requestId))
    ensures DistinctIds(Renewed(leases, requestId, expiresAt))
    ensures forall id :: HasId(Unexpired(leases, now), id) || HasId(WithoutLease(leases, requestId), id) ==> HasId(leases, id)
    ensures forall id :: HasId(Renewed(leases, requestId, expiresAt), id) <==> HasId(leases, id)
  {
    if leases != [] {
      var rest := leases[1..];
      DistinctKept(rest, now, requestId, expiresAt);
      assert !HasId(rest, leases[0].requestId);
      assert [] + Unexpired(rest, now) == Unexpired(rest, now) && [] + WithoutLease(rest, requestId) == WithoutLease(rest, requestId);
      HeadId(leases);
      HeadIds(leases[0], Unexpired(rest, now));
      HeadIds(leases[0], WithoutLease(rest, requestId));
      HeadIds(if leases[0].requestId == requestId then leases[0].(expiresAt := expiresAt) else leases[0], Renewed(rest, requestId, expiresAt));
    }
  }

  ghost predicate HasId(leases: seq<Lease>, id: nat) {
    exists i :: 0 <= i < |leases| && leases[i].requestId == id
  }

  lemma HeadIds(head: Lease, rest: seq<Lease>)
    ensures forall id :: HasId([head] + rest, id) <==> id == head.requestId || HasId(rest, id)
    ensures !HasId(rest, head.requestId) && DistinctIds(rest) ==> DistinctIds([head] + rest)
  {
    var whole := [head] + rest;
    assert whole[0] == head;
    forall id | HasId(rest, id) ensures HasId(whole, id) {
      var i :| 0 <= i < |rest| && rest[i].requestId == id;
      assert whole[i + 1] == rest[i];
    }
  }

  lemma HeadId(leases: seq<Lease>)
    requires leases != []
    ensures leases == [leases[0]] + leases[1..]
    ensures forall id :: HasId(leases, id) <==> id == leases[0].requestId || HasId(leases[1..], id)
  {
    assert leases == [leases[0]] + leases[1..];
    HeadIds(leases[0], leases[1..]);
  }

  // ----- admissions

  function LimitOf(limits: Limits, window: Window): nat {
    if window.Minute? then limits.requestsPerMinute else limits.burstPerSecond
  }

  /** How many times fall into one bucket of a window. */
  function CountBucket(times: seq<int>, window: Window, bucket: int): nat {
    if times == [] then 0
    else CountBucket(times[..|times| - 1], window, bucket) + if BucketOf(window, times[|times| - 1]) == bucket then 1 else 0
  }

  function DayTotal(charges: seq<Charge>, day: int): int {
    if charges == [] then 0
    else
      var last := charges[|charges| - 1];
      DayTotal(charges[..|charges| - 1], day) + if BucketOf(Day, last.at) == day then last.bytes else 0
  }

  /** A row that no release has swept holds what was recorded for it: requests, or for a day bytes. */
  ghost predicate RowKept(s: State, window: Window, bucket: int) {
    Unswept(s, window, bucket) ==>
      var row := BucketAt(s.store.buckets, window, bucket);
      if window.Day? then row.bytes == DayTotal(s.charges, bucket) else row.count == CountBucket(s.admitted, window, bucket)
  }

  ghost predicate LeasesKept(s: State, limits: Limits) {
    && DistinctIds(s.store.leases)
    && ActiveCount(s.store.leases, false) <= limits.concurrentHttp && ActiveCount(s.store.leases, true) <= limits.concurrentTunnels
  }

  lemma StepKeepsLeases(s: State, e: Event, limits: Limits)
    requires LeasesKept(s, limits) && (e.Acquire? ==> e.input.limits == limits)
    ensures LeasesKept(Next(s, e), limits)
  {
    hide Added, Purged, BucketAt;
    var leases := s.store.leases;
    match e
    case Acquire(input) =>
      KeptBy(leases, input.now, 0, 0);
      var left := Unexpired(leases, input.now);
      if Verdict(s.store, input).Allowed? {
        var lease := Lease(input.requestId, input.transport, input.requestBytes, input.now + input.leaseTtlMs);
        CountAppend(left, lease, false);
        CountAppend(left, lease, true);
        Finds(left, input.requestId);
        forall i | 0 <= i < |left| ensures left[i].requestId != input.requestId { assert left[i] in left; }
      }
    case Release(id, _, _, now) => KeptBy(leases, now, id, 0);
    case Renew(id, now, ttl) =>
      KeptBy(leases, now, id, 0);
      KeptBy(Unexpired(leases, now), now, id, now + ttl);
    case Observe(now) => KeptBy(leases, now, 0, 0);
    case Alarm(now) => KeptBy(leases, now, 0, 0);
  }

  lemma KeptBy(leases: seq<Lease>, now: int, id: nat, expiresAt: int)
    requires DistinctIds(leases)
    ensures DistinctIds(Unexpired(leases, now)) && DistinctIds(WithoutLease(leases, id)) && DistinctIds(Renewed(leases, id, expiresAt))
    ensures forall tunnel ::
      && ActiveCount(Unexpired(leases, now), tunnel) <= ActiveCount(leases, tunnel)
      && ActiveCount(WithoutLease(leases, id), tunnel) <= ActiveCount(leases, tunnel)
      && ActiveCount(Renewed(leases, id, expiresAt), tunnel) == ActiveCount(leases, tunnel)
  {
    DistinctKept(leases, now, id, expiresAt);
    LeaseFacts(leases, now, id, expiresAt, false);
    LeaseFacts(leases, now, id, expiresAt, true);
  }

  /** An admission adds one request to the row of its minute and of its second and its bytes to that of its
      day, and nothing to any other row. */
  lemma AdmissionCounts(store: Store, input: Input, window: Window, bucket: int)
    requires Verdict(store, input).Allowed?
    ensures var before, after := BucketAt(store.buckets, window, bucket), BucketAt(AfterAcquire(store, input).buckets, window, bucket);
            var counts := bucket == BucketOf(window, input.now);
            if window.Day? then after.bytes == before.bytes + if counts then input.requestBytes else 0
            else after.count == before.count + if counts then 1 else 0
  {
    hide Verdict, Unexpired, NextAlarm, BucketOf;
  }

  /** A release adds its bytes to the row of its day; of the other rows it leaves what its sweep leaves. */
  lemma ReleaseCharges(store: Store, id: nat, responseBytes: int, requestBytes: int, now: int, window: Window, bucket: int)
    ensures var before, after := BucketAt(store.buckets, window, bucket),
                                 BucketAt(AfterRelease(store, id, responseBytes, requestBytes, now).buckets, window, bucket);
            var charged := ChargedOnRelease(Find(store.leases, id), responseBytes, requestBytes);
            if bucket < BucketOf(window, now) - Slack(window) then after == Bucket(0, 0)
            else after == if window.Day? && bucket == BucketOf(Day, now) then Bucket(before.count, before.bytes + charged) else before
  {
    hide WithoutLease, NextAlarm, ChargedOnRelease, BucketOf, Find;
  }

  lemma StepKeepsRow(s: State, e: Event, window: Window, bucket: int)
    requires RowKept(s, window, bucket)
    ensures RowKept(Next(s, e), window, bucket)
  {
    hide Unexpired, Renewed, WithoutLease, NextAlarm, ChargedOnRelease, BucketOf, Find, ActiveCount, BucketAt, Verdict, Added, Purged;
    var t := Next(s, e);
    match e
    case Acquire(input) =>
      if Verdict(s.store, input).Allowed? {
        assert t.admitted[..|t.admitted| - 1] == s.admitted && t.charges[..|t.charges| - 1] == s.charges;
        AdmissionCounts(s.store, input, window, bucket);
      }
    case Release(id, responseBytes, requestBytes, now) =>
      assert t.charges[..|t.charges| - 1] == s.charges;
      assert t.released[|s.released|] == now && forall i | 0 <= i < |s.released| :: t.released[i] == s.released[i];
      ReleaseCharges(s.store, id, responseBytes, requestBytes, now, window, bucket);
    case _ =>
  }

  lemma AllowedBelowLimit(store: Store, input: Input, window: Window)
    requires Verdict(store, input).Allowed? && !window.Day?
    ensures BucketAt(store.buckets, window, BucketOf(window, input.now)).count < LimitOf(input.limits, window)
  {
    hide BucketAt, BucketOf, Unexpired, Find, ActiveCount;
  }

  lemma AdmissionRecorded(s: State, e: Event)
    ensures Next(s, e).admitted
         == s.admitted + if e.Acquire? && Verdict(s.store, e.input).Allowed? then [e.input.now] else []
  {
    hide Verdict, AfterAcquire, AfterRelease, AfterRenew, AfterAlarm, Unexpired, Find, ChargedOnRelease;
  }

  /** An admission finds its row below the limit, and a row that is not swept counts every admission. */
  lemma StepKeepsLimit(s: State, e: Event, limits: Limits, window: Window, bucket: int)
    requires RowKept(s, window, bucket) && CountBucket(s.admitted, window, bucket) <= LimitOf(limits, window) && !window.Day?
    requires TimelyAt(s, e, window) && (e.Acquire? ==> e.input.limits == limits)
    ensures CountBucket(Next(s, e).admitted, window, bucket) <= LimitOf(limits, window)
  {
    AdmissionRecorded(s, e);
    hide Next, Verdict, BucketAt, BucketOf, LimitOf, Unswept;
    if e.Acquire? && Verdict(s.store, e.input).Allowed? {
      assert (s.admitted + [e.input.now])[..|s.admitted|] == s.admitted;
      AllowedBelowLimit(s.store, e.input, window);
    } else {
      assert s.admitted + [] == s.admitted;
    }
  }

  lemma {:induction false} RunKeepsRow(s: State, events: seq<Event>, window: Window, bucket: int)
    requires RowKept(s, window, bucket)
    ensures RowKept(After(s, events), window, bucket)
    decreases |events|
  {
    if events != [] {
      hide RowKept, Next;
      StepKeepsRow(s, events[0], window, bucket);
      RunKeepsRow(Next(s, events[0]), events[1..], window, bucket);
    }
  }

  lemma {:induction false} RunKeepsLimit(s: State, events: seq<Event>, limits: Limits, window: Window, bucket: int)
    requires RowKept(s, window, bucket) && CountBucket(s.admitted, window, bucket) <= LimitOf(limits, window) && !window.Day?
    requires Timely(s, events, window) && FixedLimits(events, limits)
    ensures CountBucket(After(s, events).admitted, window, bucket) <= LimitOf(limits, window)
    decreases |events|
  {
    if events != [] {
      hide RowKept, Next, TimelyAt, CountBucket;
      StepKeepsRow(s, events[0], window, bucket);
      StepKeepsLimit(s, events[0], limits, window, bucket);
      RunKeepsLimit(Next(s, events[0]), events[1..], limits, window, bucket);
    }
  }

  lemma {:induction false} RunKeepsLeases(s: State, events: seq<Event>, limits: Limits)
    requires LeasesKept(s, limits) && FixedLimits(events, limits)
    ensures LeasesKept(After(s, events), limits)
    decreases |events|
  {
    if events != [] {
      hide LeasesKept, Next;
      StepKeepsLeases(s, events[0], limits);
      RunKeepsLeases(Next(s, events[0]), events[1..], limits);
    }
  }

  /** In every run the leases of a class, expired ones not yet cleared included, stay within its limit. */
  lemma ConcurrencyBound(s: State, events: seq<Event>, limits: Limits)
    requires Fresh(s) && FixedLimits(events, limits)
    ensures ActiveCount(After(s, events).store.leases, false) <= limits.concurrentHttp
    ensures ActiveCount(After(s, events).store.leases, true) <= limits.concurrentTunnels
    ensures DistinctIds(After(s, events).store.leases)
  {
    RunKeepsLeases(s, events, limits);
  }

  /** The admissions of the buckets from `first` to `last`. */
  function SumOfBuckets(times: seq<int>, window: Window, first: int, last: int): nat
    decreases last - first + 1
  {
    if last < first then 0 else SumOfBuckets(times, window, first, last - 1) + CountBucket(times, window, last)
  }

  lemma {:induction false} SumAppend(times: seq<int>, window: Window, first: int, last: int)
    requires times != []
    ensures SumOfBuckets(times, window, first, last) == SumOfBuckets(times[..|times| - 1], window, first, last)
              + if first <= BucketOf(window, times[|times| - 1]) <= last then 1 else 0
    decreases last - first + 1
  {
    if first <= last { SumAppend(times, window, first, last - 1); }
  }

  lemma BucketMonotone(window: Window, a: int, b: int)
    requires a <= b
    ensures BucketOf(window, a) <= BucketOf(window, b)
    ensures BucketOf(window, b) - BucketOf(window, a) <= (b - a) / Span(window) + 1
  {
  }

  lemma {:induction false} IntervalInBuckets(times: seq<int>, window: Window, from: int, to: int)
    requires from <= to
    ensures CountIn(times, from, to) <= SumOfBuckets(times, window, BucketOf(window, from), BucketOf(window, to))
    decreases |times|
  {
    if times != [] {
      var last := times[|times| - 1];
      IntervalInBuckets(times[..|times| - 1], window, from, to);
      SumAppend(times, window, BucketOf(window, from), BucketOf(window, to));
      if from <= last <= to {
        BucketMonotone(window, from, last);
        BucketMonotone(window, last, to);
      }
    }
  }

  lemma {:induction false} BucketsBounded(times: seq<int>, window: Window, first: int, last: int, limit: nat)
    requires first <= last + 1 && forall bucket :: CountBucket(times, window, bucket) <= limit
    ensures SumOfBuckets(times, window, first, last) <= (last - first + 1) * limit
    decreases last - first + 1
  {
    if first <= last {
      BucketsBounded(times, window, first, last - 1, limit);
      assert (last - first + 1) * limit == (last - first) * limit + limit;
    }
  }

  lemma Product(a: int, b: int, limit: nat)
    requires a <= b
    ensures a * limit <= b * limit
  {
  }

  /** Any interval of a given length, wherever it lies, sees at most one window's limit more than twice
      rounding allows: for minutes and for seconds. */
  lemma WindowBound(s: State, events: seq<Event>, limits: Limits, window: Window, from: int, length: nat)
    requires Fresh(s) && FixedLimits(events, limits) && Timely(s, events, window) && !window.Day?
    ensures CountIn(After(s, events).admitted, from, from + length) <= (length / Span(window) + 2) * LimitOf(limits, window)
  {
    hide BucketOf, Span;
    var times, limit := After(s, events).admitted, LimitOf(limits, window);
    forall bucket ensures CountBucket(times, window, bucket) <= limit {
      RunKeepsLimit(s, events, limits, window, bucket);
    }
    var first, last := BucketOf(window, from), BucketOf(window, from + length);
    BucketMonotone(window, from, from + length);
    IntervalInBuckets(times, window, from, from + length);
    BucketsBounded(times, window, first, last, limit);
    Product(last - first + 1, length / Span(window) + 2, limit);
  }

  function OfKind(leases: seq<Lease>, tunnel: bool): set<Lease> {
    set lease | lease in leases && IsTunnel(lease.transport) == tunnel
  }

  lemma {:induction false} ActiveCountIsSize(leases: seq<Lease>, tunnel: bool)
    requires DistinctIds(leases)
    ensures ActiveCount(leases, tunnel) == |OfKind(leases, tunnel)|
  {
    if leases != [] {
      var first, rest := leases[0], leases[1..];
      assert leases == [first] + rest;
      ActiveCountIsSize(rest, tunnel);
      forall i | 0 <= i < |rest| ensures rest[i] != first { assert leases[i + 1] == rest[i]; }
      OneMoreOfKind(first, rest, tunnel);
    }
  }

  lemma OneMoreOfKind(first: Lease, rest: seq<Lease>, tunnel: bool)
    requires first !in rest
    ensures |OfKind([first] + rest, tunnel)| == |OfKind(rest, tunnel)| + if IsTunnel(first.transport) == tunnel then 1 else 0
  {
    var fewer := OfKind(rest, tunnel);
    if IsTunnel(first.transport) == tunnel {
      assert OfKind([first] + rest, tunnel) == fewer + {first};
    } else {
      assert OfKind([first] + rest, tunnel) == fewer;
    }
  }

  /** What a snapshot reports after a run: the admissions of the minute and of the second, the bytes charged
      to the day, and how many leases have not expired; rows swept by a clock ahead of this one excepted. */
  lemma SnapshotReports(s: State, events: seq<Event>, limits: Limits, now: int)
    requires Fresh(s) && FixedLimits(events, limits)
    ensures
      var t := After(s, events);
      var report := Reported(t.store, now);
      && (Unswept(t, Minute, BucketOf(Minute, now)) ==>
            report.minuteRequests == CountBucket(t.admitted, Minute, BucketOf(Minute, now)))
      && (Unswept(t, Second, BucketOf(Second, now)) ==>
            report.secondRequests == CountBucket(t.admitted, Second, BucketOf(Second, now)))
      && (Unswept(t, Day, BucketOf(Day, now)) ==> report.dailyBytes == DayTotal(t.charges, BucketOf(Day, now)))
      && report.activeHttp == |set lease | lease in t.store.leases && lease.expiresAt > now && lease.transport.Http?|
      && report.activeTunnels == |set lease | lease in t.store.leases && lease.expiresAt > now && !lease.transport.Http?|
  {
    var t := After(s, events);
    RunKeepsRow(s, events, Minute, BucketOf(Minute, now));
    RunKeepsRow(s, events, Second, BucketOf(Second, now));
    RunKeepsRow(s, events, Day, BucketOf(Day, now));
    hide CountBucket, DayTotal, Unswept, BucketOf, BucketAt, Next;
    RunKeepsLeases(s, events, limits);
    UnexpiredSizes(t.store.leases, now);
  }

  lemma UnexpiredSizes(leases: seq<Lease>, now: int)
    requires DistinctIds(leases)
    ensures ActiveCount(Unexpired(leases, now), false)
         == |set lease | lease in leases && lease.expiresAt > now && lease.transport.Http?|
    ensures ActiveCount(Unexpired(leases, now), true)
         == |set lease | lease in leases && lease.expiresAt > now && !lease.transport.Http?|
  {
    hide ActiveCount, Unexpired;
    var left := Unexpired(leases, now);
    DistinctKept(leases, now, 0, 0);
    UnexpiredExactly(leases, now);
    ActiveCountIsSize(left, false);
    ActiveCountIsSize(left, true);
    assert OfKind(left, false)
        == set lease | lease in leases && lease.expiresAt > now && lease.transport.Http?;
    assert OfKind(left, true)
        == set lease | lease in leases && lease.expiresAt > now && !lease.transport.Http?;
  }

  // ----- the alarm over runs

  /** Leases are given and renewed to moments other than zero. */
  predicate Dated(e: Event) {
    (e.Acquire? ==> e.input.now + e.input.leaseTtlMs != 0) && (e.Renew? ==> e.now + e.leaseTtlMs != 0)
  }

  ghost predicate AlarmKept(store: Store) {
    Guarded(store) && forall lease | lease in store.leases :: lease.expiresAt != 0
  }

  lemma {:induction false} WithoutIsPart(leases: seq<Lease>, requestId: nat)
    ensures forall lease | lease in WithoutLease(leases, requestId) :: lease in leases
  {
    if leases != [] {
      assert leases == [leases[0]] + leases[1..];
      WithoutIsPart(leases[1..], requestId);
    }
  }

  lemma {:induction false} RenewedDates(leases: seq<Lease>, requestId: nat, expiresAt: int)
    ensures forall lease | lease in Renewed(leases, requestId, expiresAt) ::
              lease.expiresAt == expiresAt || lease in leases
  {
    if leases != [] {
      assert leases == [leases[0]] + leases[1..];
      RenewedDates(leases[1..], requestId, expiresAt);
    }
  }

  lemma Scheduled(buckets: Buckets, leases: seq<Lease>)
    requires forall lease | lease in leases :: lease.expiresAt != 0
    ensures AlarmKept(Store(buckets, leases, NextAlarm(leases)))
  {
    ScheduledIsGuarded(buckets, leases);
    if leases != [] { EarliestIsLeast(leases); }
  }

  lemma StepKeepsAlarm(s: State, e: Event)
    requires AlarmKept(s.store) && Dated(e)
    ensures AlarmKept(Next(s, e).store)
  {
    hide NextAlarm, Unexpired, WithoutLease, Renewed, Added, Purged, BucketAt, Find, ActiveCount, ChargedOnRelease;
    var leases, store := s.store.leases, Next(s, e).store;
    match e
    case Acquire(input) =>
      UnexpiredExactly(leases, input.now);
      if Verdict(s.store, input).Allowed? { Scheduled(store.buckets, store.leases); }
    case Release(id, _, _, _) =>
      WithoutIsPart(leases, id);
      Scheduled(store.buckets, store.leases);
    case Renew(id, now, ttl) =>
      UnexpiredExactly(leases, now);
      RenewedDates(Unexpired(leases, now), id, now + ttl);
      if Find(Unexpired(leases, now), id).Some? { Scheduled(store.buckets, store.leases); }
    case Observe(now) => UnexpiredExactly(leases, now);
    case Alarm(now) =>
      UnexpiredExactly(leases, now);
      Scheduled(store.buckets, store.leases);
  }

  /** In every run of dated leases, whenever a lease exists an alarm is set no later than its expiry, so an
      abandoned lease does not hold its slot for ever. */
  lemma LeaseHasAlarm(s: State, events: seq<Event>)
    requires Fresh(s) && forall i | 0 <= i < |events| :: Dated(events[i])
    ensures Guarded(After(s, events).store)
  {
    RunKeepsAlarm(s, events);
  }

  lemma {:induction false} RunKeepsAlarm(s: State, events: seq<Event>)
    requires AlarmKept(s.store) && forall i | 0 <= i < |events| :: Dated(events[i])
    ensures AlarmKept(After(s, events).store)
    decreases |events|
  {
    if events != [] {
      hide AlarmKept, Next;
      StepKeepsAlarm(s, events[0]);
      RunKeepsAlarm(Next(s, events[0]), events[1..]);
    }
  }

  // ----- bytes

  /** The daily byte cap holds at admission. */
  lemma AdmittedWithinBytes(store: Store, input: Input)
    ensures Verdict(store, input).Allowed? ==>
      BucketAt(AfterAcquire(store, input).buckets, Day, BucketOf(Day, input.now)).bytes <= input.limits.bytesPerDay
  {
    hide Unexpired, NextAlarm, Find, ActiveCount;
  }

  predicate WithinCap(s: State, cap: nat) {
    forall key | key in s.store.buckets && key.0.Day? :: s.store.buckets[key].bytes <= cap
  }

  /** A release whose bytes still fit into its day. */
  predicate Affords(s: State, e: Event, cap: nat) {
    e.Release? ==>
      BucketAt(s.store.buckets, Day, BucketOf(Day, e.now)).bytes
        + ChargedOnRelease(Find(s.store.leases, e.requestId), e.responseBytes, e.requestBytes) <= cap
  }

  lemma StepKeepsCap(s: State, e: Event, cap: nat)
    requires WithinCap(s, cap) && (e.Acquire? ==> e.input.limits.bytesPerDay <= cap)
    ensures WithinCap(Next(s, e), cap) <==> Affords(s, e, cap)
  {
    hide Unexpired, Renewed, WithoutLease, NextAlarm, ChargedOnRelease, BucketOf, Find, ActiveCount;
    if e.Release? {
      var t, today := Next(s, e), BucketOf(Day, e.now);
      ReleaseCharges(s.store, e.requestId, e.responseBytes, e.requestBytes, e.now, Day, today);
      assert (Day, today) in t.store.buckets;
      forall key | key in t.store.buckets && key.0.Day? && key.1 != today ensures t.store.buckets[key].bytes <= cap {
        assert key == (Day, key.1);
      }
    }
  }

  /** No day is above the cap in any state of a run. */
  ghost predicate CapAlong(s: State, events: seq<Event>, cap: nat)
    decreases |events|
  {
    WithinCap(s, cap) && (events == [] || CapAlong(Next(s, events[0]), events[1..], cap))
  }

  /** Every release of a run fits into its day when it is made. */
  ghost predicate AffordsAlong(s: State, events: seq<Event>, cap: nat)
    decreases |events|
  {
    events == [] || (Affords(s, events[0], cap) && AffordsAlong(Next(s, events[0]), events[1..], cap))
  }

  /** Admissions never break the daily cap, and a run keeps it from its start to its end exactly when
      every release, which the code does not check, fits into its day. */
  lemma {:induction false} CapKeptExactly(s: State, events: seq<Event>, cap: nat)
    requires WithinCap(s, cap)
    requires forall i | 0 <= i < |events| :: events[i].Acquire? ==> events[i].input.limits.bytesPerDay <= cap
    ensures CapAlong(s, events, cap) <==> AffordsAlong(s, events, cap)
    decreases |events|
  {
    if events != [] {
      hide WithinCap, Affords, Next;
      StepKeepsCap(s, events[0], cap);
      if Affords(s, events[0], cap) { CapKeptExactly(Next(s, events[0]), events[1..], cap); }
    }
  }

  /** A release that does not fit: the total passes the cap. */
  lemma ReleaseMayPassCap()
    ensures var limits := Limits(1, 1, 1, 1, 10);
            var input := Input(0, Http, 0, 10, 1, limits);
            var store := Store(map[], [], None);
            && Verdict(store, input).Allowed?
            && BucketAt(AfterRelease(AfterAcquire(store, input), 0, 5, 10, 0).buckets, Day, 0).bytes == 15
  {
    var store := Store(map[], [], None);
    var input := Input(0, Http, 0, 10, 1, Limits(1, 1, 1, 1, 10));
    var lease := Lease(0, Http, 10, 1);
    var after := AfterAcquire(store, input);
    assert after.leases == [lease];
    assert Find([lease], 0) == Some(lease);
    assert BucketAt(after.buckets, Day, 0) == Bucket(0, 10);
  }
}
