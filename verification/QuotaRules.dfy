/** The rules of the Node quota engine: a token bucket per key and a daily byte ledger on two levels. */
module QuotaRules {
  import opened Arithmetic
  import opened Options

  type Id = nat

  datatype Quota = Quota(
    burst: nat, bytesPerDay: nat, concurrentHttp: nat, concurrentTunnels: nat, requestsPerMinute: nat)

  const INSTANCE_QUOTA := Quota(300, 10 * 1024 * 1024 * 1024, 20, 8, 300)

  const MAX_SAFE_INTEGER := 9_007_199_254_740_991

  /** A row belongs to one execution token or to the instance as a whole. */
  datatype Key = Instance | Token(id: Id)

  datatype RateRow = RateRow(tokens: real, updatedAt: int)

  datatype Ledgers = Ledgers(rates: map<Key, RateRow>, daily: map<(int, Key), int>)

  datatype Kind = Http | Tunnel

  function ConcurrencyLimit(quota: Quota, kind: Kind): nat {
    if kind.Http? then quota.concurrentHttp else quota.concurrentTunnels
  }

  predicate ChargeableBytes(bytes: int) {
    0 <= bytes <= MAX_SAFE_INTEGER
  }

  function DayAt(now: int): int { now / 86_400_000 }

  function Row(ledgers: Ledgers, key: Key): Option<RateRow> {
    if key in ledgers.rates then Some(ledgers.rates[key]) else None
  }

  function Used(ledgers: Ledgers, day: int, key: Key): int {
    if (day, key) in ledgers.daily then ledgers.daily[(day, key)] else 0
  }

  /** What the bucket gains over some milliseconds: `elapsed * (requestsPerMinute / 60_000)`, exactly. */
  function Refill(quota: Quota, elapsed: int): real {
    (elapsed * quota.requestsPerMinute) as real / 60_000.0
  }

  function Available(row: Option<RateRow>, quota: Quota, now: int): real {
    var elapsed := Max(0, now - if row.Some? then row.value.updatedAt else now);
    var refilled := (if row.Some? then row.value.tokens else quota.burst as real) + Refill(quota, elapsed);
    if refilled < quota.burst as real then refilled else quota.burst as real
  }

  function PlanRate(row: Option<RateRow>, quota: Quota, now: int): Option<RateRow> {
    var available := Available(row, quota, now);
    if available < 1.0 then None else Some(RateRow(available - 1.0, now))
  }

  predicate Fits(used: int, bytes: int, quota: Quota) {
    used + bytes <= quota.bytesPerDay
  }

  /** The rows of one charge: the same bytes on the token and on the instance. */
  function Charged(ledgers: Ledgers, id: Id, day: int, tokenUsed: int, instanceUsed: int, bytes: int): Ledgers {
    ledgers.(daily := ledgers.daily[(day, Token(id)) := tokenUsed + bytes][(day, Instance) := instanceUsed + bytes])
  }

  /** A charge as one atomic step: both ledgers move, or neither does. */
  function ChargeEffect(ledgers: Ledgers, id: Id, quota: Quota, bytes: int, now: int): Option<Ledgers> {
    var day := DayAt(now);
    var tokenUsed, instanceUsed := Used(ledgers, day, Token(id)), Used(ledgers, day, Instance);
    if !Fits(tokenUsed, bytes, quota) || !Fits(instanceUsed, bytes, INSTANCE_QUOTA) then None
    else Some(Charged(ledgers, id, day, tokenUsed, instanceUsed, bytes))
  }

  function Rated(ledgers: Ledgers, id: Id, tokenRate: RateRow, instanceRate: RateRow): Ledgers {
    ledgers.(rates := ledgers.rates[Token(id) := tokenRate][Instance := instanceRate])
  }

  /** An admission as one atomic step: one request from both buckets and the bytes on both ledgers. */
  function AcquireEffect(ledgers: Ledgers, id: Id, quota: Quota, bytes: int, now: int): Option<Ledgers> {
    var tokenRate := PlanRate(Row(ledgers, Token(id)), quota, now);
    var instanceRate := PlanRate(Row(ledgers, Instance), INSTANCE_QUOTA, now);
    if tokenRate.None? || instanceRate.None? then None
    else ChargeEffect(Rated(ledgers, id, tokenRate.value, instanceRate.value), id, quota, bytes, now)
  }
}
