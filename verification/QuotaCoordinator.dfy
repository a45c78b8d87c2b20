/** The in-memory half of the quota engine: counters of active requests that leases share. Every method
    here is the body of one exclusive section, so it runs without interruption. */
module QuotaCoordinator {
  import opened Arithmetic
  import opened Options
  import opened QuotaOutcomes
  import opened QuotaRules

  /** Counters of both kinds, as values. */
  datatype Counts = Counts(http: int, tunnel: int) {
    function Of(kind: Kind): int { if kind.Http? then http else tunnel }

    function Plus(kind: Kind, delta: int): Counts {
      if kind.Http? then Counts(Max(0, http + delta), tunnel) else Counts(http, Max(0, tunnel + delta))
    }
  }

  class ActiveState {
    var http: int
    var tunnel: int

    /** Whose requests these counters count. */
    ghost const owner: Key

    constructor (ghost owner: Key)
      ensures http == 0 && tunnel == 0 && this.owner == owner
    {
      http, tunnel := 0, 0;
      this.owner := owner;
    }

    function Active(kind: Kind): int
      reads this
    {
      if kind.Http? then http else tunnel
    }

    function Counted(): Counts
      reads this
    {
      Counts(http, tunnel)
    }
  }

  class Lease {
    const token: Id
    const kind: Kind
    const tokenActive: ActiveState
    var released: bool

    constructor (token: Id, kind: Kind, tokenActive: ActiveState)
      ensures this.token == token && this.kind == kind && this.tokenActive == tokenActive && !released
    {
      this.token, this.kind, this.tokenActive := token, kind, tokenActive;
      released := false;
    }
  }

  datatype Refusal = TokenConcurrency | InstanceConcurrency | RateOrBytes | InvalidBytes | DatabaseFault

  datatype Acquired = Granted(lease: Lease) | Refused(why: Refusal)

  function OfToken(leases: set<Lease>, token: Id, kind: Kind): set<Lease> {
    set lease | lease in leases && lease.token == token && lease.kind == kind
  }

  function OfKind(leases: set<Lease>, kind: Kind): set<Lease> {
    set lease | lease in leases && lease.kind == kind
  }

  /** How many of the leases are of a kind, for one token and in all. */
  function TokenCount(leases: set<Lease>, token: Id, kind: Kind): nat { |OfToken(leases, token, kind)| }

  function KindCount(leases: set<Lease>, kind: Kind): nat { |OfKind(leases, kind)| }

  function One(counts: bool): nat { if counts then 1 else 0 }

  lemma OneMoreOfToken(leases: set<Lease>, lease: Lease, token: Id, kind: Kind)
    requires lease !in leases
    ensures TokenCount(leases + {lease}, token, kind)
         == TokenCount(leases, token, kind) + One(lease.token == token && lease.kind == kind)
  {
    var before := OfToken(leases, token, kind);
    if lease.token == token && lease.kind == kind {
      assert OfToken(leases + {lease}, token, kind) == before + {lease};
    } else {
      assert OfToken(leases + {lease}, token, kind) == before;
    }
  }

  lemma OneMoreOfKind(leases: set<Lease>, lease: Lease, kind: Kind)
    requires lease !in leases
    ensures KindCount(leases + {lease}, kind) == KindCount(leases, kind) + One(lease.kind == kind)
  {
    var before := OfKind(leases, kind);
    if lease.kind == kind {
      assert OfKind(leases + {lease}, kind) == before + {lease};
    } else {
      assert OfKind(leases + {lease}, kind) == before;
    }
  }

  lemma OneMore(leases: set<Lease>, lease: Lease)
    requires lease !in leases
    ensures forall token, kind :: TokenCount(leases + {lease}, token, kind)
              == TokenCount(leases, token, kind) + One(lease.token == token && lease.kind == kind)
    ensures forall kind :: KindCount(leases + {lease}, kind) == KindCount(leases, kind) + One(lease.kind == kind)
  {
    hide TokenCount, KindCount;
    forall token, kind ensures TokenCount(leases + {lease}, token, kind)
              == TokenCount(leases, token, kind) + One(lease.token == token && lease.kind == kind)
    {
      OneMoreOfToken(leases, lease, token, kind);
    }
    forall kind ensures KindCount(leases + {lease}, kind) == KindCount(leases, kind) + One(lease.kind == kind) {
      OneMoreOfKind(leases, lease, kind);
    }
  }

  lemma Counted(leases: set<Lease>, token: Id)
    ensures (TokenCount(leases, token, Http) == 0 && TokenCount(leases, token, Tunnel) == 0)
       <==> forall lease | lease in leases :: lease.token != token
  {
    if lease :| lease in leases && lease.token == token {
      assert lease in OfToken(leases, token, lease.kind);
    } else {
      assert OfToken(leases, token, Http) == {} && OfToken(leases, token, Tunnel) == {};
    }
  }

  /** Moves one counter of both levels, never below zero. */
  method Shift(tokenActive: ActiveState, instanceActive: ActiveState, kind: Kind, delta: int)
    requires tokenActive != instanceActive
    modifies tokenActive, instanceActive
    ensures tokenActive.Counted() == old(tokenActive.Counted()).Plus(kind, delta)
    ensures instanceActive.Counted() == old(instanceActive.Counted()).Plus(kind, delta)
  {
    if kind.Http? {
      tokenActive.http := Max(0, tokenActive.http + delta);
      instanceActive.http := Max(0, instanceActive.http + delta);
    } else {
      tokenActive.tunnel := Max(0, tokenActive.tunnel + delta);
      instanceActive.tunnel := Max(0, instanceActive.tunnel + delta);
    }
  }

  /** The counters agree with the leases: each is the number of leases it stands for, and a token has an
      entry exactly while it holds a lease. */
  ghost predicate Agree(byToken: map<Id, Counts>, instance: Counts, leases: set<Lease>) {
    && (forall token, kind: Kind | token in byToken :: byToken[token].Of(kind) == TokenCount(leases, token, kind))
    && (forall token | token in byToken :: byToken[token] != Counts(0, 0))
    && (forall lease | lease in leases :: lease.token in byToken)
    && (forall kind: Kind :: instance.Of(kind) == KindCount(leases, kind))
  }

  /** No counter is above its limit. */
  ghost predicate Within(byToken: map<Id, Counts>, instance: Counts, quotas: Id -> Quota) {
    && (forall token, kind: Kind | token in byToken :: byToken[token].Of(kind) <= ConcurrencyLimit(quotas(token), kind))
    && (forall kind: Kind :: instance.Of(kind) <= ConcurrencyLimit(INSTANCE_QUOTA, kind))
  }

  function Current(byToken: map<Id, Counts>, token: Id): Counts {
    if token in byToken then byToken[token] else Counts(0, 0)
  }

  function Without(byToken: map<Id, Counts>, token: Id, counts: Counts): map<Id, Counts> {
    if counts == Counts(0, 0) then byToken - {token} else byToken[token := counts]
  }

  lemma AgreeGrown(byToken: map<Id, Counts>, instance: Counts, leases: set<Lease>, lease: Lease)
    requires Agree(byToken, instance, leases) && lease !in leases
    ensures Agree(byToken[lease.token := Current(byToken, lease.token).Plus(lease.kind, 1)], instance.Plus(lease.kind, 1),
                  leases + {lease})
  {
    hide TokenCount, KindCount;
    OneMore(leases, lease);
    Counted(leases, lease.token);
  }

  lemma AgreeShrunk(byToken: map<Id, Counts>, instance: Counts, leases: set<Lease>, lease: Lease)
    requires Agree(byToken, instance, leases) && lease in leases
    ensures lease.token in byToken && byToken[lease.token].Of(lease.kind) > 0 && instance.Of(lease.kind) > 0
    ensures Agree(Without(byToken, lease.token, byToken[lease.token].Plus(lease.kind, -1)), instance.Plus(lease.kind, -1),
                  leases - {lease})
    ensures forall held | held in leases - {lease} ::
              held.token in Without(byToken, lease.token, byToken[lease.token].Plus(lease.kind, -1))
  {
    hide TokenCount, KindCount;
    var others := leases - {lease};
    assert leases == others + {lease};
    OneMore(others, lease);
    Counted(others, lease.token);
    assert byToken[lease.token].Of(Http) == TokenCount(leases, lease.token, Http);
    assert byToken[lease.token].Of(Tunnel) == TokenCount(leases, lease.token, Tunnel);
  }

  lemma WithinGrown(byToken: map<Id, Counts>, instance: Counts, quotas: Id -> Quota, token: Id, kind: Kind)
    requires Within(byToken, instance, quotas)
    requires Current(byToken, token).Of(kind) < ConcurrencyLimit(quotas(token), kind)
    requires instance.Of(kind) < ConcurrencyLimit(INSTANCE_QUOTA, kind)
    ensures Within(byToken[token := Current(byToken, token).Plus(kind, 1)], instance.Plus(kind, 1), quotas)
  {
    forall other: Kind ensures Current(byToken, token).Plus(kind, 1).Of(other) <= ConcurrencyLimit(quotas(token), other) {
      if token in byToken { assert byToken[token].Of(other) <= ConcurrencyLimit(quotas(token), other); }
    }
  }

  lemma WithinShrunk(byToken: map<Id, Counts>, instance: Counts, quotas: Id -> Quota, token: Id, kind: Kind)
    requires Within(byToken, instance, quotas) && token in byToken
    ensures Within(Without(byToken, token, byToken[token].Plus(kind, -1)), instance.Plus(kind, -1), quotas)
  {
    forall other: Kind ensures byToken[token].Plus(kind, -1).Of(other) <= ConcurrencyLimit(quotas(token), other) {
      assert byToken[token].Of(other) <= ConcurrencyLimit(quotas(token), other);
    }
  }

  class QuotaCoordinator {
    var ledgers: Ledgers
    var activeByToken: map<Id, ActiveState>
    const instanceActive: ActiveState
    /** The quota of each token, which does not change. */
    ghost const quotas: Id -> Quota
    /** The leases granted and not yet released. */
    ghost var outstanding: set<Lease>
    /** Every counter object the map has held. */
    ghost var states: set<ActiveState>

    ghost function ByToken(): map<Id, Counts>
      requires forall token | token in activeByToken :: activeByToken[token] in states
      reads this, states
    {
      map token | token in activeByToken :: activeByToken[token].Counted()
    }

    ghost function InAll(): Counts
      reads this, instanceActive
    {
      instanceActive.Counted()
    }

    /** Every outstanding lease shares the counters that the map holds for its token. */
    ghost predicate Linked()
      reads this, states, outstanding
    {
      && instanceActive.owner == Instance
      && (forall token | token in activeByToken ::
            activeByToken[token] in states && activeByToken[token].owner == Token(token))
      && (forall lease | lease in outstanding ::
            !lease.released && lease.token in activeByToken && lease.tokenActive == activeByToken[lease.token])
    }

    ghost predicate Valid()
      reads this, instanceActive, states, outstanding
    {
      Linked() && Agree(ByToken(), InAll(), outstanding) && Within(ByToken(), InAll(), quotas)
    }

    constructor (ledgers: Ledgers, ghost quotas: Id -> Quota)
      ensures Valid() && this.ledgers == ledgers && this.quotas == quotas && outstanding == {} && fresh(instanceActive)
    {
      this.ledgers, this.quotas := ledgers, quotas;
      activeByToken := map[];
      instanceActive := new ActiveState(Instance);
      outstanding, states := {}, {};
    }

    /** Grants a lease exactly when both concurrency limits leave room - the token's own, and 20 requests or 8
        tunnels for the instance - and the ledgers admit the request; a refusal changes nothing at all. */
    method Acquire(token: Id, quota: Quota, kind: Kind, bytes: int, now: int, fault: bool) returns (acquired: Acquired)
      requires Valid() && quota == quotas(token)
      modifies this, instanceActive, states
      ensures Valid()
      ensures acquired.Granted? <==>
        && ChargeableBytes(bytes) && !fault
        && old(TokenCount(outstanding, token, kind)) < (if kind.Http? then quota.concurrentHttp else quota.concurrentTunnels)
        && old(KindCount(outstanding, kind)) < (if kind.Http? then 20 else 8)
        && Admits(old(ledgers), token, quota, bytes, now)
      ensures acquired.Granted? ==>
        && fresh(acquired.lease) && acquired.lease.token == token && acquired.lease.kind == kind
        && outstanding == old(outstanding) + {acquired.lease}
        && Some(ledgers) == AcquireEffect(old(ledgers), token, quota, bytes, now)
      ensures acquired.Refused? ==>
        && acquired.why == (
             if !ChargeableBytes(bytes) then InvalidBytes
             else if old(TokenCount(outstanding, token, kind)) >= (if kind.Http? then quota.concurrentHttp else quota.concurrentTunnels)
             then TokenConcurrency
             else if old(KindCount(outstanding, kind)) >= (if kind.Http? then 20 else 8) then InstanceConcurrency
             else if !Admits(old(ledgers), token, quota, bytes, now) then RateOrBytes
             else DatabaseFault)
        && unchanged(this) && unchanged(instanceActive) && unchanged(old(states))
    {
      hide TokenCount, KindCount, AcquireEffect, Admits, Agree, Within;
      CountsOf(token, kind);
      AdmittedExactly(ledgers, token, quota, bytes, now);
      ghost var byToken, instance, held := ByToken(), InAll(), outstanding;
      if !ChargeableBytes(bytes) {
        return Refused(InvalidBytes);
      }
      var tokenActive;
      if token in activeByToken {
        tokenActive := activeByToken[token];
      } else {
        tokenActive := new ActiveState(Token(token));
      }
      if tokenActive.Active(kind) >= ConcurrencyLimit(quota, kind) {
        return Refused(TokenConcurrency);
      }
      if instanceActive.Active(kind) >= ConcurrencyLimit(INSTANCE_QUOTA, kind) {
        return Refused(InstanceConcurrency);
      }
      var effect := AcquireEffect(ledgers, token, quota, bytes, now);
      if effect.None? {
        return Refused(RateOrBytes);
      }
      if fault {
        return Refused(DatabaseFault);
      }
      ledgers := effect.value;
      var lease := new Lease(token, kind, tokenActive);
      states := states + {tokenActive};
      assert ByToken() == byToken;
      Count(lease);
      AgreeGrown(byToken, instance, held, lease);
      WithinGrown(byToken, instance, quotas, token, kind);
      acquired := Granted(lease);
    }

    lemma CountsOf(token: Id, kind: Kind)
      requires Valid()
      ensures TokenCount(outstanding, token, kind) == if token in activeByToken then activeByToken[token].Active(kind) else 0
      ensures KindCount(outstanding, kind) == instanceActive.Active(kind)
    {
      hide TokenCount, KindCount;
      Counted(outstanding, token);
      assert token in activeByToken ==> ByToken()[token].Of(kind) == activeByToken[token].Active(kind);
      assert InAll().Of(kind) == KindCount(outstanding, kind);
    }

    /** Counts an admitted request on both levels. */
    method Count(lease: Lease)
      requires Linked() && lease.tokenActive.owner == Token(lease.token) && lease.tokenActive in states && !lease.released
      requires if lease.token in activeByToken then lease.tokenActive == activeByToken[lease.token]
               else lease.tokenActive.Counted() == Counts(0, 0)
      modifies `activeByToken, `outstanding, instanceActive, lease.tokenActive
      ensures Linked() && outstanding == old(outstanding) + {lease}
      ensures ByToken() == old(ByToken())[lease.token := old(Current(ByToken(), lease.token)).Plus(lease.kind, 1)]
      ensures InAll() == old(InAll()).Plus(lease.kind, 1)
    {
      Shift(lease.tokenActive, instanceActive, lease.kind, 1);
      activeByToken := activeByToken[lease.token := lease.tokenActive];
      outstanding := outstanding + {lease};
      CountsMoved(lease.token);
    }

    /** When the counters of one token have moved, so have its counts and no others. */
    twostate lemma CountsMoved(token: Id)
      requires old(Linked()) && Linked()
      requires forall other | other in old(activeByToken) && other != token ::
                 other in activeByToken && old(activeByToken)[other] == activeByToken[other] && unchanged(activeByToken[other])
      requires forall other | other in activeByToken && other != token :: other in old(activeByToken)
      ensures ByToken() == if token in activeByToken then old(ByToken())[token := activeByToken[token].Counted()]
                           else old(ByToken()) - {token}
    {
    }

    /** Takes one off both counters, which then are at least zero without clipping; releasing twice
        changes nothing. */
    method Release(lease: Lease)
      requires Valid()
      requires lease.released || lease in outstanding
      modifies this, instanceActive, states, lease
      ensures Valid() && lease.released
      ensures outstanding == old(outstanding) - {lease} && ledgers == old(ledgers)
      ensures old(lease.released) ==> unchanged(this) && unchanged(instanceActive) && unchanged(old(states))
      ensures !old(lease.released) ==> old(lease.tokenActive.Active(lease.kind)) > 0 && old(instanceActive.Active(lease.kind)) > 0
    {
      hide Agree, Within;
      if lease.released {
        return;
      }
      AgreeShrunk(ByToken(), InAll(), outstanding, lease);
      WithinShrunk(ByToken(), InAll(), quotas, lease.token, lease.kind);
      Drop(lease);
    }

    method Drop(lease: Lease)
      requires Linked() && lease in outstanding
      requires forall held | held in outstanding - {lease} ::
                 held.token in Without(ByToken(), lease.token, ByToken()[lease.token].Plus(lease.kind, -1))
      modifies `activeByToken, `outstanding, instanceActive, lease.tokenActive, lease
      ensures Linked() && lease.released && outstanding == old(outstanding) - {lease}
      ensures ByToken() == old(Without(ByToken(), lease.token, ByToken()[lease.token].Plus(lease.kind, -1)))
      ensures InAll() == old(InAll()).Plus(lease.kind, -1)
    {
      lease.released := true;
      var tokenActive := lease.tokenActive;
      Shift(tokenActive, instanceActive, lease.kind, -1);
      outstanding := outstanding - {lease};
      if tokenActive.http == 0 && tokenActive.tunnel == 0 {
        activeByToken := activeByToken - {lease.token};
      }
      CountsMoved(lease.token);
    }

    /** Charges more bytes against a lease. `found` is the released flag as the call found it before it
        queued: a charge made before a release is still committed after it. */
    method ChargeBytes(lease: Lease, found: bool, quota: Quota, bytes: int, now: int, fault: bool) returns (charged: bool)
      requires Valid()
      modifies `ledgers
      ensures charged <==>
        !found && ChargeableBytes(bytes)
        && (bytes == 0 || (!fault && HasRooms(old(ledgers), lease.token, quota, bytes, now)))
      ensures ledgers == if charged && bytes != 0 then ChargeEffect(old(ledgers), lease.token, quota, bytes, now).value
                         else old(ledgers)
    {
      ChargeAdmittedExactly(ledgers, lease.token, quota, bytes, now);
      hide ChargeEffect, HasRooms;
      if found || !ChargeableBytes(bytes) {
        return false;
      }
      if bytes == 0 {
        return true;
      }
      var effect := ChargeEffect(ledgers, lease.token, quota, bytes, now);
      if effect.None? || fault {
        return false;
      }
      ledgers := effect.value;
      charged := true;
    }
  }
}
