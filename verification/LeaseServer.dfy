/** The control plane's lease records, at most one lease a strategy, and the
    service in front of them. */
module LeaseServer {
  import opened Prelude

  datatype Record = Record(machine: string, leaseId: string, expiresAt: int, ttl: int)

  datatype Reply = Invalid | Forbidden | Denied | Granted(leaseId: string, expiresAt: int)

  /** Another machine is refused until the recorded expiry plus the margin is
      past. */
  predicate FreeFor(cur: Option<Record>, machine: string, now: int, marginCP: nat) {
    cur.None? || now > cur.value.expiresAt + marginCP || cur.value.machine == machine
  }

  /** newId is random; None is a failed read of the random source. */
  function AfterAcquire(cur: Option<Record>, machine: string, now: int, ttl: int, marginCP: nat,
      newId: Option<string>): (Option<Record>, Reply) {
    if machine == "" || ttl <= 0 then (cur, Invalid)
    else if !FreeFor(cur, machine, now, marginCP) then (cur, Denied)
    else if newId.None? then (cur, Invalid)
    else (Some(Record(machine, newId.value, now + ttl, ttl)), Granted(newId.value, now + ttl))
  }

  /** Without a TTL of its own a renewal gets that of the last grant. */
  function AfterRenew(cur: Option<Record>, machine: string, now: int, leaseId: string, ttl: int)
      : (Option<Record>, Reply) {
    if machine == "" || leaseId == "" then (cur, Invalid)
    else if cur.None? || cur.value.machine != machine || cur.value.leaseId != leaseId ||
      now >= cur.value.expiresAt then (cur, Denied)
    else
      var t := if ttl > 0 then ttl else if cur.value.ttl > 0 then cur.value.ttl else DEFAULT_TTL;
      (Some(cur.value.(expiresAt := now + t, ttl := t)), Granted(leaseId, now + t))
  }

  const DEFAULT_TTL := 30_000_000_000

  // ----- the service -----

  /** A client certificate, when there is one, must name the machine. */
  predicate Authorized(cn: Option<string>, machine: string) {
    cn.None? || cn.value == machine
  }

  function RequestedTtl(ttl: int): int {
    if ttl <= 0 then DEFAULT_TTL else ttl
  }

  function AfterAcquireRequest(cur: Option<Record>, cn: Option<string>, machine: string, now: int, ttl: int,
      marginCP: nat, newId: Option<string>): (Option<Record>, Reply) {
    if machine == "" then (cur, Invalid)
    else if !Authorized(cn, machine) then (cur, Forbidden)
    else AfterAcquire(cur, machine, now, RequestedTtl(ttl), marginCP, newId)
  }

  /** The first store section of a renewal. The request names no machine: the
      recorded one is taken. */
  function ReadForRenewal(cur: Option<Record>, cn: Option<string>, leaseId: string): Result<string, Reply> {
    if leaseId == "" then Err(Invalid)
    else if cur.None? then Err(Denied)
    else if !Authorized(cn, cur.value.machine) then Err(Forbidden)
    else Ok(cur.value.machine)
  }

  /** Both sections, with nothing between them. */
  function AfterRenewRequest(cur: Option<Record>, cn: Option<string>, now: int, leaseId: string)
      : (Option<Record>, Reply) {
    var machine := ReadForRenewal(cur, cn, leaseId);
    if machine.Err? then (cur, machine.error) else AfterRenew(cur, machine.value, now, leaseId, 0)
  }

  // ----- who gets what -----

  /** An acquisition is granted exactly to a named machine, for a positive TTL and
      with an id at hand, when there is no lease, or it is the machine's own, or it
      expired more than the margin ago; and then the record is the new grant. */
  lemma AcquireGrantedIff(cur: Option<Record>, machine: string, now: int, ttl: int, marginCP: nat,
      newId: Option<string>)
    ensures var (rec, r) := AfterAcquire(cur, machine, now, ttl, marginCP, newId);
            (r.Granted? <==>
               machine != "" && ttl > 0 && newId.Some? &&
               (cur.None? || cur.value.machine == machine || cur.value.expiresAt + marginCP < now)) &&
            (r.Granted? ==>
               r.leaseId == newId.value && r.expiresAt == now + ttl &&
               rec == Some(Record(machine, r.leaseId, r.expiresAt, ttl))) &&
            (!r.Granted? ==> rec == cur)
  {
  }

  /** A renewal is granted only before the recorded expiry, to the recorded machine
      with the recorded id; it extends the record by the TTL asked for, or that of
      the last grant, and leaves machine and id. */
  lemma RenewGrantedIff(cur: Option<Record>, machine: string, now: int, leaseId: string, ttl: int)
    ensures var (rec, r) := AfterRenew(cur, machine, now, leaseId, ttl);
            (r.Granted? <==>
               machine != "" && leaseId != "" && cur.Some? && cur.value.machine == machine &&
               cur.value.leaseId == leaseId && now < cur.value.expiresAt) &&
            (r.Granted? ==>
               rec.Some? && rec.value.machine == machine && r.leaseId == rec.value.leaseId == leaseId &&
               r.expiresAt == rec.value.expiresAt == now + rec.value.ttl &&
               (ttl > 0 ==> rec.value.ttl == ttl) &&
               (ttl <= 0 && cur.value.ttl > 0 ==> rec.value.ttl == cur.value.ttl) &&
               (ttl <= 0 && cur.value.ttl <= 0 ==> rec.value.ttl == 30_000_000_000)) &&
            (!r.Granted? ==> rec == cur)
  {
  }

  /** Over the wire: a certificate that names another machine is refused, and
      nothing else changes the answer of the store. */
  lemma CertificateDecides(cur: Option<Record>, cn: string, machine: string, now: int, ttl: int, marginCP: nat,
      newId: Option<string>, leaseId: string)
    requires machine != "" && leaseId != "" && cur.Some?
    ensures var certified := AfterAcquireRequest(cur, Some(cn), machine, now, ttl, marginCP, newId);
            if cn == machine then certified == AfterAcquireRequest(cur, None, machine, now, ttl, marginCP, newId)
            else certified == (cur, Forbidden)
    ensures var certified := AfterRenewRequest(cur, Some(cn), now, leaseId);
            if cn == cur.value.machine then certified == AfterRenewRequest(cur, None, now, leaseId)
            else certified == (cur, Forbidden)
    ensures AfterAcquireRequest(cur, None, machine, now, ttl, marginCP, newId) ==
            AfterAcquire(cur, machine, now, if ttl > 0 then ttl else 30_000_000_000, marginCP, newId)
    ensures AfterRenewRequest(cur, None, now, leaseId) == AfterRenew(cur, cur.value.machine, now, leaseId, 0)
  {
  }

  class Server {
    const store: Store

    constructor (store: Store)
      ensures this.store == store
    {
      this.store := store;
    }

    method Acquire(cn: Option<string>, machine: string, strategy: string, now: int, ttl: int,
        newId: Option<string>) returns (r: Reply)
      modifies store
      ensures strategy == "" ==> r == Invalid
      ensures strategy != "" ==>
                (store.Get(strategy), r) ==
                AfterAcquireRequest(old(store.Get(strategy)), cn, machine, now, ttl, store.marginCP, newId)
      ensures store.leases - {strategy} == old(store.leases) - {strategy}
    {
      if machine == "" || strategy == "" {
        return Invalid;
      }
      if cn.Some? && cn.value != machine {
        return Forbidden;
      }
      var t := ttl;
      if t <= 0 {
        t := DEFAULT_TTL;
      }
      r := store.AcquireLease(machine, strategy, now, t, newId);
    }

    method Renew(cn: Option<string>, strategy: string, now: int, leaseId: string) returns (r: Reply)
      modifies store
      ensures strategy == "" ==> r == Invalid
      ensures strategy != "" ==>
                (store.Get(strategy), r) == AfterRenewRequest(old(store.Get(strategy)), cn, now, leaseId)
      ensures store.leases - {strategy} == old(store.leases) - {strategy}
    {
      if leaseId == "" || strategy == "" {
        return Invalid;
      }
      var info := store.Get(strategy);
      if info.None? {
        return Denied;
      }
      if cn.Some? && cn.value != info.value.machine {
        return Forbidden;
      }
      r := store.RenewLease(info.value.machine, strategy, now, leaseId, 0);
    }
  }

  class Store {
    const marginCP: nat
    var leases: map<string, Record>

    constructor (marginCP: int)
      ensures leases == map[] && this.marginCP == if marginCP < 0 then 0 else marginCP
    {
      this.marginCP := if marginCP < 0 then 0 else marginCP;
      leases := map[];
    }

    function Get(strategy: string): Option<Record>
      reads this
    {
      if strategy in leases then Some(leases[strategy]) else None
    }

    method AcquireLease(machine: string, strategy: string, now: int, ttl: int, newId: Option<string>) returns (r: Reply)
      modifies this
      ensures strategy == "" ==> r == Invalid
      ensures strategy != "" ==>
                (Get(strategy), r) == AfterAcquire(old(Get(strategy)), machine, now, ttl, marginCP, newId)
      ensures leases - {strategy} == old(leases) - {strategy}
    {
      if machine == "" || strategy == "" || ttl <= 0 {
        return Invalid;
      }
      if strategy in leases {
        var cur := leases[strategy];
        var heldUntil := cur.expiresAt + marginCP;
        if !(now > heldUntil) && cur.machine != machine {
          return Denied;
        }
      }
      if newId.None? {
        return Invalid;
      }
      var exp := now + ttl;
      leases := leases[strategy := Record(machine, newId.value, exp, ttl)];
      return Granted(newId.value, exp);
    }

    method RenewLease(machine: string, strategy: string, now: int, leaseId: string, ttl: int) returns (r: Reply)
      modifies this
      ensures strategy == "" ==> r == Invalid
      ensures strategy != "" ==> (Get(strategy), r) == AfterRenew(old(Get(strategy)), machine, now, leaseId, ttl)
      ensures leases - {strategy} == old(leases) - {strategy}
    {
      if machine == "" || strategy == "" || leaseId == "" {
        return Invalid;
      }
      if strategy !in leases {
        return Denied;
      }
      var cur := leases[strategy];
      if cur.machine != machine || cur.leaseId != leaseId {
        return Denied;
      }
      if !(now < cur.expiresAt) {
        return Denied;
      }
      var t := ttl;
      if t <= 0 {
        t := cur.ttl;
      }
      if t <= 0 {
        t := DEFAULT_TTL;
      }
      leases := leases[strategy := cur.(expiresAt := now + t, ttl := t)];
      return Granted(leaseId, now + t);
    }
  }
}
