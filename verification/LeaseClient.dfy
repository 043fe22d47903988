/** The fencing-lease client: a lease granted in wall time and kept on the
    monotonic clock. Times are in nanoseconds. */
module LeaseClient {
  import opened Prelude

  /** What time.Now() returns: a wall reading with a monotonic reading. */
  datatype Reading = Reading(wall: int, mono: int)

  /** The fields guarded by the client's mutex. */
  datatype Lease = Lease(
    leaseId: string, deadlineMono: int, anchor: Option<Reading>, expiresAt: int,
    lastWall: Option<Reading>, lastElapsed: int)

  datatype Verdict = Passed | NotAcquired | Expired | ClockJump

  /** An RPC to the lease service: an error, a denial, or a grant. */
  datatype Rpc = RpcFailed | Denied | Granted(leaseId: string, expiresAt: int)

  const UNACQUIRED := Lease("", 0, None, 0, None, 0)

  function Abs(x: int): nat {
    if x < 0 then -x else x
  }

  /** Time left when the wall clock read wall, less the margin, never negative. */
  function TimeLeft(expiresAt: int, wall: int, margin: int): nat {
    if expiresAt - wall - margin < 0 then 0 else expiresAt - wall - margin
  }

  /** now is the reading taken first, since the monotonic reading behind
      time.Since(anchor). */
  function AfterGrant(s: Lease, margin: int, leaseId: string, expiresAt: int, now: Reading, since: int): Lease {
    var until := TimeLeft(expiresAt, now.wall, margin);
    if s.anchor.None? then Lease(leaseId, until, Some(now), expiresAt, Some(now), 0)
    else s.(leaseId := leaseId, expiresAt := expiresAt, deadlineMono := since - s.anchor.value.mono + until)
  }

  /** Both operands of the wall difference carry monotonic readings, so Sub
      uses those. */
  function Check(s: Lease, threshold: int, now: Reading, since: int): Verdict
    requires s.leaseId != "" ==> s.anchor.Some?
  {
    if s.leaseId == "" then NotAcquired
    else
      var elapsed := since - s.anchor.value.mono;
      if elapsed >= s.deadlineMono then Expired
      else if s.lastWall.None? then Passed
      else
        var delta := (now.mono - s.lastWall.value.mono) - (elapsed - s.lastElapsed);
        if Abs(delta) > threshold then ClockJump else Passed
  }

  function AfterCheck(s: Lease, threshold: int, now: Reading, since: int): Lease
    requires s.leaseId != "" ==> s.anchor.Some?
  {
    if Check(s, threshold, now, since) == Passed
    then s.(lastWall := Some(now), lastElapsed := since - s.anchor.value.mono)
    else s
  }

  datatype Config = Config(
    baseURL: string, machineId: string, strategy: string, ttl: int, marginAgent: int, clockJumpThreshold: int,
    tlsCert: string, tlsKey: string, serverCA: string)

  datatype ConfigError = MissingField | PartialTls | BadTlsFiles

  /** All three TLS files or none. */
  predicate TlsComplete(cfg: Config) {
    (cfg.tlsCert == "" <==> cfg.tlsKey == "") && (cfg.tlsKey == "" <==> cfg.serverCA == "")
  }

  function ConfigRefusal(cfg: Config, filesOk: bool): Option<ConfigError> {
    if cfg.baseURL == "" || cfg.machineId == "" || cfg.strategy == "" then Some(MissingField)
    else if !TlsComplete(cfg) then Some(PartialTls)
    else if cfg.tlsCert != "" && !filesOk then Some(BadTlsFiles)
    else None
  }

  const DEFAULT_TTL := 30_000_000_000
  const DEFAULT_MARGIN := 1_000_000_000
  const DEFAULT_THRESHOLD := 2_000_000_000

  /** A configuration is refused exactly when a required field is missing, or the TLS
      files are not given all together, or cannot be loaded. */
  lemma ConfigRefusedIff(cfg: Config, filesOk: bool)
    ensures var missing := cfg.baseURL == "" || cfg.machineId == "" || cfg.strategy == "";
            var given := (if cfg.tlsCert != "" then 1 else 0) + (if cfg.tlsKey != "" then 1 else 0) +
                         (if cfg.serverCA != "" then 1 else 0);
            match ConfigRefusal(cfg, filesOk)
            case None => !missing && (given == 0 || (given == 3 && filesOk))
            case Some(MissingField) => missing
            case Some(PartialTls) => !missing && 0 < given < 3
            case Some(BadTlsFiles) => !missing && given == 3 && !filesOk
  {
  }

  class Client {
    const ttl: int
    const margin: int
    const threshold: int
    var leaseId: string
    var deadlineMono: int
    var anchor: Option<Reading>
    var expiresAt: int
    var lastWall: Option<Reading>
    var lastElapsed: int

    constructor (ttl: int, margin: int, threshold: int)
      ensures State() == UNACQUIRED && Valid()
      ensures this.ttl == ttl && this.margin == margin && this.threshold == threshold
    {
      this.ttl, this.margin, this.threshold := ttl, margin, threshold;
      leaseId, deadlineMono, anchor, expiresAt, lastWall, lastElapsed := "", 0, None, 0, None, 0;
    }

    /** filesOk: the TLS files could be loaded. */
    static method New(cfg: Config, filesOk: bool) returns (r: Result<Client, ConfigError>)
      ensures ConfigRefusal(cfg, filesOk) == if r.Err? then Some(r.error) else None
      ensures r.Ok? ==> fresh(r.value) && r.value.Valid() && r.value.State() == UNACQUIRED
      ensures r.Ok? ==> r.value.ttl == if cfg.ttl > 0 then cfg.ttl else 30_000_000_000
      ensures r.Ok? ==> r.value.margin == if cfg.marginAgent > 0 then cfg.marginAgent else 1_000_000_000
      ensures r.Ok? ==>
                r.value.threshold == if cfg.clockJumpThreshold > 0 then cfg.clockJumpThreshold else 2_000_000_000
    {
      if cfg.baseURL == "" || cfg.machineId == "" || cfg.strategy == "" {
        return Err(MissingField);
      }
      if cfg.tlsCert != "" || cfg.tlsKey != "" || cfg.serverCA != "" {
        if cfg.tlsCert == "" || cfg.tlsKey == "" || cfg.serverCA == "" {
          return Err(PartialTls);
        }
        if !filesOk {
          return Err(BadTlsFiles);
        }
      }
      var ttl, margin, threshold := cfg.ttl, cfg.marginAgent, cfg.clockJumpThreshold;
      if ttl <= 0 {
        ttl := DEFAULT_TTL;
      }
      if margin <= 0 {
        margin := DEFAULT_MARGIN;
      }
      if threshold <= 0 {
        threshold := DEFAULT_THRESHOLD;
      }
      var c := new Client(ttl, margin, threshold);
      return Ok(c);
    }

    function State(): Lease
      reads this
    {
      Lease(leaseId, deadlineMono, anchor, expiresAt, lastWall, lastElapsed)
    }

    predicate Valid()
      reads this
    {
      leaseId != "" ==> anchor.Some?
    }

    method ApplyGrant(id: string, expires: int, now: Reading, since: int)
      modifies this
      ensures State() == AfterGrant(old(State()), margin, id, expires, now, since) && Valid()
    {
      leaseId := id;
      expiresAt := expires;
      var until := expires - now.wall - margin;
      if until < 0 {
        until := 0;
      }
      if anchor.None? {
        anchor := Some(now);
        deadlineMono := until;
        lastWall := Some(now);
        lastElapsed := 0;
        return;
      }
      deadlineMono := since - anchor.value.mono + until;
    }

    method CheckBeforeOrder(now: Reading, since: int) returns (v: Verdict)
      requires Valid()
      modifies this
      ensures v == Check(old(State()), threshold, now, since)
      ensures State() == AfterCheck(old(State()), threshold, now, since) && Valid()
    {
      if leaseId == "" {
        return NotAcquired;
      }
      var elapsed := since - anchor.value.mono;
      if elapsed >= deadlineMono {
        return Expired;
      }
      if lastWall.Some? {
        var dWall := now.mono - lastWall.value.mono;
        var dMono := elapsed - lastElapsed;
        var delta := dWall - dMono;
        if delta < 0 {
          delta := -delta;
        }
        if delta > threshold {
          return ClockJump;
        }
      }
      lastWall := Some(now);
      lastElapsed := elapsed;
      return Passed;
    }

    /** One turn of the renew loop; rpc is the reply that came back. */
    method RenewOnce(rpc: Rpc, now: Reading, since: int) returns (ok: bool)
      requires Valid()
      modifies this
      ensures ok <==> old(leaseId) != "" && rpc.Granted?
      ensures State() == if ok then AfterGrant(old(State()), margin, rpc.leaseId, rpc.expiresAt, now, since)
                         else old(State())
      ensures Valid()
    {
      if leaseId == "" {
        return false;
      }
      if !rpc.Granted? {
        return false;
      }
      ApplyGrant(rpc.leaseId, rpc.expiresAt, now, since);
      return true;
    }
  }

  // ----- the simple model: one absolute monotonic deadline -----

  /** deadline is on the monotonic clock; baseWall and baseMono are the readings
      the last grant was converted with. */
  datatype Simple = NoLease | HeldUntil(leaseId: string, deadline: int, expiresAt: int, baseWall: int, baseMono: int)

  /** The monotonic reading a grant's remaining time is added to: that of now
      for the first grant, the later one of time.Since for every other. */
  function BaseMono(first: bool, now: Reading, since: int): int {
    if first then now.mono else since
  }

  function SimpleGrant(s: Simple, margin: int, leaseId: string, expiresAt: int, now: Reading, since: int): Simple {
    var base := BaseMono(s.NoLease?, now, since);
    HeldUntil(leaseId, base + TimeLeft(expiresAt, now.wall, margin), expiresAt, now.wall, base)
  }

  datatype Op =
    | Grant(leaseId: string, expiresAt: int, now: Reading, since: int)
    | CheckOp(now: Reading, since: int)

  function Next(s: Lease, margin: int, threshold: int, op: Op): Lease
    requires s.leaseId != "" ==> s.anchor.Some?
  {
    match op
    case Grant(id, expires, now, since) => AfterGrant(s, margin, id, expires, now, since)
    case CheckOp(now, since) => AfterCheck(s, threshold, now, since)
  }

  function SimpleNext(s: Simple, margin: int, op: Op): Simple {
    match op
    case Grant(id, expires, now, since) => SimpleGrant(s, margin, id, expires, now, since)
    case CheckOp(_, _) => s
  }

  function Run(s: Lease, margin: int, threshold: int, ops: seq<Op>): (t: Lease)
    requires s.leaseId != "" ==> s.anchor.Some?
    ensures t.leaseId != "" ==> t.anchor.Some?
    decreases |ops|
  {
    if ops == [] then s else Run(Next(s, margin, threshold, ops[0]), margin, threshold, ops[1..])
  }

  function SimpleRun(s: Simple, margin: int, ops: seq<Op>): Simple
    decreases |ops|
  {
    if ops == [] then s else SimpleRun(SimpleNext(s, margin, ops[0]), margin, ops[1..])
  }

  predicate Agrees(s: Lease, a: Simple) {
    match a
    case NoLease => s.leaseId == "" && s.anchor.None?
    case HeldUntil(id, deadline, expires, _, _) =>
      s.anchor.Some? && s.leaseId == id && s.expiresAt == expires && s.anchor.value.mono + s.deadlineMono == deadline
  }

  lemma {:induction false} RunAgrees(s: Lease, a: Simple, margin: int, threshold: int, ops: seq<Op>)
    requires Agrees(s, a)
    ensures Agrees(Run(s, margin, threshold, ops), SimpleRun(a, margin, ops))
    decreases |ops|
  {
    if ops != [] {
      RunAgrees(Next(s, margin, threshold, ops[0]), SimpleNext(a, margin, ops[0]), margin, threshold, ops[1..]);
    }
  }

  /** Over every run of grants, renewals and checks the anchor-relative deadline
      is the last grant's absolute deadline, and a check reports expiry exactly
      when it has been reached. */
  lemma DeadlineIsLastGrants(margin: int, threshold: int, ops: seq<Op>, now: Reading, since: int)
    ensures var s, a := Run(UNACQUIRED, margin, threshold, ops), SimpleRun(NoLease, margin, ops);
            var v := Check(s, threshold, now, since);
            (a.NoLease? ==> v == NotAcquired) &&
            (a.HeldUntil? ==>
               (v == NotAcquired <==> a.leaseId == "") && (a.leaseId != "" ==> (v == Expired <==> since >= a.deadline)))
  {
    RunAgrees(UNACQUIRED, NoLease, margin, threshold, ops);
  }

  predicate NoGrants(ops: seq<Op>) {
    forall i | 0 <= i < |ops| :: ops[i].CheckOp?
  }

  lemma {:induction false} ChecksKeepDeadline(a: Simple, margin: int, ops: seq<Op>)
    requires NoGrants(ops)
    ensures SimpleRun(a, margin, ops) == a
    decreases |ops|
  {
    if ops != [] {
      assert ops[0].CheckOp?;
      ChecksKeepDeadline(a, margin, ops[1..]);
    }
  }

  lemma {:induction false} SimpleRunConcat(a: Simple, margin: int, p: seq<Op>, q: seq<Op>)
    ensures SimpleRun(a, margin, p + q) == SimpleRun(SimpleRun(a, margin, p), margin, q)
    decreases |p|
  {
    if p == [] {
      assert p + q == q;
    } else {
      assert (p + q)[0] == p[0] && (p + q)[1..] == p[1..] + q;
      SimpleRunConcat(SimpleNext(a, margin, p[0]), margin, p[1..], q);
    }
  }

  /** Past the deadline of the last grant every check fails until the next one. */
  lemma ExpiredUntilNextGrant(margin: int, threshold: int, before: seq<Op>, checks: seq<Op>, now: Reading, since: int)
    requires NoGrants(checks) && SimpleRun(NoLease, margin, before).HeldUntil?
    requires since >= SimpleRun(NoLease, margin, before).deadline
    ensures Check(Run(UNACQUIRED, margin, threshold, before + checks), threshold, now, since) != Passed
  {
    SimpleRunConcat(NoLease, margin, before, checks);
    ChecksKeepDeadline(SimpleRun(NoLease, margin, before), margin, checks);
    DeadlineIsLastGrants(margin, threshold, before + checks, now, since);
  }

  // ----- what a passed check means in wall time -----

  /** How much the wall clock gained on the monotonic clock since the last
      grant was converted. */
  function Gain(a: Simple, wall: int, mono: int): int
    requires a.HeldUntil?
  {
    (wall - a.baseWall) - (mono - a.baseMono)
  }

  lemma {:induction false} DeadlineShape(a: Simple, margin: int, ops: seq<Op>)
    requires a.HeldUntil? ==> a.deadline == a.baseMono + TimeLeft(a.expiresAt, a.baseWall, margin)
    ensures var b := SimpleRun(a, margin, ops);
            b.HeldUntil? ==> b.deadline == b.baseMono + TimeLeft(b.expiresAt, b.baseWall, margin)
    decreases |ops|
  {
    if ops != [] {
      DeadlineShape(SimpleNext(a, margin, ops[0]), margin, ops[1..]);
    }
  }

  /** A check that passes at a monotonic reading not before the grant is strictly
      before expiresAt as long as the wall clock gained at most the margin. */
  lemma PassedIsBeforeExpiry(margin: int, threshold: int, ops: seq<Op>, now: Reading, since: int, wall: int)
    requires Check(Run(UNACQUIRED, margin, threshold, ops), threshold, now, since) == Passed
    requires var a := SimpleRun(NoLease, margin, ops);
             a.HeldUntil? ==> a.baseMono <= since && Gain(a, wall, since) <= margin
    ensures var a := SimpleRun(NoLease, margin, ops); a.HeldUntil? && since < a.deadline && wall < a.expiresAt
  {
    DeadlineIsLastGrants(margin, threshold, ops, now, since);
    DeadlineShape(NoLease, margin, ops);
  }

  /** The wall reading at monotonic mono when the wall clock gained gain. */
  function WallAt(a: Simple, mono: int, gain: int): int
    requires a.HeldUntil?
  {
    a.baseWall + (mono - a.baseMono) + gain
  }

  /** The bound on the gain is exact: every gain above the margin lets some
      instant before the deadline be at or after expiry. */
  lemma GainBoundIsExact(margin: int, a: Simple, gain: int)
    requires a.HeldUntil? && a.deadline == a.baseMono + TimeLeft(a.expiresAt, a.baseWall, margin) &&
             a.deadline > a.baseMono
    ensures (forall mono | a.baseMono <= mono < a.deadline :: WallAt(a, mono, gain) < a.expiresAt) <==> gain <= margin
  {
    if gain > margin {
      assert WallAt(a, a.deadline - 1, gain) >= a.expiresAt;
    }
  }

  /** A grant that has no more than the margin left gives no time at all. */
  lemma NoTimeLeft(s: Simple, margin: int, leaseId: string, expiresAt: int, now: Reading, since: int)
    requires expiresAt <= now.wall + margin
    ensures SimpleGrant(s, margin, leaseId, expiresAt, now, since).deadline == if s.NoLease? then now.mono else since
  {
  }

  /** On a renewal the wall clock is read before the monotonic one, and what
      passes in between is added to the lease: with a perfect clock a check can
      still pass margin short of expiry plus that delay. */
  lemma RenewalGainsReadDelay(s: Simple, margin: int, leaseId: string, expiresAt: int, now: Reading, since: int)
    requires s.HeldUntil? && now.wall + margin < expiresAt
    ensures var a := SimpleGrant(s, margin, leaseId, expiresAt, now, since);
            var wallAtDeadline := now.wall + (a.deadline - now.mono);
            wallAtDeadline == expiresAt - margin + (since - now.mono)
  {
  }

  // ----- the clock-jump test -----

  /** The delay between the two clock readings of the last passed check (0 right
      after the first grant). */
  function LastDelay(s: Lease): int
    requires s.anchor.Some? && s.lastWall.Some?
  {
    s.anchor.value.mono + s.lastElapsed - s.lastWall.value.mono
  }

  /** A check that passes records its own delay; one that fails, and a renewal,
      leave the recorded delay alone; the first grant starts at no delay. */
  lemma PassedChecksRecordTheirDelay(s: Lease, margin: int, threshold: int, leaseId: string, expiresAt: int,
      now: Reading, since: int)
    requires s.leaseId != "" ==> s.anchor.Some?
    requires s.anchor.Some? ==> s.lastWall.Some?
    ensures var a := AfterCheck(s, threshold, now, since);
            a.anchor == s.anchor && a.deadlineMono == s.deadlineMono &&
            (s.anchor.Some? ==>
               a.lastWall.Some? &&
               LastDelay(a) == if Check(s, threshold, now, since) == Passed then since - now.mono else LastDelay(s))
    ensures var g := AfterGrant(s, margin, leaseId, expiresAt, now, since);
            g.anchor.Some? && g.lastWall.Some? && LastDelay(g) == if s.anchor.Some? then LastDelay(s) else 0
  {
  }

  /** The clock-jump test compares the delays between the two readings of this
      check and of the last passed one. No wall reading takes part in it. */
  lemma JumpTestComparesReadDelays(s: Lease, threshold: int, now: Reading, since: int, wall: int)
    requires s.leaseId != "" && s.anchor.Some? && s.lastWall.Some?
    ensures Check(s, threshold, now, since) == ClockJump <==>
            since - s.anchor.value.mono < s.deadlineMono && Abs(LastDelay(s) - (since - now.mono)) > threshold
    ensures Check(s, threshold, now, since) == Check(s, threshold, now.(wall := wall), since)
    ensures Check(s, threshold, now, since) ==
            Check(s.(lastWall := Some(s.lastWall.value.(wall := wall))), threshold, now, since)
  {
  }
}
