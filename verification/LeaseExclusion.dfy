/** One strategy's lease service with any number of clients, each with its own
    clocks, and replies that are delivered late, repeatedly or never: at no
    instant do two clients on different machines both pass the order check. */
module LeaseExclusion {
  import opened Prelude
  import C = LeaseClient
  import S = LeaseServer

  /** A grant the control plane sent: to which client, until when, and when. */
  datatype Issue = Issue(client: nat, leaseId: string, expiresAt: int, at: int)

  /** A client's machine and margins, its lease fields, its clocks, and the
      grant it applied last with the readings that were used. */
  datatype Node = Node(
    machine: string, margin: nat, threshold: int, lease: C.Lease, wall: int, mono: int, applied: Option<Applied>)

  datatype Applied = Applied(issue: nat, baseWall: int, baseMono: int)

  /** A renewal between its two store sections: the machine it read. */
  datatype Pending = Pending(client: nat, machine: string, leaseId: string)

  /** cp is the control plane's clock; with mtls every connection carries a
      certificate that names the client's machine. */
  datatype World = World(mtls: bool, cp: int, marginCP: nat, record: Option<S.Record>, pending: map<nat, Pending>,
      issued: seq<Issue>, nodes: seq<Node>)

  datatype Event =
    | Tick(cp: int, walls: seq<int>, monos: seq<int>)
    | Acquire(client: nat, ttl: int, newId: string)
    | RenewRead(request: nat, client: nat, leaseId: string)
    | RenewWrite(request: nat)
    | Deliver(client: nat, issue: nat, now: C.Reading)
    | Check(client: nat, now: C.Reading)

  /** The control plane's clock and the monotonic clocks do not go back; a reply
      is delivered to its client; a first reading is not after the second. */
  predicate Possible(w: World, e: Event) {
    match e
    case Tick(cp, walls, monos) =>
      w.cp <= cp && |walls| == |w.nodes| == |monos| && forall i | 0 <= i < |monos| :: w.nodes[i].mono <= monos[i]
    case Acquire(c, ttl, newId) => c < |w.nodes| && newId != ""
    case RenewRead(r, c, _) => r !in w.pending && c < |w.nodes|
    case RenewWrite(r) => r in w.pending && w.pending[r].client < |w.nodes|
    case Deliver(c, k, now) => c < |w.nodes| && k < |w.issued| && w.issued[k].client == c && now.mono <= w.nodes[c].mono
    case Check(c, now) => c < |w.nodes| && now.mono <= w.nodes[c].mono
  }

  function CertOf(w: World, c: nat): Option<string>
    requires c < |w.nodes|
  {
    if w.mtls then Some(w.nodes[c].machine) else None
  }

  /** The second store section of a renewal. */
  function Renewal(w: World, p: Pending): (Option<S.Record>, S.Reply) {
    S.AfterRenew(w.record, p.machine, w.cp, p.leaseId, 0)
  }

  function AfterRead(w: World, r: nat, c: nat, leaseId: string): World
    requires c < |w.nodes|
  {
    var machine := S.ReadForRenewal(w.record, CertOf(w, c), leaseId);
    if machine.Err? then w else w.(pending := w.pending[r := Pending(c, machine.value, leaseId)])
  }

  function Answer(w: World, c: nat, reply: (Option<S.Record>, S.Reply)): World {
    match reply.1
    case Granted(id, exp) => w.(record := reply.0, issued := w.issued + [Issue(c, id, exp, w.cp)])
    case _ => w.(record := reply.0)
  }

  function WithNode(w: World, c: nat, n: Node): World
    requires c < |w.nodes|
  {
    w.(nodes := w.nodes[c := n])
  }

  function Next(w: World, e: Event): World
    requires Possible(w, e) && Inv(w)
  {
    match e
    case Tick(cp, walls, monos) =>
      w.(cp := cp,
         nodes := seq(|w.nodes|, i requires 0 <= i < |w.nodes| => w.nodes[i].(wall := walls[i], mono := monos[i])))
    case Acquire(c, ttl, newId) =>
      var machine := w.nodes[c].machine;
      Answer(w, c, S.AfterAcquireRequest(w.record, CertOf(w, c), machine, w.cp, ttl, w.marginCP, Some(newId)))
    case RenewRead(r, c, leaseId) => AfterRead(w, r, c, leaseId)
    case RenewWrite(r) => Answer(w.(pending := w.pending - {r}), w.pending[r].client, Renewal(w, w.pending[r]))
    case Deliver(c, k, now) =>
      var n, g := w.nodes[c], w.issued[k];
      var base := C.BaseMono(n.lease.anchor.None?, now, n.mono);
      WithNode(w, c, n.(lease := C.AfterGrant(n.lease, n.margin, g.leaseId, g.expiresAt, now, n.mono),
                        applied := Some(Applied(k, now.wall, base))))
    case Check(c, now) =>
      assert NodeOk(w, c);
      var n := w.nodes[c];
      WithNode(w, c, n.(lease := C.AfterCheck(n.lease, n.threshold, now, n.mono)))
  }

  // ----- the invariant -----

  /** Each client's deadline comes from a grant that was sent to it. */
  predicate NodeOk(w: World, c: nat)
    requires c < |w.nodes|
  {
    var n := w.nodes[c];
    (n.lease.leaseId != "" ==> n.lease.anchor.Some?) &&
    (n.lease.anchor.Some? <==> n.applied.Some?) &&
    (n.applied.Some? ==>
       n.applied.value.issue < |w.issued| &&
       var g := w.issued[n.applied.value.issue];
       g.client == c && n.applied.value.baseMono <= n.mono &&
       n.lease.anchor.value.mono + n.lease.deadlineMono ==
         n.applied.value.baseMono + C.TimeLeft(g.expiresAt, n.applied.value.baseWall, n.margin))
  }

  predicate Inv(w: World) {
    forall c | 0 <= c < |w.nodes| :: NodeOk(w, c)
  }

  /** Grants to different machines do not overlap: the later one was sent more
      than the server margin after the earlier one expired. */
  predicate Fenced(w: World) {
    (forall k | 0 <= k < |w.issued| :: w.issued[k].client < |w.nodes| && w.issued[k].at <= w.cp) &&
    (forall j,
        k | 0 <= j < k < |w.issued| && w.nodes[w.issued[j].client].machine != w.nodes[w.issued[k].client].machine ::
       w.issued[j].expiresAt + w.marginCP < w.issued[k].at)
  }

  /** The record covers every grant sent: none is past it, and grants to other
      machines are past the server margin. */
  ghost predicate Covers(w: World) {
    (w.record.None? ==> w.issued == []) &&
    (w.record.Some? ==>
       w.record.value.ttl > 0 && w.record.value.expiresAt <= w.cp + w.record.value.ttl &&
         w.record.value.machine != "" &&
       (exists k :: 0 <= k < |w.issued| && w.issued[k].expiresAt == w.record.value.expiresAt) &&
       forall k | 0 <= k < |w.issued| ::
         w.issued[k].client < |w.nodes| && w.issued[k].expiresAt <= w.record.value.expiresAt &&
         (w.nodes[w.issued[k].client].machine != w.record.value.machine ==> w.issued[k].expiresAt + w.marginCP < w.cp))
  }

  /** What must hold for that: an acquisition by the holder does not bring the
      recorded expiry forward. */
  predicate KeepsExpiry(w: World, e: Event)
    requires Possible(w, e)
  {
    (e.Acquire? && w.record.Some? && w.record.value.machine == w.nodes[e.client].machine) ==>
      w.record.value.expiresAt <= w.cp + S.RequestedTtl(e.ttl)
  }

  /** Never asking for a shorter TTL is enough. */
  lemma TtlKeepsExpiry(w: World, e: Event)
    requires Possible(w, e) && Covers(w)
    requires e.Acquire? && w.record.Some? ==> S.RequestedTtl(e.ttl) >= w.record.value.ttl
    ensures KeepsExpiry(w, e)
  {
  }

  /** And a renewal is granted to the recorded machine only. */
  predicate HolderRenews(w: World, e: Event)
    requires Possible(w, e)
  {
    e.RenewWrite? && Renewal(w, w.pending[e.request]).1.Granted? ==>
      w.record.value.machine == w.nodes[w.pending[e.request].client].machine
  }

  /** The recorded lease id was sent to clients of the recorded machine only. */
  predicate IdIsHolders(w: World) {
    w.record.Some? ==>
      forall k | 0 <= k < |w.issued| && w.issued[k].leaseId == w.record.value.leaseId ::
        w.issued[k].client < |w.nodes| && w.nodes[w.issued[k].client].machine == w.record.value.machine
  }

  predicate WasSent(w: World, c: nat, leaseId: string) {
    exists k :: 0 <= k < |w.issued| && w.issued[k].client == c && w.issued[k].leaseId == leaseId
  }

  /** Lease ids are fresh, and a client renews with an id that was sent to it. */
  predicate OwnIds(w: World, e: Event) {
    (e.Acquire? ==> forall k | 0 <= k < |w.issued| :: w.issued[k].leaseId != e.newId) &&
    (e.RenewRead? ==> WasSent(w, e.client, e.leaseId))
  }

  /** What is asked of every event: the recorded expiry does not move forward in
      time, and either certificates or lease ids say who renews. */
  predicate Proper(w: World, e: Event)
    requires Possible(w, e)
  {
    KeepsExpiry(w, e) && (w.mtls || OwnIds(w, e))
  }

  /** What is known of a renewal under way, whatever happened since it read. */
  predicate PendingOk(w: World, p: Pending) {
    p.client < |w.nodes| && if w.mtls then p.machine == w.nodes[p.client].machine else WasSent(w, p.client, p.leaseId)
  }

  /** Who renews is known: by certificates, or by lease ids. */
  predicate Known(w: World) {
    (w.mtls || IdIsHolders(w)) && forall r | r in w.pending :: PendingOk(w, w.pending[r])
  }

  lemma ProperRenewal(w: World, e: Event)
    requires Possible(w, e) && Known(w)
    ensures HolderRenews(w, e)
  {
    if e.RenewWrite? {
      assert PendingOk(w, w.pending[e.request]);
    }
  }

  lemma NextIsKnown(w: World, e: Event)
    requires Possible(w, e) && Inv(w) && Proper(w, e) && Known(w)
    ensures Known(Next(w, e))
  {
    NextKeepsNodes(w, e);
    NextKeepsIssued(w, e);
    var v := Next(w, e);
    if !w.mtls {
      ProperRenewal(w, e);
      NextKeepsIds(w, e);
    }
    forall r | r in v.pending ensures PendingOk(v, v.pending[r]) {
      if r in w.pending && v.pending[r] == w.pending[r] {
        assert PendingOk(w, w.pending[r]);
        SentStaysSent(w, v, v.pending[r].client, v.pending[r].leaseId);
      } else if !w.mtls {
        SentStaysSent(w, v, v.pending[r].client, v.pending[r].leaseId);
      }
    }
  }

  lemma NextKeepsIssued(w: World, e: Event)
    requires Possible(w, e) && Inv(w)
    ensures w.issued <= Next(w, e).issued && Next(w, e).mtls == w.mtls
  {
  }

  lemma SentStaysSent(w: World, v: World, c: nat, leaseId: string)
    requires w.issued <= v.issued
    ensures WasSent(w, c, leaseId) ==> WasSent(v, c, leaseId)
  {
    if WasSent(w, c, leaseId) {
      var k :| 0 <= k < |w.issued| && w.issued[k].client == c && w.issued[k].leaseId == leaseId;
      assert v.issued[k] == w.issued[k];
    }
  }

  lemma NextKeepsIds(w: World, e: Event)
    requires Possible(w, e) && Inv(w) && OwnIds(w, e) && IdIsHolders(w) && HolderRenews(w, e)
    ensures IdIsHolders(Next(w, e))
  {
    NextKeepsNodes(w, e);
    var v := Next(w, e);
    if e.Tick? {
      forall k | 0 <= k < |v.issued| ensures v.issued[k] == w.issued[k] {
      }
    }
  }

  lemma NextKeepsNodes(w: World, e: Event)
    requires Possible(w, e) && Inv(w)
    ensures Inv(Next(w, e)) && |Next(w, e).nodes| == |w.nodes|
    ensures forall c | 0 <= c < |w.nodes| :: Next(w, e).nodes[c].machine == w.nodes[c].machine
  {
    var v := Next(w, e);
    forall c | 0 <= c < |v.nodes| ensures NodeOk(v, c) {
      assert NodeOk(w, c);
    }
  }

  lemma NextKeepsFences(w: World, e: Event)
    requires Possible(w, e) && Inv(w) && Fenced(w) && Covers(w) && KeepsExpiry(w, e) && HolderRenews(w, e)
    ensures Fenced(Next(w, e)) && Covers(Next(w, e))
  {
    NextKeepsNodes(w, e);
    var v := Next(w, e);
    if e.Acquire? || e.RenewWrite? {
      if |v.issued| > |w.issued| {
        GrantKeepsFences(w, v, v.issued[|w.issued|]);
      } else {
        QuietKeepsFences(w, v);
      }
    } else {
      QuietKeepsFences(w, v);
    }
  }

  lemma QuietKeepsFences(w: World, v: World)
    requires Fenced(w) && Covers(w) && |v.nodes| == |w.nodes| && v.cp >= w.cp && v.marginCP == w.marginCP
    requires v.issued == w.issued && v.record == w.record
    requires forall c | 0 <= c < |w.nodes| :: v.nodes[c].machine == w.nodes[c].machine
    ensures Fenced(v) && Covers(v)
  {
  }

  /** One more grant, not before the recorded expiry and, for another machine,
      past it by more than the margin. */
  lemma GrantKeepsFences(w: World, v: World, g: Issue)
    requires Fenced(w) && Covers(w) && v.nodes == w.nodes && v.cp == w.cp && v.marginCP == w.marginCP
    requires v.issued == w.issued + [g] && g.client < |w.nodes| && g.at == w.cp
    requires v.record.Some? && v.record.value.machine == w.nodes[g.client].machine && v.record.value.machine != ""
    requires v.record.value.ttl > 0 && v.record.value.expiresAt == g.expiresAt == w.cp + v.record.value.ttl
    requires w.record.Some? ==> w.record.value.expiresAt <= g.expiresAt
    requires w.record.Some? && w.record.value.machine != v.record.value.machine ==>
             w.cp > w.record.value.expiresAt + w.marginCP
    ensures Fenced(v) && Covers(v)
  {
    assert v.issued[|w.issued|].expiresAt == v.record.value.expiresAt;
    forall k | 0 <= k < |w.issued|
      ensures v.issued[k] == w.issued[k] && w.issued[k].expiresAt <= g.expiresAt
      ensures w.nodes[w.issued[k].client].machine != w.nodes[g.client].machine ==>
              w.issued[k].expiresAt + w.marginCP < w.cp
    {
      assert w.record.Some?;
    }
  }

  /** The conditions are exact: an event leaves a record that covers every grant
      sent if and only if it does not bring the expiry forward and does not renew
      for another machine. */
  lemma CoversIffKeepsExpiry(w: World, e: Event)
    requires Possible(w, e) && Inv(w) && Fenced(w) && Covers(w)
    requires e.Acquire? ==> w.nodes[e.client].machine != ""
    ensures Covers(Next(w, e)) <==> KeepsExpiry(w, e) && HolderRenews(w, e)
  {
    if KeepsExpiry(w, e) && HolderRenews(w, e) {
      NextKeepsFences(w, e);
    } else if !HolderRenews(w, e) {
      var v := Next(w, e);
      assert v.issued[|w.issued|].expiresAt == v.record.value.expiresAt;
    } else {
      var v := Next(w, e);
      var k :| 0 <= k < |w.issued| && w.issued[k].expiresAt == w.record.value.expiresAt;
      assert v.issued[k] == w.issued[k] && v.issued[k].expiresAt > v.record.value.expiresAt;
    }
  }

  /** A granted renewal keeps grants to different machines apart if and only if
      the recorded machine gets it. Without certificates the service does not
      look. */
  lemma RenewalFencesIff(w: World, r: nat)
    requires Possible(w, RenewWrite(r)) && Inv(w) && Fenced(w) && Covers(w) && Renewal(w, w.pending[r]).1.Granted?
    ensures Fenced(Next(w, RenewWrite(r))) <==> w.nodes[w.pending[r].client].machine == w.record.value.machine
  {
    var v, c := Next(w, RenewWrite(r)), w.pending[r].client;
    if w.nodes[c].machine == w.record.value.machine {
      NextKeepsFences(w, RenewWrite(r));
    } else {
      var k :| 0 <= k < |w.issued| && w.issued[k].expiresAt == w.record.value.expiresAt;
      assert w.nodes[w.issued[k].client].machine == w.record.value.machine;
      assert v.issued[k] == w.issued[k] && v.issued[|w.issued|].client == c;
    }
  }

  predicate PossibleRun(w: World, events: seq<Event>)
    requires Inv(w)
    decreases |events|
  {
    events == [] ||
    (Possible(w, events[0]) &&
     (NextKeepsNodes(w, events[0]); PossibleRun(Next(w, events[0]), events[1..])))
  }

  function Run(w: World, events: seq<Event>): World
    requires Inv(w) && PossibleRun(w, events)
    decreases |events|
  {
    if events == [] then w
    else (NextKeepsNodes(w, events[0]); Run(Next(w, events[0]), events[1..]))
  }

  predicate ProperRun(w: World, events: seq<Event>)
    requires Inv(w) && PossibleRun(w, events)
    decreases |events|
  {
    events == [] ||
    (Proper(w, events[0]) &&
     (NextKeepsNodes(w, events[0]); ProperRun(Next(w, events[0]), events[1..])))
  }

  lemma {:induction false} RunIsSafe(w: World, events: seq<Event>)
    requires Inv(w) && Fenced(w) && Covers(w) && Known(w)
    requires PossibleRun(w, events) && ProperRun(w, events)
    ensures var v := Run(w, events); Inv(v) && Fenced(v) && Covers(v) && v.marginCP == w.marginCP
    ensures |Run(w, events).nodes| == |w.nodes|
    ensures forall c | 0 <= c < |w.nodes| :: Run(w, events).nodes[c].machine == w.nodes[c].machine
    decreases |events|
  {
    if events != [] {
      NextKeepsNodes(w, events[0]);
      ProperRenewal(w, events[0]);
      NextKeepsFences(w, events[0]);
      NextIsKnown(w, events[0]);
      RunIsSafe(Next(w, events[0]), events[1..]);
    }
  }

  // ----- mutual exclusion -----

  /** An order check made now would pass. */
  predicate Passes(w: World, c: nat, now: C.Reading)
    requires c < |w.nodes| && NodeOk(w, c)
  {
    C.Check(w.nodes[c].lease, w.nodes[c].threshold, now, w.nodes[c].mono) == C.Passed
  }

  /** How far the client's wall clock is behind the control plane's, and how much
      it gained on the monotonic clock since the last grant was applied. */
  function Skew(w: World, c: nat): int
    requires c < |w.nodes|
  {
    w.cp - w.nodes[c].wall
  }

  function Gain(w: World, c: nat): int
    requires c < |w.nodes| && w.nodes[c].applied.Some?
  {
    var n := w.nodes[c];
    (n.wall - n.applied.value.baseWall) - (n.mono - n.applied.value.baseMono)
  }

  /** The client's and the server's margin together cover skew and gain. */
  predicate WithinMargins(w: World, c: nat)
    requires c < |w.nodes|
  {
    w.nodes[c].applied.Some? ==> Skew(w, c) + Gain(w, c) <= w.nodes[c].margin + w.marginCP + 1
  }

  lemma PassingIsWithinServerMargin(w: World, c: nat, now: C.Reading)
    requires c < |w.nodes| && NodeOk(w, c) && Passes(w, c, now) && WithinMargins(w, c)
    ensures w.nodes[c].applied.Some? && w.cp <= w.issued[w.nodes[c].applied.value.issue].expiresAt + w.marginCP
  {
  }

  predicate Fresh(n: Node) {
    n.lease == C.UNACQUIRED && n.applied.None?
  }

  /** Mutual exclusion, for every run: no acquisition, renewal, delay, loss or
      reordering of replies lets two clients on different machines pass the
      check at one instant, while their margins cover skew and gain. */
  lemma NeverBothPass(start: World, events: seq<Event>, a: nat, b: nat, nowA: C.Reading, nowB: C.Reading)
    requires start.record.None? && start.pending == map[] && start.issued == []
    requires forall c | 0 <= c < |start.nodes| :: Fresh(start.nodes[c])
    requires Inv(start) && PossibleRun(start, events) && ProperRun(start, events)
    requires a < |start.nodes| && b < |start.nodes| && start.nodes[a].machine != start.nodes[b].machine
    requires var w := Run(start, events);
             a < |w.nodes| && b < |w.nodes| && WithinMargins(w, a) && WithinMargins(w, b)
    ensures var w := Run(start, events);
            Inv(w) && !(Passes(w, a, nowA) && Passes(w, b, nowB))
  {
    RunIsSafe(start, events);
    var w := Run(start, events);
    if Passes(w, a, nowA) && Passes(w, b, nowB) {
      PassingIsWithinServerMargin(w, a, nowA);
      PassingIsWithinServerMargin(w, b, nowB);
    }
  }

  // ----- why each condition is needed -----

  function Idle(machine: string, margin: nat, time: int): Node {
    Node(machine, margin, 0, C.UNACQUIRED, time, time, None)
  }

  function Pair(mtls: bool, marginCP: nat, a: Node, b: Node): World {
    World(mtls, 0, marginCP, None, map[], [], [a, b])
  }

  /** Both clients pass in w, whose clocks agree with the control plane's. */
  predicate BothPass(w: World) {
    |w.nodes| == 2 && Inv(w) && NodeOk(w, 0) && NodeOk(w, 1) &&
    Passes(w, 0, C.Reading(w.nodes[0].wall, w.nodes[0].mono)) &&
      Passes(w, 1, C.Reading(w.nodes[1].wall, w.nodes[1].mono))
  }

  lemma {:induction false} Extend(w: World, events: seq<Event>, e: Event)
    requires Inv(w) && PossibleRun(w, events)
    requires var v := Run(w, events); Inv(v) && Possible(v, e)
    ensures PossibleRun(w, events + [e]) && Run(w, events + [e]) == Next(Run(w, events), e)
    ensures Inv(Next(Run(w, events), e))
    ensures ProperRun(w, events + [e]) <==> ProperRun(w, events) && Proper(Run(w, events), e)
    decreases |events|
  {
    if events == [] {
      assert events + [e] == [e];
      NextKeepsNodes(w, e);
    } else {
      assert (events + [e])[0] == events[0] && (events + [e])[1..] == events[1..] + [e];
      NextKeepsNodes(w, events[0]);
      Extend(Next(w, events[0]), events[1..], e);
    }
  }

  /** c, which has no lease, acquires one and its reply arrives at once. */
  lemma AcquireNow(start: World, before: seq<Event>, c: nat, ttl: int, id: string)
      returns (events: seq<Event>, w: World)
    requires Inv(start) && PossibleRun(start, before)
    requires var v := Run(start, before);
             Inv(v) && c < |v.nodes| && id != "" && Fresh(v.nodes[c]) && ttl > 0 &&
             v.nodes[c].machine != "" && S.FreeFor(v.record, v.nodes[c].machine, v.cp, v.marginCP)
    ensures PossibleRun(start, events) && w == Run(start, events) && Inv(w)
    ensures ProperRun(start, events) <==> ProperRun(start, before) && Proper(Run(start, before), Acquire(c, ttl, id))
    ensures var v := Run(start, before);
            var now := C.Reading(v.nodes[c].wall, v.nodes[c].mono);
            events == before + [Acquire(c, ttl, id), Deliver(c, |v.issued|, now)]
    ensures var v := Run(start, before);
            var n, now := v.nodes[c], C.Reading(v.nodes[c].wall, v.nodes[c].mono);
            var exp := v.cp + ttl;
            var lease := C.Lease(id, C.TimeLeft(exp, n.wall, n.margin), Some(now), exp, Some(now), 0);
            w == World(v.mtls, v.cp, v.marginCP, Some(S.Record(n.machine, id, exp, ttl)), v.pending,
                       v.issued + [Issue(c, id, exp, v.cp)],
                       v.nodes[c := n.(lease := lease,
                                       applied := Some(Applied(|v.issued|, n.wall, n.mono)))])
  {
    var v := Run(start, before);
    var now := C.Reading(v.nodes[c].wall, v.nodes[c].mono);
    Extend(start, before, Acquire(c, ttl, id));
    var middle := before + [Acquire(c, ttl, id)];
    Extend(start, middle, Deliver(c, |v.issued|, now));
    events := middle + [Deliver(c, |v.issued|, now)];
    assert events == before + [Acquire(c, ttl, id), Deliver(c, |v.issued|, now)];
    w := Run(start, events);
  }

  /** The holder c acquires once more, and the reply is lost. */
  lemma AskAgain(start: World, before: seq<Event>, c: nat, ttl: int, id: string)
      returns (events: seq<Event>, w: World)
    requires Inv(start) && PossibleRun(start, before) && id != "" && ttl > 0
    requires var v := Run(start, before);
             Inv(v) && c < |v.nodes| && v.record.Some? && v.record.value.machine == v.nodes[c].machine != ""
    ensures PossibleRun(start, events) && w == Run(start, events) && Inv(w)
    ensures var v := Run(start, before);
            w == v.(record := Some(S.Record(v.nodes[c].machine, id, v.cp + ttl, ttl)),
                    issued := v.issued + [Issue(c, id, v.cp + ttl, v.cp)])
  {
    Extend(start, before, Acquire(c, ttl, id));
    events := before + [Acquire(c, ttl, id)];
    w := Run(start, events);
  }

  /** c renews with id over a plaintext connection and its reply arrives at once. */
  lemma RenewNow(start: World, before: seq<Event>, c: nat, id: string) returns (events: seq<Event>, w: World)
    requires Inv(start) && PossibleRun(start, before)
    requires var v := Run(start, before);
             Inv(v) && c < |v.nodes| && !v.mtls && v.pending == map[] && id != "" &&
             v.record.Some? && v.record.value.machine != "" &&
             v.record.value.leaseId == id && v.cp < v.record.value.expiresAt && v.record.value.ttl > 0
    ensures var v := Run(start, before);
            var n, exp, now := v.nodes[c], v.cp + v.record.value.ttl, C.Reading(v.nodes[c].wall, v.nodes[c].mono);
            events == before + [RenewRead(0, c, id), RenewWrite(0), Deliver(c, |v.issued|, now)] &&
            PossibleRun(start, events) && w == Run(start, events) && Inv(w) &&
            w == v.(record := Some(v.record.value.(expiresAt := exp)), issued := v.issued + [Issue(c, id, exp, v.cp)],
                    nodes := v.nodes[c := n.(lease := C.AfterGrant(n.lease, n.margin, id, exp, now, n.mono),
                                             applied := Some(Applied(|v.issued|, n.wall, n.mono)))])
  {
    var v := Run(start, before);
    var now := C.Reading(v.nodes[c].wall, v.nodes[c].mono);
    Extend(start, before, RenewRead(0, c, id));
    var read := before + [RenewRead(0, c, id)];
    assert Run(start, read) == v.(pending := map[0 := Pending(c, v.record.value.machine, id)]);
    Extend(start, read, RenewWrite(0));
    var middle := read + [RenewWrite(0)];
    Extend(start, middle, Deliver(c, |v.issued|, now));
    events := middle + [Deliver(c, |v.issued|, now)];
    assert events == before + [RenewRead(0, c, id), RenewWrite(0), Deliver(c, |v.issued|, now)];
    w := Run(start, events);
  }

  /** Time passes: every wall clock reads cp, the monotonic clocks m0 and m1. */
  lemma Pass(start: World, before: seq<Event>, cp: int, m0: int, m1: int) returns (events: seq<Event>, w: World)
    requires Inv(start) && PossibleRun(start, before)
    requires var v := Run(start, before);
             Inv(v) && |v.nodes| == 2 && v.cp <= cp && v.nodes[0].mono <= m0 && v.nodes[1].mono <= m1
    ensures PossibleRun(start, events) && w == Run(start, events) && Inv(w)
    ensures ProperRun(start, events) <==> ProperRun(start, before)
    ensures var v := Run(start, before);
            w == v.(cp := cp, nodes := [v.nodes[0].(wall := cp, mono := m0), v.nodes[1].(wall := cp, mono := m1)])
  {
    Extend(start, before, Tick(cp, [cp, cp], [m0, m1]));
    events := before + [Tick(cp, [cp, cp], [m0, m1])];
    w := Run(start, events);
  }

  /** The margins are exact: for every pair of margins there is a proper run in
      which one client gains a nanosecond more than NeverBothPass allows, nobody
      has any skew, and both clients pass. */
  lemma MarginsAreExact(mtls: bool, margin: nat, marginCP: nat) returns (events: seq<Event>, w: World)
    ensures var start := Pair(mtls, marginCP, Idle("a", margin, 0), Idle("b", margin, 0));
            Inv(start) && PossibleRun(start, events) && ProperRun(start, events) && w == Run(start, events)
    ensures BothPass(w) && w.nodes[0].machine != w.nodes[1].machine
    ensures w.nodes[0].applied.Some? && w.nodes[1].applied.Some?
    ensures Skew(w, 0) == 0 && Skew(w, 1) + Gain(w, 1) == 0 && Gain(w, 0) == margin + marginCP + 2
  {
    var start := Pair(mtls, marginCP, Idle("a", margin, 0), Idle("b", margin, 0));
    var ttl, late := margin + 10, margin + 10 + marginCP + 1;
    events, w := AcquireNow(start, [], 0, ttl, "x");
    events, w := Pass(start, events, late, 9, late);
    events, w := AcquireNow(start, events, 1, ttl, "y");
  }

  /** Two clients on one machine are not fenced from each other, although the run
      is proper. */
  lemma SameMachineIsNotFenced(mtls: bool, margin: nat, marginCP: nat) returns (events: seq<Event>, w: World)
    ensures var start := Pair(mtls, marginCP, Idle("a", margin, 0), Idle("a", margin, 0));
            Inv(start) && PossibleRun(start, events) && ProperRun(start, events) && w == Run(start, events)
    ensures BothPass(w) && w.nodes[0].applied.Some? && w.nodes[1].applied.Some?
    ensures Skew(w, 0) + Gain(w, 0) == 0 == Skew(w, 1) + Gain(w, 1)
  {
    var start := Pair(mtls, marginCP, Idle("a", margin, 0), Idle("a", margin, 0));
    events, w := AcquireNow(start, [], 0, margin + 10, "x");
    events, w := AcquireNow(start, events, 1, margin + 10, "y");
  }

  /** Clocks without skew or gain, two machines, and both clients pass. */
  predicate BrokenWithPerfectClocks(w: World) {
    BothPass(w) && w.nodes[0].machine != w.nodes[1].machine &&
    w.nodes[0].applied.Some? && w.nodes[1].applied.Some? &&
    Skew(w, 0) == Gain(w, 0) == 0 == Skew(w, 1) == Gain(w, 1)
  }

  /** With perfect clocks, a second acquisition by the holder for a shorter TTL
      frees the lease for another machine while the first grant still passes. */
  lemma ShorterTtlBreaksExclusion(mtls: bool, margin: nat, marginCP: nat) returns (events: seq<Event>, w: World)
    ensures var start := Pair(mtls, marginCP, Idle("a", margin, 0), Idle("b", margin, 0));
            Inv(start) && PossibleRun(start, events) && w == Run(start, events)
    ensures BrokenWithPerfectClocks(w)
  {
    var start := Pair(mtls, marginCP, Idle("a", margin, 0), Idle("b", margin, 0));
    var ttl, later := margin + marginCP + 10, marginCP + 2;
    events, w := AcquireNow(start, [], 0, ttl, "x");
    events, w := AskAgain(start, events, 0, 1, "z");
    events, w := Pass(start, events, later, later, later);
    events, w := AcquireNow(start, events, 1, ttl, "y");
  }

  /** Without certificates, after a proper run, one renewal with an id that was
      sent to another machine lets both pass: the service takes the machine from
      its record and does not compare the caller's. */
  lemma ForeignRenewalBreaksExclusion(margin: nat, marginCP: nat)
      returns (before: seq<Event>, events: seq<Event>, w: World)
    ensures var start := Pair(false, marginCP, Idle("a", margin, 0), Idle("b", margin, 0));
            Inv(start) && PossibleRun(start, before) && ProperRun(start, before) &&
            events == before + [RenewRead(0, 1, "x"), RenewWrite(0), Deliver(1, 1, C.Reading(0, 0))] &&
            PossibleRun(start, events) && w == Run(start, events)
    ensures BrokenWithPerfectClocks(w)
  {
    var start := Pair(false, marginCP, Idle("a", margin, 0), Idle("b", margin, 0));
    before, w := AcquireNow(start, [], 0, margin + 10, "x");
    events, w := RenewNow(start, before, 1, "x");
  }

  /** The lease of a client on "a" has expired and its id is given to "b". */
  function IdReused(margin: nat, marginCP: nat): World {
    var ttl, later := margin + 10, margin + marginCP + 11;
    var first, now := C.Reading(0, 0), C.Reading(later, later);
    World(false, later, marginCP, Some(S.Record("b", "x", later + ttl, ttl)), map[],
          [Issue(0, "x", ttl, 0), Issue(1, "x", later + ttl, later)],
          [Node("a", margin, 0, C.Lease("x", 10, Some(first), ttl, Some(first), 0), later, later,
                Some(Applied(0, 0, 0))),
           Node("b", margin, 0, C.Lease("x", 10, Some(now), later + ttl, Some(now), 0), later, later,
                Some(Applied(1, later, later)))])
  }

  lemma IdIsReused(margin: nat, marginCP: nat) returns (before: seq<Event>, events: seq<Event>)
    ensures var start := Pair(false, marginCP, Idle("a", margin, 0), Idle("b", margin, 0));
            var now := C.Reading(margin + marginCP + 11, margin + marginCP + 11);
            Inv(start) && PossibleRun(start, before) && ProperRun(start, before) &&
            events == before + [Acquire(1, margin + 10, "x"), Deliver(1, 1, now)] &&
            PossibleRun(start, events) && Run(start, events) == IdReused(margin, marginCP)
  {
    var start := Pair(false, marginCP, Idle("a", margin, 0), Idle("b", margin, 0));
    var later := margin + marginCP + 11;
    var w;
    before, w := AcquireNow(start, [], 0, margin + 10, "x");
    before, w := Pass(start, before, later, later, later);
    events, w := AcquireNow(start, before, 1, margin + 10, "x");
    assert w.issued == IdReused(margin, marginCP).issued && w.nodes == IdReused(margin, marginCP).nodes;
  }

  /** And so does a lease id that is not fresh, although each client renews with
      its own. */
  lemma ReusedIdBreaksExclusion(margin: nat, marginCP: nat)
      returns (before: seq<Event>, events: seq<Event>, w: World)
    ensures var start := Pair(false, marginCP, Idle("a", margin, 0), Idle("b", margin, 0));
            var now := C.Reading(margin + marginCP + 11, margin + marginCP + 11);
            Inv(start) && PossibleRun(start, before) && ProperRun(start, before) &&
            PossibleRun(start, events) && w == Run(start, events) &&
            events == before + [Acquire(1, margin + 10, "x"), Deliver(1, 1, now)] +
                      [RenewRead(0, 0, "x"), RenewWrite(0), Deliver(0, 2, now)]
    ensures BrokenWithPerfectClocks(w)
  {
    var start := Pair(false, marginCP, Idle("a", margin, 0), Idle("b", margin, 0));
    before, events := IdIsReused(margin, marginCP);
    IdReusedKeepsInv(margin, marginCP);
    events, w := RenewNow(start, events, 0, "x");
  }

  lemma IdReusedKeepsInv(margin: nat, marginCP: nat)
    ensures Inv(IdReused(margin, marginCP))
  {
  }
}
