/** Every interleaving of the critical sections of create, lookup, revoke and
    flush around the persistent store. */
module TokenRuns {
  import opened Prelude
  import opened TokenCache

  /** A call between two of its critical sections. */
  datatype Call =
    | Creating(token: Token)
    | RevokeChecked(userId: string, id: string)
    | RevokePersisted(userId: string, id: string)

  /** A flush that took its batch, and whether its store call has failed. */
  datatype FlushCall = FlushCall(batch: map<string, int>, failed: bool)

  /** revoked, lost and latest are history: the ids for which revoke has returned
      true, those whose row was written by a create or revoke that got an error
      back, and the newest use of each token, loaded or looked up. */
  datatype System = System(
    cache: Cache, rows: Rows, calls: map<nat, Call>, flushes: map<nat, FlushCall>,
    clock: int, revoked: set<string>, lost: set<string>, latest: map<string, int>)

  datatype Event =
    | BeginCreate(call: nat, token: Token, reply: Reply)
    | EndCreate(call: nat)
    | Lookup(hash: string, now: int)
    | BeginRevoke(call: nat, userId: string, id: string)
    | PersistRevoke(call: nat, reply: Reply)
    | EndRevoke(call: nat)
    | BeginFlush(call: nat)
    | PersistFlush(call: nat, reply: Reply)
    | EndFlush(call: nat)

  predicate FreshToken(rows: Rows, t: Token) {
    t.id !in rows && forall id | id in rows :: rows[id].token.hash != t.hash
  }

  /** Which section can run: a call does its sections in order, new tokens have
      fresh ids and hashes, and the clock does not go back. */
  predicate Enabled(s: System, e: Event) {
    match e
    case BeginCreate(c, t, _) => c !in s.calls && FreshToken(s.rows, t)
    case EndCreate(c) => c in s.calls && s.calls[c].Creating?
    case Lookup(_, now) => s.clock <= now
    case BeginRevoke(c, _, _) => c !in s.calls
    case PersistRevoke(c, _) => c in s.calls && s.calls[c].RevokeChecked?
    case EndRevoke(c) => c in s.calls && s.calls[c].RevokePersisted?
    case BeginFlush(c) => c !in s.flushes
    case PersistFlush(c, _) => c in s.flushes && !s.flushes[c].failed
    case EndFlush(c) => c in s.flushes && s.flushes[c].failed
  }

  function RowInserted(s: System, c: nat, t: Token): System {
    s.(rows := AfterInsert(s.rows, t), calls := s.calls[c := Creating(t)])
  }

  /** The row is there and the caller was told it is not. */
  function InsertLost(s: System, t: Token): System {
    s.(rows := AfterInsert(s.rows, t), lost := s.lost + {t.id})
  }

  function TokenCached(s: System, c: nat): System
    requires c in s.calls && s.calls[c].Creating?
  {
    s.(cache := Inserted(s.cache, s.calls[c].token), calls := s.calls - {c})
  }

  function TokenUsed(s: System, hash: string, now: int): System
    requires hash in s.cache.byHash
  {
    s.(cache := LookedUp(s.cache, hash, now), clock := now, latest := s.latest[s.cache.byHash[hash].id := now])
  }

  function RowRevoked(s: System, c: nat): System
    requires c in s.calls && s.calls[c].RevokeChecked?
  {
    var user, id := s.calls[c].userId, s.calls[c].id;
    s.(rows := AfterRevoke(s.rows, user, id), calls := s.calls[c := RevokePersisted(user, id)])
  }

  /** The row is revoked and the caller was told it is not. */
  function RevokeLost(s: System, c: nat): System
    requires c in s.calls && s.calls[c].RevokeChecked?
  {
    var user, id := s.calls[c].userId, s.calls[c].id;
    s.(rows := AfterRevoke(s.rows, user, id), calls := s.calls - {c}, lost := s.lost + {id})
  }

  function TokenUncached(s: System, c: nat): System
    requires c in s.calls && s.calls[c].RevokePersisted?
  {
    var user, id := s.calls[c].userId, s.calls[c].id;
    s.(cache := Uncached(s.cache, user, id), calls := s.calls - {c},
       revoked := if Owns(s.cache, user, id) then s.revoked + {id} else s.revoked)
  }

  function BatchTaken(s: System, c: nat): System {
    s.(cache := s.cache.(dirty := map[]), flushes := s.flushes[c := FlushCall(s.cache.dirty, false)])
  }

  function RowsTouched(s: System, c: nat): System
    requires c in s.flushes
  {
    s.(rows := AfterTouch(s.rows, s.flushes[c].batch), flushes := s.flushes - {c})
  }

  function Failed(s: System, c: nat): System
    requires c in s.flushes
  {
    s.(flushes := s.flushes[c := s.flushes[c].(failed := true)])
  }

  /** The rows have the times, and the flush has failed all the same. */
  function TouchLost(s: System, c: nat): System
    requires c in s.flushes
  {
    Failed(s.(rows := AfterTouch(s.rows, s.flushes[c].batch)), c)
  }

  function Persisting(s: System, c: nat, reply: Reply): System
    requires c in s.flushes
  {
    match reply
    case Done => RowsTouched(s, c)
    case NotDone => Failed(s, c)
    case ReplyLost => TouchLost(s, c)
  }

  function BatchMerged(s: System, c: nat): System
    requires c in s.flushes
  {
    s.(cache := s.cache.(dirty := Merged(s.cache.dirty, s.flushes[c].batch)), flushes := s.flushes - {c})
  }

  function Next(s: System, e: Event): System
    requires Enabled(s, e)
  {
    match e
    case BeginCreate(c, t, reply) =>
      (match reply
       case Done => RowInserted(s, c, t)
       case ReplyLost => InsertLost(s, t)
       case NotDone => s)
    case EndCreate(c) => TokenCached(s, c)
    case Lookup(hash, now) => if hash in s.cache.byHash then TokenUsed(s, hash, now) else s
    case BeginRevoke(c, user, id) =>
      if Owns(s.cache, user, id) then s.(calls := s.calls[c := RevokeChecked(user, id)]) else s
    case PersistRevoke(c, reply) =>
      if !Wrote(reply) || !CanRevoke(s.rows, s.calls[c].userId, s.calls[c].id) then s.(calls := s.calls - {c})
      else if reply == Done then RowRevoked(s, c)
      else RevokeLost(s, c)
    case EndRevoke(c) => TokenUncached(s, c)
    case BeginFlush(c) => if s.cache.dirty == map[] then s else BatchTaken(s, c)
    case PersistFlush(c, reply) => Persisting(s, c, reply)
    case EndFlush(c) => BatchMerged(s, c)
  }

  predicate EnabledRun(s: System, events: seq<Event>)
    decreases |events|
  {
    events == [] || (Enabled(s, events[0]) && EnabledRun(Next(s, events[0]), events[1..]))
  }

  function Run(s: System, events: seq<Event>): System
    requires EnabledRun(s, events)
    decreases |events|
  {
    if events == [] then s else Run(Next(s, events[0]), events[1..])
  }

  /** Startup: the cache is loaded from the store and nothing is in flight. */
  function Started(rows: Rows, clock: int): System
    requires WellKeyed(rows)
  {
    System(LoadedFrom(rows), rows, map[], map[], clock, {}, {}, LastUses(rows))
  }

  predicate IsStart(s: System) {
    WellKeyed(s.rows) && s == Started(s.rows, s.clock)
  }

  // ----- coherence -----

  predicate TokenAt(m: map<string, Token>, k: string, t: Token) {
    k in m && m[k] == t
  }

  predicate IndexesAgree(c: Cache) {
    (forall id | id in c.byID :: c.byID[id].id == id && TokenAt(c.byHash, c.byID[id].hash, c.byID[id])) &&
    (forall h | h in c.byHash :: c.byHash[h].hash == h && TokenAt(c.byID, c.byHash[h].id, c.byHash[h]))
  }

  predicate BeingCreated(s: System, id: string) {
    exists c | c in s.calls :: s.calls[c].Creating? && s.calls[c].token.id == id
  }

  predicate BeingRevoked(s: System, id: string) {
    exists c | c in s.calls :: s.calls[c].RevokePersisted? && s.calls[c].id == id
  }

  /** What a call between its sections knows. */
  predicate CallOk(s: System, call: Call) {
    match call
    case Creating(t) => t.id in s.rows && s.rows[t.id].token == t && s.rows[t.id].active && t.id !in s.cache.byID
    case RevokeChecked(user, id) =>
      id in s.rows && s.rows[id].token.userId == user && (id in s.cache.byID || !s.rows[id].active)
    case RevokePersisted(user, id) =>
      id in s.rows && s.rows[id].token.userId == user && !s.rows[id].active && id in s.cache.byID
  }

  predicate RowOk(s: System, id: string)
    requires id in s.rows
  {
    s.rows[id].active ==> id in s.cache.byID || BeingCreated(s, id) || id in s.lost
  }

  predicate CachedOk(s: System, id: string)
    requires id in s.cache.byID
  {
    id in s.rows && s.rows[id].token == s.cache.byID[id] && (s.rows[id].active || BeingRevoked(s, id) || id in s.lost)
  }

  predicate Apart(a: Call, b: Call) {
    (a.Creating? && b.Creating? ==> a.token.id != b.token.id) &&
    (a.RevokePersisted? && b.RevokePersisted? ==> a.id != b.id)
  }

  /** No other call creates, or has revoked, the same token. */
  predicate Alone(s: System, c: nat)
    requires c in s.calls
  {
    forall d | d in s.calls && d != c :: Apart(s.calls[c], s.calls[d])
  }

  predicate IsAbout(call: Call, id: string) {
    (call.Creating? && call.token.id == id) || (call.RevokePersisted? && call.id == id)
  }

  /** Row and cache disagree about a lost token, and no call will change that. */
  predicate LostOk(s: System, id: string) {
    id in s.rows && (s.rows[id].active <==> id !in s.cache.byID) && forall c | c in s.calls :: !IsAbout(s.calls[c], id)
  }

  predicate Coherent(s: System) {
    WellKeyed(s.rows) && IndexesAgree(s.cache) &&
    (forall c | c in s.calls :: CallOk(s, s.calls[c])) &&
    (forall c | c in s.calls :: Alone(s, c)) &&
    (forall id | id in s.rows :: RowOk(s, id)) &&
    (forall id | id in s.cache.byID :: CachedOk(s, id)) &&
    (forall id | id in s.revoked :: id in s.rows && !s.rows[id].active && id !in s.cache.byID) &&
    (forall id | id in s.lost :: LostOk(s, id))
  }

  predicate SameRow(a: Row, b: Row) {
    a.token == b.token && a.active == b.active
  }

  predicate SameRows(a: Rows, b: Rows) {
    a.Keys == b.Keys && forall id | id in a :: SameRow(a[id], b[id])
  }

  /** Nothing changes but times and calls that have only checked. */
  predicate OnlyTimes(s: System, t: System) {
    t.cache.byID == s.cache.byID && t.cache.byHash == s.cache.byHash && t.revoked == s.revoked && t.lost == s.lost &&
    SameRows(s.rows, t.rows) &&
    (forall c | c in s.calls && !s.calls[c].RevokeChecked? :: c in t.calls && t.calls[c] == s.calls[c]) &&
    forall c | c in t.calls && (c !in s.calls || t.calls[c] != s.calls[c]) ::
      t.calls[c].RevokeChecked? && CallOk(t, t.calls[c])
  }

  /** Coherence does not depend on these. */
  lemma Undisturbed(s: System, t: System)
    requires Coherent(s) && OnlyTimes(s, t)
    ensures Coherent(t)
  {
    UndisturbedRows(s, t);
    UndisturbedCalls(s, t);
    UndisturbedHistory(s, t);
  }

  lemma UndisturbedRows(s: System, t: System)
    requires Coherent(s) && OnlyTimes(s, t)
    ensures WellKeyed(t.rows)
    ensures (forall id | id in t.rows :: RowOk(t, id)) && (forall id | id in t.cache.byID :: CachedOk(t, id))
  {
    assert WellKeyed(t.rows) by {
      assert forall id | id in t.rows :: SameRow(s.rows[id], t.rows[id]);
    }
    KeepsBeingCreated(s, t);
    KeepsBeingRevoked(s, t);
    forall id | id in t.rows ensures RowOk(t, id) {
      assert RowOk(s, id) && SameRow(s.rows[id], t.rows[id]);
    }
    forall id | id in t.cache.byID ensures CachedOk(t, id) {
      assert CachedOk(s, id) && SameRow(s.rows[id], t.rows[id]);
    }
  }

  lemma UndisturbedCalls(s: System, t: System)
    requires Coherent(s) && OnlyTimes(s, t)
    ensures forall c | c in t.calls :: CallOk(t, t.calls[c]) && Alone(t, c)
  {
    forall c | c in t.calls ensures CallOk(t, t.calls[c]) && Alone(t, c) {
      if c in s.calls && t.calls[c] == s.calls[c] {
        assert CallOk(s, s.calls[c]) && Alone(s, c);
        SameCall(s, t, s.calls[c]);
      }
    }
  }

  lemma UndisturbedHistory(s: System, t: System)
    requires Coherent(s) && OnlyTimes(s, t)
    ensures forall id | id in t.revoked :: id in t.rows && !t.rows[id].active && id !in t.cache.byID
    ensures forall id | id in t.lost :: LostOk(t, id)
  {
    forall id | id in t.revoked ensures id in t.rows && !t.rows[id].active {
      assert SameRow(s.rows[id], t.rows[id]);
    }
    forall id | id in t.lost ensures LostOk(t, id) {
      assert LostOk(s, id) && SameRow(s.rows[id], t.rows[id]);
    }
  }

  lemma SameCall(s: System, t: System, call: Call)
    requires CallOk(s, call) && t.cache.byID == s.cache.byID && SameRows(s.rows, t.rows)
    ensures CallOk(t, call)
  {
  }

  /** Revocations under way stay under way when no call leaves that stage. */
  lemma KeepsBeingRevoked(s: System, t: System)
    requires forall c | c in s.calls && s.calls[c].RevokePersisted? :: c in t.calls && t.calls[c] == s.calls[c]
    ensures forall id | BeingRevoked(s, id) :: BeingRevoked(t, id)
  {
  }

  lemma KeepsBeingCreated(s: System, t: System)
    requires forall c | c in s.calls && s.calls[c].Creating? :: c in t.calls && t.calls[c] == s.calls[c]
    ensures forall id | BeingCreated(s, id) :: BeingCreated(t, id)
  {
  }

  lemma InsertedRow(s: System, c: nat, token: Token)
    requires Coherent(s) && c !in s.calls && FreshToken(s.rows, token)
    ensures Coherent(RowInserted(s, c, token))
  {
    InsertedCalls(s, c, token);
    InsertedRows(s, c, token);
    LostStaysLost(s, RowInserted(s, c, token));
  }

  lemma InsertedRows(s: System, c: nat, token: Token)
    requires Coherent(s) && c !in s.calls && FreshToken(s.rows, token)
    ensures var t := RowInserted(s, c, token);
            (forall id | id in t.rows :: RowOk(t, id)) && (forall id | id in t.cache.byID :: CachedOk(t, id))
  {
    var t := RowInserted(s, c, token);
    KeepsBeingRevoked(s, t);
    KeepsBeingCreated(s, t);
    assert t.calls[c].Creating? && BeingCreated(t, token.id);
    forall id | id in t.rows ensures RowOk(t, id) {
      assert id in s.rows ==> RowOk(s, id);
    }
    forall id | id in t.cache.byID ensures CachedOk(t, id) {
      assert CachedOk(s, id);
    }
  }

  lemma InsertedCalls(s: System, c: nat, token: Token)
    requires Coherent(s) && c !in s.calls && FreshToken(s.rows, token)
    ensures var t := RowInserted(s, c, token); forall d | d in t.calls :: CallOk(t, t.calls[d]) && Alone(t, d)
  {
    var t := RowInserted(s, c, token);
    assert token.id in s.cache.byID ==> CachedOk(s, token.id);
    forall d | d in s.calls ensures CallOk(t, s.calls[d]) && Apart(s.calls[d], Creating(token)) {
      assert CallOk(s, s.calls[d]);
    }
    AloneWith(s, t, c, Creating(token));
  }

  lemma CachedToken(s: System, c: nat)
    requires Coherent(s) && c in s.calls && s.calls[c].Creating?
    ensures Coherent(TokenCached(s, c))
  {
    var token := s.calls[c].token;
    var t := TokenCached(s, c);
    assert CallOk(s, s.calls[c]);
    assert token.hash in s.cache.byHash ==> CachedOk(s, s.cache.byHash[token.hash].id);
    InsertKeepsIndexes(s.cache, token);
    CachedCalls(s, c);
    CachedRows(s, c);
    LostStaysLost(s, t);
  }

  lemma CachedRows(s: System, c: nat)
    requires Coherent(s) && c in s.calls && s.calls[c].Creating?
    ensures var t := TokenCached(s, c);
            (forall id | id in t.rows :: RowOk(t, id)) && (forall id | id in t.cache.byID :: CachedOk(t, id))
  {
    var t, token := TokenCached(s, c), s.calls[c].token;
    assert CallOk(s, s.calls[c]);
    KeepsBeingRevoked(s, t);
    forall id | id in t.rows ensures RowOk(t, id) {
      assert RowOk(s, id);
      if id != token.id && BeingCreated(s, id) {
        var d :| d in s.calls && s.calls[d].Creating? && s.calls[d].token.id == id;
        assert t.calls[d] == s.calls[d];
      }
    }
    forall id | id in t.cache.byID ensures CachedOk(t, id) {
      assert id != token.id ==> CachedOk(s, id);
    }
  }

  lemma CachedCalls(s: System, c: nat)
    requires Coherent(s) && c in s.calls && s.calls[c].Creating?
    ensures var t := TokenCached(s, c); forall d | d in t.calls :: CallOk(t, t.calls[d]) && Alone(t, d)
  {
  }

  lemma InsertKeepsIndexes(c: Cache, token: Token)
    requires IndexesAgree(c) && token.id !in c.byID && token.hash !in c.byHash
    ensures IndexesAgree(Inserted(c, token))
  {
  }

  lemma RevokedRow(s: System, c: nat)
    requires Coherent(s) && c in s.calls && s.calls[c].RevokeChecked?
    requires CanRevoke(s.rows, s.calls[c].userId, s.calls[c].id)
    ensures Coherent(RowRevoked(s, c))
  {
    RevokedKeys(s, c);
    RevokedCalls(s, c);
    RevokedRows(s, c);
    RevokedLost(s, c);
  }

  /** What is being revoked is not lost already. */
  lemma RevokedLost(s: System, c: nat)
    requires Coherent(s) && c in s.calls && s.calls[c].RevokeChecked?
    requires CanRevoke(s.rows, s.calls[c].userId, s.calls[c].id)
    ensures s.calls[c].id !in s.lost && forall id | id in s.lost :: LostOk(RowRevoked(s, c), id)
    ensures forall id | id in s.lost :: LostOk(RevokeLost(s, c), id)
  {
    assert CallOk(s, s.calls[c]);
    assert s.calls[c].id in s.lost ==> LostOk(s, s.calls[c].id);
    forall id | id in s.lost ensures LostOk(RowRevoked(s, c), id) && LostOk(RevokeLost(s, c), id) {
      assert LostOk(s, id);
    }
  }

  predicate NewCallsAvoid(s: System, t: System, id: string) {
    forall c | c in t.calls && (c !in s.calls || t.calls[c] != s.calls[c]) :: !IsAbout(t.calls[c], id)
  }

  /** A step about other tokens only. */
  lemma LostStaysLost(s: System, t: System)
    requires Coherent(s)
    requires forall id | id in s.lost ::
               id in t.rows && (t.rows[id].active <==> s.rows[id].active) &&
               (id in t.cache.byID <==> id in s.cache.byID)
    requires forall id | id in s.lost :: NewCallsAvoid(s, t, id)
    ensures forall id | id in s.lost :: LostOk(t, id)
  {
    forall id | id in s.lost ensures LostOk(t, id) {
      assert LostOk(s, id);
    }
  }

  lemma LostInsert(s: System, token: Token)
    requires Coherent(s) && FreshToken(s.rows, token)
    ensures Coherent(InsertLost(s, token))
  {
    LostInsertRows(s, token);
    LostInsertCalls(s, token);
    LostStaysLost(s, InsertLost(s, token));
  }

  lemma LostInsertRows(s: System, token: Token)
    requires Coherent(s) && FreshToken(s.rows, token)
    ensures var t := InsertLost(s, token);
            token.id !in s.cache.byID &&
            (forall i | i in t.rows :: RowOk(t, i)) && (forall i | i in t.cache.byID :: CachedOk(t, i))
  {
    var t := InsertLost(s, token);
    KeepsBeingRevoked(s, t);
    KeepsBeingCreated(s, t);
    assert token.id in s.cache.byID ==> CachedOk(s, token.id);
    forall id | id in t.rows ensures RowOk(t, id) {
      assert id in s.rows ==> RowOk(s, id);
    }
    forall id | id in t.cache.byID ensures CachedOk(t, id) {
      assert CachedOk(s, id);
    }
  }

  lemma LostInsertCalls(s: System, token: Token)
    requires Coherent(s) && FreshToken(s.rows, token)
    ensures var t := InsertLost(s, token);
            forall d | d in t.calls :: CallOk(t, t.calls[d]) && Alone(t, d) && !IsAbout(t.calls[d], token.id)
  {
    var t := InsertLost(s, token);
    forall d | d in t.calls ensures CallOk(t, t.calls[d]) && Alone(t, d) && !IsAbout(t.calls[d], token.id) {
      assert CallOk(s, s.calls[d]) && Alone(s, d);
    }
  }

  lemma LostRevoke(s: System, c: nat)
    requires Coherent(s) && c in s.calls && s.calls[c].RevokeChecked?
    requires CanRevoke(s.rows, s.calls[c].userId, s.calls[c].id)
    ensures Coherent(RevokeLost(s, c))
  {
    RevokedKeys(s, c);
    LostRevokeRows(s, c);
    LostRevokeCalls(s, c);
    RevokedLost(s, c);
    NewlyLost(s, c);
  }

  lemma NewlyLost(s: System, c: nat)
    requires Coherent(s) && c in s.calls && s.calls[c].RevokeChecked?
    requires CanRevoke(s.rows, s.calls[c].userId, s.calls[c].id)
    ensures LostOk(RevokeLost(s, c), s.calls[c].id)
  {
    assert CallOk(s, s.calls[c]);
    LostRevokeCalls(s, c);
  }

  lemma RevokedKeys(s: System, c: nat)
    requires Coherent(s) && c in s.calls && s.calls[c].RevokeChecked?
    ensures var rows := AfterRevoke(s.rows, s.calls[c].userId, s.calls[c].id);
            WellKeyed(rows) && forall id | id in s.revoked :: id in rows && !rows[id].active
  {
    var rows := AfterRevoke(s.rows, s.calls[c].userId, s.calls[c].id);
    assert forall i | i in rows :: rows[i].token == s.rows[i].token;
  }

  lemma LostRevokeRows(s: System, c: nat)
    requires Coherent(s) && c in s.calls && s.calls[c].RevokeChecked?
    requires CanRevoke(s.rows, s.calls[c].userId, s.calls[c].id)
    ensures var t := RevokeLost(s, c);
            (forall i | i in t.rows :: RowOk(t, i)) && (forall i | i in t.cache.byID :: CachedOk(t, i))
  {
    var t := RevokeLost(s, c);
    KeepsBeingRevoked(s, t);
    KeepsBeingCreated(s, t);
    forall i | i in t.rows ensures RowOk(t, i) {
      assert RowOk(s, i);
    }
    forall i | i in t.cache.byID ensures CachedOk(t, i) {
      assert CachedOk(s, i);
    }
  }

  lemma LostRevokeCalls(s: System, c: nat)
    requires Coherent(s) && c in s.calls && s.calls[c].RevokeChecked?
    requires CanRevoke(s.rows, s.calls[c].userId, s.calls[c].id)
    ensures var t := RevokeLost(s, c);
            forall d | d in t.calls :: CallOk(t, t.calls[d]) && Alone(t, d) && !IsAbout(t.calls[d], s.calls[c].id)
  {
    var t := RevokeLost(s, c);
    assert CallOk(s, s.calls[c]);
    forall d | d in t.calls ensures CallOk(t, t.calls[d]) && Alone(t, d) && !IsAbout(t.calls[d], s.calls[c].id) {
      assert CallOk(s, s.calls[d]) && Alone(s, d);
    }
  }

  lemma RevokedRows(s: System, c: nat)
    requires Coherent(s) && c in s.calls && s.calls[c].RevokeChecked?
    requires CanRevoke(s.rows, s.calls[c].userId, s.calls[c].id)
    ensures var t := RowRevoked(s, c);
            (forall i | i in t.rows :: RowOk(t, i)) && (forall i | i in t.cache.byID :: CachedOk(t, i))
  {
    var t := RowRevoked(s, c);
    assert CallOk(s, s.calls[c]);
    KeepsBeingRevoked(s, t);
    KeepsBeingCreated(s, t);
    assert t.calls[c].RevokePersisted? && BeingRevoked(t, s.calls[c].id);
    forall i | i in t.rows ensures RowOk(t, i) {
      assert RowOk(s, i);
    }
    forall i | i in t.cache.byID ensures CachedOk(t, i) {
      assert CachedOk(s, i);
    }
  }

  /** A call that is apart from all others can take a place of its own. */
  lemma AloneWith(s: System, t: System, c: nat, call: Call)
    requires t.calls == s.calls[c := call]
    requires forall d | d in s.calls :: Alone(s, d)
    requires forall d | d in s.calls && d != c :: Apart(s.calls[d], call)
    ensures forall d | d in t.calls :: Alone(t, d)
  {
    forall d | d in t.calls ensures Alone(t, d) {
      assert d in s.calls ==> Alone(s, d);
    }
  }

  lemma RevokedCalls(s: System, c: nat)
    requires Coherent(s) && c in s.calls && s.calls[c].RevokeChecked?
    requires CanRevoke(s.rows, s.calls[c].userId, s.calls[c].id)
    ensures var t := RowRevoked(s, c); forall d | d in t.calls :: CallOk(t, t.calls[d]) && Alone(t, d)
  {
    RevokedOwn(s, c);
    OthersStayOk(s, c);
    AloneWith(s, RowRevoked(s, c), c, RevokePersisted(s.calls[c].userId, s.calls[c].id));
  }

  lemma RevokedOwn(s: System, c: nat)
    requires c in s.calls && s.calls[c].RevokeChecked? && CallOk(s, s.calls[c])
    requires CanRevoke(s.rows, s.calls[c].userId, s.calls[c].id)
    ensures CallOk(RowRevoked(s, c), RevokePersisted(s.calls[c].userId, s.calls[c].id))
  {
  }

  lemma OthersStayOk(s: System, c: nat)
    requires (forall d | d in s.calls :: CallOk(s, s.calls[d])) && c in s.calls && s.calls[c].RevokeChecked?
    requires CanRevoke(s.rows, s.calls[c].userId, s.calls[c].id)
    ensures forall d | d in s.calls && d != c ::
              CallOk(RowRevoked(s, c), s.calls[d]) &&
              Apart(s.calls[d], RevokePersisted(s.calls[c].userId, s.calls[c].id))
  {
    forall d | d in s.calls && d != c
      ensures CallOk(RowRevoked(s, c), s.calls[d]) &&
              Apart(s.calls[d], RevokePersisted(s.calls[c].userId, s.calls[c].id))
    {
      RevokedOther(s, c, s.calls[d]);
    }
  }

  lemma RevokedOther(s: System, c: nat, other: Call)
    requires c in s.calls && s.calls[c].RevokeChecked? && CallOk(s, s.calls[c]) && CallOk(s, other)
    requires CanRevoke(s.rows, s.calls[c].userId, s.calls[c].id)
    ensures CallOk(RowRevoked(s, c), other) && Apart(other, RevokePersisted(s.calls[c].userId, s.calls[c].id))
  {
  }

  lemma UncachedToken(s: System, c: nat)
    requires Coherent(s) && c in s.calls && s.calls[c].RevokePersisted?
    ensures Coherent(TokenUncached(s, c)) && s.calls[c].id in TokenUncached(s, c).revoked
  {
    UncacheKeepsIndexes(s.cache, s.calls[c].userId, s.calls[c].id);
    UncachedCalls(s, c);
    UncachedRows(s, c);
    UncachedHistory(s, c);
  }

  lemma UncachedHistory(s: System, c: nat)
    requires Coherent(s) && c in s.calls && s.calls[c].RevokePersisted?
    ensures var t := TokenUncached(s, c);
            s.calls[c].id in t.revoked &&
            (forall id | id in t.revoked :: id in t.rows && !t.rows[id].active && id !in t.cache.byID) &&
            forall id | id in t.lost :: LostOk(t, id)
  {
    assert CallOk(s, s.calls[c]) && CachedOk(s, s.calls[c].id);
    forall id | id in s.lost ensures LostOk(TokenUncached(s, c), id) {
      assert LostOk(s, id);
    }
  }

  lemma UncachedRows(s: System, c: nat)
    requires Coherent(s) && c in s.calls && s.calls[c].RevokePersisted?
    ensures var t := TokenUncached(s, c);
            (forall i | i in t.rows :: RowOk(t, i)) && (forall i | i in t.cache.byID :: CachedOk(t, i))
  {
    var t := TokenUncached(s, c);
    assert CallOk(s, s.calls[c]);
    KeepsBeingCreated(s, t);
    forall i | i in t.cache.byID ensures CachedOk(t, i) {
      assert CachedOk(s, i);
      if BeingRevoked(s, i) {
        var d :| d in s.calls && s.calls[d].RevokePersisted? && s.calls[d].id == i;
        assert t.calls[d] == s.calls[d];
      }
    }
    forall i | i in t.rows ensures RowOk(t, i) {
      assert RowOk(s, i);
    }
  }

  lemma UncachedCalls(s: System, c: nat)
    requires Coherent(s) && c in s.calls && s.calls[c].RevokePersisted?
    ensures var t := TokenUncached(s, c); forall d | d in t.calls :: CallOk(t, t.calls[d]) && Alone(t, d)
  {
    var t := TokenUncached(s, c);
    assert CallOk(s, s.calls[c]) && Alone(s, c);
    forall d | d in t.calls ensures CallOk(t, t.calls[d]) && Alone(t, d) {
      assert CallOk(s, s.calls[d]) && Apart(s.calls[c], s.calls[d]) && Alone(s, d);
    }
  }

  lemma UncacheKeepsIndexes(c: Cache, user: string, id: string)
    requires IndexesAgree(c)
    ensures IndexesAgree(Uncached(c, user, id))
  {
  }

  lemma CheckedCall(s: System, user: string, id: string)
    requires Coherent(s) && Owns(s.cache, user, id)
    ensures CallOk(s, RevokeChecked(user, id))
  {
  }

  lemma NextIsCoherent(s: System, e: Event)
    requires Coherent(s) && Enabled(s, e)
    ensures Coherent(Next(s, e))
  {
    match e
    case BeginCreate(c, token, reply) =>
      if reply == Done {
        InsertedRow(s, c, token);
      } else if reply == ReplyLost {
        LostInsert(s, token);
      }
    case EndCreate(c) => CachedToken(s, c);
    case EndRevoke(c) => UncachedToken(s, c);
    case PersistRevoke(c, reply) =>
      if Wrote(reply) && CanRevoke(s.rows, s.calls[c].userId, s.calls[c].id) {
        if reply == Done {
          RevokedRow(s, c);
        } else {
          LostRevoke(s, c);
        }
      } else {
        Undisturbed(s, Next(s, e));
      }
    case BeginRevoke(c, user, id) => CheckIsCoherent(s, c, user, id);
    case _ => UseIsCoherent(s, e);
  }

  lemma CheckIsCoherent(s: System, c: nat, user: string, id: string)
    requires Coherent(s) && c !in s.calls
    ensures Coherent(Next(s, BeginRevoke(c, user, id)))
  {
    if Owns(s.cache, user, id) {
      var t := s.(calls := s.calls[c := RevokeChecked(user, id)]);
      CheckedCall(s, user, id);
      SameCall(s, t, RevokeChecked(user, id));
      Undisturbed(s, t);
    }
  }

  lemma UseIsCoherent(s: System, e: Event)
    requires Coherent(s) && Enabled(s, e) && (e.Lookup? || e.BeginFlush? || e.PersistFlush? || e.EndFlush?)
    ensures Coherent(Next(s, e))
  {
    match e
    case Lookup(hash, now) => if hash in s.cache.byHash { Undisturbed(s, TokenUsed(s, hash, now)); }
    case BeginFlush(c) => Undisturbed(s, BatchTaken(s, c));
    case PersistFlush(c, reply) => PersistIsCoherent(s, c, reply);
    case EndFlush(c) => Undisturbed(s, BatchMerged(s, c));
  }

  lemma PersistIsCoherent(s: System, c: nat, reply: Reply)
    requires Coherent(s) && c in s.flushes
    ensures Coherent(Persisting(s, c, reply))
  {
    TouchKeepsRows(s.rows, s.flushes[c].batch);
    Undisturbed(s, Persisting(s, c, reply));
  }

  lemma TouchKeepsRows(rows: Rows, batch: map<string, int>)
    ensures SameRows(rows, AfterTouch(rows, batch)) && SameRows(rows, rows)
  {
  }

  /** Rows are never dropped and ids never leave the history. */
  lemma NextRemembers(s: System, e: Event)
    requires Enabled(s, e)
    ensures s.revoked <= Next(s, e).revoked && s.lost <= Next(s, e).lost
    ensures KeepsTokens(s.rows, Next(s, e).rows)
  {
    NextKeepsHistory(s, e);
    match e
    case PersistFlush(c, _) => TouchKeepsRows(s.rows, s.flushes[c].batch);
    case _ =>
  }

  lemma NextKeepsHistory(s: System, e: Event)
    requires Enabled(s, e)
    ensures s.revoked <= Next(s, e).revoked && s.lost <= Next(s, e).lost
  {
  }

  predicate KeepsTokens(rows: Rows, after: Rows) {
    rows.Keys <= after.Keys && forall id | id in rows :: after[id].token == rows[id].token
  }

  lemma {:induction false} RunIsCoherent(s: System, events: seq<Event>)
    requires Coherent(s) && EnabledRun(s, events)
    ensures Coherent(Run(s, events))
    ensures s.revoked <= Run(s, events).revoked && s.lost <= Run(s, events).lost
    ensures KeepsTokens(s.rows, Run(s, events).rows)
    decreases |events|
  {
    if events != [] {
      NextIsCoherent(s, events[0]);
      NextRemembers(s, events[0]);
      RunIsCoherent(Next(s, events[0]), events[1..]);
    }
  }

  lemma StartIsCoherent(rows: Rows, clock: int)
    requires WellKeyed(rows)
    ensures Coherent(Started(rows, clock))
  {
    var s := Started(rows, clock);
    forall id | id in s.cache.byID ensures CachedOk(s, id) {
    }
    forall id | id in s.rows ensures RowOk(s, id) {
      assert s.rows[id].active ==> id in ActiveTokens(rows);
    }
  }

  // ----- what coherence means -----

  lemma RevokedIsAbsent(s: System, id: string)
    requires Coherent(s) && id in s.revoked
    ensures id in s.rows && s.rows[id].token.hash !in s.cache.byHash && id !in s.cache.byID
    ensures forall h | h in s.cache.byHash :: s.cache.byHash[h].id != id
  {
  }

  /** The cache has what the active rows have, in both indexes. */
  predicate CacheIsActiveRows(s: System)
    requires WellKeyed(s.rows)
  {
    s.cache.byID == ActiveTokens(s.rows) && s.cache.byHash == HashIndex(ActiveTokens(s.rows))
  }

  lemma SettledIsActive(s: System)
    requires Coherent(s) && s.calls == map[]
    ensures CacheIsActiveRows(s) <==> s.lost == {}
    ensures forall id | id !in s.lost :: id in s.cache.byID <==> Live(s, id)
  {
    forall id | id !in s.lost ensures id in s.cache.byID <==> Live(s, id) {
      assert id in s.rows ==> RowOk(s, id);
      assert id in s.cache.byID ==> CachedOk(s, id);
    }
    if s.lost == {} {
      forall id | id in s.cache.byID ensures s.cache.byID[id] == s.rows[id].token {
        assert CachedOk(s, id);
      }
      assert s.cache.byID == ActiveTokens(s.rows);
      SameIndex(s.cache, ActiveTokens(s.rows));
    } else {
      var id :| id in s.lost;
      assert LostOk(s, id);
      assert id in s.cache.byID <==> id !in ActiveTokens(s.rows);
    }
  }

  lemma SameIndex(c: Cache, active: map<string, Token>)
    requires IndexesAgree(c) && c.byID == active
    requires forall i, j | i in active && j in active && active[i].hash == active[j].hash :: i == j
    ensures c.byHash == HashIndex(active)
  {
    var m := HashIndex(active);
    forall h ensures h in c.byHash <==> h in m
      ensures h in m ==> c.byHash[h] == m[h]
    {
      if h in c.byHash { assert TokenAt(c.byID, c.byHash[h].id, c.byHash[h]); }
      if h in m { assert m[h].id in c.byID && TokenAt(c.byHash, c.byID[m[h].id].hash, c.byID[m[h].id]); }
    }
  }

  // ----- over every interleaving -----

  /** In every reachable state both indexes hold the same tokens. */
  lemma IndexesAlwaysAgree(start: System, events: seq<Event>)
    requires IsStart(start) && EnabledRun(start, events)
    ensures Coherent(Run(start, events)) && IndexesAgree(Run(start, events).cache)
  {
    StartIsCoherent(start.rows, start.clock);
    RunIsCoherent(start, events);
  }

  /** Once revoke has returned true for a token, no later lookup finds it. */
  lemma RevokedIsNeverFound(start: System, before: seq<Event>, after: seq<Event>, id: string)
    requires IsStart(start) && EnabledRun(start, before)
    requires EnabledRun(Run(start, before), after)
    requires id in Run(start, before).revoked
    ensures var s, t := Run(start, before), Run(Run(start, before), after);
            id in s.rows && s.rows[id].token.hash !in t.cache.byHash && id !in t.cache.byID &&
            forall h | h in t.cache.byHash :: t.cache.byHash[h].id != id
  {
    IndexesAlwaysAgree(start, before);
    var s := Run(start, before);
    RevokedIsAbsent(s, id);
    RunIsCoherent(s, after);
    RevokedIsAbsent(Run(s, after), id);
  }

  lemma PersistedIsOwned(s: System, c: nat)
    requires Coherent(s) && c in s.calls && s.calls[c].RevokePersisted?
    ensures Owns(s.cache, s.calls[c].userId, s.calls[c].id)
  {
  }

  /** Once the store has revoked a token, the last section of that revoke call
      finds the token cached and returns true, however other calls interleave. */
  lemma PersistedRevokeSucceeds(start: System, events: seq<Event>, call: nat)
    requires IsStart(start) && EnabledRun(start, events)
    requires var s := Run(start, events); call in s.calls && s.calls[call].RevokePersisted?
    ensures var s := Run(start, events);
            Owns(s.cache, s.calls[call].userId, s.calls[call].id)
  {
    IndexesAlwaysAgree(start, events);
    PersistedIsOwned(Run(start, events), call);
  }

  /** When no create or revoke is in flight, the cache is the persisted active rows,
      in both indexes, if and only if none of them ever wrote and got an error
      back; and for every other token it is so in any case. */
  lemma QuiescentCacheIsActiveRows(start: System, events: seq<Event>)
    requires IsStart(start) && EnabledRun(start, events)
    requires Run(start, events).calls == map[]
    ensures var s := Run(start, events);
            WellKeyed(s.rows) && (CacheIsActiveRows(s) <==> s.lost == {}) &&
            forall id | id !in s.lost :: id in s.cache.byID <==> Live(s, id)
  {
    IndexesAlwaysAgree(start, events);
    SettledIsActive(Run(start, events));
  }

  // ----- last-used times -----

  /** One flush at a time: the flusher by itself, until shutdown, when one more
      flush runs without waiting for it. */
  predicate OneFlush(s: System, e: Event) {
    e.BeginFlush? ==> s.flushes == map[]
  }

  predicate OneFlushRun(s: System, events: seq<Event>)
    requires EnabledRun(s, events)
    decreases |events|
  {
    events == [] || (OneFlush(s, events[0]) && OneFlushRun(Next(s, events[0]), events[1..]))
  }

  function Get(m: map<string, int>, id: string): Option<int> {
    if id in m then Some(m[id]) else None
  }

  /** The batch in flight, when there is one. */
  ghost function Flight(s: System): map<string, int> {
    if s.flushes == map[] then map[] else var c :| c in s.flushes; s.flushes[c].batch
  }

  predicate NotAfter(a: Option<int>, b: Option<int>) {
    a.Some? && b.Some? ==> a.value <= b.value
  }

  /** The persisted, in-flight and dirty times are in this order, and the last
      of them that is there is the newest use. */
  predicate Chain(persisted: Option<int>, flight: Option<int>, dirty: Option<int>, newest: Option<int>) {
    NotAfter(persisted, flight) && NotAfter(persisted, dirty) && NotAfter(flight, dirty) &&
    newest == if dirty.Some? then dirty else if flight.Some? then flight else persisted
  }

  predicate Live(s: System, id: string) {
    id in s.rows && s.rows[id].active
  }

  ghost predicate TimesOk(s: System, id: string)
    requires id in s.rows
  {
    Chain(s.rows[id].lastUsed, Get(Flight(s), id), Get(s.cache.dirty, id), Get(s.latest, id)) &&
    (id in s.latest ==> s.latest[id] <= s.clock)
  }

  ghost predicate Tracked(s: System) {
    (forall c, d | c in s.flushes && d in s.flushes :: c == d) &&
    s.latest.Keys <= s.rows.Keys && s.cache.dirty.Keys <= s.rows.Keys && Flight(s).Keys <= s.rows.Keys &&
    forall id | id in s.rows && Live(s, id) :: TimesOk(s, id)
  }

  lemma FlightIs(s: System, c: nat)
    requires (forall c, d | c in s.flushes && d in s.flushes :: c == d) && c in s.flushes
    ensures Flight(s) == s.flushes[c].batch && s.flushes - {c} == map[]
  {
  }

  lemma FlushSectionsKeepTimes(s: System, e: Event)
    requires Tracked(s) && Enabled(s, e) && OneFlush(s, e)
    requires e.BeginFlush? || e.PersistFlush? || e.EndFlush?
    ensures Tracked(Next(s, e))
  {
    match e
    case BeginFlush(c) =>
      if s.cache.dirty != map[] {
        FlightIs(BatchTaken(s, c), c);
      }
    case PersistFlush(c, reply) => PersistKeepsTimes(s, c, reply);
    case EndFlush(c) => FlightIs(s, c);
  }

  lemma PersistKeepsTimes(s: System, c: nat, reply: Reply)
    requires Tracked(s) && c in s.flushes
    ensures Tracked(Persisting(s, c, reply))
  {
    var t := Persisting(s, c, reply);
    FlightIs(s, c);
    if reply != Done {
      FlightIs(t, c);
    }
    forall id | id in t.rows && Live(t, id) ensures TimesOk(t, id) {
      assert Live(s, id) && TimesOk(s, id);
    }
  }

  lemma NextKeepsTimes(s: System, e: Event)
    requires Coherent(s) && Tracked(s) && Enabled(s, e) && OneFlush(s, e)
    ensures Tracked(Next(s, e))
  {
    match e
    case Lookup(hash, now) => if hash in s.cache.byHash { LookupKeepsTimes(s, hash, now); }
    case EndRevoke(c) => UncacheKeepsTimes(s, c);
    case BeginFlush(_) => FlushSectionsKeepTimes(s, e);
    case PersistFlush(_, _) => FlushSectionsKeepTimes(s, e);
    case EndFlush(_) => FlushSectionsKeepTimes(s, e);
    case _ => QuietKeepsTimes(s, e);
  }

  lemma UncacheKeepsTimes(s: System, c: nat)
    requires Coherent(s) && Tracked(s) && c in s.calls && s.calls[c].RevokePersisted?
    ensures Tracked(TokenUncached(s, c))
  {
    assert CallOk(s, s.calls[c]);
    PersistedIsOwned(s, c);
    TimesUntouched(s, TokenUncached(s, c), {s.calls[c].id});
  }

  lemma QuietKeepsTimes(s: System, e: Event)
    requires Tracked(s) && Enabled(s, e) && (e.BeginCreate? || e.EndCreate? || e.BeginRevoke? || e.PersistRevoke?)
    ensures Tracked(Next(s, e))
  {
    QuietStep(s, e);
    TimesUntouched(s, Next(s, e), {});
  }

  lemma LookupKeepsTimes(s: System, hash: string, now: int)
    requires Coherent(s) && Tracked(s) && s.clock <= now && hash in s.cache.byHash
    ensures Tracked(TokenUsed(s, hash, now))
  {
    var t, id := TokenUsed(s, hash, now), s.cache.byHash[hash].id;
    assert TokenAt(s.cache.byID, id, s.cache.byHash[hash]) && CachedOk(s, id);
    assert Flight(t) == Flight(s);
    forall i | i in t.rows && Live(t, i) ensures TimesOk(t, i) {
      UsedLast(s, t, hash, now, i);
    }
  }

  lemma UsedLast(s: System, t: System, hash: string, now: int, i: string)
    requires s.clock <= now && hash in s.cache.byHash && t == TokenUsed(s, hash, now) && Flight(t) == Flight(s)
    requires i in s.rows && TimesOk(s, i)
    ensures TimesOk(t, i)
  {
  }

  /** A section that leaves the times of live tokens alone. */
  lemma TimesUntouched(s: System, t: System, dead: set<string>)
    requires Tracked(s) && t.flushes == s.flushes && t.latest == s.latest && t.clock == s.clock
    requires s.rows.Keys <= t.rows.Keys && t.cache.dirty == s.cache.dirty - dead
    requires forall id | id in dead :: !Live(t, id)
    requires forall id | id in t.rows ::
               if id in s.rows
               then t.rows[id].lastUsed == s.rows[id].lastUsed && (t.rows[id].active ==> s.rows[id].active)
               else t.rows[id].lastUsed.None?
    ensures Tracked(t)
  {
  }

  lemma {:induction false} RunKeepsTimes(s: System, events: seq<Event>)
    requires Coherent(s) && Tracked(s) && EnabledRun(s, events) && OneFlushRun(s, events)
    ensures Coherent(Run(s, events)) && Tracked(Run(s, events))
    decreases |events|
  {
    if events != [] {
      NextIsCoherent(s, events[0]);
      NextKeepsTimes(s, events[0]);
      RunKeepsTimes(Next(s, events[0]), events[1..]);
    }
  }

  /** No last-used time of a live token is lost, and none is invented: with one
      flush at a time, failing as often as it likes, the newest use is the
      dirty time, or else the one in flight, or else the persisted one, and
      none of them is later. */
  lemma NewestUseIsNeverLost(start: System, events: seq<Event>, id: string)
    requires IsStart(start) && UsesArePast(start)
    requires EnabledRun(start, events) && OneFlushRun(start, events)
    requires Live(Run(start, events), id)
    ensures var s := Run(start, events);
            Chain(s.rows[id].lastUsed, Get(Flight(s), id), Get(s.cache.dirty, id), Get(s.latest, id))
    ensures var s := Run(start, events);
            s.flushes == map[] && s.cache.dirty == map[] ==> s.rows[id].lastUsed == Get(s.latest, id)
  {
    StartIsCoherent(start.rows, start.clock);
    StartIsTracked(start);
    RunKeepsTimes(start, events);
    TimesAreOk(Run(start, events), id);
  }

  lemma StartIsTracked(start: System)
    requires IsStart(start) && UsesArePast(start)
    ensures Tracked(start)
  {
    NothingInFlight(start);
  }

  lemma NothingInFlight(s: System)
    requires s.cache.dirty == map[] && s.flushes == map[] && s.latest == LastUses(s.rows) && UsesArePast(s)
    ensures Tracked(s)
  {
    assert Flight(s) == map[];
    forall id | id in s.rows && Live(s, id) ensures TimesOk(s, id) {
    }
  }

  lemma TimesAreOk(s: System, id: string)
    requires Tracked(s) && Live(s, id)
    ensures Chain(s.rows[id].lastUsed, Get(Flight(s), id), Get(s.cache.dirty, id), Get(s.latest, id))
    ensures s.flushes == map[] && s.cache.dirty == map[] ==> s.rows[id].lastUsed == Get(s.latest, id)
  {
  }

  // ----- what the cache shows -----

  predicate NotUsedYet(s: System, c: nat)
    requires c in s.calls
  {
    s.calls[c].Creating? ==> s.calls[c].token.id !in s.latest
  }

  /** The cache shows the newest use of every token it has. */
  predicate ShowsUses(s: System) {
    (forall id | id in s.cache.byID :: Get(s.cache.lastUsed, id) == Get(s.latest, id)) &&
    s.latest.Keys <= s.rows.Keys && forall c | c in s.calls :: NotUsedYet(s, c)
  }

  lemma NextShowsUses(s: System, e: Event)
    requires Coherent(s) && ShowsUses(s) && Enabled(s, e)
    ensures ShowsUses(Next(s, e))
  {
    match e
    case Lookup(hash, now) => if hash in s.cache.byHash { UseShows(s, hash, now); }
    case BeginCreate(c, token, reply) => InsertShows(s, c, token, reply);
    case EndCreate(c) => CachedShows(s, c);
    case EndRevoke(c) => UncachedShows(s, c);
    case _ => QuietShows(s, e);
  }

  lemma InsertShows(s: System, c: nat, token: Token, reply: Reply)
    requires ShowsUses(s) && Enabled(s, BeginCreate(c, token, reply))
    ensures ShowsUses(Next(s, BeginCreate(c, token, reply)))
  {
    var t := Next(s, BeginCreate(c, token, reply));
    forall d | d in t.calls ensures NotUsedYet(t, d) {
      assert d in s.calls ==> NotUsedYet(s, d);
    }
  }

  lemma CachedShows(s: System, c: nat)
    requires ShowsUses(s) && c in s.calls && s.calls[c].Creating?
    ensures ShowsUses(TokenCached(s, c))
  {
    assert NotUsedYet(s, c);
    forall d | d in TokenCached(s, c).calls ensures NotUsedYet(TokenCached(s, c), d) {
      assert NotUsedYet(s, d);
    }
  }

  lemma UncachedShows(s: System, c: nat)
    requires ShowsUses(s) && c in s.calls && s.calls[c].RevokePersisted?
    ensures ShowsUses(TokenUncached(s, c))
  {
    forall d | d in TokenUncached(s, c).calls ensures NotUsedYet(TokenUncached(s, c), d) {
      assert NotUsedYet(s, d);
    }
  }

  /** The other sections change neither the shown uses nor the calls that create. */
  lemma QuietShows(s: System, e: Event)
    requires ShowsUses(s) && Enabled(s, e)
    requires e.BeginRevoke? || e.PersistRevoke? || e.BeginFlush? || e.PersistFlush? || e.EndFlush?
    ensures ShowsUses(Next(s, e))
  {
    if e.BeginRevoke? || e.PersistRevoke? {
      RevokeShowsNothingNew(s, e);
    } else {
      FlushShowsNothingNew(s, e);
    }
    var t := Next(s, e);
    forall d | d in t.calls ensures NotUsedYet(t, d) {
      assert d in s.calls ==> NotUsedYet(s, d);
    }
  }

  /** The same tokens, with the same uses, and no new call that creates. */
  predicate NothingNew(s: System, t: System) {
    t.cache.byID == s.cache.byID && t.cache.lastUsed == s.cache.lastUsed && t.latest == s.latest &&
    t.rows.Keys == s.rows.Keys &&
    forall d | d in t.calls && t.calls[d].Creating? :: d in s.calls && t.calls[d] == s.calls[d]
  }

  lemma FlushShowsNothingNew(s: System, e: Event)
    requires Enabled(s, e) && (e.BeginFlush? || e.PersistFlush? || e.EndFlush?)
    ensures NothingNew(s, Next(s, e))
  {
  }

  lemma RevokeShowsNothingNew(s: System, e: Event)
    requires Enabled(s, e) && (e.BeginRevoke? || e.PersistRevoke?)
    ensures NothingNew(s, Next(s, e))
  {
  }

  lemma UseShows(s: System, hash: string, now: int)
    requires Coherent(s) && ShowsUses(s) && hash in s.cache.byHash
    ensures ShowsUses(TokenUsed(s, hash, now))
  {
    var t, used := TokenUsed(s, hash, now), s.cache.byHash[hash];
    assert TokenAt(s.cache.byID, used.id, used) && CachedOk(s, used.id);
    forall c | c in t.calls ensures NotUsedYet(t, c) {
      assert NotUsedYet(s, c) && CallOk(s, s.calls[c]);
    }
  }

  lemma {:induction false} RunShowsUses(s: System, events: seq<Event>)
    requires Coherent(s) && ShowsUses(s) && EnabledRun(s, events)
    ensures ShowsUses(Run(s, events))
    decreases |events|
  {
    if events != [] {
      NextIsCoherent(s, events[0]);
      NextShowsUses(s, events[0]);
      RunShowsUses(Next(s, events[0]), events[1..]);
    }
  }

  /** Over every interleaving the last-used time shown for a cached token is that of
      its newest lookup, or the one loaded. */
  lemma ShownUseIsNewest(start: System, events: seq<Event>, id: string)
    requires IsStart(start) && EnabledRun(start, events) && id in Run(start, events).cache.byID
    ensures Get(Run(start, events).cache.lastUsed, id) == Get(Run(start, events).latest, id)
  {
    StartIsCoherent(start.rows, start.clock);
    StartShows(start);
    RunShowsUses(start, events);
  }

  lemma StartShows(s: System)
    requires s.calls == map[] && s.latest == LastUses(s.rows) == s.cache.lastUsed
    ensures ShowsUses(s)
  {
  }

  // ----- overlapping flushes -----

  /** The batch has the newest use of the token. */
  predicate InBatch(s: System, c: nat, id: string) {
    c in s.flushes && Get(s.flushes[c].batch, id) == Get(s.latest, id)
  }

  /** Some place still has the newest use of a token: its row, the dirty map, or a
      batch in flight. */
  predicate Held(s: System, id: string)
    requires id in s.rows
  {
    id in s.latest ==>
      s.rows[id].lastUsed == Get(s.latest, id) || Get(s.cache.dirty, id) == Get(s.latest, id) ||
      exists c | c in s.flushes :: InBatch(s, c, id)
  }

  predicate NotNewer(t: Option<int>, newest: Option<int>) {
    t.Some? ==> newest.Some? && t.value <= newest.value
  }

  predicate BatchBounded(s: System, c: nat, id: string)
    requires c in s.flushes
  {
    NotNewer(Get(s.flushes[c].batch, id), Get(s.latest, id))
  }

  /** No place has a later time than the newest use. */
  predicate Bounded(s: System, id: string)
    requires id in s.rows
  {
    NotNewer(s.rows[id].lastUsed, Get(s.latest, id)) && NotNewer(Get(s.cache.dirty, id), Get(s.latest, id)) &&
    (forall c | c in s.flushes :: BatchBounded(s, c, id)) && NotNewer(Get(s.latest, id), Some(s.clock))
  }

  predicate BatchKnown(s: System, c: nat)
    requires c in s.flushes
  {
    s.flushes[c].batch.Keys <= s.rows.Keys
  }

  predicate AllKnown(s: System) {
    s.latest.Keys <= s.rows.Keys && s.cache.dirty.Keys <= s.rows.Keys && forall c | c in s.flushes :: BatchKnown(s, c)
  }

  predicate AllBounded(s: System) {
    AllKnown(s) && forall id | id in s.rows && Live(s, id) :: Bounded(s, id)
  }

  predicate AllHeld(s: System) {
    forall id | id in s.rows && Live(s, id) :: Held(s, id)
  }

  /** The batch would write an older time over the newest use of a token, and no
      other place has that use. */
  predicate Overwrites(s: System, c: nat, id: string)
    requires c in s.flushes
  {
    id in s.rows && Live(s, id) && id in s.latest && id in s.flushes[c].batch &&
      s.flushes[c].batch[id] < s.latest[id] &&
    Get(s.cache.dirty, id) != Get(s.latest, id) && forall d | d in s.flushes && d != c :: !InBatch(s, d, id)
  }

  predicate Overtakes(s: System, c: nat)
    requires c in s.flushes
  {
    exists id | id in s.rows :: Overwrites(s, c, id)
  }

  /** A section that leaves the times of live tokens alone. */
  lemma PlacesUntouched(s: System, t: System, dead: set<string>)
    requires AllBounded(s) && t.flushes == s.flushes && t.latest == s.latest && t.clock == s.clock
    requires s.rows.Keys <= t.rows.Keys && t.cache.dirty == s.cache.dirty - dead
    requires forall id | id in dead :: !Live(t, id)
    requires forall id | id in t.rows ::
               if id in s.rows
               then t.rows[id].lastUsed == s.rows[id].lastUsed && (t.rows[id].active ==> s.rows[id].active)
               else t.rows[id].lastUsed.None?
    ensures AllBounded(t) && (AllHeld(s) ==> AllHeld(t))
  {
    forall c | c in t.flushes ensures BatchKnown(t, c) {
      assert BatchKnown(s, c);
    }
    forall id | id in t.rows && Live(t, id) ensures Bounded(t, id) && (AllHeld(s) ==> Held(t, id)) {
      if id in s.rows {
        SamePlaces(s, t, id);
      } else {
        forall c | c in t.flushes ensures BatchBounded(t, c, id) {
          assert BatchKnown(s, c);
        }
      }
    }
  }

  lemma SamePlaces(s: System, t: System, id: string)
    requires id in s.rows && id in t.rows && t.flushes.Keys == s.flushes.Keys && s.clock <= t.clock
    requires forall c | c in s.flushes :: t.flushes[c].batch == s.flushes[c].batch
    requires Get(t.latest, id) == Get(s.latest, id)
    requires t.rows[id].lastUsed == s.rows[id].lastUsed && Get(t.cache.dirty, id) == Get(s.cache.dirty, id)
    ensures Bounded(s, id) ==> Bounded(t, id)
    ensures Held(s, id) <==> Held(t, id)
  {
    forall c | c in s.flushes
      ensures BatchBounded(t, c, id) <==> BatchBounded(s, c, id)
      ensures InBatch(t, c, id) <==> InBatch(s, c, id)
    {
    }
  }

  lemma UsedPlaces(s: System, hash: string, now: int)
    requires Coherent(s) && AllBounded(s) && s.clock <= now && hash in s.cache.byHash
    ensures var t := TokenUsed(s, hash, now); AllBounded(t) && (AllHeld(s) ==> AllHeld(t))
  {
    var t, used := TokenUsed(s, hash, now), s.cache.byHash[hash].id;
    assert TokenAt(s.cache.byID, used, s.cache.byHash[hash]) && CachedOk(s, used);
    forall c | c in t.flushes ensures BatchKnown(t, c) {
      assert BatchKnown(s, c);
    }
    forall id | id in t.rows && Live(t, id) ensures Bounded(t, id) && (AllHeld(s) ==> Held(t, id)) {
      UsedPlace(s, hash, now, id);
    }
  }

  lemma UsedPlace(s: System, hash: string, now: int, id: string)
    requires s.clock <= now && hash in s.cache.byHash && id in s.rows && Bounded(s, id)
    ensures var t := TokenUsed(s, hash, now); Bounded(t, id) && (Held(s, id) ==> Held(t, id))
  {
    var t := TokenUsed(s, hash, now);
    if id == s.cache.byHash[hash].id {
      forall c | c in t.flushes ensures BatchBounded(t, c, id) {
        assert BatchBounded(s, c, id);
      }
    } else {
      SamePlaces(s, t, id);
    }
  }

  lemma TakenPlaces(s: System, c: nat)
    requires AllBounded(s) && c !in s.flushes
    ensures var t := BatchTaken(s, c); AllBounded(t) && (AllHeld(s) ==> AllHeld(t))
  {
    var t := BatchTaken(s, c);
    forall d | d in t.flushes ensures BatchKnown(t, d) {
      assert d in s.flushes ==> BatchKnown(s, d);
    }
    forall id | id in t.rows && Live(t, id) ensures Bounded(t, id) && (AllHeld(s) ==> Held(t, id)) {
      TakenPlace(s, c, id);
    }
  }

  lemma TakenPlace(s: System, c: nat, id: string)
    requires c !in s.flushes && id in s.rows && Bounded(s, id)
    ensures var t := BatchTaken(s, c); Bounded(t, id) && (Held(s, id) ==> Held(t, id))
  {
    var t := BatchTaken(s, c);
    assert InBatch(t, c, id) <==> Get(s.cache.dirty, id) == Get(s.latest, id);
    forall d | d in t.flushes ensures BatchBounded(t, d, id) {
      assert d in s.flushes ==> BatchBounded(s, d, id);
    }
    forall d | d in s.flushes ensures InBatch(s, d, id) ==> InBatch(t, d, id) {
    }
  }

  /** A store write keeps the newest use of a token exactly when it does not
      overwrite it. */
  lemma TouchedPlace(s: System, c: nat, id: string)
    requires c in s.flushes && Live(s, id) && Bounded(s, id) && Held(s, id)
    ensures var t := RowsTouched(s, c); Bounded(t, id) && (Held(t, id) <==> !Overwrites(s, c, id))
  {
    var t := RowsTouched(s, c);
    assert BatchBounded(s, c, id);
    forall d | d in t.flushes
      ensures BatchBounded(t, d, id) && (InBatch(t, d, id) <==> InBatch(s, d, id))
    {
      assert BatchBounded(s, d, id);
    }
  }

  lemma TouchedPlaces(s: System, c: nat)
    requires AllBounded(s) && AllHeld(s) && c in s.flushes
    ensures var t := RowsTouched(s, c); AllBounded(t) && (AllHeld(t) <==> !Overtakes(s, c))
  {
    var t := RowsTouched(s, c);
    forall d | d in t.flushes ensures BatchKnown(t, d) {
      assert BatchKnown(s, d);
    }
    forall id | id in s.rows && Live(s, id) ensures Bounded(t, id) && (Held(t, id) <==> !Overwrites(s, c, id)) {
      TouchedPlace(s, c, id);
    }
    assert forall id | id in s.rows :: Live(t, id) <==> Live(s, id);
  }

  /** A write whose reply is lost leaves the batch in flight as well. */
  lemma LostTouchPlace(s: System, c: nat, id: string)
    requires c in s.flushes && Live(s, id) && Bounded(s, id) && Held(s, id)
    ensures var t := TouchLost(s, c); Bounded(t, id) && (Held(t, id) <==> !Overwrites(s, c, id))
  {
    var t := TouchLost(s, c);
    assert BatchBounded(s, c, id);
    forall d | d in t.flushes
      ensures BatchBounded(t, d, id) && (InBatch(t, d, id) <==> InBatch(s, d, id))
    {
      assert BatchBounded(s, d, id);
    }
  }

  lemma LostTouchPlaces(s: System, c: nat)
    requires AllBounded(s) && AllHeld(s) && c in s.flushes
    ensures var t := TouchLost(s, c); AllBounded(t) && (AllHeld(t) <==> !Overtakes(s, c))
  {
    var t := TouchLost(s, c);
    forall d | d in t.flushes ensures BatchKnown(t, d) {
      assert BatchKnown(s, d);
    }
    forall id | id in s.rows && Live(s, id) ensures Bounded(t, id) && (Held(t, id) <==> !Overwrites(s, c, id)) {
      LostTouchPlace(s, c, id);
    }
    assert forall id | id in s.rows :: Live(t, id) <==> Live(s, id);
  }

  lemma MergedPlace(s: System, c: nat, id: string)
    requires c in s.flushes && id in s.rows && Bounded(s, id)
    ensures var t := BatchMerged(s, c); Bounded(t, id) && (Held(s, id) ==> Held(t, id))
  {
    var t := BatchMerged(s, c);
    assert BatchBounded(s, c, id);
    forall d | d in t.flushes
      ensures BatchBounded(t, d, id) && (InBatch(s, d, id) ==> InBatch(t, d, id))
    {
      assert BatchBounded(s, d, id);
    }
    assert InBatch(s, c, id) && id in s.latest ==> Get(t.cache.dirty, id) == Get(s.latest, id);
  }

  lemma MergedPlaces(s: System, c: nat)
    requires AllBounded(s) && c in s.flushes
    ensures var t := BatchMerged(s, c); AllBounded(t) && (AllHeld(s) ==> AllHeld(t))
  {
    var t := BatchMerged(s, c);
    assert BatchKnown(s, c);
    forall d | d in t.flushes ensures BatchKnown(t, d) {
      assert BatchKnown(s, d);
    }
    forall id | id in t.rows && Live(t, id) ensures Bounded(t, id) && (AllHeld(s) ==> Held(t, id)) {
      MergedPlace(s, c, id);
    }
  }

  lemma FailedPlaces(s: System, c: nat)
    requires AllBounded(s) && c in s.flushes
    ensures var t := Failed(s, c); AllBounded(t) && (AllHeld(s) ==> AllHeld(t))
  {
    var t := Failed(s, c);
    forall d | d in t.flushes ensures BatchKnown(t, d) {
      assert BatchKnown(s, d);
    }
    forall id | id in t.rows && Live(t, id) ensures Bounded(t, id) && (AllHeld(s) ==> Held(t, id)) {
      SamePlaces(s, t, id);
    }
  }

  /** The step loses a newest use. */
  predicate Loses(s: System, e: Event)
    requires Enabled(s, e)
  {
    e.PersistFlush? && Wrote(e.reply) && Overtakes(s, e.call)
  }

  /** One section, with any number of flushes under way: every newest use is still
      held afterwards unless the section is a store write that overtakes. */
  lemma NextHoldsIff(s: System, e: Event)
    requires Coherent(s) && AllBounded(s) && AllHeld(s) && Enabled(s, e)
    ensures AllBounded(Next(s, e)) && (AllHeld(Next(s, e)) <==> !Loses(s, e))
  {
    match e
    case Lookup(hash, now) => if hash in s.cache.byHash { UsedPlaces(s, hash, now); }
    case EndRevoke(c) => UncachedPlaces(s, c);
    case BeginFlush(c) => if s.cache.dirty != map[] { TakenPlaces(s, c); }
    case PersistFlush(c, reply) =>
      if reply == Done {
        TouchedPlaces(s, c);
      } else if reply == NotDone {
        FailedPlaces(s, c);
      } else {
        LostTouchPlaces(s, c);
      }
    case EndFlush(c) => MergedPlaces(s, c);
    case _ => QuietPlaces(s, e);
  }

  lemma QuietPlaces(s: System, e: Event)
    requires AllBounded(s) && Enabled(s, e) && (e.BeginCreate? || e.EndCreate? || e.BeginRevoke? || e.PersistRevoke?)
    ensures AllBounded(Next(s, e)) && (AllHeld(s) ==> AllHeld(Next(s, e)))
  {
    QuietStep(s, e);
    PlacesUntouched(s, Next(s, e), {});
  }

  /** The sections of create and revoke that leave the cache's times alone. */
  lemma QuietStep(s: System, e: Event)
    requires Enabled(s, e) && (e.BeginCreate? || e.EndCreate? || e.BeginRevoke? || e.PersistRevoke?)
    ensures var t := Next(s, e);
            t.flushes == s.flushes && t.latest == s.latest && t.clock == s.clock && s.rows.Keys <= t.rows.Keys &&
            t.cache.dirty == s.cache.dirty && t.cache.dirty == s.cache.dirty - {} &&
            forall id | id in t.rows ::
              if id in s.rows
              then t.rows[id].lastUsed == s.rows[id].lastUsed && (t.rows[id].active ==> s.rows[id].active)
              else t.rows[id].lastUsed.None?
  {
  }

  lemma UncachedPlaces(s: System, c: nat)
    requires Coherent(s) && AllBounded(s) && c in s.calls && s.calls[c].RevokePersisted?
    ensures var t := TokenUncached(s, c); AllBounded(t) && (AllHeld(s) ==> AllHeld(t))
  {
    assert CallOk(s, s.calls[c]);
    PersistedIsOwned(s, c);
    PlacesUntouched(s, TokenUncached(s, c), {s.calls[c].id});
  }

  predicate HeldThroughout(s: System, events: seq<Event>)
    requires EnabledRun(s, events)
    decreases |events|
  {
    AllHeld(s) && (events == [] || HeldThroughout(Next(s, events[0]), events[1..]))
  }

  predicate NeverLoses(s: System, events: seq<Event>)
    requires EnabledRun(s, events)
    decreases |events|
  {
    events == [] || (!Loses(s, events[0]) && NeverLoses(Next(s, events[0]), events[1..]))
  }

  lemma {:induction false} RunHoldsIff(s: System, events: seq<Event>)
    requires Coherent(s) && AllBounded(s) && AllHeld(s) && EnabledRun(s, events)
    ensures HeldThroughout(s, events) <==> NeverLoses(s, events)
    decreases |events|
  {
    if events != [] {
      NextIsCoherent(s, events[0]);
      NextHoldsIff(s, events[0]);
      if !Loses(s, events[0]) {
        RunHoldsIff(Next(s, events[0]), events[1..]);
      }
    }
  }

  /** Any number of overlapping flushes, over every interleaving from the start:
      every newest use of a live token stays held if and only if no store write
      overtakes, that is, writes an older time over a newest use that is nowhere
      else. */
  lemma NewestUseIsHeldIff(start: System, events: seq<Event>)
    requires IsStart(start) && UsesArePast(start)
    requires EnabledRun(start, events)
    ensures HeldThroughout(start, events) <==> NeverLoses(start, events)
  {
    StartIsCoherent(start.rows, start.clock);
    StartIsHeld(start);
    RunHoldsIff(start, events);
  }

  lemma StartIsHeld(start: System)
    requires IsStart(start) && UsesArePast(start)
    ensures AllBounded(start) && AllHeld(start)
  {
    NothingWaiting(start);
  }

  /** Nothing dirty, nothing in flight: the rows have the newest uses. */
  lemma NothingWaiting(s: System)
    requires s.cache.dirty == map[] && s.flushes == map[] && s.latest == LastUses(s.rows) && UsesArePast(s)
    ensures AllBounded(s) && AllHeld(s)
  {
  }

  predicate UsesArePast(s: System) {
    forall i | i in s.rows && s.rows[i].lastUsed.Some? :: s.rows[i].lastUsed.value <= s.clock
  }

  // ----- two flushes: the flusher's and the one at shutdown -----

  predicate BothAtStore(s: System, c: nat, d: nat) {
    c != d && c in s.flushes && d in s.flushes &&
    s.flushes == map[c := FlushCall(s.flushes[c].batch, false), d := FlushCall(s.flushes[d].batch, false)]
  }

  /** c took its batch before d took its own, and nothing is dirty. */
  predicate TwoInFlight(s: System, c: nat, d: nat) {
    BothAtStore(s, c, d) && s.cache.dirty == map[] && s.flushes[c].batch != map[] && s.flushes[d].batch != map[] &&
    forall id | id in s.rows && Live(s, id) :: InOrder(s, c, d, id)
  }

  /** The row's time, the older batch's and the newer batch's are in this order. */
  predicate InOrder(s: System, c: nat, d: nat, id: string)
    requires id in s.rows && c in s.flushes && d in s.flushes
  {
    Chain(s.rows[id].lastUsed, Get(s.flushes[c].batch, id), Get(s.flushes[d].batch, id), Get(s.latest, id))
  }

  /** After any run with one flush at a time, a second flush that begins while the
      first is at the store leads to this situation. */
  lemma SecondFlushOverlaps(start: System, events: seq<Event>, c: nat, d: nat)
    requires IsStart(start) && UsesArePast(start) && EnabledRun(start, events) && OneFlushRun(start, events)
    requires var s := Run(start, events);
             c in s.flushes && !s.flushes[c].failed && s.flushes[c].batch != map[] && d !in s.flushes &&
               s.cache.dirty != map[]
    ensures var s := Run(start, events);
            Enabled(s, BeginFlush(d)) && TwoInFlight(Next(s, BeginFlush(d)), c, d)
  {
    StartIsCoherent(start.rows, start.clock);
    StartIsTracked(start);
    RunKeepsTimes(start, events);
    SecondBatchIsInOrder(Run(start, events), c, d);
  }

  lemma SecondBatchIsInOrder(s: System, c: nat, d: nat)
    requires Tracked(s) && c in s.flushes && !s.flushes[c].failed && s.flushes[c].batch != map[]
    requires d !in s.flushes && s.cache.dirty != map[]
    ensures TwoInFlight(BatchTaken(s, d), c, d)
  {
    FlightIs(s, c);
    var t := BatchTaken(s, d);
    forall id | id in t.rows && Live(t, id) ensures InOrder(t, c, d, id) {
      assert Live(s, id) && TimesOk(s, id);
    }
  }

  predicate AllPersisted(s: System) {
    forall id | id in s.rows && Live(s, id) :: s.rows[id].lastUsed == Get(s.latest, id)
  }

  /** How the two store calls end, and which comes first. */
  datatype Schedule = Schedule(older: Reply, newer: Reply, newerFirst: bool)

  function StoreCalls(c: nat, d: nat, h: Schedule): seq<Event> {
    if h.newerFirst then [PersistFlush(d, h.newer), PersistFlush(c, h.older)]
    else [PersistFlush(c, h.older), PersistFlush(d, h.newer)]
  }

  /** Failed batches are merged back into the cache, and the program ends. */
  function Events(c: nat, d: nat, h: Schedule): seq<Event> {
    StoreCalls(c, d, h) + (if h.older == Done then [] else [EndFlush(c)]) +
    if h.newer == Done then [] else [EndFlush(d)]
  }

  function Written(rows: Rows, batch: map<string, int>, reply: Reply): Rows {
    if Wrote(reply) then AfterTouch(rows, batch) else rows
  }

  /** The rows the program leaves. */
  function LeftRows(s: System, c: nat, d: nat, h: Schedule): Rows
    requires c in s.flushes && d in s.flushes
  {
    var older, newer := s.flushes[c].batch, s.flushes[d].batch;
    if h.newerFirst then Written(Written(s.rows, newer, h.newer), older, h.older)
    else Written(Written(s.rows, older, h.older), newer, h.newer)
  }

  /** From s the events can run, and they leave these rows. */
  predicate LeavesRows(s: System, events: seq<Event>, rows: Rows) {
    EnabledRun(s, events) && Run(s, events).rows == rows
  }

  lemma LeavesStep(s: System, e: Event, rest: seq<Event>, rows: Rows)
    requires Enabled(s, e) && LeavesRows(Next(s, e), rest, rows)
    ensures LeavesRows(s, [e] + rest, rows)
  {
    Unroll(s, e, rest);
  }

  /** Merging back touches no row. */
  lemma MergesLeaveRows(s: System, c: nat, d: nat, h: Schedule)
    requires c != d
    requires h.older != Done ==> c in s.flushes && s.flushes[c].failed
    requires h.newer != Done ==> d in s.flushes && s.flushes[d].failed
    ensures LeavesRows(s, Events(c, d, h)[2..], s.rows)
  {
    var first := if h.older == Done then [] else [EndFlush(c)];
    var second := if h.newer == Done then [] else [EndFlush(d)];
    assert Events(c, d, h)[2..] == first + second;
    var t := if h.older == Done then s else BatchMerged(s, c);
    if h.newer != Done {
      LeavesStep(t, EndFlush(d), [], s.rows);
      assert [EndFlush(d)] + [] == second;
    }
    if h.older != Done {
      LeavesStep(s, EndFlush(c), second, s.rows);
    } else {
      assert first + second == second;
    }
  }

  lemma PersistLeaves(s: System, c: nat, reply: Reply, rest: seq<Event>, rows: Rows)
    requires c in s.flushes && !s.flushes[c].failed && LeavesRows(Persisting(s, c, reply), rest, rows)
    ensures LeavesRows(s, [PersistFlush(c, reply)] + rest, rows)
  {
    LeavesStep(s, PersistFlush(c, reply), rest, rows);
  }

  /** One store call, as others see it. */
  lemma PersistingKeeps(s: System, c: nat, reply: Reply)
    requires c in s.flushes
    ensures var t := Persisting(s, c, reply);
            t.rows == Written(s.rows, s.flushes[c].batch, reply) &&
            (reply != Done ==> c in t.flushes && t.flushes[c].failed) &&
            forall d | d in s.flushes && d != c :: d in t.flushes && t.flushes[d] == s.flushes[d]
  {
  }

  lemma ScheduleLeaves(s: System, c: nat, d: nat, h: Schedule)
    requires TwoInFlight(s, c, d)
    ensures LeavesRows(s, Events(c, d, h), LeftRows(s, c, d, h))
  {
    var rest := Events(c, d, h)[2..];
    var a, b := if h.newerFirst then d else c, if h.newerFirst then c else d;
    var x, y := if h.newerFirst then h.newer else h.older, if h.newerFirst then h.older else h.newer;
    var s1 := Persisting(s, a, x);
    var s2 := Persisting(s1, b, y);
    PersistingKeeps(s, a, x);
    PersistingKeeps(s1, b, y);
    MergesLeaveRows(s2, c, d, h);
    PersistLeaves(s1, b, y, rest, s2.rows);
    PersistLeaves(s, a, x, [PersistFlush(b, y)] + rest, s2.rows);
    assert Events(c, d, h) == [PersistFlush(a, x)] + ([PersistFlush(b, y)] + rest);
  }

  /** The newest use of the token reaches its row and stays there, or was there. A
      use in the newer batch: that batch is written, and the older one not after it
      with another time; or else the older one is written with the same time; or
      neither has the token written and the row has it. A use that only the older
      batch has: that batch is written, or the row has it. */
  predicate Reaches(s: System, c: nat, d: nat, h: Schedule, id: string)
    requires id in s.rows && c in s.flushes && d in s.flushes
  {
    var older, newer := Get(s.flushes[c].batch, id), Get(s.flushes[d].batch, id);
    if newer.Some? then
      if Wrote(h.newer) then !(Wrote(h.older) && h.newerFirst && older.Some? && older != newer)
      else if Wrote(h.older) && older.Some? then older == newer
      else s.rows[id].lastUsed == newer
    else older.Some? ==> Wrote(h.older) || s.rows[id].lastUsed == older
  }

  lemma LeftPlace(s: System, c: nat, d: nat, h: Schedule, id: string)
    requires TwoInFlight(s, c, d) && Live(s, id) && InOrder(s, c, d, id)
    ensures id in LeftRows(s, c, d, h)
    ensures LeftRows(s, c, d, h)[id].lastUsed == Get(s.latest, id) <==> Reaches(s, c, d, h, id)
  {
  }

  lemma LeftKeepsRows(s: System, c: nat, d: nat, h: Schedule)
    requires c in s.flushes && d in s.flushes
    ensures LeftRows(s, c, d, h).Keys == s.rows.Keys
    ensures forall id | id in s.rows :: LeftRows(s, c, d, h)[id].active == s.rows[id].active
  {
  }

  lemma LatestStays(s: System, c: nat, d: nat, h: Schedule)
    requires EnabledRun(s, Events(c, d, h))
    ensures Run(s, Events(c, d, h)).latest == s.latest
  {
    NoUses(s, Events(c, d, h));
  }

  lemma {:induction false} NoUses(s: System, events: seq<Event>)
    requires EnabledRun(s, events) && forall e | e in events :: e.PersistFlush? || e.EndFlush?
    ensures Run(s, events).latest == s.latest
    decreases |events|
  {
    if events != [] {
      assert events[0] in events && forall e | e in events[1..] :: e in events;
      NoUses(Next(s, events[0]), events[1..]);
    }
  }

  /** The flusher and the flush at shutdown do not wait for each other, and nothing
      is flushed after them. When both have a batch in flight, then whichever store
      call comes first, whichever of them fail, and whether or not a failed one has
      written: the program leaves every newest use persisted if and only if the use
      of every live token reaches its row. */
  lemma ShutdownPersistsNewestIff(s: System, c: nat, d: nat, h: Schedule)
    requires TwoInFlight(s, c, d)
    ensures EnabledRun(s, Events(c, d, h))
    ensures AllPersisted(Run(s, Events(c, d, h))) <==>
            forall id | id in s.rows && Live(s, id) :: Reaches(s, c, d, h, id)
  {
    ScheduleLeaves(s, c, d, h);
    LatestStays(s, c, d, h);
    LeftKeepsRows(s, c, d, h);
    forall id | id in s.rows && Live(s, id)
      ensures LeftRows(s, c, d, h)[id].lastUsed == Get(s.latest, id) <==> Reaches(s, c, d, h, id)
    {
      LeftPlace(s, c, d, h, id);
    }
  }

  /** The flusher runs under the context whose end starts the shutdown. When its call
      fails for that and has written nothing, the newest use of every live token
      that only its batch carries is lost, unless the row had it. */
  lemma FailedFlusherLoses(s: System, c: nat, d: nat, h: Schedule, id: string)
    requires TwoInFlight(s, c, d) && h.older == NotDone
    requires Live(s, id) && id in s.flushes[c].batch && id !in s.flushes[d].batch
    requires s.rows[id].lastUsed != Some(s.flushes[c].batch[id])
    ensures EnabledRun(s, Events(c, d, h))
    ensures var t := Run(s, Events(c, d, h));
            id in t.rows && Get(t.latest, id) == Some(s.flushes[c].batch[id]) &&
              t.rows[id].lastUsed != Get(t.latest, id)
  {
    ScheduleLeaves(s, c, d, h);
    LatestStays(s, c, d, h);
    assert InOrder(s, c, d, id);
    LeftPlace(s, c, d, h, id);
  }

  /** Two flushes at once can lose a time: the store calls overtake each other
      and the older batch is written last. */
  lemma OverlappingFlushesLoseATime(token: Token)
    ensures var rows := map[token.id := Row(token, None, true)];
            WellKeyed(rows) && EnabledRun(Started(rows, 0), Overlap(token.hash)) &&
            var s := Run(Started(rows, 0), Overlap(token.hash));
            s.flushes == map[] && s.cache.dirty == map[] && Live(s, token.id) &&
            Get(s.latest, token.id) == Some(7) && s.rows[token.id].lastUsed == Some(5)
  {
    var rows := map[token.id := Row(token, None, true)];
    OneTokenStarted(token);
    var e := Overlap(token.hash);
    var s0, s1 := OneToken(token, map[], 0), OneToken(token, map[token.id := 5], 5);
    assert Next(s0, e[0]) == s1;
    Unroll(s0, e[0], e[1..]);
    FirstFlushesOverlap(token);
  }

  /** The system with one unused token in the store, last looked up at clock. */
  function OneToken(token: Token, uses: map<string, int>, clock: int): System {
    System(Cache(map[token.id := token], map[token.hash := token], uses, uses),
           map[token.id := Row(token, None, true)], map[], map[], clock, {}, {}, uses)
  }

  lemma OneTokenStarted(token: Token)
    ensures var rows := map[token.id := Row(token, None, true)];
            WellKeyed(rows) && Started(rows, 0) == OneToken(token, map[], 0)
  {
    var rows := map[token.id := Row(token, None, true)];
    var active := ActiveTokens(rows);
    assert active == map[token.id := token];
    var h := HashIndex(active);
    assert active[token.id].hash in h;
    forall x | x in h ensures x == token.hash {
      assert h[x].id in active;
    }
    assert h == map[token.hash := token];
  }

  lemma FirstFlushesOverlap(token: Token)
    ensures var s, e := OneToken(token, map[token.id := 5], 5), Overlap(token.hash)[1..];
            EnabledRun(s, e) &&
            var t := Run(s, e);
            t.flushes == map[] && t.cache.dirty == map[] && t.latest == map[token.id := 7] &&
              t.rows == map[token.id := Row(token, Some(5), true)]
  {
    var e := Overlap(token.hash);
    var five, seven := map[token.id := 5], map[token.id := 7];
    var s1 := OneToken(token, five, 5);
    assert token.id in five && s1.flushes[1 := FlushCall(five, false)] == map[1 := FlushCall(five, false)];
    var s2 := s1.(cache := s1.cache.(dirty := map[]), flushes := map[1 := FlushCall(five, false)]);
    assert Next(s1, e[1]) == s2;
    var s3 := OneToken(token, seven, 7).(flushes := s2.flushes);
    assert Next(s2, e[2]) == s3;
    SecondFlushOverlapsToo(s3, token, e[3..]);
    Unroll(s2, e[2], e[3..]);
    Unroll(s1, e[1], e[2..]);
    assert e[1..] == [e[1]] + e[2..] && e[2..] == [e[2]] + e[3..];
  }

  lemma SecondFlushOverlapsToo(s: System, token: Token, e: seq<Event>)
    requires e == [BeginFlush(2), PersistFlush(2, Done), PersistFlush(1, Done)]
    requires s == OneToken(token, map[token.id := 7], 7).(flushes := map[1 := FlushCall(map[token.id := 5], false)])
    ensures EnabledRun(s, e)
    ensures var t := Run(s, e);
            t.flushes == map[] && t.cache.dirty == map[] && t.latest == map[token.id := 7] &&
            t.rows == map[token.id := Row(token, Some(5), true)]
  {
    var five, seven := map[token.id := 5], map[token.id := 7];
    var bothInFlight := map[1 := FlushCall(five, false), 2 := FlushCall(seven, false)];
    assert token.id in seven && s.flushes[2 := FlushCall(seven, false)] == bothInFlight;
    var taken := s.(cache := s.cache.(dirty := map[]), flushes := bothInFlight);
    assert Next(s, e[0]) == taken;
    LastFlushesOverlap(taken, token, e[1..]);
    Unroll(s, e[0], e[1..]);
    assert e == [e[0]] + e[1..];
  }

  function Overlap(hash: string): seq<Event> {
    [Lookup(hash, 5), BeginFlush(1), Lookup(hash, 7), BeginFlush(2), PersistFlush(2, Done), PersistFlush(1, Done)]
  }

  lemma LastFlushesOverlap(s: System, token: Token, e: seq<Event>)
    requires e == [PersistFlush(2, Done), PersistFlush(1, Done)]
    requires s.rows == map[token.id := Row(token, None, true)] && s.cache.dirty == map[]
    requires s.flushes == map[1 := FlushCall(map[token.id := 5], false), 2 := FlushCall(map[token.id := 7], false)]
    ensures EnabledRun(s, e)
    ensures var t := Run(s, e);
            t.flushes == map[] && t.cache == s.cache && t.latest == s.latest &&
              t.rows == map[token.id := Row(token, Some(5), true)]
  {
    var s5 := Next(s, e[0]);
    assert s5.rows == map[token.id := Row(token, Some(7), true)];
    assert s5.flushes == map[1 := FlushCall(map[token.id := 5], false)];
    var s6 := Next(s5, e[1]);
    assert s6.rows == map[token.id := Row(token, Some(5), true)];
    Unroll(s, e[0], e[1..]);
    Unroll(s5, e[1], []);
    assert e[1..] == [e[1]] + [];
  }

  lemma Unroll(s: System, e: Event, rest: seq<Event>)
    requires Enabled(s, e)
    ensures EnabledRun(s, [e] + rest) <==> EnabledRun(Next(s, e), rest)
    ensures EnabledRun(Next(s, e), rest) ==> Run(s, [e] + rest) == Run(Next(s, e), rest)
  {
  }
}
