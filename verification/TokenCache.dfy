/** The API token cache: two indexes over shared token records, the last-used
    times waiting to be flushed, and the persistent rows behind them. */
module TokenCache {
  import opened Prelude

  /** The immutable part of a token record. */
  datatype Token = Token(id: string, name: string, userId: string, username: string, createdAt: int, hash: string)

  /** A persisted row; a revoked row stays. */
  datatype Row = Row(token: Token, lastUsed: Option<int>, active: bool)

  type Rows = map<string, Row>

  datatype Cache = Cache(byID: map<string, Token>, byHash: map<string, Token>, lastUsed: map<string, int>,
      dirty: map<string, int>)

  // ----- the critical sections, on values -----

  function Inserted(c: Cache, t: Token): Cache {
    c.(byID := c.byID[t.id := t], byHash := c.byHash[t.hash := t], lastUsed := c.lastUsed - {t.id})
  }

  function LookedUp(c: Cache, hash: string, now: int): Cache {
    if hash in c.byHash
    then var id := c.byHash[hash].id; c.(lastUsed := c.lastUsed[id := now], dirty := c.dirty[id := now])
    else c
  }

  predicate Owns(c: Cache, userId: string, id: string) {
    id in c.byID && c.byID[id].userId == userId
  }

  function Uncached(c: Cache, userId: string, id: string): Cache {
    if Owns(c, userId, id)
    then Cache(c.byID - {id}, c.byHash - {c.byID[id].hash}, c.lastUsed - {id}, c.dirty - {id})
    else c
  }

  function Merged(dirty: map<string, int>, batch: map<string, int>): map<string, int> {
    map id | id in dirty.Keys + batch.Keys ::
      if id in batch && (id !in dirty || batch[id] > dirty[id]) then batch[id] else dirty[id]
  }

  // ----- what they change -----

  /** An inserted token is found by id and by hash and has no use yet. */
  lemma InsertAddsToken(c: Cache, t: Token)
    ensures var d := Inserted(c, t);
            t.id in d.byID && d.byID[t.id] == t && t.hash in d.byHash && d.byHash[t.hash] == t && t.id !in d.lastUsed &&
            d.byID - {t.id} == c.byID - {t.id} && d.byHash - {t.hash} == c.byHash - {t.hash} &&
            d.lastUsed - {t.id} == c.lastUsed - {t.id} && d.dirty == c.dirty
  {
  }

  /** A lookup changes two times of the token it finds. */
  lemma LookupStampsToken(c: Cache, hash: string, now: int)
    ensures var d := LookedUp(c, hash, now);
            if hash !in c.byHash then d == c
            else
              var id := c.byHash[hash].id;
              d.byID == c.byID && d.byHash == c.byHash &&
              d.lastUsed == c.lastUsed[id := now] && d.dirty == c.dirty[id := now]
  {
  }

  /** An owned token is gone from every map, and nothing else is. */
  lemma UncacheRemovesToken(c: Cache, userId: string, id: string)
    ensures var d := Uncached(c, userId, id);
            if id in c.byID && c.byID[id].userId == userId then
              d.byID == c.byID - {id} && d.byHash == c.byHash - {c.byID[id].hash} &&
              d.lastUsed == c.lastUsed - {id} && d.dirty == c.dirty - {id}
            else d == c
  {
  }

  /** Merging keeps of each token the later time. */
  lemma MergeKeepsLater(dirty: map<string, int>, batch: map<string, int>, id: string)
    ensures id in Merged(dirty, batch) <==> id in dirty || id in batch
    ensures id in Merged(dirty, batch) ==>
              (id in dirty ==> dirty[id] <= Merged(dirty, batch)[id]) &&
              (id in batch ==> batch[id] <= Merged(dirty, batch)[id]) &&
              ((id in dirty && Merged(dirty, batch)[id] == dirty[id]) ||
               (id in batch && Merged(dirty, batch)[id] == batch[id]))
  {
  }

  // ----- what a presented or a new token is -----

  const TOKEN_PREFIX := "str_live_"

  datatype Error = OwnerRequired | NoRandom | StoreFailed

  function Plaintext(id: string, secret: string): string {
    TOKEN_PREFIX + id + "_" + secret
  }

  function DisplayName(name: string): string {
    if TrimSpace(name) == "" then "default" else TrimSpace(name)
  }

  /** A given name is kept, without the white space around it; a blank one becomes
      "default". */
  lemma GivenNameIsKept(name: string, before: string, after: string)
    requires (forall x | x in before :: IsSpace(x)) && (forall x | x in after :: IsSpace(x))
    ensures name != "" && !IsSpace(name[0]) && !IsSpace(name[|name| - 1]) ==> DisplayName(before + name + after) == name
    ensures DisplayName(before) == "default"
  {
    if name != "" && !IsSpace(name[0]) && !IsSpace(name[|name| - 1]) {
      TrimAround(before, name, after);
    }
    TrimBlank(before);
  }

  lemma {:induction false} TrimBlank(s: string)
    requires forall x | x in s :: IsSpace(x)
    ensures TrimSpace(s) == ""
  {
    if s != "" {
      TrimBlank(s[1..]);
    }
  }

  /** A token can be created exactly by a named owner, with randomness at hand. */
  lemma CreatableIff(userId: string, secret: Option<string>, id: Option<string>)
    ensures CreateRefusal(userId, secret, id).None? <==> userId != "" && secret.Some? && id.Some?
  {
  }

  function CreateRefusal(userId: string, secret: Option<string>, id: Option<string>): Option<Error> {
    if userId == "" then Some(OwnerRequired)
    else if secret.None? || id.None? then Some(NoRandom)
    else None
  }

  function TokenOf(c: Cache, hash: string): Option<Token> {
    if hash in c.byHash then Some(c.byHash[hash]) else None
  }

  /** The plaintext handed out is recognised, with or without white space around
      it, and finds the token just created. */
  lemma CreatedIsFound(c: Cache, t: Token, id: string, secret: string, hashOf: string -> string, before: string,
      after: string)
    requires secret != "" && !IsSpace(secret[|secret| - 1]) && t.hash == hashOf(Plaintext(id, secret))
    requires (forall x | x in before :: IsSpace(x)) && (forall x | x in after :: IsSpace(x))
    ensures var p := TrimSpace(before + Plaintext(id, secret) + after);
            p == Plaintext(id, secret) && TOKEN_PREFIX <= p && TokenOf(Inserted(c, t), hashOf(p)) == Some(t)
  {
    var p := Plaintext(id, secret);
    assert p[0] == 's' && p[|p| - 1] == secret[|secret| - 1];
    TrimAround(before, p, after);
  }

  lemma {:induction false} TrimAround(before: string, p: string, after: string)
    requires p != "" && !IsSpace(p[0]) && !IsSpace(p[|p| - 1])
    requires (forall x | x in before :: IsSpace(x)) && (forall x | x in after :: IsSpace(x))
    ensures TrimSpace(before + p + after) == p
    decreases |before| + |after|
  {
    var s := before + p + after;
    if before != "" {
      assert s[0] == before[0] && s[1..] == before[1..] + p + after;
      TrimAround(before[1..], p, after);
    } else if after != "" {
      var n := |after| - 1;
      assert s[0] == p[0] && s[|s| - 1] == after[n] && s[..|s| - 1] == before + p + after[..n];
      TrimAround(before, p, after[..n]);
    } else {
      assert s == p;
    }
  }

  // ----- the store's side -----

  /** How a store call that writes ends: it wrote; it failed and wrote nothing; or
      it wrote and an error came back, as when its context ends meanwhile. */
  datatype Reply = Done | NotDone | ReplyLost

  predicate Wrote(r: Reply) {
    r != NotDone
  }

  function AfterInsert(rows: Rows, t: Token): Rows {
    rows[t.id := Row(t, None, true)]
  }

  predicate CanRevoke(rows: Rows, userId: string, id: string) {
    id in rows && rows[id].active && rows[id].token.userId == userId
  }

  function AfterRevoke(rows: Rows, userId: string, id: string): Rows {
    if CanRevoke(rows, userId, id) then rows[id := rows[id].(active := false)] else rows
  }

  function AfterTouch(rows: Rows, batch: map<string, int>): Rows {
    map id | id in rows :: if id in batch && rows[id].active then rows[id].(lastUsed := Some(batch[id])) else rows[id]
  }

  /** Rows are keyed by token id and no two share a hash. */
  predicate WellKeyed(rows: Rows) {
    (forall id | id in rows :: rows[id].token.id == id) &&
    (forall i, j | i in rows && j in rows && rows[i].token.hash == rows[j].token.hash :: i == j)
  }

  /** A revocation changes one thing: an active row of that user becomes inactive. */
  lemma RevokeChangesOwnRow(rows: Rows, userId: string, id: string)
    ensures var after := AfterRevoke(rows, userId, id);
            after.Keys == rows.Keys &&
            (forall i | i in rows :: after[i].token == rows[i].token && after[i].lastUsed == rows[i].lastUsed) &&
            (forall i | i in rows ::
               after[i].active <==> rows[i].active && !(i == id && rows[i].token.userId == userId)) &&
            (CanRevoke(rows, userId, id) <==> after != rows)
  {
    if CanRevoke(rows, userId, id) {
      assert AfterRevoke(rows, userId, id)[id].active != rows[id].active;
    }
  }

  /** A touch changes the times of active rows in the batch and nothing else. */
  lemma TouchChangesActiveTimes(rows: Rows, batch: map<string, int>)
    ensures var after := AfterTouch(rows, batch);
            after.Keys == rows.Keys &&
            forall i | i in rows ::
              after[i].token == rows[i].token && after[i].active == rows[i].active &&
              after[i].lastUsed == if rows[i].active && i in batch then Some(batch[i]) else rows[i].lastUsed
  {
  }

  /** A new row is active and unused, under its own id. */
  lemma InsertAddsActiveRow(rows: Rows, t: Token)
    ensures var after := AfterInsert(rows, t);
            t.id in after && after[t.id] == Row(t, None, true) && after - {t.id} == rows - {t.id}
  {
  }

  function ActiveTokens(rows: Rows): map<string, Token> {
    map id | id in rows && rows[id].active :: rows[id].token
  }

  function LastUses(rows: Rows): map<string, int> {
    map id | id in rows && rows[id].active && rows[id].lastUsed.Some? :: rows[id].lastUsed.value
  }

  /** The index by hash that goes with an index by id. */
  function HashIndex(tokens: map<string, Token>): (m: map<string, Token>)
    requires forall id | id in tokens :: tokens[id].id == id
    requires forall i, j | i in tokens && j in tokens && tokens[i].hash == tokens[j].hash :: i == j
    ensures forall id | id in tokens :: tokens[id].hash in m && m[tokens[id].hash] == tokens[id]
    ensures forall h | h in m :: m[h].hash == h && m[h].id in tokens && tokens[m[h].id] == m[h]
  {
    map id | id in tokens :: tokens[id].hash := tokens[id]
  }

  function LoadedFrom(rows: Rows): Cache
    requires WellKeyed(rows)
  {
    var active := ActiveTokens(rows);
    Cache(active,
          HashIndex(active),
          LastUses(rows),
          map[])
  }

  // ----- the store and the cache as objects -----

  class Database {
    var rows: Rows

    constructor (rows: Rows)
      ensures this.rows == rows
    {
      this.rows := rows;
    }

    method InsertAPIToken(t: Token, reply: Reply) returns (inserted: bool)
      modifies this
      ensures inserted == (reply == Done) && rows == if Wrote(reply) then AfterInsert(old(rows), t) else old(rows)
    {
      if Wrote(reply) {
        rows := rows[t.id := Row(t, None, true)];
      }
      inserted := reply == Done;
    }

    /** None is a store error. */
    method RevokeAPIToken(userId: string, id: string, reply: Reply) returns (revoked: Option<bool>)
      modifies this
      ensures revoked == if reply == Done then Some(CanRevoke(old(rows), userId, id)) else None
      ensures rows == if Wrote(reply) then AfterRevoke(old(rows), userId, id) else old(rows)
    {
      if reply == NotDone {
        return None;
      }
      var can := id in rows && rows[id].token.userId == userId && rows[id].active;
      if can {
        rows := rows[id := rows[id].(active := false)];
      }
      return if reply == Done then Some(can) else None;
    }

    method TouchAPITokens(batch: map<string, int>, reply: Reply) returns (touched: bool)
      modifies this
      ensures touched == (reply == Done) && rows == if Wrote(reply) then AfterTouch(old(rows), batch) else old(rows)
    {
      if Wrote(reply) {
        rows := AfterTouch(rows, batch);
      }
      touched := reply == Done;
    }
  }

  class TokenRecord {
    const token: Token
    var lastUsed: Option<int>

    constructor (token: Token, lastUsed: Option<int>)
      ensures this.token == token && this.lastUsed == lastUsed
    {
      this.token := token;
      this.lastUsed := lastUsed;
    }
  }

  function Tokens(records: map<string, TokenRecord>): map<string, Token> {
    map k | k in records :: records[k].token
  }

  lemma TokensUpdate(records: map<string, TokenRecord>, k: string, rec: TokenRecord)
    ensures Tokens(records[k := rec]) == Tokens(records)[k := rec.token]
    ensures Tokens(records - {k}) == Tokens(records) - {k}
  {
  }

  function Used(records: map<string, TokenRecord>): map<string, int>
    reads records.Values
  {
    map k | k in records && records[k].lastUsed.Some? :: records[k].lastUsed.value
  }

  lemma UsedUpdate(records: map<string, TokenRecord>, k: string, rec: TokenRecord)
    ensures rec.lastUsed.None? ==> Used(records[k := rec]) == Used(records) - {k}
    ensures Used(records - {k}) == Used(records) - {k}
  {
  }

  /** Each record of one index is in the other, under its own id and hash. */
  ghost predicate Paired(ids: map<string, TokenRecord>, hashes: map<string, TokenRecord>) {
    (forall id | id in ids :: ids[id].token.id == id && HasAt(hashes, ids[id].token.hash, ids[id])) &&
    (forall h | h in hashes :: hashes[h].token.hash == h && HasAt(ids, hashes[h].token.id, hashes[h]))
  }

  predicate HasAt(m: map<string, TokenRecord>, k: string, rec: TokenRecord) {
    k in m && m[k] == rec
  }

  lemma PairedAdd(ids: map<string, TokenRecord>, hashes: map<string, TokenRecord>, rec: TokenRecord)
    requires Paired(ids, hashes) && rec.token.id !in ids && rec.token.hash !in hashes
    ensures Paired(ids[rec.token.id := rec], hashes[rec.token.hash := rec])
  {
  }

  lemma PairedRemove(ids: map<string, TokenRecord>, hashes: map<string, TokenRecord>, rec: TokenRecord)
    requires Paired(ids, hashes) && HasAt(ids, rec.token.id, rec)
    ensures Paired(ids - {rec.token.id}, hashes - {rec.token.hash})
  {
  }

  lemma UnindexedFacts(ids: map<string, TokenRecord>, hashes: map<string, TokenRecord>, rec: TokenRecord)
    requires Paired(ids, hashes) && HasAt(ids, rec.token.id, rec)
    ensures Paired(ids - {rec.token.id}, hashes - {rec.token.hash})
    ensures Tokens(ids - {rec.token.id}) == Tokens(ids) - {rec.token.id}
    ensures Tokens(hashes - {rec.token.hash}) == Tokens(hashes) - {rec.token.hash}
    ensures Used(ids - {rec.token.id}) == Used(ids) - {rec.token.id}
  {
    PairedRemove(ids, hashes, rec);
    TokensUpdate(ids, rec.token.id, rec);
    TokensUpdate(hashes, rec.token.hash, rec);
    UsedUpdate(ids, rec.token.id, rec);
  }

  class TokenStore {
    const persist: Database
    var byID: map<string, TokenRecord>
    var byHash: map<string, TokenRecord>
    var dirty: map<string, int>

    constructor (persist: Database)
      ensures this.persist == persist && Valid() && State() == Cache(map[], map[], map[], map[])
    {
      this.persist := persist;
      byID, byHash, dirty := map[], map[], map[];
    }

    /** Both indexes hold the same records, each under its own id and hash. */
    ghost predicate Valid()
      reads this
    {
      Paired(byID, byHash)
    }

    ghost function State(): Cache
      reads this, byID.Values
    {
      Cache(Tokens(byID), Tokens(byHash), Used(byID), dirty)
    }

    /** Fail-fast load at startup: the cache becomes the active rows. */
    method Load(rows: Rows)
      requires WellKeyed(rows)
      modifies this
      ensures Valid() && State() == LoadedFrom(rows)
    {
      byID, byHash, dirty := map[], map[], map[];
      LoadActive(rows);
      LoadedIsComplete(rows);
    }

    ghost predicate Mirrors(rows: Rows)
      reads this, byID.Values
    {
      forall id | id in byID :: id in rows && byID[id].token == rows[id].token && byID[id].lastUsed == rows[id].lastUsed
    }

    method LoadActive(rows: Rows)
      requires WellKeyed(rows) && byID == map[] && byHash == map[]
      modifies this`byID, this`byHash
      ensures Valid() && Mirrors(rows) && byID.Keys == ActiveTokens(rows).Keys
    {
      var left := ActiveTokens(rows).Keys;
      ghost var all := left;
      while left != {}
        invariant left <= all && byID.Keys == all - left
        invariant Valid() && Mirrors(rows)
      {
        var id :| id in left;
        assert all - (left - {id}) == (all - left) + {id};
        LoadRow(rows, id);
        left := left - {id};
      }
    }

    method LoadRow(rows: Rows, id: string)
      requires WellKeyed(rows) && Valid() && Mirrors(rows) && id in rows && id !in byID
      modifies this`byID, this`byHash
      ensures Valid() && Mirrors(rows) && byID.Keys == old(byID).Keys + {id}
    {
      HashIsNew(rows, id);
      var rec := new TokenRecord(rows[id].token, rows[id].lastUsed);
      Index(rec);
    }

    lemma HashIsNew(rows: Rows, id: string)
      requires WellKeyed(rows) && Valid() && Mirrors(rows) && id in rows && id !in byID
      ensures rows[id].token.hash !in byHash && rows[id].token.id == id
    {
    }

    lemma LoadedIsComplete(rows: Rows)
      requires WellKeyed(rows) && Valid() && dirty == map[] && byID.Keys == ActiveTokens(rows).Keys
      requires Mirrors(rows)
      ensures State() == LoadedFrom(rows)
    {
      var l := LoadedFrom(rows);
      SameHashIndex(l);
      SameTokens(rows);
    }

    lemma SameTokens(rows: Rows)
      requires WellKeyed(rows) && Valid() && byID.Keys == ActiveTokens(rows).Keys
      requires Mirrors(rows)
      ensures State().byID == ActiveTokens(rows)
      ensures State().lastUsed == LastUses(rows)
    {
    }

    lemma SameHashIndex(l: Cache)
      requires Valid() && byID.Keys == l.byID.Keys
      requires forall id | id in byID :: byID[id].token == l.byID[id]
      requires forall id | id in l.byID :: l.byID[id].hash in l.byHash && l.byHash[l.byID[id].hash] == l.byID[id]
      requires forall h | h in l.byHash ::
                 l.byHash[h].hash == h && l.byHash[h].id in l.byID && l.byID[l.byHash[h].id] == l.byHash[h]
      ensures State().byHash == l.byHash
    {
    }

    /** Enter one record under its id and its hash. */
    method Index(rec: TokenRecord)
      requires Valid() && rec.token.id !in byID && rec.token.hash !in byHash
      modifies this`byID, this`byHash
      ensures Valid() && byID == old(byID)[rec.token.id := rec] && byHash == old(byHash)[rec.token.hash := rec]
    {
      PairedAdd(byID, byHash, rec);
      byID := byID[rec.token.id := rec];
      byHash := byHash[rec.token.hash := rec];
    }

    method Unindex(rec: TokenRecord)
      requires Valid() && rec.token.id in byID && byID[rec.token.id] == rec
      modifies this`byID, this`byHash
      ensures Valid() && Tokens(byID) == old(Tokens(byID)) - {rec.token.id}
      ensures Tokens(byHash) == old(Tokens(byHash)) - {rec.token.hash}
      ensures Used(byID) == old(Used(byID)) - {rec.token.id}
    {
      UnindexedFacts(byID, byHash, rec);
      byID := byID - {rec.token.id};
      byHash := byHash - {rec.token.hash};
    }

    /** The critical section of create. */
    method Insert(t: Token)
      requires Valid() && t.id !in byID && t.hash !in byHash
      modifies this
      ensures Valid() && State() == Inserted(old(State()), t)
    {
      var rec := new TokenRecord(t, None);
      TokensUpdate(byID, t.id, rec);
      TokensUpdate(byHash, t.hash, rec);
      UsedUpdate(byID, t.id, rec);
      Index(rec);
    }

    /** The critical section of lookup stamps the record both indexes share. */
    method Use(hash: string, now: int) returns (owner: Option<Token>)
      requires Valid()
      modifies this`dirty, byHash.Values
      ensures Valid() && State() == LookedUp(old(State()), hash, now)
      ensures owner == if hash in old(State().byHash) then Some(old(State().byHash[hash])) else None
    {
      if hash !in byHash {
        return None;
      }
      var rec := byHash[hash];
      rec.lastUsed := Some(now);
      dirty := dirty[rec.token.id := now];
      return Some(rec.token);
    }

    /** The last critical section of revoke. */
    method Uncache(userId: string, id: string) returns (removed: bool)
      requires Valid()
      modifies this
      ensures Valid() && State() == Uncached(old(State()), userId, id)
      ensures removed == Owns(old(State()), userId, id)
    {
      if id !in byID || byID[id].token.userId != userId {
        return false;
      }
      var rec := byID[id];
      Unindex(rec);
      dirty := dirty - {id};
      return true;
    }

    /** The first critical section of flush: swap the dirty map. */
    method Take() returns (batch: map<string, int>)
      requires Valid()
      modifies this`dirty
      ensures Valid() && batch == old(dirty) && State() == old(State()).(dirty := map[])
    {
      batch := dirty;
      dirty := map[];
    }

    /** The merge after a failed flush. */
    method MergeBack(batch: map<string, int>)
      requires Valid()
      modifies this`dirty
      ensures Valid() && State() == old(State()).(dirty := Merged(old(dirty), batch))
    {
      var left := batch.Keys;
      while left != {}
        invariant left <= batch.Keys
        invariant dirty.Keys == old(dirty).Keys + (batch.Keys - left)
        invariant forall id | id in dirty ::
                    dirty[id] == if id in batch && id !in left then Merged(old(dirty), batch)[id] else old(dirty)[id]
      {
        var id :| id in left;
        if id !in dirty || batch[id] > dirty[id] {
          dirty := dirty[id := batch[id]];
        }
        left := left - {id};
      }
      assert dirty == Merged(old(dirty), batch);
    }

    // ----- whole calls, undisturbed -----

    /** None is an unknown token or no token at all. */
    method Lookup(raw: string, hashOf: string -> string, now: int) returns (owner: Option<Token>)
      requires Valid()
      modifies this`dirty, byHash.Values
      ensures Valid()
      ensures var p := TrimSpace(raw);
              if TOKEN_PREFIX <= p
              then State() == LookedUp(old(State()), hashOf(p), now) &&
                   owner == TokenOf(old(State()), hashOf(p))
              else State() == old(State()) && owner == None
    {
      var p := TrimSpace(raw);
      if !(TOKEN_PREFIX <= p) {
        return None;
      }
      owner := Use(hashOf(p), now);
    }

    /** id and secret are random; None is a failed read of the random source. */
    method Create(userId: string, username: string, name: string, secret: Option<string>, id: Option<string>,
                  hashOf: string -> string, now: int, reply: Reply) returns (r: Result<(string, Token), Error>)
      requires Valid() && (id.Some? ==> id.value !in byID)
      requires id.Some? && secret.Some? ==> hashOf(Plaintext(id.value, secret.value)) !in byHash
      modifies this, persist
      ensures Valid()
      ensures var e := CreateRefusal(userId, secret, id);
              if e.Some? then r == Err(e.value) && persist.rows == old(persist.rows) && State() == old(State())
              else
                var p := Plaintext(id.value, secret.value);
                var t := Token(id.value, DisplayName(name), userId, username, now, hashOf(p));
                r == (if reply == Done then Ok((p, t)) else Err(StoreFailed)) &&
                persist.rows == (if Wrote(reply) then AfterInsert(old(persist.rows), t) else old(persist.rows)) &&
                State() == if reply == Done then Inserted(old(State()), t) else old(State())
    {
      if userId == "" {
        return Err(OwnerRequired);
      }
      var display := TrimSpace(name);
      if display == "" {
        display := "default";
      }
      if secret.None? || id.None? {
        return Err(NoRandom);
      }
      var p := TOKEN_PREFIX + id.value + "_" + secret.value;
      var t := Token(id.value, display, userId, username, now, hashOf(p));
      var ok := persist.InsertAPIToken(t, reply);
      if !ok {
        return Err(StoreFailed);
      }
      Insert(t);
      return Ok((p, t));
    }

    method Revoke(userId: string, id: string, reply: Reply) returns (revoked: Result<bool, Error>)
      requires Valid()
      modifies this, persist
      ensures Valid()
      ensures userId == "" ==>
                revoked == Err(OwnerRequired) && persist.rows == old(persist.rows) && State() == old(State())
      ensures userId != "" ==>
                var owned := Owns(old(State()), userId, id);
                var revocable := CanRevoke(old(persist.rows), userId, id);
                revoked == (if !owned then Ok(false) else if reply != Done then Err(StoreFailed) else Ok(revocable)) &&
                persist.rows ==
                (if owned && Wrote(reply) then AfterRevoke(old(persist.rows), userId, id) else old(persist.rows)) &&
                State() ==
                if owned && reply == Done && revocable then Uncached(old(State()), userId, id) else old(State())
    {
      if userId == "" {
        return Err(OwnerRequired);
      }
      if !(id in byID && byID[id].token.userId == userId) {
        return Ok(false);
      }
      var r := persist.RevokeAPIToken(userId, id, reply);
      if r == None {
        return Err(StoreFailed);
      }
      if r == Some(false) {
        return Ok(false);
      }
      var removed := Uncache(userId, id);
      return Ok(removed);
    }

    /** A failed flush keeps the times, whether or not it wrote them. */
    method Flush(reply: Reply) returns (ok: bool)
      requires Valid()
      modifies this`dirty, persist
      ensures Valid() && ok == (old(dirty) == map[] || reply == Done)
      ensures State() == if ok then old(State()).(dirty := map[]) else old(State())
      ensures persist.rows ==
              if old(dirty) == map[] || Wrote(reply) then AfterTouch(old(persist.rows),
                  old(dirty)) else old(persist.rows)
    {
      if dirty == map[] {
        assert AfterTouch(persist.rows, dirty) == persist.rows;
        return true;
      }
      var batch := Take();
      ok := persist.TouchAPITokens(batch, reply);
      if !ok {
        MergeBack(batch);
        assert Merged(map[], batch) == batch;
      }
    }
  }
}
