/** Named secrets sealed under a wrap key: storing, deleting and resolving, with
    a previous wrap key to read rows sealed before a rotation. */
module Secrets {
  import opened Prelude
  import opened SecretRefs

  /** Key bytes; empty when there is no key. */
  type Key = string

  const KEY_SIZE := 32
  const MAX_PLAINTEXT := 64 * 1024

  /** Ideal authenticated encryption: a blob is what sealed it. */
  datatype Blob = Blob(key: Key, nonce: string, plain: string)

  datatype Error =
    | Dark
    | NotFound
    | BadRef(name: NameError)
    | BadName(name: NameError)
    | OpenFailed
    | UnknownKeyId(id: string)
    | TooLarge
    | NoPersist
    | KeyLength
    | NoNonce
    | Unavailable

  /** None is a failed read of the random source. */
  function Seal(key: Key, nonce: Option<string>, plain: string): Result<Blob, Error> {
    if |key| != KEY_SIZE then Err(KeyLength)
    else if nonce.None? then Err(NoNonce)
    else Ok(Blob(key, nonce.value, plain))
  }

  function Open(key: Key, blob: Blob): Result<string, Error> {
    if |key| != KEY_SIZE then Err(KeyLength)
    else if blob.key != key then Err(OpenFailed)
    else Ok(blob.plain)
  }

  datatype Row = Row(name: string, cipher: Blob, keyId: string, length: nat, updatedAt: int)

  type Rows = map<string, Row>

  // ----- wrap keys -----

  datatype Keys = Keys(key: Key, keyId: string, prevKey: Key, prevId: string)

  const NO_KEYS := Keys("", "", "", "")

  predicate IsDark(ks: Keys) {
    ks.key == ""
  }

  /** What New leaves in a module. */
  predicate KeysOk(ks: Keys) {
    if IsDark(ks) then ks == NO_KEYS
    else |ks.key| == KEY_SIZE && (ks.prevKey == "" || |ks.prevKey| == KEY_SIZE) && ks.keyId != ""
  }

  /** The keys a configuration gives; defaultId names a key that has no id. */
  function Configured(cfg: Keys, defaultId: Key -> string): Result<Keys, Error> {
    if cfg.key == "" then Ok(NO_KEYS)
    else if |cfg.key| != KEY_SIZE then Err(KeyLength)
    else if cfg.prevKey != "" && |cfg.prevKey| != KEY_SIZE then Err(KeyLength)
    else Ok(cfg.(keyId := if cfg.keyId == "" then defaultId(cfg.key) else cfg.keyId))
  }

  // ----- opening a row -----

  function OpenRow(ks: Keys, row: Row): Result<string, Error> {
    if row.keyId == ks.keyId || row.keyId == "" then
      var plain := Open(ks.key, row.cipher);
      if plain.Ok? || row.keyId == ks.keyId || ks.prevKey == "" then plain
      else OpenPrevious(ks, row)
    else OpenPrevious(ks, row)
  }

  /** What is left to try after the current key. */
  function OpenPrevious(ks: Keys, row: Row): Result<string, Error> {
    if ks.prevKey != "" && (row.keyId == ks.prevId || row.keyId == "") then Open(ks.prevKey, row.cipher)
    else
      var plain := if ks.prevKey != "" then Open(ks.prevKey, row.cipher) else Err(OpenFailed);
      if plain.Ok? then plain else Err(UnknownKeyId(row.keyId))
  }

  /** These keys read what was sealed with key under id. */
  predicate Reads(ks: Keys, key: Key, id: string) {
    (key == ks.key && (id == ks.keyId || id == "")) || (key == ks.prevKey && key != "" && id != ks.keyId)
  }

  /** A row opens exactly when the current key sealed it and its key id does not
      say otherwise, or the previous key sealed it and its key id is not the
      current one; it then opens to what was sealed, and the configured id of
      the previous key plays no part. */
  lemma OpensExactly(ks: Keys, row: Row)
    requires KeysOk(ks) && !IsDark(ks)
    ensures OpenRow(ks, row).Ok? <==> Reads(ks, row.cipher.key, row.keyId)
    ensures OpenRow(ks, row).Ok? ==> OpenRow(ks, row).value == row.cipher.plain
    ensures OpenRow(ks, row).Err? ==> OpenRow(ks, row).error in {OpenFailed, UnknownKeyId(row.keyId)}
  {
  }

  /** A row that does not open has an unknown key id exactly when the id is neither
      empty, nor the current one, nor the previous one of a previous key. */
  lemma OpenErrorIs(ks: Keys, row: Row)
    requires KeysOk(ks) && !IsDark(ks) && OpenRow(ks, row).Err?
    ensures OpenRow(ks, row).error ==
            if row.keyId != "" && row.keyId != ks.keyId && (ks.prevKey == "" || row.keyId != ks.prevId)
            then UnknownKeyId(row.keyId) else OpenFailed
  {
  }

  // ----- resolving -----

  /** The store answers for every name not in down. */
  function ResolveValue(ks: Keys, rows: Rows, down: set<string>, value: string): Result<string, Error> {
    match ParseRef(value)
    case Broken(e) => Err(BadRef(e))
    case Text => Ok(value)
    case Secret(name) =>
      if IsDark(ks) then Err(Dark)
      else if name in down then Err(Unavailable)
      else if name !in rows then Err(NotFound)
      else OpenRow(ks, rows[name])
  }

  /** The check made when an environment is applied: no unwrapping. */
  function Exists(ks: Keys, rows: Rows, down: set<string>, name: string): Option<Error> {
    if IsDark(ks) then Some(Dark)
    else if ValidateName(name).Some? then Some(BadRef(ValidateName(name).value))
    else if name in down then Some(Unavailable)
    else if name !in rows then Some(NotFound)
    else None
  }

  function ValidateValue(ks: Keys, rows: Rows, down: set<string>, value: string): Option<Error> {
    match ParseRef(value)
    case Broken(e) => Some(BadRef(e))
    case Text => None
    case Secret(name) => Exists(ks, rows, down, name)
  }

  /** What passes the check resolves, except for rows the keys do not read; and
      nothing else resolves. */
  lemma ResolvesIffValidAndReadable(ks: Keys, rows: Rows, down: set<string>, value: string)
    requires KeysOk(ks)
    ensures ResolveValue(ks, rows, down, value).Ok? <==>
            ValidateValue(ks, rows, down, value).None? &&
            (ParseRef(value).Secret? ==>
               var row := rows[ParseRef(value).name]; Reads(ks, row.cipher.key, row.keyId))
  {
    ParseInvertsToken(value, TrimPrefix(value, PREFIX));
    if ParseRef(value).Secret? && !IsDark(ks) && ParseRef(value).name in rows {
      OpensExactly(ks, rows[ParseRef(value).name]);
    }
  }

  // ----- storing and deleting -----

  function PutRefusal(ks: Keys, name: string, plain: string, nonce: Option<string>, up: bool): Option<Error> {
    if IsDark(ks) then Some(Dark)
    else if ValidateName(name).Some? then Some(BadName(ValidateName(name).value))
    else if |plain| > MAX_PLAINTEXT then Some(TooLarge)
    else if Seal(ks.key, nonce, plain).Err? then Some(Seal(ks.key, nonce, plain).error)
    else if !up then Some(Unavailable)
    else None
  }

  function SealedRow(ks: Keys, name: string, plain: string, nonce: string, now: int): Row {
    Row(name, Blob(ks.key, nonce, plain), ks.keyId, |plain|, now)
  }

  function DeleteRefusal(ks: Keys, rows: Rows, name: string, up: bool): Option<Error> {
    if IsDark(ks) then Some(Dark)
    else if ValidateName(name).Some? then Some(BadName(ValidateName(name).value))
    else if !up then Some(Unavailable)
    else if name !in rows then Some(NotFound)
    else None
  }

  // ----- what storing and deleting do -----

  /** A value is stored exactly when there is a key, the name is well formed, the
      value is not too long, and randomness and store are there. */
  lemma PutSucceedsIff(ks: Keys, name: string, plain: string, nonce: Option<string>, up: bool)
    requires KeysOk(ks)
    ensures PutRefusal(ks, name, plain, nonce, up).None? <==>
            ks.key != "" && WellFormed(name) && |plain| <= 65536 && nonce.Some? && up
  {
    ValidMeansWellFormed(name);
  }

  /** And then its token resolves to it. */
  lemma PutThenResolve(ks: Keys, rows: Rows, name: string, plain: string, nonce: string, now: int, down: set<string>)
    requires KeysOk(ks) && PutRefusal(ks, name, plain, Some(nonce), true).None? && name !in down
    ensures ResolveValue(ks, rows[name := SealedRow(ks, name, plain, nonce, now)], down, Token(name)) == Ok(plain)
    ensures ViewOf(SealedRow(ks, name, plain, nonce, now)) == View(name, "secret." + name, |plain|, ks.keyId)
    ensures SealedRow(ks, name, plain, nonce, now).updatedAt == now
  {
    ValidMeansWellFormed(name);
    ParseInvertsToken(Token(name), name);
  }

  /** A secret that is there can be deleted, by a well-formed name, and then its token
      no longer resolves; one that is not there is reported. */
  lemma DeleteThenResolve(ks: Keys, rows: Rows, name: string, down: set<string>)
    requires ks.key != "" && WellFormed(name)
    ensures DeleteRefusal(ks, rows, name, true) == if name in rows then None else Some(NotFound)
    ensures DeleteRefusal(ks, rows, name, false) == Some(Unavailable)
    ensures name !in down ==> ResolveValue(ks, rows - {name}, down, Token(name)) == Err(NotFound)
  {
    ValidMeansWellFormed(name);
    ParseInvertsToken(Token(name), name);
  }

  lemma NoKeyNoSecrets(ks: Keys, rows: Rows, name: string, plain: string, nonce: Option<string>, up: bool)
    requires ks.key == ""
    ensures PutRefusal(ks, name, plain, nonce, up) == Some(Dark) && DeleteRefusal(ks, rows, name, up) == Some(Dark)
  {
  }

  /** A configuration is accepted exactly when its keys have 32 bytes, or there is no
      key at all; the keys are then those given, under the id given or the
      default one. */
  lemma ConfiguredKeysAre(cfg: Keys, defaultId: Key -> string)
    ensures var r := Configured(cfg, defaultId);
            (r.Ok? <==> cfg.key == "" || (|cfg.key| == 32 && (cfg.prevKey == "" || |cfg.prevKey| == 32))) &&
            (r.Ok? ==>
               r.value.key == cfg.key &&
               (cfg.key != "" ==>
                  r.value.prevKey == cfg.prevKey && r.value.prevId == cfg.prevId &&
                  r.value.keyId == if cfg.keyId != "" then cfg.keyId else defaultId(cfg.key)))
  {
  }

  /** The catalog entry of a row: nothing of the value but its length. */
  datatype View = View(name: string, token: string, length: nat, keyId: string)

  function ViewOf(row: Row): View {
    View(row.name, Token(row.name), row.length, row.keyId)
  }

  class Persistence {
    var rows: Rows

    constructor ()
      ensures rows == map[]
    {
      rows := map[];
    }
  }

  class Module {
    const keys: Keys
    const persist: Persistence?

    predicate Valid() {
      KeysOk(keys) && (persist == null ==> IsDark(keys))
    }

    constructor (keys: Keys, persist: Persistence?)
      requires KeysOk(keys) && (persist == null ==> IsDark(keys))
      ensures Valid() && this.keys == keys && this.persist == persist
    {
      this.keys := keys;
      this.persist := persist;
    }

    static method New(cfg: Keys, persist: Persistence?, defaultId: Key -> string) returns (r: Result<Module, Error>)
      requires forall k :: defaultId(k) != ""
      ensures r.Ok? <==> Configured(cfg, defaultId).Ok? && (persist == null ==> cfg.key == "")
      ensures r.Ok? ==> fresh(r.value) && r.value.Valid() && Ok(r.value.keys) == Configured(cfg, defaultId)
      ensures r.Ok? ==> r.value.persist == if cfg.key == "" then null else persist
      ensures r.Err? ==> r.error == if persist == null then NoPersist else KeyLength
    {
      if cfg.key == "" {
        var dark := new Module(NO_KEYS, null);
        return Ok(dark);
      }
      if persist == null {
        return Err(NoPersist);
      }
      if |cfg.key| != KEY_SIZE {
        return Err(KeyLength);
      }
      var id := cfg.keyId;
      if id == "" {
        id := defaultId(cfg.key);
      }
      if cfg.prevKey != "" && |cfg.prevKey| != KEY_SIZE {
        return Err(KeyLength);
      }
      var m := new Module(Keys(cfg.key, id, cfg.prevKey, cfg.prevId), persist);
      return Ok(m);
    }

    /** The result is the public token and the catalog entry. */
    method Put(name: string, plain: string, nonce: Option<string>, now: int, up: bool)
        returns (r: Result<(string, View), Error>)
      requires Valid()
      modifies if persist == null then {} else {persist}
      ensures r == (var e := PutRefusal(keys, name, plain, nonce, up);
                    if e.Some? then Err(e.value) else Ok((Token(name), View(name, Token(name), |plain|, keys.keyId))))
      ensures persist != null ==>
                persist.rows ==
                if r.Ok? then old(persist.rows)[name := SealedRow(keys, name, plain, nonce.value, now)]
                else old(persist.rows)
    {
      if IsDark(keys) {
        return Err(Dark);
      }
      var bad := ValidateName(name);
      if bad.Some? {
        return Err(BadName(bad.value));
      }
      if |plain| > MAX_PLAINTEXT {
        return Err(TooLarge);
      }
      var sealed := Seal(keys.key, nonce, plain);
      if sealed.Err? {
        return Err(sealed.error);
      }
      if !up {
        return Err(Unavailable);
      }
      var row := Row(name, sealed.value, keys.keyId, |plain|, now);
      persist.rows := persist.rows[name := row];
      return Ok((Token(name), ViewOf(row)));
    }

    method Delete(name: string, up: bool) returns (e: Option<Error>)
      requires Valid()
      modifies if persist == null then {} else {persist}
      ensures e == DeleteRefusal(keys, if persist == null then map[] else old(persist.rows), name, up)
      ensures persist != null ==>
                persist.rows == if e.None? then old(persist.rows) - {name} else old(persist.rows)
    {
      if IsDark(keys) {
        return Some(Dark);
      }
      var bad := ValidateName(name);
      if bad.Some? {
        return Some(BadName(bad.value));
      }
      if !up {
        return Some(Unavailable);
      }
      if name !in persist.rows {
        return Some(NotFound);
      }
      persist.rows := persist.rows - {name};
      return None;
    }

    /** What the persisted rows look like from this module. */
    function Rows(): Rows
      reads if persist == null then {} else {persist}
    {
      if persist == null then map[] else persist.rows
    }

    /** All or nothing: a map is returned only when every value resolves, with
        the same keys; otherwise the error of one of its values. The keys are
        visited in an arbitrary order. */
    method ResolveMap(env: map<string, string>, down: set<string>)
        returns (r: Result<map<string, string>, (string, Error)>)
      requires Valid()
      ensures r.Ok? <==> forall k | k in env :: ResolveValue(keys, Rows(), down, env[k]).Ok?
      ensures r.Ok? ==> r.value.Keys == env.Keys &&
                        forall k | k in env :: Ok(r.value[k]) == ResolveValue(keys, Rows(), down, env[k])
      ensures r.Err? ==> r.error.0 in env && ResolveValue(keys, Rows(), down, env[r.error.0]) == Err(r.error.1)
    {
      var out: map<string, string> := map[];
      var left := env.Keys;
      while left != {}
        invariant left <= env.Keys && out.Keys == env.Keys - left
        invariant forall k | k in out :: Ok(out[k]) == ResolveValue(keys, Rows(), down, env[k])
      {
        var k :| k in left;
        var plain := ResolveValue(keys, Rows(), down, env[k]);
        if plain.Err? {
          return Err((k, plain.error));
        }
        out := out[k := plain.value];
        left := left - {k};
      }
      return Ok(out);
    }
  }
}
