/** Whole histories of secrets: puts, deletes and restarts under new wrap keys,
    against a book of what was last put under which generation of keys. */
module SecretRuns {
  import opened Prelude
  import opened SecretRefs
  import opened Secrets

  datatype Event =
    | PutEvent(name: string, plain: string, nonce: Option<string>, now: int, up: bool)
    | DeleteEvent(name: string, up: bool)
    | RestartEvent(cfg: Keys)

  datatype Written = Written(plain: string, gen: nat)

  /** The keys of every generation, the current one last; the persisted rows; and
      what a reader should get: the last value put under each name and the
      generation that sealed it. */
  datatype World = World(gens: seq<Keys>, rows: Rows, book: map<string, Written>)

  const START := World([NO_KEYS], map[], map[])

  function Now(w: World): Keys
    requires w.gens != []
  {
    w.gens[|w.gens| - 1]
  }

  /** A restart that New refuses, or with unchanged keys, starts no generation. */
  function Restarted(w: World, r: Result<Keys, Error>): World
    requires w.gens != []
  {
    if r.Err? || r.value == Now(w) then w else w.(gens := w.gens + [r.value])
  }

  function Next(w: World, e: Event, defaultId: Key -> string): (v: World)
    requires w.gens != []
    ensures w.gens <= v.gens
  {
    match e
    case PutEvent(name, plain, nonce, now, up) =>
      if PutRefusal(Now(w), name, plain, nonce, up).Some? then w
      else
        w.(rows := w.rows[name := SealedRow(Now(w), name, plain, nonce.value, now)],
           book := w.book[name := Written(plain, |w.gens| - 1)])
    case DeleteEvent(name, up) =>
      if DeleteRefusal(Now(w), w.rows, name, up).Some? then w
      else w.(rows := w.rows - {name}, book := w.book - {name})
    case RestartEvent(cfg) => Restarted(w, Configured(cfg, defaultId))
  }

  function Run(w: World, es: seq<Event>, defaultId: Key -> string): (v: World)
    requires w.gens != []
    ensures w.gens <= v.gens
    decreases |es|
  {
    if es == [] then w else Run(Next(w, es[0], defaultId), es[1..], defaultId)
  }

  /** The row is what its entry in the book says was sealed. */
  predicate Matches(w: World, n: string)
    requires n in w.rows && n in w.book
  {
    var b, row := w.book[n], w.rows[n];
    b.gen < |w.gens| && !IsDark(w.gens[b.gen]) &&
    row.cipher.key == w.gens[b.gen].key && row.keyId == w.gens[b.gen].keyId && row.cipher.plain == b.plain
  }

  predicate Sound(w: World) {
    w.gens != [] && w.gens[0] == NO_KEYS && (forall i | 0 <= i < |w.gens| :: KeysOk(w.gens[i])) &&
    w.rows.Keys == w.book.Keys &&
    (forall n | n in w.book :: n in w.rows && Matches(w, n))
  }

  lemma NextIsSound(w: World, e: Event, defaultId: Key -> string)
    requires Sound(w) && forall k :: defaultId(k) != ""
    ensures Sound(Next(w, e, defaultId))
  {
    var v := Next(w, e, defaultId);
    assert KeysOk(Now(w));
    forall n | n in v.book ensures n in v.rows && Matches(v, n) {
      if n in w.book {
        assert Matches(w, n);
      }
    }
  }

  lemma {:induction false} RunIsSound(w: World, es: seq<Event>, defaultId: Key -> string)
    requires Sound(w) && forall k :: defaultId(k) != ""
    ensures Sound(Run(w, es, defaultId))
    decreases |es|
  {
    if es != [] {
      NextIsSound(w, es[0], defaultId);
      RunIsSound(Next(w, es[0], defaultId), es[1..], defaultId);
    }
  }

  predicate Readable(w: World, n: string)
    requires Sound(w) && n in w.book
  {
    var sealing := w.gens[w.book[n].gen];
    assert Matches(w, n);
    Reads(Now(w), sealing.key, sealing.keyId)
  }

  /** What resolving the token of n gives in a sound world. */
  lemma Resolves(w: World, down: set<string>, n: string)
    requires Sound(w) && WellFormed(n)
    ensures var r := ResolveValue(Now(w), w.rows, down, Token(n));
            if IsDark(Now(w)) then r == Err(Dark)
            else if n in down then r == Err(Unavailable)
            else if n !in w.book then r == Err(NotFound)
            else if Readable(w, n) then r == Ok(w.book[n].plain)
            else r.Err? && r.error in {OpenFailed, UnknownKeyId(w.rows[n].keyId)}
  {
    ParseInvertsToken(Token(n), n);
    if n in w.book {
      assert Matches(w, n);
      assert KeysOk(Now(w));
      if !IsDark(Now(w)) {
        OpensExactly(Now(w), w.rows[n]);
      }
    }
  }

  /** After any history at all, under any sequence of keys, a token never
      resolves to anything but the value last put under its name and not deleted
      since. */
  lemma NeverAWrongValue(es: seq<Event>, defaultId: Key -> string, down: set<string>, n: string)
    requires WellFormed(n) && forall k :: defaultId(k) != ""
    ensures var w := Run(START, es, defaultId);
            var r := ResolveValue(Now(w), w.rows, down, Token(n));
            (r.Ok? ==> n in w.book && r.value == w.book[n].plain) &&
            (n !in w.book && !IsDark(Now(w)) && n !in down ==> r == Err(NotFound))
  {
    RunIsSound(START, es, defaultId);
    Resolves(Run(START, es, defaultId), down, n);
  }

  // ----- rotation -----

  /** Each generation has a key of its own, names the key before it as previous,
      and has another id than the generation before it. Generation 0 is the time
      before the first key. */
  predicate Rotated(gens: seq<Keys>) {
    (forall i | 0 < i < |gens| :: !IsDark(gens[i])) &&
    (forall i, j | 0 < i < j < |gens| :: gens[i].key != gens[j].key) &&
    (forall i, j | 0 < i < |gens| && j == i + 1 < |gens| ::
       gens[j].prevKey == gens[i].key && gens[j].keyId != gens[i].keyId)
  }

  /** Under proper rotation a value is readable in the generation that sealed it
      and the next, and in no later one. */
  lemma ReadableIffLastTwoGenerations(w: World, n: string)
    requires Sound(w) && Rotated(w.gens) && n in w.book
    ensures Readable(w, n) <==> |w.gens| <= w.book[n].gen + 2
  {
    assert Matches(w, n);
    assert KeysOk(w.gens[w.book[n].gen]) && KeysOk(Now(w));
    LastTwoRead(w.gens, w.book[n].gen);
  }

  lemma LastTwoRead(gens: seq<Keys>, g: nat)
    requires Rotated(gens) && 0 < g < |gens| && gens[g].keyId != ""
    ensures Reads(gens[|gens| - 1], gens[g].key, gens[g].keyId) <==> |gens| <= g + 2
  {
    var last := |gens| - 1;
    assert !IsDark(gens[g]);
    if g < last {
      var j := last - 1;
      assert gens[j + 1].prevKey == gens[j].key;
    }
  }

  /** After any history of puts, deletes and proper rotations: the last value put
      if it was sealed under the current or the previous key, not found after a
      delete, and an error if two or more rotations lie between. */
  lemma ResolveAfterRotations(es: seq<Event>, defaultId: Key -> string, n: string)
    requires WellFormed(n) && (forall k :: defaultId(k) != "")
    requires var w := Run(START, es, defaultId); |w.gens| > 1 && Rotated(w.gens)
    ensures var w := Run(START, es, defaultId);
            var r := ResolveValue(Now(w), w.rows, {}, Token(n));
            if n !in w.book then r == Err(NotFound)
            else if |w.gens| <= w.book[n].gen + 2 then r == Ok(w.book[n].plain)
            else r.Err? && r.error != NotFound
  {
    var w := Run(START, es, defaultId);
    RunIsSound(START, es, defaultId);
    Resolves(w, {}, n);
    if n in w.book {
      ReadableIffLastTwoGenerations(w, n);
    }
  }

  /** One rotation to a new key that names the old one as previous keeps a
      value of the current generation readable exactly when it also takes a new
      id: under a shared id the previous key is never tried. */
  lemma RotationKeepsIffNewId(w: World, ks: Keys, n: string)
    requires Sound(w) && n in w.book && w.book[n].gen == |w.gens| - 1
    requires KeysOk(ks) && !IsDark(ks) && ks.key != Now(w).key && ks.prevKey == Now(w).key
    ensures var v := Restarted(w, Ok(ks));
            Sound(v) && (Readable(v, n) <==> ks.keyId != Now(w).keyId)
  {
    var v := Restarted(w, Ok(ks));
    assert Matches(w, n);
    forall m | m in v.book ensures Matches(v, m) {
      assert Matches(w, m);
    }
  }

  /** A new id for an unchanged key makes every value unreadable, unless the key
      is also named as the previous one. */
  lemma RelabelKeepsIffKeyIsPrevious(w: World, ks: Keys, n: string)
    requires Sound(w) && n in w.book && w.book[n].gen == |w.gens| - 1
    requires KeysOk(ks) && ks.key == Now(w).key && ks.keyId != Now(w).keyId
    ensures var v := Restarted(w, Ok(ks));
            Sound(v) && (Readable(v, n) <==> ks.prevKey == ks.key)
  {
    var v := Restarted(w, Ok(ks));
    assert Matches(w, n);
    assert KeysOk(Now(w));
    forall m | m in v.book ensures Matches(v, m) {
      assert Matches(w, m);
    }
  }

  // ----- a history that loses a value -----

  function TestKey(c: char): Key {
    seq(KEY_SIZE, _ => c)
  }

  /** Rotation with the id kept: the value is there, the previous key would open
      it, and the token does not resolve. */
  lemma SharedIdLosesAValue(defaultId: Key -> string)
    ensures var w1 := Next(START, RestartEvent(Keys(TestKey('a'), "k", "", "")), defaultId);
            var w2 := Next(w1, PutEvent("n", "v", Some(""), 0, true), defaultId);
            var w := Next(w2, RestartEvent(Keys(TestKey('b'), "k", TestKey('a'), "k")), defaultId);
            "n" in w.book && "n" in w.rows && Open(Now(w).prevKey, w.rows["n"].cipher) == Ok("v") &&
            ResolveValue(Now(w), w.rows, {}, Token("n")) == Err(OpenFailed)
  {
    var k1 := Keys(TestKey('a'), "k", "", "");
    var k2 := Keys(TestKey('b'), "k", TestKey('a'), "k");
    assert k1.key[0] == 'a' && k2.key[0] == 'b';
    ParseInvertsToken(Token("n"), "n");
    ValidMeansWellFormed("n");
    var w1 := Next(START, RestartEvent(k1), defaultId);
    assert w1.gens == [NO_KEYS, k1];
    var w2 := Next(w1, PutEvent("n", "v", Some(""), 0, true), defaultId);
    assert w2.rows["n"] == SealedRow(k1, "n", "v", "", 0);
    var w := Next(w2, RestartEvent(k2), defaultId);
    assert Now(w) == k2;
  }
}
