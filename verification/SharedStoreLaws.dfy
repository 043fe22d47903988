/** What the shared-file operations guarantee: over every run for the live
    links, and exactly for the collector. */
module SharedStoreLaws {
  import opened Prelude
  import opened Digests
  import opened Retention
  import opened SharedDisk
  import P = Paths

  // ----- the invariant of every run -----

  /** Every blob of that name is in the directory named by its own hash. */
  predicate Addressed(hash: HashFn, d: Disk, name: string) {
    forall p | p in d.files && p.name == name :: hash(d.files[p].content) == p.dir
  }

  /** The link of that name, if there is one, points at a present blob of that
      name, whose hash is the digest in the link. */
  predicate Resolves(hash: HashFn, d: Disk, name: string) {
    name in d.links ==>
      var target := d.links[name];
      target.name == name && target in d.files && hash(d.files[target].content) == target.dir
  }

  predicate Sound(hash: HashFn, d: Disk, name: string) {
    Addressed(hash, d, name) && Resolves(hash, d, name)
  }

  datatype Op =
    | Ensure(name: string, digest: string, env: FetchEnv)
    | Switch(name: string, digest: string, end: LinkEnd)
    | RemoveLink(name: string, removed: bool)
    | GC(retention: int, keepNames: set<string>)

  function Apply(hash: HashFn, d: Disk, op: Op): Disk {
    match op
    case Ensure(name, digest, env) => AfterEnsure(hash, d, name, digest, env).0
    case Switch(name, digest, end) => AfterSwitch(d, name, digest, end).0
    case RemoveLink(name, removed) => AfterRemoveLink(d, name, removed).0
    case GC(retention, keepNames) => AfterGC(d, retention, keepNames)
  }

  /** What the operations ask of their callers for the link of one name: digests
      that name one directory, and collections that keep the name while it is
      linked. Nothing is asked of other names. */
  predicate Allowed(d: Disk, name: string, op: Op) {
    match op
    case Ensure(_, digest, _) => digest != "" ==> PlainComponent(DigestDirName(digest))
    case Switch(_, digest, _) => PlainComponent(DigestDirName(digest))
    case RemoveLink(_, _) => true
    case GC(_, keepNames) => name in d.links ==> name in keepNames
  }

  predicate AllowedRun(hash: HashFn, d: Disk, name: string, ops: seq<Op>)
    decreases |ops|
  {
    ops == [] || (Allowed(d, name, ops[0]) && AllowedRun(hash, Apply(hash, d, ops[0]), name, ops[1..]))
  }

  function Run(hash: HashFn, d: Disk, ops: seq<Op>): Disk
    decreases |ops|
  {
    if ops == [] then d else Run(hash, Apply(hash, d, ops[0]), ops[1..])
  }

  const EMPTY := Disk({}, map[], map[])

  /** No other path of the store collides with the name: it is not the partial
      download, the sidecar or the temporary link of another valid name, and the
      sweep does not take it for one. */
  predicate SafeName(name: string) {
    !HasSuffix(name, PARTIAL) &&
    (HasSuffix(name, FETCHED_AT) ==> NamesDirectory(TrimSuffix(name, FETCHED_AT))) &&
    (HasSuffix(name, TMP) ==> !ValidName(TrimSuffix(name, TMP)))
  }

  /** The valid names with a reserved suffix that are safe all the same: their
      stem is no valid name. */
  predicate IsException(name: string) {
    name == FETCHED_AT || name == "." + FETCHED_AT || name == ".." + FETCHED_AT ||
    name == TMP || name == "." + TMP || name == ".." + TMP || name == "store" + TMP
  }

  lemma StemDecides(name: string, stem: string, suffix: string)
    requires HasSuffix(name, suffix)
    ensures TrimSuffix(name, suffix) == stem <==> name == stem + suffix
  {
  }

  lemma OneSuffix(name: string)
    requires name != ""
    ensures !(HasSuffix(name, FETCHED_AT) && HasSuffix(name, PARTIAL))
    ensures !(HasSuffix(name, TMP) && IsAux(name))
  {
    var last := |name| - 1;
    assert HasSuffix(name, FETCHED_AT) ==> name[last] == FETCHED_AT[|FETCHED_AT| - 1];
    assert HasSuffix(name, PARTIAL) ==> name[last] == PARTIAL[|PARTIAL| - 1];
    assert HasSuffix(name, TMP) ==> name[last] == TMP[|TMP| - 1];
  }

  lemma SafeNamesAre(name: string)
    requires ValidName(name)
    ensures SafeName(name) <==> (!IsAux(name) && !HasSuffix(name, TMP)) || IsException(name)
  {
    OneSuffix(name);
    SuffixedExceptions(name);
    if HasSuffix(name, FETCHED_AT) {
      StemsOfFetchedAt(name);
    } else if HasSuffix(name, TMP) {
      StemsOfTmp(name);
    }
  }

  lemma SuffixedExceptions(name: string)
    ensures IsException(name) ==> HasSuffix(name, FETCHED_AT) || HasSuffix(name, TMP)
  {
    SuffixOfConcat(".", FETCHED_AT);
    SuffixOfConcat("..", FETCHED_AT);
    SuffixOfConcat(".", TMP);
    SuffixOfConcat("..", TMP);
    SuffixOfConcat("store", TMP);
  }

  lemma StemsOfFetchedAt(name: string)
    requires HasSuffix(name, FETCHED_AT) && !HasSuffix(name, TMP)
    ensures NamesDirectory(TrimSuffix(name, FETCHED_AT)) <==> IsException(name)
  {
    StemDecides(name, "", FETCHED_AT);
    StemDecides(name, ".", FETCHED_AT);
    StemDecides(name, "..", FETCHED_AT);
    assert "" + FETCHED_AT == FETCHED_AT;
    SuffixOfConcat("", TMP);
    SuffixOfConcat(".", TMP);
    SuffixOfConcat("..", TMP);
    SuffixOfConcat("store", TMP);
    assert "" + TMP == TMP;
  }

  lemma StemsOfTmp(name: string)
    requires ValidName(name) && HasSuffix(name, TMP) && !HasSuffix(name, FETCHED_AT)
    ensures !ValidName(TrimSuffix(name, TMP)) <==> IsException(name)
  {
    var stem := TrimSuffix(name, TMP);
    assert forall c | c in stem :: c in name;
    StemDecides(name, "", TMP);
    StemDecides(name, ".", TMP);
    StemDecides(name, "..", TMP);
    StemDecides(name, "store", TMP);
    assert "" + TMP == TMP;
    SuffixOfConcat("", FETCHED_AT);
    SuffixOfConcat(".", FETCHED_AT);
    SuffixOfConcat("..", FETCHED_AT);
    assert "" + FETCHED_AT == FETCHED_AT;
  }

  /** Safety over whole runs: however fetches and links fail, are cancelled or
      are killed, and whatever other names are used, the link of a safe name
      points at a present blob of that name whose hash is the digest in the
      link. */
  lemma LiveLinksResolve(hash: HashFn, ops: seq<Op>, name: string)
    requires SafeName(name) && AllowedRun(hash, EMPTY, name, ops) && name in Run(hash, EMPTY, ops).links
    ensures var d := Run(hash, EMPTY, ops);
            var target := d.links[name];
            target.name == name && target in d.files && hash(d.files[target].content) == target.dir &&
            RunningDigest(d, name) == "sha256:" + hash(d.files[target].content)
  {
    RunIsSound(hash, EMPTY, name, ops);
  }

  lemma {:induction false} RunIsSound(hash: HashFn, d: Disk, name: string, ops: seq<Op>)
    requires SafeName(name) && Sound(hash, d, name) && AllowedRun(hash, d, name, ops)
    ensures Sound(hash, Run(hash, d, ops), name)
    decreases |ops|
  {
    if ops != [] {
      ApplyIsSound(hash, d, name, ops[0]);
      RunIsSound(hash, Apply(hash, d, ops[0]), name, ops[1..]);
    }
  }

  lemma ApplyIsSound(hash: HashFn, d: Disk, name: string, op: Op)
    requires SafeName(name) && Sound(hash, d, name) && Allowed(d, name, op)
    ensures Sound(hash, Apply(hash, d, op), name)
  {
    match op
    case Ensure(other, digest, env) => EnsureIsSound(hash, d, name, other, digest, env);
    case Switch(other, digest, end) => SwitchIsSound(hash, d, name, other, digest, end);
    case RemoveLink(other, removed) => RemoveLinkIsSound(hash, d, name, other, removed);
    case GC(retention, keepNames) => GCIsSound(hash, d, name, retention, keepNames);
  }

  lemma SwitchIsSound(hash: HashFn, d: Disk, name: string, other: string, digest: string, end: LinkEnd)
    requires SafeName(name) && Sound(hash, d, name)
    ensures Sound(hash, AfterSwitch(d, other, digest, end).0, name)
  {
    SuffixOfConcat(other, TMP);
  }

  lemma RemoveLinkIsSound(hash: HashFn, d: Disk, name: string, other: string, removed: bool)
    requires Sound(hash, d, name)
    ensures Sound(hash, AfterRemoveLink(d, other, removed).0, name)
  {
  }

  /** Only the blob path of a safe name belongs to that name. */
  lemma SafeIsNotAux(name: string, dest: Path)
    requires SafeName(name) && ValidName(dest.name)
    ensures Partial(dest).name != name && Sidecar(dest).name != name
  {
    SuffixOfConcat(dest.name, PARTIAL);
    SuffixOfConcat(dest.name, FETCHED_AT);
  }

  lemma EnsureIsSound(hash: HashFn, d: Disk, name: string, other: string, digest: string, env: FetchEnv)
    requires SafeName(name) && Sound(hash, d, name)
    ensures Sound(hash, AfterEnsure(hash, d, other, digest, env).0, name)
  {
    var (after, outcome) := AfterEnsure(hash, d, other, digest, env);
    var dest := Path(DigestDirName(digest), other);
    forall p: Path | p.name == name && ValidName(other) ensures p != Partial(dest) && p != Sidecar(dest) {
      SafeIsNotAux(name, dest);
    }
    EnsureInstallsOrChangesNothing(hash, d, other, digest, env);
    forall p | p in after.files && p.name == name ensures hash(after.files[p].content) == p.dir {
      if p == dest && outcome == Done {
        MatchNamesDirectory(hash(after.files[p].content), digest);
      }
    }
  }

  /** EnsureSharedFile reports success only when the verified blob is present,
      changes no blob when it fails, and touches no path but those of its blob. */
  lemma EnsureInstallsOrChangesNothing(hash: HashFn, d: Disk, name: string, digest: string, env: FetchEnv)
    ensures var (after, outcome) := AfterEnsure(hash, d, name, digest, env);
            var dest := Path(DigestDirName(digest), name);
            (outcome == Done ==> ValidName(name) && Verified(hash, after, dest, digest)) &&
            (outcome != Done || Verified(hash, d, dest, digest) ==> SameAt(d, after, dest)) &&
            (forall p | p != dest && p != Partial(dest) && p != Sidecar(dest) :: SameAt(d, after, p)) &&
            (!ValidName(name) || digest == "" ==> after == d) && after.links == d.links
  {
    var dest := Path(DigestDirName(digest), name);
    assert |Partial(dest).name| > |name| && |Sidecar(dest).name| > |name|;
  }

  predicate SameAt(d: Disk, after: Disk, p: Path) {
    (p in after.files <==> p in d.files) && (p in d.files ==> after.files[p] == d.files[p])
  }

  lemma LiveDirIsTarget(hash: HashFn, d: Disk, name: string)
    requires Resolves(hash, d, name) && name in d.links
    ensures LiveDir(d, name) == d.links[name].dir
  {
    var dir := d.links[name].dir;
    HexIsLower(hash(d.files[d.links[name]].content));
    ToLowerConcat("sha256:", dir);
    assert ToLower("sha256:") == "sha256:";
  }

  lemma LiveIsKept(hash: HashFn, d: Disk, name: string, retention: int, keepNames: set<string>)
    requires Resolves(hash, d, name) && name in d.links && name in keepNames && !IsAux(name)
    ensures Keeps(d, retention, keepNames, d.links[name])
  {
    LiveDirIsTarget(hash, d, name);
  }

  lemma GCIsSound(hash: HashFn, d: Disk, name: string, retention: int, keepNames: set<string>)
    requires SafeName(name) && Sound(hash, d, name) && (name in d.links ==> name in keepNames)
    ensures Sound(hash, AfterGC(d, retention, keepNames), name)
  {
    if name in d.links {
      GCSafeIffLinkedNamesKept(hash, d, name, retention, keepNames);
    }
  }

  /** The condition on keepNames is exact: a collection leaves the link of a safe
      name resolving if and only if it keeps the name (or never lists it). */
  lemma GCSafeIffLinkedNamesKept(hash: HashFn, d: Disk, name: string, retention: int, keepNames: set<string>)
    requires SafeName(name) && Sound(hash, d, name) && name in d.links
    ensures Resolves(hash, AfterGC(d, retention, keepNames), name) <==> name in keepNames || IsAux(name)
  {
    if !IsAux(name) && name in keepNames {
      LiveIsKept(hash, d, name, retention, keepNames);
    }
  }

  lemma {:induction false} RunIsWellFormed(hash: HashFn, d: Disk, name: string, ops: seq<Op>)
    requires WellFormed(d) && AllowedRun(hash, d, name, ops)
    ensures WellFormed(Run(hash, d, ops))
    decreases |ops|
  {
    if ops != [] {
      var after := Apply(hash, d, ops[0]);
      if ops[0].Ensure? {
        EnsureIsWellFormed(hash, d, ops[0].name, ops[0].digest, ops[0].env);
      }
      RunIsWellFormed(hash, after, name, ops[1..]);
    }
  }

  lemma EnsureIsWellFormed(hash: HashFn, d: Disk, name: string, digest: string, env: FetchEnv)
    requires WellFormed(d) && (digest != "" ==> PlainComponent(DigestDirName(digest)))
    ensures WellFormed(AfterEnsure(hash, d, name, digest, env).0)
  {
    var after := AfterEnsure(hash, d, name, digest, env).0;
    var dest := Path(DigestDirName(digest), name);
    EnsureInstallsOrChangesNothing(hash, d, name, digest, env);
    assert |Partial(dest).name| > 2 && |Sidecar(dest).name| > 2;
    forall p | p in after.files ensures p.dir in after.dirs && !NamesDirectory(p.name) {
      if p != dest && p != Partial(dest) && p != Sidecar(dest) {
        assert SameAt(d, after, p);
      }
    }
  }

  // ----- which names are safe, exactly -----

  /** A valid name is safe if and only if in every run that respects it its link
      resolves to a blob of its own. */
  lemma NameIsSafeIff(hash: HashFn, name: string)
    requires ValidName(name)
    ensures SafeName(name) <==>
            forall ops | AllowedRun(hash, EMPTY, name, ops) :: Resolves(hash, Run(hash, EMPTY, ops), name)
  {
    if SafeName(name) {
      forall ops | AllowedRun(hash, EMPTY, name, ops) ensures Resolves(hash, Run(hash, EMPTY, ops), name) {
        RunIsSound(hash, EMPTY, name, ops);
      }
    } else {
      var ops := BreakingRun(hash, name, Data([]));
    }
  }

  function Landing(c: Content): FetchEnv {
    FetchEnv(Some(c), Completed, true, 0, None)
  }

  function Stored(hash: HashFn, name: string, c: Content): Path {
    Path(hash(c), name)
  }

  /** One blob and one link to it. */
  function Linked(hash: HashFn, name: string, c: Content, link: string): Disk {
    Disk({hash(c)}, map[Stored(hash, name, c) := File(c, 0)], map[link := Stored(hash, name, c)])
  }

  /** For every unsafe valid name a run from the empty store breaks its link. A
      name the sweep takes for a partial or a sidecar is installed, linked and
      collected; a temporary link's name appears when its owner is switched and
      the agent is killed before the rename. */
  lemma BreakingRun(hash: HashFn, name: string, c: Content) returns (ops: seq<Op>)
    requires ValidName(name) && !SafeName(name)
    ensures AllowedRun(hash, EMPTY, name, ops) && !Resolves(hash, Run(hash, EMPTY, ops), name)
  {
    var digest := "sha256:" + hash(c);
    if IsAux(name) {
      var gc := GC(1, {name});
      ops := [Ensure(name, digest, Landing(c)), Switch(name, digest, Renamed), gc];
      InstallAndLink(hash, name, c, Renamed, name, [gc]);
      assert ops == [ops[0], ops[1]] + [gc];
      var target := Stored(hash, name, c);
      assert HasSuffix(name, FETCHED_AT) ==> |BaseName(name)| < |name|;
      OneSuffix(name);
      assert !Survives(Linked(hash, name, c, name), 1, {name}, Base(target)) || HasSuffix(name, PARTIAL);
      assert !Survives(Linked(hash, name, c, name), 1, {name}, target);
      assert [gc][1..] == [];
    } else {
      var owner := TrimSuffix(name, TMP);
      assert name == owner + TMP;
      ops := [Ensure(owner, digest, Landing(c)), Switch(owner, digest, KilledBeforeRename)];
      InstallAndLink(hash, owner, c, KilledBeforeRename, name, []);
      assert ops == [ops[0], ops[1]] + [];
    }
  }

  lemma DigestOfHash(hash: HashFn, c: Content)
    ensures var digest := "sha256:" + hash(c);
            DigestMatches(hash(c), digest) && DigestDirName(digest) == hash(c) && PlainComponent(hash(c))
  {
    MatchNamesDirectory(hash(c), "sha256:" + hash(c));
  }

  /** Install a name in the empty store and switch to it. */
  lemma InstallAndLink(hash: HashFn, name: string, c: Content, end: LinkEnd, of: string, rest: seq<Op>)
    requires ValidName(name) && end != RenameFailed
    ensures var digest := "sha256:" + hash(c);
            var ops := [Ensure(name, digest, Landing(c)), Switch(name, digest, end)] + rest;
            var d := Linked(hash, name, c, if end == Renamed then name else name + TMP);
            Run(hash, EMPTY, ops) == Run(hash, d, rest) &&
            (AllowedRun(hash, EMPTY, of, ops) <==> AllowedRun(hash, d, of, rest))
  {
    var digest := "sha256:" + hash(c);
    DigestOfHash(hash, c);
    var first, second := Ensure(name, digest, Landing(c)), Switch(name, digest, end);
    var ops := [first, second] + rest;
    var installed := Apply(hash, EMPTY, first);
    assert |Partial(Stored(hash, name, c)).name| > |name|;
    assert installed == Linked(hash, name, c, name).(links := map[]);
    var d := Linked(hash, name, c, if end == Renamed then name else name + TMP);
    assert Apply(hash, installed, second) == d;
    assert ops[0] == first && ops[1..] == [second] + rest && ops[1..][0] == second && ops[1..][1..] == rest;
  }

  /** A failed fetch takes the live blob of another name with it: for every valid
      name the blob of the name with ".partial" appended. */
  lemma ReservedSuffixCollides(hash: HashFn, name: string, c: Content, env: FetchEnv)
    requires ValidName(name) && ValidName(name + PARTIAL) && env.end == Failed
    ensures var victim, digest := name + PARTIAL, "sha256:" + hash(c);
            var ops := [Ensure(victim, digest, Landing(c)), Switch(victim, digest, Renamed), Ensure(name, digest, env)];
            AllowedRun(hash, EMPTY, victim, ops) && !Resolves(hash, Run(hash, EMPTY, ops), victim)
  {
    var victim, digest := name + PARTIAL, "sha256:" + hash(c);
    var fetch := Ensure(name, digest, env);
    DigestOfHash(hash, c);
    InstallAndLink(hash, victim, c, Renamed, victim, [fetch]);
    assert [Ensure(victim, digest, Landing(c)), Switch(victim, digest, Renamed)] + [fetch] ==
           [Ensure(victim, digest, Landing(c)), Switch(victim, digest, Renamed), fetch];
    var d := Linked(hash, victim, c, victim);
    assert |victim| > |name|;
    assert Stored(hash, victim, c) == Partial(Path(hash(c), name));
    assert Stored(hash, victim, c) !in Apply(hash, d, fetch).files;
    assert [fetch][1..] == [];
  }

  // ----- one call -----

  /** Switching is all or nothing: it takes effect exactly when the store entry is
      there and the rename succeeds, and then the running digest is the new one;
      otherwise it is the old one. No other live link and no file changes. */
  lemma SwitchIsAtomic(d: Disk, name: string, digest: string, end: LinkEnd)
    ensures var (after, outcome) := AfterSwitch(d, name, digest, end);
            var target := Path(DigestDirName(digest), name);
            (outcome == Done <==> ValidName(name) && target in d.files && end == Renamed) &&
            (outcome == Done ==> name in after.links && after.links[name] == target) &&
            (ValidName(name) ==>
               RunningDigest(after, name) ==
               if outcome == Done then "sha256:" + target.dir else RunningDigest(d, name)) &&
            (forall n | n != name && n != name + TMP :: RunningDigest(after, n) == RunningDigest(d, n)) &&
            (ValidName(name) && target in d.files ==>
               if outcome == Died then name + TMP in after.links && after.links[name + TMP] == target
               else name + TMP !in after.links) &&
            after.files == d.files && after.dirs == d.dirs
  {
    assert |name + TMP| > |name|;
  }

  /** After a removal that worked there is no running digest for the name; other
      links, and after a failed one all links, are unchanged. */
  lemma RemoveLinkStops(d: Disk, name: string, removed: bool)
    ensures var (after, outcome) := AfterRemoveLink(d, name, removed);
            (outcome == Done <==> ValidName(name) && (name in d.links ==> removed)) &&
            (outcome == Done ==> name !in after.links && RunningDigest(after, name) == "") &&
            (outcome != Done ==> after == d) &&
            (forall n | n != name :: n in after.links <==> n in d.links) &&
            (forall n | n != name && n in d.links :: after.links[n] == d.links[n]) &&
            after.files == d.files && after.dirs == d.dirs
  {
  }

  /** A name is valid exactly when, taken as a path, it is one ordinary component
      without backslash and NUL, and not the name of the store. */
  lemma ValidNameIsOneComponent(name: string)
    ensures ValidName(name) <==>
            P.Comps("/" + name) == [name] && '\\' !in name && '\0' !in name && name != "store"
  {
    P.OneComponent(name);
    assert P.NoSlash(name) <==> '/' !in name;
  }

  /** EnsureSharedFile succeeds exactly when the name is valid and a blob with the
      digest is there already, or a completed fetch left one and it was renamed. */
  lemma EnsureDoneIff(hash: HashFn, d: Disk, name: string, digest: string, env: FetchEnv)
    ensures var dest := Path(DigestDirName(digest), name);
            AfterEnsure(hash, d, name, digest, env).1 == Done <==>
            ValidName(name) && digest != "" &&
            ((dest in d.files && EqualFold("sha256:" + hash(d.files[dest].content), digest)) ||
             (env.end == Completed && env.written.Some? && env.renamed &&
              EqualFold("sha256:" + hash(env.written.value), digest)))
    ensures AfterEnsure(hash, d, name, digest, env).1 == InvalidName <==> !ValidName(name)
    ensures AfterEnsure(hash, d, name, digest, env).1 == EmptyDigest <==> ValidName(name) && digest == ""
  {
  }

  /** And after a fresh install the blob is what was fetched, and where it belongs. */
  lemma EnsureInstallsWhatWasFetched(hash: HashFn, d: Disk, name: string, digest: string, env: FetchEnv)
    requires AfterEnsure(hash, d, name, digest, env).1 == Done
    ensures var dest := Path(DigestDirName(digest), name);
            var after := AfterEnsure(hash, d, name, digest, env).0;
            dest.dir in after.dirs && dest in after.files &&
            (!Verified(hash, d, dest, digest) ==>
               env.written.Some? && after.files[dest] == File(env.written.value, env.mtime))
  {
    var dest := Path(DigestDirName(digest), name);
    assert |Partial(dest).name| > |name| && |Sidecar(dest).name| > |name|;
  }

  /** The failure that is reported is the one that happened. */
  lemma EnsureFailureMeans(hash: HashFn, d: Disk, name: string, digest: string, env: FetchEnv)
    ensures match AfterEnsure(hash, d, name, digest, env).1
            case FetchFailed => env.end == Failed
            case FetchCancelled => env.end == Cancelled
            case Died => env.end == Killed
            case Unreadable => env.end == Completed && env.written.None?
            case Mismatch =>
              env.end == Completed && env.written.Some? && !EqualFold("sha256:" + hash(env.written.value), digest)
            case InstallFailed => env.end == Completed && !env.renamed
            case _ => true
  {
  }

  /** A fetch that reported success followed by a switch runs the digest that was
      asked for, and the blob behind the link has that digest. */
  lemma EnsureThenSwitchDeploys(hash: HashFn, d: Disk, name: string, digest: string, env: FetchEnv)
    requires AfterEnsure(hash, d, name, digest, env).1 == Done
    ensures var fetched := AfterEnsure(hash, d, name, digest, env).0;
            var (after, outcome) := AfterSwitch(fetched, name, digest, Renamed);
            outcome == Done && name in after.links && after.links[name] in after.files &&
            EqualFold(RunningDigest(after, name), digest) &&
            DigestMatches(hash(after.files[after.links[name]].content), digest)
  {
    var fetched := AfterEnsure(hash, d, name, digest, env).0;
    var dest := Path(DigestDirName(digest), name);
    EnsureInstallsOrChangesNothing(hash, d, name, digest, env);
    MatchNamesDirectory(hash(fetched.files[dest].content), digest);
    SwitchIsAtomic(fetched, name, digest, Renamed);
  }

  /** Ensuring a blob that is already verified leaves every file and its rank as
      they were; a fresh install is ranked by the recorded time. Unless the
      process died in the fetch, a fetch leaves no partial download. */
  lemma EnsureRanksByInstall(hash: HashFn, d: Disk, name: string, digest: string, env: FetchEnv)
    requires ValidName(name) && digest != ""
    ensures var (after, outcome) := AfterEnsure(hash, d, name, digest, env);
            var dest := Path(DigestDirName(digest), name);
            if Verified(hash, d, dest, digest) then after.files == d.files
            else
              (outcome != Died ==> Partial(dest) !in after.files) &&
              (outcome == Done && env.stamp.Some? && env.stamp.value > 0 ==>
                 InstalledAt(after, dest) == env.stamp.value) &&
              (outcome == Done && env.stamp.None? && Sidecar(dest) !in d.files ==>
                 InstalledAt(after, dest) == env.mtime)
  {
    var dest := Path(DigestDirName(digest), name);
    assert |Partial(dest).name| > |name| && |Sidecar(dest).name| > |name|;
    SuffixOfConcat(name, PARTIAL);
    LastCharacterDecides(name + PARTIAL, FETCHED_AT);
    SuffixOfConcat(name, FETCHED_AT);
  }

  // ----- what a collection leaves, exactly -----

  lemma GCKeepsExactly(d: Disk, retention: int, keepNames: set<string>)
    requires WellFormed(d)
    ensures var after := AfterGC(d, retention, keepNames);
            WellFormed(after) &&
            (forall p: Path | !IsAux(p.name) ::
               p in after.files <==> p in d.files && Keeps(d, retention, keepNames, p)) &&
            (forall p | p in after.files :: after.files[p] == d.files[p])
  {
    var after := AfterGC(d, retention, keepNames);
    forall p: Path | !IsAux(p.name) ensures p in after.files <==> p in d.files && Keeps(d, retention, keepNames, p) {
      BaseFiles(p, p);
    }
    forall p | p in after.files ensures p.dir in after.dirs && p.dir in d.dirs {
    }
  }

  /** No partial download, no sidecar without its blob, no empty directory. */
  lemma GCLeavesNoDebris(d: Disk, retention: int, keepNames: set<string>)
    requires WellFormed(d)
    ensures var after := AfterGC(d, retention, keepNames);
            (forall p | p in after.files :: !HasSuffix(p.name, PARTIAL)) &&
            (forall p | p in after.files && HasSuffix(p.name, FETCHED_AT) ::
               Base(p) in after.files || NamesDirectory(BaseName(p.name))) &&
            (forall dir | dir in after.dirs :: exists p :: p in after.files && p.dir == dir)
  {
    forall p | Survives(d, retention, keepNames, p) ensures p in d.files {
    }
  }

  function BlobsNamed(d: Disk, name: string): set<Path> {
    set p | p in d.files && !IsAux(p.name) && p.name == name
  }

  lemma {:induction false} EntriesCard(d: Disk, name: string, ps: set<Path>)
    requires ps <= BlobsNamed(d, name)
    ensures |set p | p in ps :: p.dir| == |ps|
  {
    if ps == {} {
      assert (set p | p in ps :: p.dir) == {};
    } else {
      var q :| q in ps;
      EntriesCard(d, name, ps - {q});
      assert (set p | p in ps :: p.dir) == (set p | p in ps - {q} :: p.dir) + {q.dir};
    }
  }

  lemma {:induction false} NamesCard(d: Disk, name: string, es: set<Entry>)
    requires es <= Entries(d, name)
    ensures |set e | e in es :: e.name| == |es|
  {
    if es == {} {
      assert (set e | e in es :: e.name) == {};
    } else {
      var x :| x in es;
      NamesCard(d, name, es - {x});
      assert (set e | e in es :: e.name) == (set e | e in es - {x} :: e.name) + {x.name};
      forall e | e in es - {x} ensures e.name != x.name {
        assert e in Entries(d, name) && x in Entries(d, name);
      }
    }
  }

  /** For a desired name and positive retention the survivors are the live blob,
      when present, and as many of the others as the budget allows: never more
      than retention in all. */
  lemma GCKeepsAtMostRetention(d: Disk, retention: int, keepNames: set<string>, name: string)
    requires WellFormed(d) && retention > 0 && name in keepNames && !IsAux(name)
    ensures var live := LiveDir(d, name);
            var others := |Others(Entries(d, name), live)|;
            var budget := Budget(retention, live);
            |BlobsNamed(AfterGC(d, retention, keepNames), name)| ==
              (if Path(live, name) in d.files then 1 else 0) + (if budget < others then budget else others)
    ensures |BlobsNamed(AfterGC(d, retention, keepNames), name)| <= retention
  {
    var after := AfterGC(d, retention, keepNames);
    var live := LiveDir(d, name);
    var S := Others(Entries(d, name), live);
    var chosen := Newest(S, Budget(retention, live));
    NewestCard(S, Budget(retention, live));
    NamesCard(d, name, chosen);
    EntriesCard(after, name, BlobsNamed(after, name));
    SurvivingDirs(d, retention, keepNames, name);
    var names := set e | e in chosen :: e.name;
    var liveDirs := if Path(live, name) in d.files then {live} else {};
    assert live !in names;
    assert |names + liveDirs| == |names| + |liveDirs|;
  }

  lemma SurvivingDirs(d: Disk, retention: int, keepNames: set<string>, name: string)
    requires WellFormed(d) && retention > 0 && name in keepNames && !IsAux(name)
    ensures var live := LiveDir(d, name);
            (set p | p in BlobsNamed(AfterGC(d, retention, keepNames), name) :: p.dir) ==
            (set e | e in Newest(Others(Entries(d, name), live), Budget(retention, live)) :: e.name) +
            (if Path(live, name) in d.files then {live} else {})
  {
  }

  // ----- the same without the collector's own terms -----

  /** The time a blob ranks by: the one recorded beside it, if it is positive, or
      else its modification time. */
  predicate RanksAt(d: Disk, p: Path, time: int) {
    p in d.files &&
    var side := Path(p.dir, p.name + ".fetched_at");
    if side in d.files && d.files[side].content.Stamp? && d.files[side].content.nanos > 0
    then time == d.files[side].content.nanos
    else time == d.files[p].mtime
  }

  /** The link of the name, if any, names a digest directory in lower case, as
      every switch leaves it. */
  predicate LinkIsLower(d: Disk, name: string) {
    name in d.links ==> d.links[name].dir != "" && ToLower(d.links[name].dir) == d.links[name].dir
  }

  predicate IsLinked(d: Disk, p: Path) {
    p.name in d.links && d.links[p.name].dir == p.dir
  }

  lemma LowerLinkIsLive(d: Disk, name: string)
    requires LinkIsLower(d, name)
    ensures LiveDir(d, name) == if name in d.links then d.links[name].dir else ""
  {
    ToLowerConcat("sha256:", if name in d.links then d.links[name].dir else "");
    assert ToLower("sha256:") == "sha256:";
  }

  /** Newest first: of two blobs of one name that are not linked, the one that was
      installed later, or at the same time in the greater directory, survives if
      the other does. */
  lemma GCKeepsNewest(d: Disk, retention: int, keepNames: set<string>, p: Path, q: Path, at: int, later: int)
    requires WellFormed(d) && p.name == q.name && !IsAux(p.name) && LinkIsLower(d, p.name)
    requires !IsLinked(d, p) && !IsLinked(d, q) && RanksAt(d, p, at) && RanksAt(d, q, later)
    requires later > at || (later == at && StrLess(p.dir, q.dir))
    ensures p in AfterGC(d, retention, keepNames).files ==> q in AfterGC(d, retention, keepNames).files
  {
    GCKeepsExactly(d, retention, keepNames);
    LowerLinkIsLive(d, p.name);
    if p in AfterGC(d, retention, keepNames).files && retention > 0 {
      var S := Others(Entries(d, p.name), LiveDir(d, p.name));
      if p.dir != LiveDir(d, p.name) && q.dir != LiveDir(d, p.name) {
        assert EntryOf(d, q) in S;
        NewestIsUpward(S, Budget(retention, LiveDir(d, p.name)), EntryOf(d, p), EntryOf(d, q));
      }
    }
  }

  function Unlinked(d: Disk, name: string): set<Path> {
    set p | p in d.files && !IsAux(p.name) && p.name == name && !IsLinked(d, p)
  }

  lemma UnlinkedCard(d: Disk, name: string)
    requires LinkIsLower(d, name) && WellFormed(d)
    ensures |Unlinked(d, name)| == |Others(Entries(d, name), LiveDir(d, name))|
  {
    var live := LiveDir(d, name);
    LowerLinkIsLive(d, name);
    var ps, es := Unlinked(d, name), Others(Entries(d, name), live);
    EntriesCard(d, name, ps);
    NamesCard(d, name, es);
    var pDirs, eDirs := (set p | p in ps :: p.dir), (set e | e in es :: e.name);
    forall dir | dir in pDirs ensures dir in eDirs {
      var p :| p in ps && p.dir == dir;
      assert EntryOf(d, p) in es;
    }
    forall dir | dir in eDirs ensures dir in pDirs {
      var e :| e in es && e.name == dir;
      var p :| p in d.files && !IsAux(p.name) && p.name == name && e == EntryOf(d, p);
      assert p in ps;
    }
    assert pDirs == eDirs;
  }

  /** How many: for a desired name and positive retention the linked blob stays,
      and of the others as many as the retention allows after one place for the
      link. Without positive retention all stay; of a name not desired none. */
  lemma GCKeepsThisMany(d: Disk, retention: int, keepNames: set<string>, name: string)
    requires WellFormed(d) && !IsAux(name) && LinkIsLower(d, name)
    ensures var after := AfterGC(d, retention, keepNames);
            var others, places := |Unlinked(d, name)|, retention - if name in d.links then 1 else 0;
            (name !in keepNames ==> forall p | p in after.files :: p.name != name) &&
            (name in keepNames && retention <= 0 ==>
               forall p: Path | p.name == name :: p in after.files <==> p in d.files) &&
            (name in keepNames && retention > 0 ==>
               |Unlinked(after, name)| == (if others < places then others else places) &&
               forall p: Path | p.name == name && IsLinked(d, p) :: p in after.files <==> p in d.files)
  {
    var after := AfterGC(d, retention, keepNames);
    GCKeepsExactly(d, retention, keepNames);
    LowerLinkIsLive(d, name);
    if name in keepNames && retention > 0 {
      var S := Others(Entries(d, name), LiveDir(d, name));
      UnlinkedCard(d, name);
      UnlinkedCard(after, name);
      EntriesAfterGC(d, retention, keepNames, name);
      NewestCard(S, Budget(retention, LiveDir(d, name)));
    }
  }

  /** Whether a blob survives depends on its own name's files and link only. */
  lemma GCIsLocalToName(d: Disk, e: Disk, retention: int, keepD: set<string>, keepE: set<string>, name: string)
    requires forall p: Path | Base(p).name == name :: p in d.files <==> p in e.files
    requires forall p: Path | Base(p).name == name && p in d.files :: d.files[p] == e.files[p]
    requires name in d.links <==> name in e.links
    requires name in d.links ==> d.links[name] == e.links[name]
    requires name in keepD <==> name in keepE
    requires !IsAux(name)
    ensures forall dir :: Keeps(d, retention, keepD, Path(dir, name)) <==> Keeps(e, retention, keepE, Path(dir, name))
  {
    forall dir ensures Path(dir, name) in d.files <==> Path(dir, name) in e.files
      ensures Path(dir, name) in d.files ==> EntryOf(d, Path(dir, name)) == EntryOf(e, Path(dir, name))
    {
      var p := Path(dir, name);
      BaseFiles(p, p);
      BaseFiles(p, Sidecar(p));
    }
    forall x ensures x in Entries(d, name) <==> x in Entries(e, name) {
      if x in Entries(d, name) {
        var p :| p in d.files && !IsAux(p.name) && p.name == name && x == EntryOf(d, p);
        assert p == Path(p.dir, name);
      }
      if x in Entries(e, name) {
        var p :| p in e.files && !IsAux(p.name) && p.name == name && x == EntryOf(e, p);
        assert p == Path(p.dir, name);
      }
    }
    assert Entries(d, name) == Entries(e, name);
  }

  /** The entries that survive, seen from the collected disk. */
  lemma EntriesAfterGC(d: Disk, retention: int, keepNames: set<string>, name: string)
    requires WellFormed(d) && !IsAux(name) && name in keepNames && retention > 0
    ensures var after := AfterGC(d, retention, keepNames);
            var live := LiveDir(d, name);
            LiveDir(after, name) == live &&
            Others(Entries(after, name), live) == Newest(Others(Entries(d, name), live), Budget(retention, live))
  {
    var after := AfterGC(d, retention, keepNames);
    var live := LiveDir(d, name);
    GCKeepsExactly(d, retention, keepNames);
    TimesSurvive(d, retention, keepNames);
    var A := Others(Entries(after, name), live);
    var B := Newest(Others(Entries(d, name), live), Budget(retention, live));
    forall x | x in A ensures x in B {
      var p :| p in after.files && !IsAux(p.name) && p.name == name && x == EntryOf(after, p);
      assert x == EntryOf(d, p);
    }
    forall x | x in B ensures x in A {
      var p :| p in d.files && !IsAux(p.name) && p.name == name && x == EntryOf(d, p);
      assert p in after.files;
    }
  }

  lemma TimesSurvive(d: Disk, retention: int, keepNames: set<string>)
    requires WellFormed(d)
    ensures var after := AfterGC(d, retention, keepNames);
            forall p | p in after.files && !IsAux(p.name) :: p in d.files && EntryOf(after, p) == EntryOf(d, p)
  {
    var after := AfterGC(d, retention, keepNames);
    forall p | p in after.files && !IsAux(p.name) ensures EntryOf(after, p) == EntryOf(d, p) {
      BaseFiles(p, Sidecar(p));
      SuffixOfConcat(p.name, FETCHED_AT);
      LastCharacterDecides(p.name + FETCHED_AT, PARTIAL);
      assert Sidecar(p) in after.files <==> Sidecar(p) in d.files;
    }
  }

  /** A second collection with the same links and times deletes nothing. */
  lemma GCIsIdempotent(d: Disk, retention: int, keepNames: set<string>)
    requires WellFormed(d)
    ensures var once := AfterGC(d, retention, keepNames);
            AfterGC(once, retention, keepNames) == once
  {
    var once := AfterGC(d, retention, keepNames);
    forall p | p in once.files ensures Survives(once, retention, keepNames, p) {
      SurvivorSurvives(d, retention, keepNames, p);
    }
    assert AfterGC(once, retention, keepNames).files == once.files;
  }

  lemma {:induction false} SurvivorSurvives(d: Disk, retention: int, keepNames: set<string>, p: Path)
    requires WellFormed(d) && Survives(d, retention, keepNames, p)
    ensures Survives(AfterGC(d, retention, keepNames), retention, keepNames, p)
    decreases |p.name|
  {
    if !HasSuffix(p.name, FETCHED_AT) {
      KeptIsKeptAgain(d, retention, keepNames, p);
    } else if !NamesDirectory(BaseName(p.name)) {
      SurvivorSurvives(d, retention, keepNames, Base(p));
    }
  }

  lemma KeptIsKeptAgain(d: Disk, retention: int, keepNames: set<string>, p: Path)
    requires WellFormed(d) && Keeps(d, retention, keepNames, p)
    ensures Keeps(AfterGC(d, retention, keepNames), retention, keepNames, p)
  {
    var once := AfterGC(d, retention, keepNames);
    GCKeepsExactly(d, retention, keepNames);
    if retention > 0 {
      EntriesAfterGC(d, retention, keepNames, p.name);
      TimesSurvive(d, retention, keepNames);
      NewestIdempotent(Others(Entries(d, p.name), LiveDir(d, p.name)), Budget(retention, LiveDir(d, p.name)));
    }
  }

  /** Raising a positive retention keeps every blob that was kept. */
  lemma GCRetentionMonotone(d: Disk, low: int, high: int, keepNames: set<string>, p: Path)
    requires 0 < low <= high && Keeps(d, low, keepNames, p)
    ensures Keeps(d, high, keepNames, p)
  {
    var live := LiveDir(d, p.name);
    if p.dir != live {
      var S := Others(Entries(d, p.name), live);
      NewestMonotone(S, S, Budget(low, live), Budget(high, live));
    }
  }
}
