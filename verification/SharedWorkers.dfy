/** Several fetch workers at once: every interleaving of the single file-system
    steps of EnsureSharedFile with link switches of the main loop and with the
    single removals of its collections. A cancelled worker may go on for some
    steps. */
module SharedWorkers {
  import opened Prelude
  import opened Digests
  import opened Retention
  import opened SharedDisk
  import L = SharedStoreLaws

  /** What a worker does next: look for a verified blob, remove an old partial,
      fetch, look at its context, hash the partial, rename it, record the time,
      or remove the partial after a failure. */
  datatype Phase = Checking | Clearing | Fetching | Fetched | Hashing | Renaming | Stamping | Failing

  datatype Worker = Worker(name: string, digest: string, phase: Phase)

  /** gc: the blobs a collection under way is going to remove. */
  datatype System = System(disk: Disk, workers: map<nat, Worker>, gc: Option<set<Path>>)

  datatype Event =
    | Start(u: nat, name: string, digest: string)
    | Check(u: nat)
    | Clear(u: nat)
    | Write(u: nat, content: Content, mtime: int)
    | EndFetch(u: nat, ok: bool)
    | LookAtContext(u: nat, cancelled: bool)
    | Hash(u: nat)
    | Rename(u: nat, ok: bool)
    | RecordTime(u: nat, stamp: Option<int>, mtime: int)
    | CleanUp(u: nat)
    | Crash
    | MainLoop(op: L.Op)
    | BeginGC(keepNames: set<string>, doomed: set<Path>)
    | RemoveFile(blob: Path, file: Path)
    | SweepFile(file: Path)
    | EndGC

  function Dest(w: Worker): Path {
    Path(DigestDirName(w.digest), w.name)
  }

  predicate In(s: System, u: nat, phase: Phase) {
    u in s.workers && s.workers[u].phase == phase
  }

  /** What a collection that keeps these names may decide to remove, however the
      store changes while it lists: blobs of other names, and blobs that are not
      live. */
  predicate MayDoom(d: Disk, keepNames: set<string>, p: Path) {
    !IsAux(p.name) && !NamesDirectory(p.name) && (p.name !in keepNames || p.dir != LiveDir(d, p.name))
  }

  /** What the collector does remove is among it. */
  lemma DoomedMayBeRemoved(d: Disk, retention: int, keepNames: set<string>, p: Path)
    requires WellFormed(d) && IsBlob(d, p) && !Keeps(d, retention, keepNames, p)
    ensures MayDoom(d, keepNames, p)
  {
  }

  /** The sweep removes partials, and sidecars of what it does not find. */
  predicate MaySweep(p: Path) {
    HasSuffix(p.name, PARTIAL) || (HasSuffix(p.name, FETCHED_AT) && !NamesDirectory(BaseName(p.name)))
  }

  predicate Enabled(s: System, e: Event) {
    match e
    case Start(u, name, digest) => u !in s.workers && ValidName(name) && digest != ""
    case Check(u) => In(s, u, Checking)
    case Clear(u) => In(s, u, Clearing)
    case Write(u, _, _) => In(s, u, Fetching)
    case EndFetch(u, _) => In(s, u, Fetching)
    case LookAtContext(u, _) => In(s, u, Fetched)
    case Hash(u) => In(s, u, Hashing)
    case Rename(u, _) => In(s, u, Renaming)
    case RecordTime(u, _, _) => In(s, u, Stamping)
    case CleanUp(u) => In(s, u, Failing)
    case Crash => true
    case MainLoop(op) => !op.Ensure? && !op.GC? && s.gc.None?
    case BeginGC(keepNames, doomed) => s.gc.None? && forall p | p in doomed :: MayDoom(s.disk, keepNames, p)
    case RemoveFile(b, f) => s.gc.Some? && b in s.gc.value && (f == b || f == Sidecar(b) || f == Partial(b))
    case SweepFile(f) => s.gc.Some? && MaySweep(f)
    case EndGC => s.gc.Some?
  }

  function Go(s: System, u: nat, phase: Phase): System
    requires u in s.workers
  {
    s.(workers := s.workers[u := s.workers[u].(phase := phase)])
  }

  function Leave(s: System, u: nat): System {
    s.(workers := s.workers - {u})
  }

  function WithFiles(s: System, files: map<Path, File>): System {
    s.(disk := s.disk.(files := files))
  }

  function Checked(hash: HashFn, s: System, u: nat): System
    requires u in s.workers
  {
    var w := s.workers[u];
    var made := s.(disk := s.disk.(dirs := s.disk.dirs + {Dest(w).dir}));
    if Verified(hash, s.disk, Dest(w), w.digest) then Leave(made, u) else Go(made, u, Clearing)
  }

  function Hashed(hash: HashFn, s: System, u: nat): System
    requires u in s.workers
  {
    var w := s.workers[u];
    Go(s, u, if Verified(hash, s.disk, Partial(Dest(w)), w.digest) then Renaming else Failing)
  }

  function RenamedTo(s: System, u: nat, ok: bool): System
    requires u in s.workers
  {
    var dest := Dest(s.workers[u]);
    var files := s.disk.files;
    if !ok || Partial(dest) !in files then Go(s, u, Failing)
    else Go(WithFiles(s, files[dest := files[Partial(dest)]] - {Partial(dest)}), u, Stamping)
  }

  function TimeWritten(s: System, u: nat, stamp: Option<int>, mtime: int): System
    requires u in s.workers
  {
    var side := Sidecar(Dest(s.workers[u]));
    Leave(if stamp.Some? then WithFiles(s, s.disk.files[side := File(Stamp(stamp.value), mtime)]) else s, u)
  }

  function Removed(s: System, u: nat): System
    requires u in s.workers
  {
    WithFiles(s, s.disk.files - {Partial(Dest(s.workers[u]))})
  }

  function Next(hash: HashFn, s: System, e: Event): System
    requires Enabled(s, e)
  {
    match e
    case Start(u, name, digest) => s.(workers := s.workers[u := Worker(name, digest, Checking)])
    case Check(u) => Checked(hash, s, u)
    case Clear(u) => Go(Removed(s, u), u, Fetching)
    case Write(u, content, mtime) =>
      WithFiles(s, s.disk.files[Partial(Dest(s.workers[u])) := File(content, mtime)])
    case EndFetch(u, ok) => Go(s, u, if ok then Fetched else Failing)
    case LookAtContext(u, cancelled) => Go(s, u, if cancelled then Failing else Hashing)
    case Hash(u) => Hashed(hash, s, u)
    case Rename(u, ok) => RenamedTo(s, u, ok)
    case RecordTime(u, stamp, mtime) => TimeWritten(s, u, stamp, mtime)
    case CleanUp(u) => Leave(Removed(s, u), u)
    case Crash => s.(workers := map[], gc := None)
    case MainLoop(op) => s.(disk := L.Apply(hash, s.disk, op))
    case BeginGC(_, doomed) => s.(gc := Some(doomed))
    case RemoveFile(_, f) => WithFiles(s, s.disk.files - {f})
    case SweepFile(f) => WithFiles(s, s.disk.files - {f})
    case EndGC => s.(gc := None)
  }

  /** The names whose fetches can reach the blobs of a name: the name itself, and
      those whose blobs have the path of its partial, of the partial of that, and
      so on. */
  predicate InChain(name: string, other: string)
    decreases |other|
  {
    other == name || (HasSuffix(other, PARTIAL) && InChain(name, TrimSuffix(other, PARTIAL)))
  }

  /** No two running workers for such a name fetch into the same partial file. */
  predicate Apart(s: System, name: string) {
    forall u, v | u in s.workers && v in s.workers && u != v && InChain(name, s.workers[u].name) ::
      Dest(s.workers[u]) != Dest(s.workers[v])
  }

  /** For the link of one name: collections keep it, digests name a directory. */
  predicate Allowed(s: System, name: string, e: Event) {
    match e
    case MainLoop(op) => L.Allowed(s.disk, name, op)
    case BeginGC(keepNames, _) => name in s.disk.links ==> name in keepNames
    case Start(_, _, digest) => PlainComponent(DigestDirName(digest))
    case _ => true
  }

  predicate Possible(hash: HashFn, s: System, name: string, events: seq<Event>)
    decreases |events|
  {
    events == [] ||
    (Enabled(s, events[0]) && Allowed(s, name, events[0]) &&
      Possible(hash, Next(hash, s, events[0]), name, events[1..]))
  }

  function Run(hash: HashFn, s: System, name: string, events: seq<Event>): System
    requires Possible(hash, s, name, events)
    decreases |events|
  {
    if events == [] then s else Run(hash, Next(hash, s, events[0]), name, events[1..])
  }

  /** Workers stay apart all through the run. */
  predicate ApartRun(hash: HashFn, s: System, name: string, events: seq<Event>)
    requires Possible(hash, s, name, events)
    decreases |events|
  {
    Apart(s, name) && (events == [] || ApartRun(hash, Next(hash, s, events[0]), name, events[1..]))
  }

  const START := System(L.EMPTY, map[], None)

  // ----- the invariant -----

  /** A worker about to rename has a partial of its digest, unless the sweep took
      it. */
  predicate WorkerOk(hash: HashFn, files: map<Path, File>, w: Worker) {
    w.phase == Renaming ==>
      IsHexDigest(Dest(w).dir) && DigestMatches(Dest(w).dir, w.digest) &&
      (Partial(Dest(w)) in files ==> hash(files[Partial(Dest(w))].content) == Dest(w).dir)
  }

  predicate WorkersOk(hash: HashFn, s: System, name: string) {
    forall u | u in s.workers ::
      ValidName(s.workers[u].name) && (InChain(name, s.workers[u].name) ==> WorkerOk(hash, s.disk.files, s.workers[u]))
  }

  /** A collection under way spares the live blob. */
  predicate Spares(s: System, name: string) {
    s.gc.Some? ==>
      (forall p | p in s.gc.value :: !IsAux(p.name) && !NamesDirectory(p.name)) &&
      (name in s.disk.links ==> s.disk.links[name] !in s.gc.value)
  }

  predicate Sound(hash: HashFn, s: System, name: string) {
    L.Sound(hash, s.disk, name) && WorkersOk(hash, s, name) && Spares(s, name)
  }

  /** A partial is neither the sidecar nor, for another blob, the partial. */
  lemma PartialIsOwn(a: Path, b: Path)
    ensures Partial(a) == Partial(b) ==> a == b
    ensures Sidecar(a) != Partial(b) && a != Partial(a)
  {
    SuffixOfConcat(a.name, PARTIAL);
    SuffixOfConcat(b.name, PARTIAL);
    assert |Partial(a).name| > |a.name|;
    assert Sidecar(a).name[|Sidecar(a).name| - 1] == 't';
    assert Partial(b).name[|Partial(b).name| - 1] == 'l';
  }

  /** Changing one partial file or recording a time disturbs neither the blobs of
      a safe name nor another worker of its chain. */
  lemma OwnFileOnly(hash: HashFn, s: System, name: string, u: nat, files: map<Path, File>, q: Path)
    requires L.SafeName(name) && Sound(hash, s, name) && u in s.workers && Apart(s, name)
    requires q == Partial(Dest(s.workers[u])) || q == Sidecar(Dest(s.workers[u]))
    requires files - {q} == s.disk.files - {q}
    ensures L.Sound(hash, s.disk.(files := files), name)
    ensures forall v | v in s.workers && v != u && InChain(name, s.workers[v].name) ::
              WorkerOk(hash, files, s.workers[v])
  {
    var dest := Dest(s.workers[u]);
    L.SafeIsNotAux(name, dest);
    SameElsewhere(s.disk.files, files, q);
    forall v | v in s.workers && v != u && InChain(name, s.workers[v].name)
      ensures WorkerOk(hash, files, s.workers[v]) {
      PartialIsOwn(dest, Dest(s.workers[v]));
    }
  }

  lemma SameElsewhere(before: map<Path, File>, files: map<Path, File>, q: Path)
    requires files - {q} == before - {q}
    ensures forall p | p != q :: (p in files <==> p in before) && (p in files ==> files[p] == before[p])
  {
    forall p | p != q ensures (p in files <==> p in before) && (p in files ==> files[p] == before[p]) {
      assert p in files <==> p in files - {q};
      assert p in before <==> p in before - {q};
    }
  }

  /** The renamed file has the hash of its directory, and that suits every worker
      whose partial it happens to replace. */
  lemma RenameIsSound(hash: HashFn, s: System, name: string, u: nat, ok: bool)
    requires L.SafeName(name) && Sound(hash, s, name) && In(s, u, Renaming) && Apart(s, name)
    ensures Sound(hash, RenamedTo(s, u, ok), name)
  {
    var t := RenamedTo(s, u, ok);
    var dest := Dest(s.workers[u]);
    L.SafeIsNotAux(name, dest);
    PartialIsOwn(dest, dest);
    forall v | v in t.workers && InChain(name, t.workers[v].name) ensures WorkerOk(hash, t.disk.files, t.workers[v]) {
      assert WorkerOk(hash, s.disk.files, s.workers[v]);
      var other := Dest(s.workers[v]);
      PartialIsOwn(dest, other);
      if dest == Partial(other) {
        SuffixOfConcat(other.name, PARTIAL);
        assert InChain(name, s.workers[u].name);
      }
    }
  }

  lemma HashIsSound(hash: HashFn, s: System, name: string, u: nat)
    requires Sound(hash, s, name) && In(s, u, Hashing)
    ensures Sound(hash, Hashed(hash, s, u), name)
  {
    var w := s.workers[u];
    if Verified(hash, s.disk, Partial(Dest(w)), w.digest) {
      MatchNamesDirectory(hash(s.disk.files[Partial(Dest(w))].content), w.digest);
    }
  }

  lemma MainLoopIsSound(hash: HashFn, s: System, name: string, op: L.Op)
    requires L.SafeName(name) && Sound(hash, s, name) && (op.Switch? || op.RemoveLink?) && s.gc.None?
    requires L.Allowed(s.disk, name, op)
    ensures Sound(hash, s.(disk := L.Apply(hash, s.disk, op)), name)
  {
    var after := L.Apply(hash, s.disk, op);
    L.ApplyIsSound(hash, s.disk, name, op);
    assert after.files == s.disk.files;
  }

  /** What a collection decides to remove is not the live blob of a name it keeps. */
  lemma BeginIsSound(hash: HashFn, s: System, name: string, keepNames: set<string>, doomed: set<Path>)
    requires Sound(hash, s, name) && (name in s.disk.links ==> name in keepNames)
    requires forall p | p in doomed :: MayDoom(s.disk, keepNames, p)
    ensures Sound(hash, s.(gc := Some(doomed)), name)
  {
    if name in s.disk.links {
      L.LiveDirIsTarget(hash, s.disk, name);
    }
  }

  lemma RemovalIsSound(hash: HashFn, s: System, name: string, f: Path)
    requires L.SafeName(name) && Sound(hash, s, name) && s.gc.Some?
    requires MaySweep(f) || exists b :: b in s.gc.value && (f == b || f == Sidecar(b) || f == Partial(b))
    ensures Sound(hash, WithFiles(s, s.disk.files - {f}), name)
  {
    if !MaySweep(f) {
      var b :| b in s.gc.value && (f == b || f == Sidecar(b) || f == Partial(b));
      SuffixOfConcat(b.name, PARTIAL);
      SuffixOfConcat(b.name, FETCHED_AT);
    }
  }

  lemma NextIsSound(hash: HashFn, s: System, name: string, e: Event)
    requires L.SafeName(name) && Sound(hash, s, name) && Apart(s, name) && Enabled(s, e) && Allowed(s, name, e)
    ensures Sound(hash, Next(hash, s, e), name)
  {
    match e
    case Clear(u) => OwnFileOnly(hash, s, name, u, Removed(s, u).disk.files, Partial(Dest(s.workers[u])));
    case Write(u, content, mtime) =>
      OwnFileOnly(hash, s, name, u, Next(hash, s, e).disk.files, Partial(Dest(s.workers[u])));
    case RecordTime(u, stamp, mtime) =>
      OwnFileOnly(hash, s, name, u, Next(hash, s, e).disk.files, Sidecar(Dest(s.workers[u])));
    case CleanUp(u) => OwnFileOnly(hash, s, name, u, Removed(s, u).disk.files, Partial(Dest(s.workers[u])));
    case Hash(u) => HashIsSound(hash, s, name, u);
    case Rename(u, ok) => RenameIsSound(hash, s, name, u, ok);
    case MainLoop(op) => MainLoopIsSound(hash, s, name, op);
    case BeginGC(keepNames, doomed) => BeginIsSound(hash, s, name, keepNames, doomed);
    case RemoveFile(b, f) => RemovalIsSound(hash, s, name, f);
    case SweepFile(f) => RemovalIsSound(hash, s, name, f);
    case _ =>
  }

  lemma {:induction false} RunIsSound(hash: HashFn, s: System, name: string, events: seq<Event>)
    requires L.SafeName(name) && Sound(hash, s, name)
    requires Possible(hash, s, name, events) && ApartRun(hash, s, name, events)
    ensures Sound(hash, Run(hash, s, name, events), name)
    decreases |events|
  {
    if events != [] {
      NextIsSound(hash, s, name, events[0]);
      RunIsSound(hash, Next(hash, s, events[0]), name, events[1..]);
    }
  }

  /** Over every interleaving in which no two running workers for the name, or for
      a name whose blob is its partial, share a partial file, the link of a safe
      name resolves to a blob of its own digest. */
  lemma LinksResolveWhileApart(hash: HashFn, events: seq<Event>, name: string)
    requires L.SafeName(name) && Possible(hash, START, name, events) && ApartRun(hash, START, name, events)
    ensures L.Resolves(hash, Run(hash, START, name, events).disk, name)
    ensures L.Addressed(hash, Run(hash, START, name, events).disk, name)
  {
    RunIsSound(hash, START, name, events);
  }

  // ----- one worker alone -----

  lemma Step(hash: HashFn, s: System, name: string, e: Event, rest: seq<Event>)
    requires Enabled(s, e) && Allowed(s, name, e)
    ensures Possible(hash, s, name, [e] + rest) <==> Possible(hash, Next(hash, s, e), name, rest)
    ensures Possible(hash, s, name, [e] + rest) ==>
              Run(hash, s, name, [e] + rest) == Run(hash, Next(hash, s, e), name, rest)
  {
    assert ([e] + rest)[1..] == rest;
  }

  /** From s the events lead to t. */
  predicate Leads(hash: HashFn, s: System, name: string, events: seq<Event>, t: System) {
    Possible(hash, s, name, events) && Run(hash, s, name, events) == t
  }

  lemma LeadsStep(hash: HashFn, s: System, name: string, e: Event, rest: seq<Event>, t: System)
    requires Enabled(s, e) && Allowed(s, name, e) && Leads(hash, Next(hash, s, e), name, rest, t)
    ensures Leads(hash, s, name, [e] + rest, t)
  {
    Step(hash, s, name, e, rest);
  }

  function Fetch(u: nat, name: string, digest: string, env: FetchEnv): seq<Event> {
    [Start(u, name, digest), Check(u), Clear(u)] + Writes(u, env)
  }

  /** How the fetch of one undisturbed worker goes on, by its outcome. */
  function Ending(hash: HashFn, u: nat, digest: string, env: FetchEnv): seq<Event> {
    match FetchOutcome(hash, digest, env)
    case Died => [Crash]
    case FetchFailed => [EndFetch(u, false), CleanUp(u)]
    case FetchCancelled => [EndFetch(u, true), LookAtContext(u, true), CleanUp(u)]
    case InstallFailed => [EndFetch(u, true), LookAtContext(u, false), Hash(u), Rename(u, false), CleanUp(u)]
    case Done =>
      [EndFetch(u, true), LookAtContext(u, false), Hash(u), Rename(u, true), RecordTime(u, env.stamp, env.mtime)]
    case _ => [EndFetch(u, true), LookAtContext(u, false), Hash(u), CleanUp(u)]
  }

  function FetchingSystem(s: System, u: nat, name: string, digest: string, env: FetchEnv): System {
    var w := Worker(name, digest, Fetching);
    var cleared := s.disk.files - {Partial(Dest(w))};
    var files := if env.written.Some? then cleared[Partial(Dest(w)) := File(env.written.value, env.mtime)] else cleared;
    s.(disk := s.disk.(dirs := s.disk.dirs + {Dest(w).dir}, files := files), workers := s.workers[u := w])
  }

  /** A worker that has found no verified blob. */
  function ClearingSystem(s: System, u: nat, name: string, digest: string): System {
    var w := Worker(name, digest, Clearing);
    s.(disk := s.disk.(dirs := s.disk.dirs + {Dest(w).dir}), workers := s.workers[u := w])
  }

  lemma CheckLeads(hash: HashFn, s: System, of: string, u: nat, name: string, digest: string, rest: seq<Event>,
      t: System)
    requires u !in s.workers && ValidName(name) && digest != "" && PlainComponent(DigestDirName(digest))
    requires !Verified(hash, s.disk, Path(DigestDirName(digest), name), digest)
    requires Leads(hash, ClearingSystem(s, u, name, digest), of, rest, t)
    ensures Leads(hash, s, of, [Start(u, name, digest), Check(u)] + rest, t)
  {
    var started := Next(hash, s, Start(u, name, digest));
    assert Next(hash, started, Check(u)) == ClearingSystem(s, u, name, digest);
    LeadsStep(hash, started, of, Check(u), rest, t);
    LeadsStep(hash, s, of, Start(u, name, digest), [Check(u)] + rest, t);
    assert [Start(u, name, digest), Check(u)] + rest == [Start(u, name, digest)] + ([Check(u)] + rest);
  }

  function Writes(u: nat, env: FetchEnv): seq<Event> {
    if env.written.Some? then [Write(u, env.written.value, env.mtime)] else []
  }

  lemma ClearLeads(hash: HashFn, s: System, of: string, u: nat, name: string, digest: string, env: FetchEnv,
      rest: seq<Event>, t: System)
    requires Leads(hash, FetchingSystem(s, u, name, digest, env), of, rest, t)
    ensures Leads(hash, ClearingSystem(s, u, name, digest), of, [Clear(u)] + (Writes(u, env) + rest), t)
  {
    var s2 := ClearingSystem(s, u, name, digest);
    var s3 := FetchingSystem(s, u, name, digest, env.(written := None));
    assert Next(hash, s2, Clear(u)) == s3;
    if env.written.Some? {
      var write := Write(u, env.written.value, env.mtime);
      assert Next(hash, s3, write) == FetchingSystem(s, u, name, digest, env);
      LeadsStep(hash, s3, of, write, rest, t);
      LeadsStep(hash, s2, of, Clear(u), [write] + rest, t);
    } else {
      assert [] + rest == rest;
      LeadsStep(hash, s2, of, Clear(u), rest, t);
    }
  }

  lemma FetchLeads(hash: HashFn, s: System, of: string, u: nat, name: string, digest: string, env: FetchEnv,
      rest: seq<Event>, t: System)
    requires u !in s.workers && ValidName(name) && digest != "" && PlainComponent(DigestDirName(digest))
    requires !Verified(hash, s.disk, Path(DigestDirName(digest), name), digest)
    requires Leads(hash, FetchingSystem(s, u, name, digest, env), of, rest, t)
    ensures Leads(hash, s, of, Fetch(u, name, digest, env) + rest, t)
  {
    ClearLeads(hash, s, of, u, name, digest, env, rest, t);
    var cleared := [Clear(u)] + (Writes(u, env) + rest);
    CheckLeads(hash, s, of, u, name, digest, cleared, t);
    assert Fetch(u, name, digest, env) + rest == [Start(u, name, digest), Check(u)] + cleared;
  }

  /** After a failure the partial is removed and the worker ends. */
  lemma CleanUpLeads(hash: HashFn, s: System, of: string, u: nat)
    requires In(s, u, Failing)
    ensures Leads(hash, s, of, [CleanUp(u)], Leave(Removed(s, u), u))
  {
    Step(hash, s, of, CleanUp(u), []);
    assert [CleanUp(u)] + [] == [CleanUp(u)];
  }

  lemma RenameLeads(hash: HashFn, s: System, of: string, u: nat, ok: bool, env: FetchEnv)
    requires In(s, u, Renaming) && Partial(Dest(s.workers[u])) in s.disk.files
    ensures var moved := RenamedTo(s, u, ok);
            if ok then
              Leads(hash, s, of, [Rename(u, ok), RecordTime(u, env.stamp, env.mtime)],
                    TimeWritten(moved, u, env.stamp, env.mtime))
            else Leads(hash, s, of, [Rename(u, ok), CleanUp(u)], Leave(Removed(moved, u), u))
  {
    var moved := RenamedTo(s, u, ok);
    if ok {
      var record := RecordTime(u, env.stamp, env.mtime);
      Step(hash, moved, of, record, []);
      assert [record] + [] == [record];
      LeadsStep(hash, s, of, Rename(u, ok), [record], TimeWritten(moved, u, env.stamp, env.mtime));
      assert [Rename(u, ok)] + [record] == [Rename(u, ok), record];
    } else {
      CleanUpLeads(hash, moved, of, u);
      LeadsStep(hash, s, of, Rename(u, ok), [CleanUp(u)], Leave(Removed(moved, u), u));
      assert [Rename(u, ok)] + [CleanUp(u)] == [Rename(u, ok), CleanUp(u)];
    }
  }

  /** A fetch that returned under a live context goes on to the hash. */
  lemma HashLeads(hash: HashFn, s: System, of: string, u: nat, rest: seq<Event>, t: System)
    requires In(s, u, Fetching)
    requires var w := s.workers[u];
             var phase := if Verified(hash, s.disk, Partial(Dest(w)), w.digest) then Renaming else Failing;
             Leads(hash, Go(s, u, phase), of, rest, t)
    ensures Leads(hash, s, of, [EndFetch(u, true), LookAtContext(u, false), Hash(u)] + rest, t)
  {
    var s1 := Go(s, u, Fetched);
    var s2 := Go(s1, u, Hashing);
    var w := s.workers[u];
    assert Next(hash, s2, Hash(u)) ==
           Go(s, u, if Verified(hash, s.disk, Partial(Dest(w)), w.digest) then Renaming else Failing);
    LeadsStep(hash, s2, of, Hash(u), rest, t);
    LeadsStep(hash, s1, of, LookAtContext(u, false), [Hash(u)] + rest, t);
    LeadsStep(hash, s, of, EndFetch(u, true), [LookAtContext(u, false)] + ([Hash(u)] + rest), t);
    assert [EndFetch(u, true), LookAtContext(u, false), Hash(u)] + rest ==
           [EndFetch(u, true)] + ([LookAtContext(u, false)] + ([Hash(u)] + rest));
  }

  /** What the fetch of one worker leaves when nothing else happens. */
  function Left(hash: HashFn, d: Disk, name: string, digest: string, env: FetchEnv): System {
    System(AfterEnsure(hash, d, name, digest, env).0, map[], None)
  }

  lemma EndingLeads(hash: HashFn, d: Disk, of: string, u: nat, name: string, digest: string, env: FetchEnv)
    requires ValidName(name) && digest != ""
    requires !Verified(hash, d, Path(DigestDirName(digest), name), digest)
    ensures Leads(hash, FetchingSystem(System(d, map[], None), u, name, digest, env), of, Ending(hash, u, digest, env),
                  Left(hash, d, name, digest, env))
  {
    match FetchOutcome(hash, digest, env)
    case Died =>
      var s := FetchingSystem(System(d, map[], None), u, name, digest, env);
      Step(hash, s, of, Crash, []);
      assert [Crash] + [] == [Crash];
    case FetchFailed => EndsInFetch(hash, d, of, u, name, digest, env);
    case FetchCancelled => EndsInFetch(hash, d, of, u, name, digest, env);
    case InstallFailed => EndsInRename(hash, d, of, u, name, digest, env);
    case Done => EndsInRename(hash, d, of, u, name, digest, env);
    case _ => EndsUnverified(hash, d, of, u, name, digest, env);
  }

  lemma EndsInFetch(hash: HashFn, d: Disk, of: string, u: nat, name: string, digest: string, env: FetchEnv)
    requires ValidName(name) && digest != ""
    requires !Verified(hash, d, Path(DigestDirName(digest), name), digest)
    requires FetchOutcome(hash, digest, env) in {FetchFailed, FetchCancelled}
    ensures Leads(hash, FetchingSystem(System(d, map[], None), u, name, digest, env), of, Ending(hash, u, digest, env),
                  Left(hash, d, name, digest, env))
  {
    var s := FetchingSystem(System(d, map[], None), u, name, digest, env);
    var left := Left(hash, d, name, digest, env);
    var failing := Go(s, u, Failing);
    assert Leave(Removed(failing, u), u) == left;
    CleanUpLeads(hash, failing, of, u);
    if FetchOutcome(hash, digest, env) == FetchFailed {
      LeadsStep(hash, s, of, EndFetch(u, false), [CleanUp(u)], left);
      assert [EndFetch(u, false)] + [CleanUp(u)] == Ending(hash, u, digest, env);
    } else {
      var look := LookAtContext(u, true);
      assert Next(hash, Go(s, u, Fetched), look) == failing;
      LeadsStep(hash, Go(s, u, Fetched), of, look, [CleanUp(u)], left);
      LeadsStep(hash, s, of, EndFetch(u, true), [look] + [CleanUp(u)], left);
      assert [EndFetch(u, true)] + ([look] + [CleanUp(u)]) == Ending(hash, u, digest, env);
    }
  }

  lemma EndsUnverified(hash: HashFn, d: Disk, of: string, u: nat, name: string, digest: string, env: FetchEnv)
    requires ValidName(name) && digest != ""
    requires !Verified(hash, d, Path(DigestDirName(digest), name), digest)
    requires FetchOutcome(hash, digest, env) in {Unreadable, Mismatch}
    ensures Leads(hash, FetchingSystem(System(d, map[], None), u, name, digest, env), of, Ending(hash, u, digest, env),
                  Left(hash, d, name, digest, env))
  {
    var s := FetchingSystem(System(d, map[], None), u, name, digest, env);
    var left := Left(hash, d, name, digest, env);
    var failing := Go(s, u, Failing);
    assert Leave(Removed(failing, u), u) == left;
    CleanUpLeads(hash, failing, of, u);
    HashLeads(hash, s, of, u, [CleanUp(u)], left);
    assert [EndFetch(u, true), LookAtContext(u, false), Hash(u)] + [CleanUp(u)] == Ending(hash, u, digest, env);
  }

  lemma EndsInRename(hash: HashFn, d: Disk, of: string, u: nat, name: string, digest: string, env: FetchEnv)
    requires ValidName(name) && digest != ""
    requires !Verified(hash, d, Path(DigestDirName(digest), name), digest)
    requires FetchOutcome(hash, digest, env) in {InstallFailed, Done}
    ensures Leads(hash, FetchingSystem(System(d, map[], None), u, name, digest, env), of, Ending(hash, u, digest, env),
                  Left(hash, d, name, digest, env))
  {
    var s := FetchingSystem(System(d, map[], None), u, name, digest, env);
    var left := Left(hash, d, name, digest, env);
    var renaming := Go(s, u, Renaming);
    RenameLeads(hash, renaming, of, u, env.renamed, env);
    RenameLeaves(hash, d, u, name, digest, env);
    var last := if env.renamed then [Rename(u, true), RecordTime(u, env.stamp, env.mtime)]
                else [Rename(u, false), CleanUp(u)];
    HashLeads(hash, s, of, u, last, left);
    assert [EndFetch(u, true), LookAtContext(u, false), Hash(u)] + last == Ending(hash, u, digest, env);
  }

  lemma RenameLeaves(hash: HashFn, d: Disk, u: nat, name: string, digest: string, env: FetchEnv)
    requires ValidName(name) && digest != ""
    requires !Verified(hash, d, Path(DigestDirName(digest), name), digest)
    requires FetchOutcome(hash, digest, env) in {InstallFailed, Done}
    ensures var s := FetchingSystem(System(d, map[], None), u, name, digest, env);
            var moved := RenamedTo(Go(s, u, Renaming), u, env.renamed);
            Left(hash, d, name, digest, env) ==
            if env.renamed then TimeWritten(moved, u, env.stamp, env.mtime) else Leave(Removed(moved, u), u)
  {
    var dest := Path(DigestDirName(digest), name);
    PartialIsOwn(dest, dest);
    var s := FetchingSystem(System(d, map[], None), u, name, digest, env);
    var moved := RenamedTo(Go(s, u, Renaming), u, env.renamed);
    var cleared := d.files - {Partial(dest)};
    if env.renamed {
      assert moved.disk.files == cleared[dest := File(env.written.value, env.mtime)];
    } else {
      assert Removed(moved, u).disk.files == cleared;
    }
  }

  /** The single steps refine EnsureSharedFile: a worker that is left alone leaves
      exactly what the whole call leaves, however the fetch ends. */
  lemma AloneIsEnsure(hash: HashFn, d: Disk, of: string, u: nat, name: string, digest: string, env: FetchEnv)
    requires ValidName(name) && digest != "" && PlainComponent(DigestDirName(digest))
    ensures var steps := if Verified(hash, d, Path(DigestDirName(digest), name), digest)
                         then [Start(u, name, digest), Check(u)]
                         else Fetch(u, name, digest, env) + Ending(hash, u, digest, env);
            Leads(hash, System(d, map[], None), of, steps, Left(hash, d, name, digest, env))
  {
    var s := System(d, map[], None);
    if Verified(hash, d, Path(DigestDirName(digest), name), digest) {
      var s1 := Next(hash, s, Start(u, name, digest));
      Step(hash, s1, of, Check(u), []);
      assert [Check(u)] + [] == [Check(u)];
      LeadsStep(hash, s, of, Start(u, name, digest), [Check(u)], Left(hash, d, name, digest, env));
      assert [Start(u, name, digest)] + [Check(u)] == [Start(u, name, digest), Check(u)];
    } else {
      EndingLeads(hash, d, of, u, name, digest, env);
      FetchLeads(hash, s, of, u, name, digest, env, Ending(hash, u, digest, env), Left(hash, d, name, digest, env));
    }
  }

  // ----- why workers must stay apart -----

  /** What the second of two workers on one partial file wrote is installed by
      the first, which verified something else. */
  function Overwritten(hash: HashFn, name: string, good: Content, bad: Content): System {
    var digest := "sha256:" + hash(good);
    var dest := Path(hash(good), name);
    System(Disk({hash(good)}, map[dest := File(bad, 0)], map[name := dest]),
           map[1 := Worker(name, digest, Stamping), 2 := Worker(name, digest, Fetching)], None)
  }

  lemma OverwrittenIsInstalled(hash: HashFn, name: string, good: Content, bad: Content, s: System)
    requires ValidName(name)
    requires s == TwoFetching(hash, name, good, bad)
    ensures Leads(hash, s, name, [Rename(1, true), MainLoop(L.Switch(name, "sha256:" + hash(good), Renamed))],
                  Overwritten(hash, name, good, bad))
  {
    var dest := Path(hash(good), name);
    L.DigestOfHash(hash, good);
    PartialIsOwn(dest, dest);
    var switch := MainLoop(L.Switch(name, "sha256:" + hash(good), Renamed));
    var s5 := Overwritten(hash, name, good, bad);
    var s4 := RenamedTo(s, 1, true);
    assert s4 == s5.(disk := s5.disk.(links := map[]));
    assert Next(hash, s4, switch) == s5;
    Step(hash, s4, name, switch, []);
    assert [switch] + [] == [switch];
    LeadsStep(hash, s, name, Rename(1, true), [switch], s5);
    assert [Rename(1, true)] + [switch] == [Rename(1, true), switch];
  }

  /** The first worker has verified its partial; the second fetches into it. */
  function TwoFetching(hash: HashFn, name: string, good: Content, bad: Content): System {
    var digest := "sha256:" + hash(good);
    var s := FetchingSystem(START, 1, name, digest, L.Landing(good));
    FetchingSystem(Go(s, 1, Renaming), 2, name, digest, L.Landing(bad))
  }

  // ----- how many workers are safe -----

  /** The workers that fetch into the partial of a path. */
  function Fetchers(s: System, dest: Path): set<nat> {
    set u | u in s.workers && Dest(s.workers[u]) == dest
  }

  /** All through the run, at most k workers fetch into any one partial of the
      name's chain. */
  ghost predicate AtMost(hash: HashFn, s: System, name: string, events: seq<Event>, k: nat)
    requires Possible(hash, s, name, events)
    decreases |events|
  {
    (forall dest: Path | InChain(name, dest.name) :: |Fetchers(s, dest)| <= k) &&
    (events == [] || AtMost(hash, Next(hash, s, events[0]), name, events[1..], k))
  }

  lemma OneIsApart(s: System, name: string)
    requires forall dest: Path | InChain(name, dest.name) :: |Fetchers(s, dest)| <= 1
    ensures Apart(s, name)
  {
    forall u, v | u in s.workers && v in s.workers && u != v && InChain(name, s.workers[u].name)
      ensures Dest(s.workers[u]) != Dest(s.workers[v])
    {
      if Dest(s.workers[u]) == Dest(s.workers[v]) {
        var both := Fetchers(s, Dest(s.workers[u]));
        SubsetCard({u, v}, both);
      }
    }
  }

  lemma {:induction false} AtMostOneIsApart(hash: HashFn, s: System, name: string, events: seq<Event>, k: nat)
    requires Possible(hash, s, name, events) && AtMost(hash, s, name, events, k) && k <= 1
    ensures ApartRun(hash, s, name, events)
    decreases |events|
  {
    OneIsApart(s, name);
    if events != [] {
      AtMostOneIsApart(hash, Next(hash, s, events[0]), name, events[1..], k);
    }
  }

  predicate OnlyStarts(events: seq<Event>, us: set<nat>) {
    forall i | 0 <= i < |events| && events[i].Start? :: events[i].u in us
  }

  /** Workers that were never started are not there. */
  lemma {:induction false} FewWorkers(hash: HashFn, s: System, name: string, events: seq<Event>, us: set<nat>)
    requires Possible(hash, s, name, events) && OnlyStarts(events, us) && s.workers.Keys <= us
    ensures AtMost(hash, s, name, events, |us|)
    decreases |events|
  {
    forall dest: Path | InChain(name, dest.name) ensures |Fetchers(s, dest)| <= |us| {
      SubsetCard(Fetchers(s, dest), us);
    }
    if events != [] {
      assert events[0].Start? ==> events[0].u in us;
      assert forall i | 0 <= i < |events[1..]| :: events[1..][i] == events[i + 1];
      WorkersStay(hash, s, events[0], us);
      FewWorkers(hash, Next(hash, s, events[0]), name, events[1..], us);
    }
  }

  lemma WorkersStay(hash: HashFn, s: System, e: Event, us: set<nat>)
    requires Enabled(s, e) && s.workers.Keys <= us && (e.Start? ==> e.u in us)
    ensures Next(hash, s, e).workers.Keys <= us
  {
  }

  lemma {:induction false} AtMostGrows(hash: HashFn, s: System, name: string, events: seq<Event>, j: nat, k: nat)
    requires Possible(hash, s, name, events) && AtMost(hash, s, name, events, j) && j <= k
    ensures AtMost(hash, s, name, events, k)
    decreases |events|
  {
    if events != [] {
      AtMostGrows(hash, Next(hash, s, events[0]), name, events[1..], j, k);
    }
  }

  /** For every safe valid name, and any bound on the workers that may fetch into one
      partial of its chain: within the bound every run leaves its link resolving to
      a blob of its own digest, if and only if the bound is at most one. (With a
      hash that tells two contents apart.) */
  lemma OneWorkerIsSafeIff(hash: HashFn, name: string, k: nat, good: Content, bad: Content)
    requires ValidName(name) && L.SafeName(name) && hash(good) != hash(bad)
    ensures k <= 1 <==>
            forall events | Possible(hash, START, name, events) && AtMost(hash, START, name, events, k) ::
              L.Resolves(hash, Run(hash, START, name, events).disk, name)
  {
    if k <= 1 {
      forall events | Possible(hash, START, name, events) && AtMost(hash, START, name, events, k)
        ensures L.Resolves(hash, Run(hash, START, name, events).disk, name)
      {
        AtMostOneIsApart(hash, START, name, events, k);
        LinksResolveWhileApart(hash, events, name);
      }
    } else {
      var events := SharingBreaks(hash, name, good, bad);
      FewWorkers(hash, START, name, events, {1, 2});
      AtMostGrows(hash, START, name, events, 2, k);
    }
  }

  /** For every name two workers are too many: a cancelled worker that has verified
      its partial, and a second worker for the same name and digest that has
      begun to overwrite it, lead to a live link to unverified content. */
  lemma SharingBreaks(hash: HashFn, name: string, good: Content, bad: Content) returns (events: seq<Event>)
    requires ValidName(name) && hash(good) != hash(bad)
    ensures Possible(hash, START, name, events)
    ensures !L.Resolves(hash, Run(hash, START, name, events).disk, name)
    ensures OnlyStarts(events, {1, 2})
  {
    var digest := "sha256:" + hash(good);
    var last := [Rename(1, true), MainLoop(L.Switch(name, digest, Renamed))];
    var t := Overwritten(hash, name, good, bad);
    OverwrittenIsInstalled(hash, name, good, bad, TwoFetching(hash, name, good, bad));
    events := FetchesOverlap(hash, name, good, bad, last, t);
  }

  lemma FetchesOverlap(hash: HashFn, name: string, good: Content, bad: Content, last: seq<Event>,
      t: System) returns (events: seq<Event>)
    requires ValidName(name) && Leads(hash, TwoFetching(hash, name, good, bad), name, last, t)
    requires OnlyStarts(last, {1, 2})
    ensures Leads(hash, START, name, events, t) && OnlyStarts(events, {1, 2})
  {
    var digest := "sha256:" + hash(good);
    L.DigestOfHash(hash, good);
    var s1 := FetchingSystem(START, 1, name, digest, L.Landing(good));
    var second := Fetch(2, name, digest, L.Landing(bad)) + last;
    FetchLeads(hash, Go(s1, 1, Renaming), name, 2, name, digest, L.Landing(bad), last, t);
    HashLeads(hash, s1, name, 1, second, t);
    var hashed := [EndFetch(1, true), LookAtContext(1, false), Hash(1)] + second;
    FetchLeads(hash, START, name, 1, name, digest, L.Landing(good), hashed, t);
    events := Fetch(1, name, digest, L.Landing(good)) + hashed;
  }
}
