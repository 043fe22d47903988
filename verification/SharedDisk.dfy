/** The machine-level shared-file store as a value, and what each operation of
    the artifact manager leaves on disk. */
module SharedDisk {
  import opened Prelude
  import opened Digests
  import opened Retention

  const FETCHED_AT := ".fetched_at"
  const PARTIAL := ".partial"
  const TMP := ".tmp"

  datatype File = File(content: Content, mtime: int)

  /** store/<dir>/<name> */
  datatype Path = Path(dir: string, name: string)

  /** dirs: the digest directories; files: everything inside them, sidecars and
      partial downloads included; links: the symlinks beside the store, each
      with its target store/<dir>/<name>. */
  datatype Disk = Disk(dirs: set<string>, files: map<Path, File>, links: map<string, Path>)

  // ----- names -----

  predicate ValidName(name: string) {
    name != "" && name != "store" && name != "." && name != ".." &&
    forall c | c in name :: c != '/' && c != '\\' && c != '\0'
  }

  predicate IsAux(name: string) {
    HasSuffix(name, FETCHED_AT) || HasSuffix(name, PARTIAL)
  }

  /** The blob a file in a digest directory belongs to. */
  function BaseName(name: string): string {
    if HasSuffix(name, FETCHED_AT) then TrimSuffix(name, FETCHED_AT) else TrimSuffix(name, PARTIAL)
  }

  function Base(p: Path): Path {
    Path(p.dir, BaseName(p.name))
  }

  function Sidecar(p: Path): Path {
    Path(p.dir, p.name + FETCHED_AT)
  }

  function Partial(p: Path): Path {
    Path(p.dir, p.name + PARTIAL)
  }

  lemma SuffixOfConcat(a: string, suffix: string)
    ensures HasSuffix(a + suffix, suffix) && TrimSuffix(a + suffix, suffix) == a
  {
  }

  lemma LastCharacterDecides(s: string, suffix: string)
    requires s != "" && suffix != "" && s[|s| - 1] != suffix[|suffix| - 1]
    ensures !HasSuffix(s, suffix)
  {
  }

  /** Exactly three files belong to a blob. */
  lemma BaseFiles(p: Path, q: Path)
    requires !IsAux(p.name)
    ensures Base(q) == p <==> q == p || q == Sidecar(p) || q == Partial(p)
  {
    SuffixOfConcat(p.name, FETCHED_AT);
    SuffixOfConcat(p.name, PARTIAL);
    LastCharacterDecides(p.name + PARTIAL, FETCHED_AT);
    if HasSuffix(q.name, FETCHED_AT) {
      assert q.name == BaseName(q.name) + FETCHED_AT;
    } else if HasSuffix(q.name, PARTIAL) {
      assert q.name == BaseName(q.name) + PARTIAL;
    }
  }

  // ----- digests -----

  /** A single path component: joining it cannot leave the directory. */
  predicate PlainComponent(s: string) {
    s != "" && s != "." && s != ".." && forall c | c in s :: c != '/'
  }

  function DigestDirName(digest: string): string {
    TrimPrefix(ToLower(digest), "sha256:")
  }

  /** Whatever the case of the reference, a verified file is in the directory
      named by its own hash. */
  lemma MatchNamesDirectory(sum: HexDigest, digest: string)
    requires DigestMatches(sum, digest)
    ensures DigestDirName(digest) == sum
  {
    HexIsLower(sum);
    ToLowerConcat("sha256:", sum);
    assert ToLower("sha256:") == "sha256:";
    assert ToLower(digest) == "sha256:" + sum;
  }

  // ----- fetching -----

  /** How a fetch ends: it returns nil, it returns an error, it returns nil under a
      cancelled context, or the process dies before the rename: while the fetch
      runs, or when the partial has been written and perhaps hashed. */
  datatype FetchEnd = Completed | Failed | Cancelled | Killed

  /** Inputs from outside: what the fetch left in the partial file and how it
      ended, whether the rename succeeded, the new file's mtime, and the clock
      reading written to the sidecar (None when that write failed). */
  datatype FetchEnv = FetchEnv(written: Option<Content>, end: FetchEnd, renamed: bool, mtime: int, stamp: Option<int>)

  datatype Outcome =
    | Done | InvalidName | EmptyDigest | FetchFailed | FetchCancelled | Unreadable
    | Mismatch | InstallFailed | Died | StoreEntryMissing | LinkFailed

  predicate Verified(hash: HashFn, d: Disk, p: Path, digest: string) {
    p in d.files && DigestMatches(hash(d.files[p].content), digest)
  }

  function FetchOutcome(hash: HashFn, digest: string, env: FetchEnv): Outcome {
    match env.end
    case Killed => Died
    case Failed => FetchFailed
    case Cancelled => FetchCancelled
    case Completed =>
      if env.written.None? then Unreadable
      else if !DigestMatches(hash(env.written.value), digest) then Mismatch
      else if !env.renamed then InstallFailed
      else Done
  }

  function Stamped(files: map<Path, File>, dest: Path, env: FetchEnv): map<Path, File> {
    if env.stamp.Some? then files[Sidecar(dest) := File(Stamp(env.stamp.value), env.mtime)] else files
  }

  /** What EnsureSharedFile leaves on disk. */
  function AfterEnsure(hash: HashFn, d: Disk, name: string, digest: string, env: FetchEnv): (r: (Disk, Outcome)) {
    if !ValidName(name) then (d, InvalidName)
    else if digest == "" then (d, EmptyDigest)
    else
      var dest := Path(DigestDirName(digest), name);
      var made := d.(dirs := d.dirs + {dest.dir});
      if Verified(hash, d, dest, digest) then (made, Done)
      else
        var outcome := FetchOutcome(hash, digest, env);
        var cleared := made.files - {Partial(dest)};
        var files :=
          if outcome == Done then
            Stamped(cleared[dest := File(env.written.value, env.mtime)], dest, env)
          else if outcome == Died && env.written.Some? then
            cleared[Partial(dest) := File(env.written.value, env.mtime)]
          else cleared;
        (made.(files := files), outcome)
  }

  /** The rename of the temporary link succeeded, failed, or was never reached. */
  datatype LinkEnd = Renamed | RenameFailed | KilledBeforeRename

  function AfterSwitch(d: Disk, name: string, digest: string, end: LinkEnd): (r: (Disk, Outcome)) {
    var target := Path(DigestDirName(digest), name);
    if !ValidName(name) then (d, InvalidName)
    else if target !in d.files then (d, StoreEntryMissing)
    else
      var cleared := d.links - {name + TMP};
      match end
      case Renamed => (d.(links := cleared[name := target]), Done)
      case RenameFailed => (d.(links := cleared), LinkFailed)
      case KilledBeforeRename => (d.(links := cleared[name + TMP := target]), Died)
  }

  /** removed: an existing link could be removed. */
  function AfterRemoveLink(d: Disk, name: string, removed: bool): (r: (Disk, Outcome)) {
    if !ValidName(name) then (d, InvalidName)
    else if name in d.links && !removed then (d, LinkFailed)
    else (d.(links := d.links - {name}), Done)
  }

  // ----- garbage collection -----

  /** RunningSharedDigest: "" when there is no link. */
  function RunningDigest(d: Disk, name: string): string {
    if name in d.links then "sha256:" + d.links[name].dir else ""
  }

  function LiveDir(d: Disk, name: string): string {
    DigestDirName(RunningDigest(d, name))
  }

  /** The recorded install time, or the mtime when there is none. */
  function InstalledAt(d: Disk, p: Path): int
    requires p in d.files
  {
    if Sidecar(p) in d.files && d.files[Sidecar(p)].content.Stamp? && d.files[Sidecar(p)].content.nanos > 0
    then d.files[Sidecar(p)].content.nanos
    else d.files[p].mtime
  }

  predicate IsBlob(d: Disk, p: Path) {
    p in d.files && !IsAux(p.name)
  }

  function EntryOf(d: Disk, p: Path): Entry
    requires p in d.files
  {
    Entry(p.dir, InstalledAt(d, p))
  }

  function Entries(d: Disk, name: string): set<Entry> {
    set p | p in d.files && !IsAux(p.name) && p.name == name :: EntryOf(d, p)
  }

  function Others(S: set<Entry>, live: string): set<Entry> {
    set e | e in S && e.name != live
  }

  /** Places left for blobs that are not live. A live digest takes a place even
      when its blob is missing. */
  function Budget(retention: int, live: string): nat {
    var taken := if live == "" then 0 else 1;
    if retention <= taken then 0 else retention - taken
  }

  /** The collector keeps a blob of a desired name that is live or is among the
      newest others; with no positive retention it keeps all of them. */
  predicate Keeps(d: Disk, retention: int, keepNames: set<string>, p: Path) {
    IsBlob(d, p) && p.name in keepNames &&
    (retention <= 0 ||
     var live := LiveDir(d, p.name);
     p.dir == live || EntryOf(d, p) in Newest(Others(Entries(d, p.name), live), Budget(retention, live)))
  }

  /** Joined to a digest directory, these name a directory, and that is there. */
  predicate NamesDirectory(base: string) {
    base == "" || base == "." || base == ".."
  }

  /** The files a collection leaves: no partial download, sidecars of what is
      left, and kept blobs. */
  predicate Survives(d: Disk, retention: int, keepNames: set<string>, p: Path)
    decreases |p.name|
  {
    p in d.files && !HasSuffix(p.name, PARTIAL) &&
    if HasSuffix(p.name, FETCHED_AT)
    then NamesDirectory(BaseName(p.name)) || Survives(d, retention, keepNames, Base(p))
    else Keeps(d, retention, keepNames, p)
  }

  /** What GCShared leaves on disk: the surviving files, and the directories that
      still hold something. */
  function AfterGC(d: Disk, retention: int, keepNames: set<string>): Disk {
    var files := map p | p in d.files && Survives(d, retention, keepNames, p) :: d.files[p];
    Disk(set p | p in files :: p.dir, files, d.links)
  }

  /** Every file lies in a digest directory and is none itself. */
  predicate WellFormed(d: Disk) {
    "" !in d.dirs && forall p | p in d.files :: p.dir in d.dirs && !NamesDirectory(p.name)
  }
}
