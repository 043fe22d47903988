/** One strategy's release directories as values: what Verify accepts, what
    Download leaves, and what the release collector leaves. */
module Releases {
  import opened Prelude
  import opened Digests
  import opened Retention

  /** An unpacked image: the archive, and the inode of the directory. */
  datatype Rootfs = Rootfs(archive: Content, inode: nat)

  /** A release directory. meta is the digest in a readable oci.json, stamp the
      install time in the sidecar. */
  datatype Release = Release(
    bin: Option<Content>, rootfs: Option<Rootfs>, meta: Option<string>, tar: Option<Content>,
    config: Option<Content>, sharedLink: bool, stamp: Option<int>, mtime: int)

  type Tree = map<string, Release>

  datatype Kind = Binary | OCIImage

  datatype Ref = Ref(version: string, kind: Kind, digest: string)

  /** What a fetch left at its destination (None: nothing new) and whether it
      returned nil. */
  datatype Fetched = Fetched(written: Option<Content>, ok: bool)

  /** A metadata file that cannot be opened stays as it was; one that is torn in
      the writing is no longer readable. */
  datatype MetaEnd = MetaWritten | MetaNotOpened | MetaTorn

  /** Where in the call the process dies, if it does and comes that far: while it
      fetches; while it extracts beside the old rootfs; when that is removed; when
      the new one is in place and the archive not yet removed; before, or while, it
      writes the metadata; while it fetches the configuration; before the shared
      link, the stamp, or the removal after a failure. */
  datatype Death =
    | Lives | InFetch | InUnpack | WithoutRootfs | BeforeArchiveRemoval | BeforeMeta | InMeta
    | InConfig | BeforeLink | BeforeStamp | BeforeRemoval

  /** inode is that of the directory a new rootfs is extracted into, users are the
      inodes that processes have as their root. */
  datatype Env = Env(
    mkdirOk: bool, artifact: Fetched, unpackOk: bool, meta: MetaEnd, wantsConfig: bool, config: Fetched,
    linkOk: bool, stamp: Option<int>, mtime: int, inode: nat, users: set<nat>, death: Death)

  datatype Failure =
    | MkdirFailed | FetchFailed | MissingFile | Mismatch | UnpackFailed | MetaFailed | ConfigFailed | LinkFailed
    | Died

  // ----- Verify -----

  predicate Verifies(hash: HashFn, r: Release, ref: Ref) {
    ref.digest != "" &&
    match ref.kind
    case OCIImage => r.meta.Some? && EqualFold(r.meta.value, ref.digest) && r.rootfs.Some?
    case Binary => r.bin.Some? && DigestMatches(hash(r.bin.value), ref.digest)
  }

  predicate HasVerified(hash: HashFn, tree: Tree, ref: Ref) {
    ref.version in tree && Verifies(hash, tree[ref.version], ref)
  }

  // ----- Download -----

  function Landed(prior: Option<Content>, f: Fetched): Option<Content> {
    if f.written.Some? then f.written else prior
  }

  function BinaryStep(hash: HashFn, r: Release, ref: Ref, env: Env): (Release, Option<Failure>) {
    if Verifies(hash, r, ref) then (r, None)
    else
      var r1 := r.(bin := Landed(r.bin, env.artifact));
      (r1,
       if env.death == InFetch then Some(Died)
       else if !env.artifact.ok then Some(FetchFailed)
       else if r1.bin.None? then Some(MissingFile)
       else if ref.digest != "" && !Verifies(hash, r1, ref) then Some(Mismatch)
       else None)
  }

  function MetaAfter(prior: Option<string>, want: string, end: MetaEnd): Option<string> {
    match end
    case MetaWritten => Some(want)
    case MetaNotOpened => prior
    case MetaTorn => None
  }

  /** The archive is kept after a failed fetch and removed in every other case;
      a failed unpack takes the previous rootfs with it. */
  function ImageStep(hash: HashFn, r: Release, ref: Ref, env: Env): (Release, Option<Failure>) {
    if Verifies(hash, r, ref) then (r, None)
    else
      var fetched := r.(tar := Landed(r.tar, env.artifact));
      if env.death == InFetch then (fetched, Some(Died))
      else if !env.artifact.ok then (fetched, Some(FetchFailed))
      else if fetched.tar.None? then (fetched, Some(MissingFile))
      else
        var got := "sha256:" + hash(fetched.tar.value);
        if ref.digest != "" && !EqualFold(got, ref.digest) then (fetched.(tar := None), Some(Mismatch))
        else UnpackStep(fetched, if ref.digest == "" then got else ref.digest, env)
  }

  function UnpackStep(fetched: Release, want: string, env: Env): (Release, Option<Failure>)
    requires fetched.tar.Some?
  {
    var unpacked := fetched.(rootfs := Some(Rootfs(fetched.tar.value, env.inode)));
    if env.death == InUnpack then (fetched, Some(Died))
    else if env.death == WithoutRootfs then (fetched.(rootfs := None), Some(Died))
    else if !env.unpackOk then (fetched.(tar := None, rootfs := None), Some(UnpackFailed))
    else if env.death == BeforeArchiveRemoval then (unpacked, Some(Died))
    else if env.death == BeforeMeta then (unpacked.(tar := None), Some(Died))
    else if env.death == InMeta then (unpacked.(tar := None, meta := None), Some(Died))
    else
      (unpacked.(tar := None, meta := MetaAfter(fetched.meta, want, env.meta)),
       if env.meta == MetaWritten then None else Some(MetaFailed))
  }

  function Populate(hash: HashFn, r: Release, ref: Ref, env: Env): (Release, Option<Failure>) {
    var (r1, failed) := if ref.kind == OCIImage then ImageStep(hash, r, ref, env) else BinaryStep(hash, r, ref, env);
    if failed.Some? then (r1, failed) else Finish(r1, env)
  }

  /** Configuration, shared link and stamp. */
  function Finish(r: Release, env: Env): (Release, Option<Failure>) {
    var r2 := if env.wantsConfig then r.(config := Landed(r.config, env.config)) else r;
    if env.wantsConfig && env.death == InConfig then (r2, Some(Died))
    else if env.wantsConfig && !env.config.ok then (r2, Some(ConfigFailed))
    else if env.death == BeforeLink then (r2, Some(Died))
    else if !env.linkOk then (r2, Some(LinkFailed))
    else if env.death == BeforeStamp then (r2.(sharedLink := true), Some(Died))
    else (r2.(sharedLink := true, stamp := if r2.stamp.Some? then r2.stamp else env.stamp), None)
  }

  function EmptyRelease(mtime: int): Release {
    Release(None, None, None, None, None, false, None, mtime)
  }

  /** The directory a download finds or makes. */
  function Started(tree: Tree, ref: Ref, env: Env): Release {
    if ref.version in tree then tree[ref.version] else EmptyRelease(env.mtime)
  }

  /** Some process has this rootfs, this very directory, as its root. */
  predicate InUse(r: Release, env: Env) {
    r.rootfs.Some? && r.rootfs.value.inode in env.users
  }

  function AfterDownload(hash: HashFn, tree: Tree, ref: Ref, env: Env): (Tree, Option<Failure>) {
    var (r, failed) := Populate(hash, Started(tree, ref, env), ref, env);
    var left := tree[ref.version := r.(mtime := env.mtime)];
    if !env.mkdirOk then (tree, Some(MkdirFailed))
    else if failed.Some? && failed.value != Died && !HasVerified(hash, tree, ref) && !InUse(r, env) then
      if env.death == BeforeRemoval then (left, Some(Died)) else (tree - {ref.version}, failed)
    else (left, failed)
  }

  // ----- collection -----

  function InstalledAt(r: Release): int {
    if r.stamp.Some? && r.stamp.value > 0 then r.stamp.value else r.mtime
  }

  function EntryOf(tree: Tree, version: string): Entry
    requires version in tree
  {
    Entry(version, InstalledAt(tree[version]))
  }

  /** The configured retention, or the default 3. */
  function EffectiveRetention(configured: int): (r: nat)
    ensures r > 0
  {
    if configured <= 0 then 3 else configured
  }

  function KeptOnDisk(tree: Tree, keep: set<string>): set<string> {
    set v | v in tree && v in keep && v != ""
  }

  /** Places left after the keep-listed versions that are on disk. */
  function ExtraBudget(tree: Tree, keep: set<string>, configured: int): nat {
    var kept := |KeptOnDisk(tree, keep)|;
    if EffectiveRetention(configured) <= kept then 0 else EffectiveRetention(configured) - kept
  }

  /** The versions the collector may delete: neither keep-listed nor in use. */
  function Free(tree: Tree, keep: set<string>, inUse: set<string>): set<Entry> {
    set v | v in tree && v !in KeptOnDisk(tree, keep) && v !in inUse :: EntryOf(tree, v)
  }

  /** What the collector keeps: keep-listed versions, versions in use, and the
      newest others the budget allows. */
  predicate Keeps(tree: Tree, keep: set<string>, configured: int, inUse: set<string>, v: string) {
    v in tree &&
    (v in KeptOnDisk(tree, keep) || v in inUse ||
     EntryOf(tree, v) in Newest(Free(tree, keep, inUse), ExtraBudget(tree, keep, configured)))
  }

  function Doomed(tree: Tree, keep: set<string>, configured: int, inUse: set<string>): set<Entry> {
    Free(tree, keep, inUse) - Newest(Free(tree, keep, inUse), ExtraBudget(tree, keep, configured))
  }

  /** Deletion proceeds from the newest doomed version and stops at the first
      one that cannot be removed. */
  predicate Reached(doomed: set<Entry>, failing: set<string>, e: Entry) {
    e in doomed && forall f | f in doomed && f.name in failing :: Newer(e, f)
  }

  function AfterGC(tree: Tree, keep: set<string>, configured: int, inUse: set<string>, failing: set<string>): Tree {
    var doomed := Doomed(tree, keep, configured, inUse);
    tree - set e | e in doomed && Reached(doomed, failing, e) :: e.name
  }
}
