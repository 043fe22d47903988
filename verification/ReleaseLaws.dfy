/** What Download and the release collector guarantee, for one call and over
    every run. */
module ReleaseLaws {
  import opened Prelude
  import opened Digests
  import opened Retention
  import opened Releases

  // ----- Download -----

  /** After a download of a reference with a digest: success means the release
      verifies; a release that verified before still does, even if the process
      dies; any other failure leaves no directory unless the rootfs it holds is in
      use; no other version is touched. */
  lemma DownloadOutcome(hash: HashFn, tree: Tree, ref: Ref, env: Env)
    requires ref.digest != ""
    ensures var (after, failed) := AfterDownload(hash, tree, ref, env);
            (failed.None? ==> HasVerified(hash, after, ref)) &&
            (HasVerified(hash, tree, ref) ==> HasVerified(hash, after, ref)) &&
            (failed == Some(MkdirFailed) ==> after == tree) &&
            (failed.Some? && failed.value !in {MkdirFailed, Died} && !HasVerified(hash, tree, ref) ==>
               (ref.version in after <==> InUse(Populate(hash, Started(tree, ref, env), ref, env).0, env))) &&
            after - {ref.version} == tree - {ref.version}
  {
    var start := Started(tree, ref, env);
    PopulateVerifies(hash, start, ref, env);
  }

  lemma PopulateVerifies(hash: HashFn, r: Release, ref: Ref, env: Env)
    requires ref.digest != ""
    ensures var (after, failed) := Populate(hash, r, ref, env);
            failed.None? || Verifies(hash, r, ref) ==> Verifies(hash, after, ref)
  {
  }

  /** A successful download leaves the shared link, the fetched config, a stamp
      (the first one) and no image archive it fetched; a release that was verified
      before keeps its binary and image as they were, even when the download
      fails. */
  lemma DownloadCompletes(hash: HashFn, tree: Tree, ref: Ref, env: Env)
    ensures var (after, failed) := AfterDownload(hash, tree, ref, env);
            var v := ref.version;
            (failed.None? ==>
               v in after && after[v].sharedLink &&
               after[v].config == (if env.wantsConfig && env.config.written.Some? then env.config.written
                                   else Started(tree, ref, env).config) &&
               after[v].stamp == (if v in tree && tree[v].stamp.Some? then tree[v].stamp else env.stamp) &&
               (ref.kind == OCIImage && !HasVerified(hash, tree, ref) ==> after[v].tar.None?)) &&
            (HasVerified(hash, tree, ref) ==>
               v in after && after[v].bin == tree[v].bin && after[v].rootfs == tree[v].rootfs &&
                 after[v].meta == tree[v].meta)
  {
    var start := Started(tree, ref, env);
    PopulateCompletes(hash, start, ref, env);
    assert HasVerified(hash, tree, ref) ==> Verifies(hash, start, ref);
    assert Verifies(hash, start, ref) ==> HasVerified(hash, tree, ref);
  }

  lemma PopulateCompletes(hash: HashFn, r: Release, ref: Ref, env: Env)
    ensures var (after, failed) := Populate(hash, r, ref, env);
            (failed.None? ==>
               after.sharedLink &&
               after.config == (if env.wantsConfig && env.config.written.Some? then env.config.written else r.config) &&
               after.stamp == (if r.stamp.Some? then r.stamp else env.stamp) &&
               (ref.kind == OCIImage && !Verifies(hash, r, ref) ==> after.tar.None?)) &&
            (Verifies(hash, r, ref) ==> after.bin == r.bin && after.rootfs == r.rootfs && after.meta == r.meta)
  {
  }

  // ----- the same without the steps' own terms -----

  /** The release on disk has the digest: the binary its hash, or the image's
      metadata, beside a rootfs, that digest. */
  predicate HasDigest(hash: HashFn, tree: Tree, ref: Ref) {
    ref.digest != "" && ref.version in tree &&
    var r := tree[ref.version];
    if ref.kind == Binary then r.bin.Some? && EqualFold("sha256:" + hash(r.bin.value), ref.digest)
    else r.meta.Some? && r.rootfs.Some? && EqualFold(r.meta.value, ref.digest)
  }

  /** What is at the place of the artifact after the fetch: what it wrote, or what
      was there. */
  function ArtifactFile(tree: Tree, ref: Ref, env: Env): Option<Content> {
    if env.artifact.written.Some? then env.artifact.written
    else if ref.version !in tree then None
    else if ref.kind == Binary then tree[ref.version].bin
    else tree[ref.version].tar
  }

  /** The fetch returned nil and left a file of the digest, if one is asked for. */
  predicate FetchedWell(hash: HashFn, tree: Tree, ref: Ref, env: Env) {
    env.artifact.ok && ArtifactFile(tree, ref, env).Some? &&
    (ref.digest != "" ==> EqualFold("sha256:" + hash(ArtifactFile(tree, ref, env).value), ref.digest))
  }

  lemma HasDigestIsVerified(hash: HashFn, tree: Tree, ref: Ref, env: Env)
    ensures HasVerified(hash, tree, ref) <==> HasDigest(hash, tree, ref)
    ensures Verifies(hash, Started(tree, ref, env), ref) <==> HasDigest(hash, tree, ref)
  {
  }

  /** When the process lives, a download succeeds exactly when the directory could
      be made, the release had the digest before or the artifact was fetched well
      (and, for an image, unpacked and its metadata written), a wanted
      configuration was fetched, and the link was made. */
  lemma DownloadSucceedsIff(hash: HashFn, tree: Tree, ref: Ref, env: Env)
    requires env.death == Lives
    ensures AfterDownload(hash, tree, ref, env).1.None? <==>
            env.mkdirOk &&
            (HasDigest(hash, tree, ref) ||
             (FetchedWell(hash, tree, ref, env) &&
              (ref.kind == OCIImage ==> env.unpackOk && env.meta == MetaWritten))) &&
            (env.wantsConfig ==> env.config.ok) && env.linkOk
  {
    HasDigestIsVerified(hash, tree, ref, env);
    StepSucceedsIff(hash, tree, ref, env);
  }

  lemma StepSucceedsIff(hash: HashFn, tree: Tree, ref: Ref, env: Env)
    requires env.death == Lives
    ensures var start := Started(tree, ref, env);
            var step := if ref.kind == OCIImage then ImageStep(hash, start, ref, env)
                        else BinaryStep(hash, start, ref, env);
            step.1.None? <==>
            HasDigest(hash, tree, ref) ||
            (FetchedWell(hash, tree, ref, env) && (ref.kind == OCIImage ==> env.unpackOk && env.meta == MetaWritten))
  {
    HasDigestIsVerified(hash, tree, ref, env);
  }

  /** And then the release is the artifact that was fetched, unless it had the
      digest before. */
  lemma DownloadInstalls(hash: HashFn, tree: Tree, ref: Ref, env: Env)
    requires AfterDownload(hash, tree, ref, env).1.None? && !HasDigest(hash, tree, ref)
    ensures var r := AfterDownload(hash, tree, ref, env).0;
            var file := ArtifactFile(tree, ref, env);
            var start := Started(tree, ref, env);
            ref.version in r && file.Some? && r[ref.version].mtime == env.mtime &&
            if ref.kind == Binary then
              r[ref.version].bin == file && r[ref.version].rootfs == start.rootfs && r[ref.version].meta == start.meta
            else
              r[ref.version].bin == start.bin &&
              r[ref.version].rootfs == Some(Rootfs(file.value, env.inode)) &&
              r[ref.version].meta == Some(if ref.digest == "" then "sha256:" + hash(file.value) else ref.digest)
  {
    HasDigestIsVerified(hash, tree, ref, env);
  }

  /** What a failure says about the inputs. */
  predicate HasHappened(hash: HashFn, tree: Tree, ref: Ref, env: Env, failure: Failure) {
    match failure
    case MkdirFailed => !env.mkdirOk
    case FetchFailed => !env.artifact.ok
    case MissingFile => env.artifact.ok && ArtifactFile(tree, ref, env).None?
    case Mismatch =>
      ref.digest != "" && ArtifactFile(tree, ref, env).Some? &&
      !EqualFold("sha256:" + hash(ArtifactFile(tree, ref, env).value), ref.digest)
    case UnpackFailed => ref.kind == OCIImage && !env.unpackOk
    case MetaFailed => ref.kind == OCIImage && env.meta != MetaWritten
    case ConfigFailed => env.wantsConfig && !env.config.ok
    case LinkFailed => !env.linkOk
    case Died => env.death != Lives
  }

  lemma StepFailureMeans(hash: HashFn, tree: Tree, ref: Ref, env: Env)
    ensures var start := Started(tree, ref, env);
            var failed := if ref.kind == OCIImage then ImageStep(hash, start, ref, env).1
                          else BinaryStep(hash, start, ref, env).1;
            failed.Some? ==> HasHappened(hash, tree, ref, env, failed.value)
  {
  }

  lemma FinishFailureMeans(hash: HashFn, tree: Tree, ref: Ref, r: Release, env: Env)
    ensures Finish(r, env).1.Some? ==> HasHappened(hash, tree, ref, env, Finish(r, env).1.value)
  {
  }

  /** A directory that stays is touched, and a new one starts empty. */
  lemma DownloadTouches(hash: HashFn, tree: Tree, ref: Ref, env: Env)
    requires env.mkdirOk && ref.version in AfterDownload(hash, tree, ref, env).0
    ensures AfterDownload(hash, tree, ref, env).0[ref.version].mtime == env.mtime
    ensures ref.version !in tree ==>
              Started(tree, ref, env) == Release(None, None, None, None, None, false, None, env.mtime)
  {
  }

  /** The failure that is reported is the one that happened. */
  lemma DownloadFailureMeans(hash: HashFn, tree: Tree, ref: Ref, env: Env)
    ensures var failed := AfterDownload(hash, tree, ref, env).1;
            failed.Some? ==> HasHappened(hash, tree, ref, env, failed.value)
  {
    var start := Started(tree, ref, env);
    StepFailureMeans(hash, tree, ref, env);
    FinishFailureMeans(hash, tree, ref, ImageStep(hash, start, ref, env).0, env);
    FinishFailureMeans(hash, tree, ref, BinaryStep(hash, start, ref, env).0, env);
  }

  /** What a failed download of an image leaves where the directory stays: the
      archive only if the fetch itself failed; the old rootfs, unless unpacking
      failed, and the old metadata, unless writing it did. */
  lemma FailedImageLeaves(hash: HashFn, tree: Tree, ref: Ref, env: Env)
    requires ref.kind == OCIImage && env.death == Lives && env.mkdirOk && !HasDigest(hash, tree, ref)
    requires AfterDownload(hash, tree, ref, env).1.Some? && ref.version in AfterDownload(hash, tree, ref, env).0
    ensures var (after, failed) := AfterDownload(hash, tree, ref, env);
            var r, start := after[ref.version], Started(tree, ref, env);
            r.bin == start.bin && r.mtime == env.mtime &&
            r.tar == (if failed.value == FetchFailed then ArtifactFile(tree, ref, env) else None) &&
            (failed.value in {FetchFailed, MissingFile, Mismatch} ==>
               r.rootfs == start.rootfs && r.meta == start.meta) &&
            (failed.value == UnpackFailed ==> r.rootfs.None? && r.meta == start.meta) &&
            (failed.value == MetaFailed && env.meta == MetaTorn ==> r.meta.None?) &&
            (failed.value == MetaFailed && env.meta == MetaNotOpened ==> r.meta == start.meta)
  {
    HasDigestIsVerified(hash, tree, ref, env);
  }

  // ----- what an accepted image holds -----

  /** The metadata and the rootfs belong to one archive. */
  predicate ImageSound(hash: HashFn, r: Release) {
    r.meta.Some? && r.rootfs.Some? ==> EqualFold("sha256:" + hash(r.rootfs.value.archive), r.meta.value)
  }

  predicate ImagesSound(hash: HashFn, tree: Tree) {
    forall v | v in tree :: ImageSound(hash, tree[v])
  }

  /** No process has the directory being filled as its root: the agent starts none
      on a release it is downloading. */
  predicate NewRootfsIsUnused(env: Env) {
    env.inode !in env.users
  }

  /** The process dies when the new rootfs is in place and the metadata not yet
      written, or when a directory whose metadata could not be written is about to
      be removed. */
  predicate DiesUnpacked(env: Env) {
    env.death == BeforeArchiveRemoval || env.death == BeforeMeta ||
    (env.death == BeforeRemoval && env.meta == MetaNotOpened)
  }

  /** The archive a download unpacks, if it comes that far. */
  function Unpacked(hash: HashFn, tree: Tree, ref: Ref, env: Env): Option<Content> {
    var tar := Landed(Started(tree, ref, env).tar, env.artifact);
    if env.mkdirOk && ref.kind == OCIImage && !HasVerified(hash, tree, ref) && env.artifact.ok && tar.Some? &&
       (ref.digest == "" || EqualFold("sha256:" + hash(tar.value), ref.digest)) && env.unpackOk
    then tar else None
  }

  /** It dies then, and there is old metadata, of another archive. */
  predicate DiesOverOldMeta(hash: HashFn, tree: Tree, ref: Ref, env: Env) {
    DiesUnpacked(env) && Unpacked(hash, tree, ref, env).Some? && Started(tree, ref, env).meta.Some? &&
    !EqualFold("sha256:" + hash(Unpacked(hash, tree, ref, env).value), Started(tree, ref, env).meta.value)
  }

  /** Configuration, link and stamp leave the image alone. */
  lemma PopulateKeepsImage(hash: HashFn, r: Release, ref: Ref, env: Env)
    ensures var (after, failed) := Populate(hash, r, ref, env);
            var (image, imageFailed) := if ref.kind == OCIImage then ImageStep(hash, r, ref, env) else (r, None);
            after.meta == image.meta && after.rootfs == image.rootfs && (imageFailed.Some? ==> failed == imageFailed) &&
            (failed == Some(MetaFailed) ==> imageFailed == failed)
  {
  }

  /** What the image step leaves is sound, except over old metadata after a death or
      a metadata file that could not be opened. */
  lemma ImageStepSoundIff(hash: HashFn, tree: Tree, ref: Ref, env: Env)
    requires ref.kind == OCIImage && env.mkdirOk && ImageSound(hash, Started(tree, ref, env))
    ensures var (image, failed) := ImageStep(hash, Started(tree, ref, env), ref, env);
            var archive := Unpacked(hash, tree, ref, env);
            ImageSound(hash, image) <==>
            !(archive.Some? && Started(tree, ref, env).meta.Some? &&
              !EqualFold("sha256:" + hash(archive.value), Started(tree, ref, env).meta.value) &&
              (env.death in {BeforeArchiveRemoval, BeforeMeta} ||
               (env.meta == MetaNotOpened && env.death !in {InFetch, InUnpack, WithoutRootfs, InMeta})))
    ensures var (image, failed) := ImageStep(hash, Started(tree, ref, env), ref, env);
            Unpacked(hash, tree, ref, env).Some? && env.meta == MetaNotOpened &&
            env.death !in {InFetch, InUnpack, WithoutRootfs, InMeta, BeforeArchiveRemoval, BeforeMeta} ==>
              failed == Some(MetaFailed) && image.rootfs.Some? && image.rootfs.value.inode == env.inode
    ensures var (image, failed) := ImageStep(hash, Started(tree, ref, env), ref, env);
            Unpacked(hash, tree, ref, env).Some? && env.death in {BeforeArchiveRemoval, BeforeMeta} ==>
              failed == Some(Died)
  {
    var start := Started(tree, ref, env);
    assert Verifies(hash, start, ref) <==> HasVerified(hash, tree, ref);
  }

  /** A download keeps metadata and rootfs of every release together if and only if
      the process does not die over old metadata. Failures alone never part them:
      a directory with a new rootfs and no new metadata is not in use, so it is
      removed. */
  lemma DownloadKeepsImagesIff(hash: HashFn, tree: Tree, ref: Ref, env: Env)
    requires ImagesSound(hash, tree) && NewRootfsIsUnused(env)
    ensures ImagesSound(hash, AfterDownload(hash, tree, ref, env).0) <==> !DiesOverOldMeta(hash, tree, ref, env)
  {
    var (after, outcome) := AfterDownload(hash, tree, ref, env);
    var start := Started(tree, ref, env);
    var (r, failed) := Populate(hash, start, ref, env);
    forall v | v in after && v != ref.version ensures ImageSound(hash, after[v]) {
      assert v in tree && after[v] == tree[v];
    }
    assert ImageSound(hash, start);
    assert Verifies(hash, start, ref) <==> HasVerified(hash, tree, ref);
    PopulateKeepsImage(hash, start, ref, env);
    if env.mkdirOk && ref.kind == OCIImage {
      ImageStepSoundIff(hash, tree, ref, env);
    }
    assert ref.version in after && env.mkdirOk ==> (ImageSound(hash, after[ref.version]) <==> ImageSound(hash, r));
  }

  /** A failed download can leave a rootfs that is in use without a verified
      release around it. */
  lemma InUseReleaseMayBeLeftUnverified(hash: HashFn, tree: Tree, ref: Ref, env: Env)
    requires ref.version in tree && ref.kind == OCIImage && ref.digest != "" && tree[ref.version].rootfs.Some?
    requires !HasVerified(hash, tree, ref) && tree[ref.version].rootfs.value.inode in env.users
    requires env.artifact == Fetched(None, false) && env.mkdirOk
    ensures var after := AfterDownload(hash, tree, ref, env).0;
            ref.version in after && after[ref.version].rootfs.Some? && !HasVerified(hash, after, ref)
  {
  }

  // ----- one collection -----

  /** What survives: what the collector keeps, and, when some version could not
      be removed, the doomed versions not reached before it. */
  lemma GCKeepsExactly(tree: Tree, keep: set<string>, configured: int, inUse: set<string>, failing: set<string>,
      v: string)
    requires v in tree
    ensures var doomed := Doomed(tree, keep, configured, inUse);
            v in AfterGC(tree, keep, configured, inUse, failing) <==>
            Keeps(tree, keep, configured, inUse, v) || !Reached(doomed, failing, EntryOf(tree, v))
    ensures v in AfterGC(tree, keep, configured, inUse, {}) <==> Keeps(tree, keep, configured, inUse, v)
    ensures v in AfterGC(tree, keep, configured, inUse, failing) ==>
            AfterGC(tree, keep, configured, inUse, failing)[v] == tree[v]
  {
    var doomed := Doomed(tree, keep, configured, inUse);
    var e := EntryOf(tree, v);
    assert e in doomed <==> !Keeps(tree, keep, configured, inUse, v);
    forall f | f in doomed && f.name == v ensures f == e {
    }
  }

  /** Keep-listed and in-use versions all stay, and of the rest exactly as many
      as the budget allows. */
  lemma GCCount(tree: Tree, keep: set<string>, configured: int, inUse: set<string>)
    ensures var after := AfterGC(tree, keep, configured, inUse, {});
            var budget := ExtraBudget(tree, keep, configured);
            var free := |Free(tree, keep, inUse)|;
            KeptOnDisk(tree, keep) + (tree.Keys * inUse) <= after.Keys &&
            |Free(after, keep, inUse)| == if budget < free then budget else free
  {
    var after := AfterGC(tree, keep, configured, inUse, {});
    forall v | v in tree ensures v in after <==> Keeps(tree, keep, configured, inUse, v) {
      GCKeepsExactly(tree, keep, configured, inUse, {}, v);
    }
    FreeAfterGC(tree, keep, configured, inUse);
    NewestCard(Free(tree, keep, inUse), ExtraBudget(tree, keep, configured));
  }

  /** Neither keep-listed nor in use. */
  predicate IsFree(tree: Tree, keep: set<string>, inUse: set<string>, v: string) {
    v in tree && (v !in keep || v == "") && v !in inUse
  }

  /** Its install time is the stamp, if it is positive, or else the directory's
      modification time. */
  predicate RanksAt(r: Release, time: int) {
    time == if r.stamp.Some? && r.stamp.value > 0 then r.stamp.value else r.mtime
  }

  function FreeVersions(tree: Tree, keep: set<string>, inUse: set<string>): set<string> {
    set v | v in tree && IsFree(tree, keep, inUse, v)
  }

  function EntriesOf(tree: Tree, vs: set<string>): set<Entry>
    requires vs <= tree.Keys
  {
    set v | v in vs :: EntryOf(tree, v)
  }

  lemma {:induction false} EntriesCard(tree: Tree, vs: set<string>)
    requires vs <= tree.Keys
    ensures |EntriesOf(tree, vs)| == |vs|
  {
    if vs != {} {
      var v :| v in vs;
      EntriesCard(tree, vs - {v});
      assert EntriesOf(tree, vs) == EntriesOf(tree, vs - {v}) + {EntryOf(tree, v)};
    }
  }

  lemma FreeVersionsCard(tree: Tree, keep: set<string>, inUse: set<string>)
    ensures |FreeVersions(tree, keep, inUse)| == |Free(tree, keep, inUse)|
  {
    var vs := FreeVersions(tree, keep, inUse);
    EntriesCard(tree, vs);
    assert EntriesOf(tree, vs) == Free(tree, keep, inUse);
  }

  /** How many: the retention is the configured one if it is positive, or else 3, and
      the keep-listed versions on disk take their places in it first. */
  lemma GCKeepsThisMany(tree: Tree, keep: set<string>, configured: int, inUse: set<string>)
    ensures var after := AfterGC(tree, keep, configured, inUse, {});
            var retention := if configured > 0 then configured else 3;
            var listed := set v | v in tree && v in keep && v != "";
            var places := if |listed| < retention then retention - |listed| else 0;
            var free := |FreeVersions(tree, keep, inUse)|;
            |FreeVersions(after, keep, inUse)| == (if free < places then free else places) &&
            forall v | v in tree && !IsFree(tree, keep, inUse, v) :: v in after
  {
    var after := AfterGC(tree, keep, configured, inUse, {});
    GCCount(tree, keep, configured, inUse);
    FreeVersionsCard(tree, keep, inUse);
    FreeVersionsCard(after, keep, inUse);
    assert KeptOnDisk(tree, keep) == set v | v in tree && v in keep && v != "";
  }

  /** Newest first: of two free versions the one that was installed later, or at the
      same time with the greater name, stays if the other does, also when some
      version cannot be removed. */
  lemma GCKeepsNewest(tree: Tree, keep: set<string>, configured: int, inUse: set<string>, v: string, w: string,
      at: int, later: int)
    requires IsFree(tree, keep, inUse, v) && IsFree(tree, keep, inUse, w)
    requires RanksAt(tree[v], at) && RanksAt(tree[w], later) && (later > at || (later == at && StrLess(v, w)))
    ensures v in AfterGC(tree, keep, configured, inUse, {}) ==> w in AfterGC(tree, keep, configured, inUse, {})
  {
    GCKeepsExactly(tree, keep, configured, inUse, {}, v);
    GCKeepsExactly(tree, keep, configured, inUse, {}, w);
    if v in AfterGC(tree, keep, configured, inUse, {}) {
      var S := Free(tree, keep, inUse);
      assert EntryOf(tree, w) in S && EntryOf(tree, v) in S;
      NewestIsUpward(S, ExtraBudget(tree, keep, configured), EntryOf(tree, v), EntryOf(tree, w));
    }
  }

  /** When a version cannot be removed, it stays, and of the versions that would have
      gone only later ones are gone. */
  lemma StuckGCStops(tree: Tree, keep: set<string>, configured: int, inUse: set<string>, failing: set<string>,
      v: string, w: string, at: int, later: int)
    requires v in tree && w in tree && RanksAt(tree[v], at) && RanksAt(tree[w], later)
    requires w in failing && v !in AfterGC(tree, keep, configured, inUse, failing)
    requires w !in AfterGC(tree, keep, configured, inUse, {})
    ensures w in AfterGC(tree, keep, configured, inUse, failing) && (at > later || (at == later && StrLess(w, v)))
    ensures v !in AfterGC(tree, keep, configured, inUse, {})
  {
    GCKeepsExactly(tree, keep, configured, inUse, failing, v);
    GCKeepsExactly(tree, keep, configured, inUse, failing, w);
    var doomed := Doomed(tree, keep, configured, inUse);
    assert EntryOf(tree, w) in doomed && EntryOf(tree, v) in doomed;
    NewerIrreflexive(EntryOf(tree, w));
  }

  lemma FreeAfterGC(tree: Tree, keep: set<string>, configured: int, inUse: set<string>)
    ensures var after := AfterGC(tree, keep, configured, inUse, {});
            Free(after, keep, inUse) == Newest(Free(tree, keep, inUse), ExtraBudget(tree, keep, configured)) &&
            KeptOnDisk(after, keep) == KeptOnDisk(tree, keep)
  {
  }

  /** With the same versions in use a second collection deletes nothing. */
  lemma GCIsIdempotent(tree: Tree, keep: set<string>, configured: int, inUse: set<string>)
    ensures var once := AfterGC(tree, keep, configured, inUse, {});
            AfterGC(once, keep, configured, inUse, {}) == once
  {
    var once := AfterGC(tree, keep, configured, inUse, {});
    FreeAfterGC(tree, keep, configured, inUse);
    NewestIdempotent(Free(tree, keep, inUse), ExtraBudget(tree, keep, configured));
    assert Doomed(once, keep, configured, inUse) == {};
  }

  /** More versions in use, or a higher effective retention, never cost a
      version that was kept. */
  lemma GCMonotone(tree: Tree, keep: set<string>, low: int, high: int, inUse: set<string>, more: set<string>, v: string)
    requires inUse <= more && EffectiveRetention(low) <= EffectiveRetention(high)
    requires Keeps(tree, keep, low, inUse, v)
    ensures Keeps(tree, keep, high, more, v)
  {
    if v !in KeptOnDisk(tree, keep) && v !in more {
      assert Free(tree, keep, more) <= Free(tree, keep, inUse);
      NewestMonotone(Free(tree, keep, more), Free(tree, keep, inUse),
                     ExtraBudget(tree, keep, low), ExtraBudget(tree, keep, high));
      assert EntryOf(tree, v) in Free(tree, keep, more);
    }
  }

  /** The condition on the retentions is exact. In particular raising the
      configured value from 0, which means 3, to 1 deletes more. */
  lemma RetentionMonotoneIff(low: int, high: int)
    ensures (forall tree, keep, inUse, v :: Keeps(tree, keep, low, inUse, v) ==> Keeps(tree, keep, high, inUse, v)) <==>
            EffectiveRetention(low) <= EffectiveRetention(high)
  {
    if EffectiveRetention(low) <= EffectiveRetention(high) {
      forall tree, keep, inUse, v | Keeps(tree, keep, low, inUse, v) ensures Keeps(tree, keep, high, inUse, v) {
        GCMonotone(tree, keep, low, high, inUse, inUse, v);
      }
    } else {
      var n := EffectiveRetention(low);
      var tree := Sample(n);
      SampleFree(n);
      assert KeptOnDisk(tree, {}) == {};
      var free := Free(tree, {}, {});
      NewestCard(free, n);
      NewestCard(free, EffectiveRetention(high));
      var e :| e in free && e !in Newest(free, EffectiveRetention(high)) by {
        if free <= Newest(free, EffectiveRetention(high)) {
          SubsetCard(free, Newest(free, EffectiveRetention(high)));
        }
      }
      RankBelowCard(e, free);
      assert Keeps(tree, {}, low, {}, e.name) && !Keeps(tree, {}, high, {}, e.name);
    }
  }

  lemma RankBelowCard(e: Entry, S: set<Entry>)
    requires e in S
    ensures Rank(e, S) < |S|
  {
    NewerIrreflexive(e);
    SubsetCard(Above(e, S), S - {e});
  }

  function SampleName(n: nat): string {
    seq(n, _ => 'v')
  }

  /** n releases with the same install time. */
  function Sample(n: nat): Tree {
    if n == 0 then map[] else Sample(n - 1)[SampleName(n) := EmptyRelease(0)]
  }

  lemma {:induction false} SampleFree(n: nat)
    ensures |Free(Sample(n), {}, {})| == n
    ensures forall e | e in Free(Sample(n), {}, {}) :: |e.name| <= n
  {
    if n == 0 {
      assert Free(Sample(n), {}, {}) == {};
    } else {
      SampleFree(n - 1);
      var t := Sample(n - 1);
      var v := SampleName(n);
      assert v in t ==> EntryOf(t, v) in Free(t, {}, {});
      FreeGrows(t, v);
    }
  }

  lemma FreeGrows(t: Tree, v: string)
    requires v !in t
    ensures Free(t[v := EmptyRelease(0)], {}, {}) == Free(t, {}, {}) + {Entry(v, 0)}
    ensures Entry(v, 0) !in Free(t, {}, {})
  {
  }

  // ----- runs -----

  /** landed numbers the stamped versions in the order their stamps were
      written; it is history, not something the agent stores. */
  datatype State = State(tree: Tree, clock: int, next: nat, landed: map<string, nat>)

  datatype Op =
    | Download(ref: Ref, env: Env)
    | Collect(keep: set<string>, configured: int, inUse: set<string>, failing: set<string>)
    | Touch(version: string, mtime: int)

  function AfterOp(hash: HashFn, tree: Tree, op: Op): Tree {
    match op
    case Download(ref, env) => AfterDownload(hash, tree, ref, env).0
    case Collect(keep, configured, inUse, failing) => AfterGC(tree, keep, configured, inUse, failing)
    case Touch(version, mtime) => if version in tree then tree[version := tree[version].(mtime := mtime)] else tree
  }

  predicate Stamped(tree: Tree, v: string) {
    v in tree && tree[v].stamp.Some?
  }

  /** The clock is positive and does not go back. */
  predicate ClockOk(s: State, op: Op) {
    op.Download? && op.env.stamp.Some? ==> 0 < op.env.stamp.value && s.clock <= op.env.stamp.value
  }

  function Next(hash: HashFn, s: State, op: Op): State {
    var tree := AfterOp(hash, s.tree, op);
    var stayed := map v | v in s.landed && Stamped(tree, v) :: s.landed[v];
    var clock := if op.Download? && op.env.stamp.Some? then op.env.stamp.value else s.clock;
    if op.Download? && Stamped(tree, op.ref.version) && !Stamped(s.tree, op.ref.version)
    then State(tree, clock, s.next + 1, stayed[op.ref.version := s.next])
    else State(tree, clock, s.next, stayed)
  }

  /** Stamps are positive, not in the future, and ordered as the versions landed. */
  predicate Ordered(s: State) {
    (forall v | v in s.tree && Stamped(s.tree, v) :: v in s.landed) &&
    (forall v | v in s.landed :: Stamped(s.tree, v) && 0 < s.tree[v].stamp.value <= s.clock && s.landed[v] < s.next) &&
    (forall v, w | v in s.landed && w in s.landed && s.landed[v] < s.landed[w] ::
       s.tree[v].stamp.value <= s.tree[w].stamp.value)
  }

  lemma PopulateStamps(hash: HashFn, r: Release, ref: Ref, env: Env)
    ensures var (after, failed) := Populate(hash, r, ref, env);
            after.stamp == r.stamp || (r.stamp.None? && after.stamp == env.stamp)
  {
  }

  lemma DownloadStamps(hash: HashFn, tree: Tree, ref: Ref, env: Env, v: string)
    ensures var after := AfterDownload(hash, tree, ref, env).0;
            (v in after && Stamped(tree, v) ==> after[v].stamp == tree[v].stamp) &&
            (Stamped(after, v) && !Stamped(tree, v) ==> v == ref.version && after[v].stamp == env.stamp)
  {
    PopulateStamps(hash, Started(tree, ref, env), ref, env);
  }

  /** A stamped release keeps the key the collector ranks it by. */
  lemma StampIsKept(hash: HashFn, tree: Tree, op: Op, v: string)
    requires Stamped(tree, v) && v in AfterOp(hash, tree, op)
    ensures AfterOp(hash, tree, op)[v].stamp == tree[v].stamp
  {
    match op
    case Download(ref, env) => DownloadStamps(hash, tree, ref, env, v);
    case Collect(keep, configured, inUse, failing) => GCKeepsExactly(tree, keep, configured, inUse, failing, v);
    case Touch(_, _) =>
  }

  lemma StampIsClock(hash: HashFn, tree: Tree, op: Op, v: string)
    requires !Stamped(tree, v) && Stamped(AfterOp(hash, tree, op), v)
    ensures op.Download? && op.ref.version == v && op.env.stamp == AfterOp(hash, tree, op)[v].stamp
  {
    match op
    case Download(ref, env) => DownloadStamps(hash, tree, ref, env, v);
    case Collect(_, _, _, _) =>
    case Touch(_, _) =>
  }

  lemma NextKeepsOrder(hash: HashFn, s: State, op: Op)
    requires Ordered(s) && ClockOk(s, op)
    ensures Ordered(Next(hash, s, op))
  {
    var t := Next(hash, s, op);
    forall v | v in t.landed || Stamped(t.tree, v) ensures Traced(s, t, v) {
      LandedIsTraced(hash, s, op, v);
    }
    TracedIsOrdered(s, t);
  }

  lemma TracedIsOrdered(s: State, t: State)
    requires Ordered(s) && s.clock <= t.clock && s.next <= t.next
    requires forall v | v in t.landed || Stamped(t.tree, v) :: Traced(s, t, v)
    ensures Ordered(t)
  {
  }

  /** A version with a stamp after a step either had it, and its place, before,
      or was just stamped with the clock and comes last. */
  predicate Traced(s: State, t: State, v: string) {
    Stamped(t.tree, v) && v in t.landed &&
    if Stamped(s.tree, v) then v in s.landed && t.landed[v] == s.landed[v] && t.tree[v].stamp == s.tree[v].stamp
    else t.landed[v] == s.next < t.next && 0 < t.clock == t.tree[v].stamp.value
  }

  lemma LandedIsTraced(hash: HashFn, s: State, op: Op, v: string)
    requires Ordered(s) && ClockOk(s, op)
    requires var t := Next(hash, s, op); v in t.landed || Stamped(t.tree, v)
    ensures Traced(s, Next(hash, s, op), v)
  {
    var t := Next(hash, s, op);
    assert Stamped(t.tree, v);
    if Stamped(s.tree, v) { StampIsKept(hash, s.tree, op, v); } else { StampIsClock(hash, s.tree, op, v); }
  }

  predicate ClockOkRun(hash: HashFn, s: State, ops: seq<Op>)
    decreases |ops|
  {
    ops == [] || (ClockOk(s, ops[0]) && ClockOkRun(hash, Next(hash, s, ops[0]), ops[1..]))
  }

  function Run(hash: HashFn, s: State, ops: seq<Op>): State
    decreases |ops|
  {
    if ops == [] then s else Run(hash, Next(hash, s, ops[0]), ops[1..])
  }

  lemma {:induction false} RunKeepsOrder(hash: HashFn, s: State, ops: seq<Op>)
    requires Ordered(s) && ClockOkRun(hash, s, ops)
    ensures Ordered(Run(hash, s, ops))
    decreases |ops|
  {
    if ops != [] {
      NextKeepsOrder(hash, s, ops[0]);
      RunKeepsOrder(hash, Next(hash, s, ops[0]), ops[1..]);
    }
  }

  /** Over every run from an empty tree, stamped releases rank in the order they
      first landed; only equal timestamps fall back to the name. */
  lemma StampedRankByLanding(hash: HashFn, ops: seq<Op>, v: string, w: string)
    requires ClockOkRun(hash, State(map[], 0, 0, map[]), ops)
    requires var s := Run(hash, State(map[], 0, 0, map[]), ops);
             Stamped(s.tree, v) && Stamped(s.tree, w) && v in s.landed && w in s.landed && s.landed[v] < s.landed[w]
    ensures var s := Run(hash, State(map[], 0, 0, map[]), ops);
            Newer(EntryOf(s.tree, w), EntryOf(s.tree, v)) ||
            (s.tree[v].stamp == s.tree[w].stamp && StrLess(w, v))
    ensures var s := Run(hash, State(map[], 0, 0, map[]), ops);
            forall u | Stamped(s.tree, u) :: u in s.landed
  {
    RunKeepsOrder(hash, State(map[], 0, 0, map[]), ops);
    StrLessTotal(v, w);
    StrLessIrreflexive(v);
  }

  predicate Present(hash: HashFn, s: State, ops: seq<Op>, v: string)
    decreases |ops|
  {
    v in s.tree && (ops == [] || Present(hash, Next(hash, s, ops[0]), ops[1..], v))
  }

  /** As long as its directory is there, no download, config fetch, link rewrite
      or collection changes a stamped release's rank against another. */
  lemma {:induction false} StampedRankIsFixed(hash: HashFn, s: State, ops: seq<Op>, v: string, w: string)
    requires Stamped(s.tree, v) && Stamped(s.tree, w) && s.tree[v].stamp.value > 0 && s.tree[w].stamp.value > 0
    requires Present(hash, s, ops, v) && Present(hash, s, ops, w)
    ensures var t := Run(hash, s, ops).tree;
            v in t && w in t && EntryOf(t, v) == EntryOf(s.tree, v) && EntryOf(t, w) == EntryOf(s.tree, w) &&
            (Newer(EntryOf(t, v), EntryOf(t, w)) <==> Newer(EntryOf(s.tree, v), EntryOf(s.tree, w)))
    decreases |ops|
  {
    if ops != [] {
      StampIsKept(hash, s.tree, ops[0], v);
      StampIsKept(hash, s.tree, ops[0], w);
      StampedRankIsFixed(hash, Next(hash, s, ops[0]), ops[1..], v, w);
    }
  }

  // ----- accepted images, over runs -----

  predicate MixesImage(hash: HashFn, s: State, op: Op) {
    op.Download? && DiesOverOldMeta(hash, s.tree, op.ref, op.env)
  }

  predicate NewRootfsesAreUnused(ops: seq<Op>) {
    forall i | 0 <= i < |ops| && ops[i].Download? :: NewRootfsIsUnused(ops[i].env)
  }

  lemma NextKeepsImagesIff(hash: HashFn, s: State, op: Op)
    requires ImagesSound(hash, s.tree) && (op.Download? ==> NewRootfsIsUnused(op.env))
    ensures ImagesSound(hash, Next(hash, s, op).tree) <==> !MixesImage(hash, s, op)
  {
    match op
    case Download(ref, env) => DownloadKeepsImagesIff(hash, s.tree, ref, env);
    case Collect(keep, configured, inUse, failing) =>
      forall v | v in AfterOp(hash, s.tree, op) ensures ImageSound(hash, AfterOp(hash, s.tree, op)[v]) {
        GCKeepsExactly(s.tree, keep, configured, inUse, failing, v);
      }
    case Touch(_, _) =>
  }

  predicate SoundThroughout(hash: HashFn, s: State, ops: seq<Op>)
    decreases |ops|
  {
    ImagesSound(hash, s.tree) && (ops == [] || SoundThroughout(hash, Next(hash, s, ops[0]), ops[1..]))
  }

  predicate NeverMixes(hash: HashFn, s: State, ops: seq<Op>)
    decreases |ops|
  {
    ops == [] || (!MixesImage(hash, s, ops[0]) && NeverMixes(hash, Next(hash, s, ops[0]), ops[1..]))
  }

  lemma {:induction false} RunKeepsImagesIff(hash: HashFn, s: State, ops: seq<Op>)
    requires ImagesSound(hash, s.tree) && NewRootfsesAreUnused(ops)
    ensures SoundThroughout(hash, s, ops) <==> NeverMixes(hash, s, ops)
    ensures NeverMixes(hash, s, ops) ==> ImagesSound(hash, Run(hash, s, ops).tree)
    decreases |ops|
  {
    if ops != [] {
      NextKeepsImagesIff(hash, s, ops[0]);
      if !MixesImage(hash, s, ops[0]) {
        assert forall i | 0 <= i < |ops[1..]| :: ops[1..][i] == ops[i + 1];
        RunKeepsImagesIff(hash, Next(hash, s, ops[0]), ops[1..]);
      }
    }
  }

  /** The process may die anywhere but there. */
  predicate NeverDiesUnpacked(ops: seq<Op>) {
    forall i | 0 <= i < |ops| && ops[i].Download? :: !DiesUnpacked(ops[i].env)
  }

  lemma {:induction false} NeverDiesNeverMixes(hash: HashFn, s: State, ops: seq<Op>)
    requires NeverDiesUnpacked(ops)
    ensures NeverMixes(hash, s, ops)
    decreases |ops|
  {
    if ops != [] {
      assert forall i | 0 <= i < |ops[1..]| :: ops[1..][i] == ops[i + 1];
      NeverDiesNeverMixes(hash, Next(hash, s, ops[0]), ops[1..]);
    }
  }

  /** Over every run from an empty tree, whatever fails and wherever else the process
      dies: an image release that is accepted for a digest holds the unpacked archive
      of that digest. */
  lemma AcceptedImageHoldsItsArchive(hash: HashFn, ops: seq<Op>, ref: Ref)
    requires NewRootfsesAreUnused(ops) && NeverDiesUnpacked(ops) && ref.kind == OCIImage
    requires HasVerified(hash, Run(hash, State(map[], 0, 0, map[]), ops).tree, ref)
    ensures var r := Run(hash, State(map[], 0, 0, map[]), ops).tree[ref.version];
            r.rootfs.Some? && DigestMatches(hash(r.rootfs.value.archive), ref.digest)
  {
    NeverDiesNeverMixes(hash, State(map[], 0, 0, map[]), ops);
    RunKeepsImagesIff(hash, State(map[], 0, 0, map[]), ops);
  }

  /** After such a death the release is accepted for the old digest with the new
      archive's files. */
  lemma DeathMixesImage(hash: HashFn, tree: Tree, ref: Ref, env: Env)
    requires NewRootfsIsUnused(env) && DiesOverOldMeta(hash, tree, ref, env) && Started(tree, ref, env).meta.value != ""
    ensures var after := AfterDownload(hash, tree, ref, env).0;
            var accepted := ref.(digest := Started(tree, ref, env).meta.value);
            HasVerified(hash, after, accepted) &&
            after[ref.version].rootfs == Some(Rootfs(Unpacked(hash, tree, ref, env).value, env.inode)) &&
            !DigestMatches(hash(after[ref.version].rootfs.value.archive), accepted.digest)
  {
    var start := Started(tree, ref, env);
    assert Verifies(hash, start, ref) <==> HasVerified(hash, tree, ref);
    PopulateKeepsImage(hash, start, ref, env);
  }
}
