/** The release operations of the artifact manager, step by step on a mutable
    tree of release directories. */
module ReleaseStore {
  import opened Prelude
  import opened Digests
  import opened Retention
  import opened Releases

  // ----- facts the collector's loops rely on -----

  /** The first n slots of extra list the versions visited so far that are not
      keep-listed. */
  ghost predicate Lists(tree: Tree, versions: set<string>, extra: seq<Entry>) {
    Elems(extra) == (set v | v in tree && v in versions :: EntryOf(tree, v)) && Distinct(extra)
  }

  /** Visiting v counts it if it is keep-listed and lists it if it is not. */
  lemma ListsVisit(tree: Tree, kept: set<string>, left: set<string>, extra: seq<Entry>, v: string)
    requires Lists(tree, tree.Keys - kept - left, extra) && v in left && left <= tree.Keys
    ensures v in kept ==> Lists(tree, tree.Keys - kept - (left - {v}), extra)
    ensures v !in kept ==> Lists(tree, tree.Keys - kept - (left - {v}), extra + [EntryOf(tree, v)])
    ensures |kept - (left - {v})| == |kept - left| + if v in kept then 1 else 0
  {
    var e := EntryOf(tree, v);
    if v in kept {
      assert kept - (left - {v}) == (kept - left) + {v};
      assert tree.Keys - kept - (left - {v}) == tree.Keys - kept - left;
    } else {
      assert kept - (left - {v}) == kept - left;
      assert tree.Keys - kept - (left - {v}) == (tree.Keys - kept - left) + {v};
      assert Elems(extra + [e]) == Elems(extra) + {e};
      forall i | 0 <= i < |extra| ensures extra[i] != e {
        assert extra[i] in Elems(extra);
      }
    }
  }

  /** With no more candidates than places nothing is doomed, whatever is in use. */
  lemma NoneDoomed(S: set<Entry>, k: nat)
    requires |S| <= k
    ensures Newest(S, k) == S
  {
    NewestCard(S, k);
    if !(S <= Newest(S, k)) {
      var e :| e in S && e !in Newest(S, k);
      SubsetCard(Newest(S, k), S - {e});
    }
  }

  /** Beyond its budget the sorted candidate list holds exactly the doomed. */
  lemma DoomedIsSuffix(s: seq<Entry>, budget: nat)
    requires NewestFirst(s) && budget <= |s|
    ensures Elems(s) - Newest(Elems(s), budget) == Elems(s[budget..])
  {
    NewestIsPrefix(s, budget);
    SortedIsDistinct(s);
    assert s == s[..budget] + s[budget..];
    forall e | e in Elems(s[budget..]) ensures e !in Elems(s[..budget]) {
      var i :| 0 <= i < |s| - budget && s[budget..][i] == e;
      assert s[budget + i] == e;
    }
  }

  /** The collection reports the newest doomed version that cannot be removed. */
  ghost predicate StoppedAt(doomed: set<Entry>, failing: set<string>, stuck: Option<string>) {
    match stuck
    case None => forall e | e in doomed :: e.name !in failing
    case Some(v) => exists f :: f in doomed && f.name == v && v in failing &&
                                forall g | g in doomed && g.name in failing :: g == f || Newer(f, g)
  }

  function Names(s: seq<Entry>): set<string> {
    set e | e in s :: e.name
  }

  lemma NamesGrow(s: seq<Entry>, a: nat, i: nat)
    requires a <= i < |s|
    ensures Names(s[a..i + 1]) == Names(s[a..i]) + {s[i].name}
  {
    assert s[a..i + 1] == s[a..i] + [s[i]];
  }

  lemma StopsHere(s: seq<Entry>, budget: nat, i: nat, failing: set<string>)
    requires NewestFirst(s) && budget <= i < |s| && s[i].name in failing
    requires forall j | budget <= j < i :: s[j].name !in failing
    ensures var doomed := Elems(s[budget..]);
            StoppedAt(doomed, failing, Some(s[i].name)) &&
            (set e | e in doomed && Reached(doomed, failing, e) :: e.name) == Names(s[budget..i])
  {
    var doomed := Elems(s[budget..]);
    assert s[budget..][i - budget] == s[i];
    forall g | g in doomed && g.name in failing ensures g == s[i] || Newer(s[i], g) {
      var k :| 0 <= k < |s| - budget && s[budget..][k] == g;
      assert g == s[budget + k];
    }
    forall e | e in doomed ensures Reached(doomed, failing, e) <==> e in Elems(s[budget..i]) {
      var k :| 0 <= k < |s| - budget && s[budget..][k] == e;
      assert e == s[budget + k];
      if budget + k < i {
        assert s[budget..i][k] == e;
        forall f | f in doomed && f.name in failing ensures Newer(e, f) {
          if f != s[i] { NewerTransitive(e, s[i], f); }
        }
      } else {
        if budget + k == i { NewerIrreflexive(e); } else { NewerAsymmetric(s[i], e); }
        SortedIsDistinct(s);
        assert forall m | 0 <= m < i - budget :: s[budget..i][m] == s[budget + m];
      }
    }
    assert forall e | e in s[budget..i] :: e in doomed by {
      assert forall m | 0 <= m < i - budget :: s[budget..i][m] == s[budget..][m];
    }
  }

  /** The listed candidates that are not in use are the free ones. */
  lemma FreeIsListed(tree: Tree, keep: set<string>, inUse: set<string>, listed: seq<Entry>)
    requires Lists(tree, tree.Keys - KeptOnDisk(tree, keep), listed)
    ensures (set e | e in listed && e.name !in inUse) == Free(tree, keep, inUse)
  {
    var A, B := (set e | e in listed && e.name !in inUse), Free(tree, keep, inUse);
    forall e | e in A ensures e in B {
      assert e in Elems(listed);
    }
    forall e | e in B ensures e in A {
      assert e in Elems(listed);
    }
  }

  /** kept lists the entries of s that are not in use, each once. */
  ghost predicate Filtered(s: seq<Entry>, kept: seq<Entry>, inUse: set<string>) {
    Distinct(kept) && Elems(kept) == set e | e in s && e.name !in inUse
  }

  lemma FilterStep(s: seq<Entry>, kept: seq<Entry>, i: nat, inUse: set<string>)
    requires Distinct(s) && i < |s| && Filtered(s[..i], kept, inUse)
    ensures Filtered(s[..i + 1], if s[i].name in inUse then kept else kept + [s[i]], inUse)
  {
    assert s[..i + 1] == s[..i] + [s[i]];
    if s[i].name !in inUse {
      assert Elems(kept + [s[i]]) == Elems(kept) + {s[i]};
      forall k | 0 <= k < |kept| ensures kept[k] != s[i] {
        assert kept[k] in Elems(kept);
      }
    }
  }

  class Manager {
    const hash: HashFn
    const retention: int
    var tree: Tree

    constructor (hash: HashFn, retention: int)
      ensures this.hash == hash && this.retention == retention && tree == map[]
    {
      this.hash := hash;
      this.retention := retention;
      tree := map[];
    }

    method Download(ref: Ref, env: Env) returns (failed: Option<Failure>)
      modifies this
      ensures (tree, failed) == AfterDownload(hash, old(tree), ref, env)
    {
      var v := ref.version;
      var already := HasVerified(hash, tree, ref);
      if !env.mkdirOk {
        return Some(MkdirFailed);
      }
      if v !in tree {
        Write(v, EmptyRelease(env.mtime));
      }
      failed := PopulateRelease(ref, env);
      Write(v, tree[v].(mtime := env.mtime));
      assert tree == old(tree)[v := tree[v]];
      if failed.Some? && failed.value != Died && !already && !InUse(tree[v], env) {
        if env.death == BeforeRemoval {
          return Some(Died);
        }
        tree := tree - {v};
        assert tree == old(tree) - {v};
      }
    }

    /** One change inside a release directory. */
    method Write(v: string, r: Release)
      modifies this
      ensures tree == old(tree)[v := r]
    {
      tree := tree[v := r];
    }

    method PopulateRelease(ref: Ref, env: Env) returns (failed: Option<Failure>)
      requires ref.version in tree
      modifies this
      ensures var (r, f) := Populate(hash, old(tree[ref.version]), ref, env);
              tree == old(tree)[ref.version := r] && failed == f
    {
      var v := ref.version;
      if ref.kind == OCIImage {
        failed := DownloadOCI(ref, env);
      } else {
        failed := DownloadBinary(ref, env);
      }
      if failed.Some? {
        return;
      }
      failed := FinishRelease(v, env);
    }

    method FinishRelease(v: string, env: Env) returns (failed: Option<Failure>)
      requires v in tree
      modifies this
      ensures var (r, f) := Finish(old(tree[v]), env); tree == old(tree)[v := r] && failed == f
    {
      if env.wantsConfig {
        if env.config.written.Some? {
          Write(v, tree[v].(config := env.config.written));
        }
        assert tree == old(tree)[v := tree[v]];
        if env.death == InConfig {
          return Some(Died);
        }
        if !env.config.ok {
          return Some(ConfigFailed);
        }
      }
      if env.death == BeforeLink {
        return Some(Died);
      }
      if !env.linkOk {
        return Some(LinkFailed);
      }
      Write(v, tree[v].(sharedLink := true));
      assert tree == old(tree)[v := tree[v]];
      if env.death == BeforeStamp {
        return Some(Died);
      }
      if tree[v].stamp.None? {
        Write(v, tree[v].(stamp := env.stamp));
      }
      assert tree == old(tree)[v := tree[v]];
      failed := None;
    }

    method DownloadBinary(ref: Ref, env: Env) returns (failed: Option<Failure>)
      requires ref.version in tree && ref.kind == Binary
      modifies this
      ensures var (r, f) := BinaryStep(hash, old(tree[ref.version]), ref, env);
              tree == old(tree)[ref.version := r] && failed == f
    {
      var v := ref.version;
      if HasVerified(hash, tree, ref) {
        return None;
      }
      if env.artifact.written.Some? {
        Write(v, tree[v].(bin := env.artifact.written));
      }
      assert tree == old(tree)[v := tree[v]];
      if env.death == InFetch {
        return Some(Died);
      }
      if !env.artifact.ok {
        return Some(FetchFailed);
      }
      if tree[v].bin.None? {
        return Some(MissingFile);
      }
      if ref.digest != "" && !Verifies(hash, tree[v], ref) {
        return Some(Mismatch);
      }
      return None;
    }

    method DownloadOCI(ref: Ref, env: Env) returns (failed: Option<Failure>)
      requires ref.version in tree && ref.kind == OCIImage
      modifies this
      ensures var (r, f) := ImageStep(hash, old(tree[ref.version]), ref, env);
              tree == old(tree)[ref.version := r] && failed == f
    {
      var v := ref.version;
      if HasVerified(hash, tree, ref) {
        return None;
      }
      if env.artifact.written.Some? {
        Write(v, tree[v].(tar := env.artifact.written));
      }
      assert tree == old(tree)[v := tree[v]];
      if env.death == InFetch {
        return Some(Died);
      }
      if !env.artifact.ok {
        return Some(FetchFailed);
      }
      if tree[v].tar.None? {
        return Some(MissingFile);
      }
      var got := "sha256:" + hash(tree[v].tar.value);
      var want := ref.digest;
      if want != "" && !EqualFold(got, want) {
        Write(v, tree[v].(tar := None));
        assert tree == old(tree)[v := tree[v]];
        return Some(Mismatch);
      }
      if want == "" {
        want := got;
      }
      failed := Unpack(v, want, env);
    }

    /** The new rootfs is complete before it takes the place of the old one; the
        metadata follows. */
    method Unpack(v: string, want: string, env: Env) returns (failed: Option<Failure>)
      requires v in tree && tree[v].tar.Some?
      modifies this
      ensures var (r, f) := UnpackStep(old(tree[v]), want, env); tree == old(tree)[v := r] && failed == f
    {
      if env.death == InUnpack {
        assert tree == old(tree)[v := tree[v]];
        return Some(Died);
      }
      var archive := tree[v].tar.value;
      if env.unpackOk || env.death == WithoutRootfs {
        Write(v, tree[v].(rootfs := None));
        assert tree == old(tree)[v := tree[v]];
        if env.death == WithoutRootfs {
          return Some(Died);
        }
        Write(v, tree[v].(rootfs := Some(Rootfs(archive, env.inode))));
        assert tree == old(tree)[v := tree[v]];
        if env.death == BeforeArchiveRemoval {
          return Some(Died);
        }
      }
      Write(v, tree[v].(tar := None));
      assert tree == old(tree)[v := tree[v]];
      if !env.unpackOk {
        Write(v, tree[v].(rootfs := None));
        assert tree == old(tree)[v := tree[v]];
        return Some(UnpackFailed);
      }
      if env.death == BeforeMeta {
        return Some(Died);
      }
      Write(v, tree[v].(meta := if env.death == InMeta then None else MetaAfter(tree[v].meta, want, env.meta)));
      assert tree == old(tree)[v := tree[v]];
      if env.death == InMeta {
        return Some(Died);
      }
      return if env.meta == MetaWritten then None else Some(MetaFailed);
    }

    /** inUse is what the process walk reports; failing is what cannot be
        removed. The returned version is the one the collection stopped at. */
    method GCReleases(keep: seq<string>, inUse: set<string>, failing: set<string>) returns (stuck: Option<string>)
      modifies this
      ensures tree == AfterGC(old(tree), (set k | k in keep), retention, inUse, failing)
      ensures StoppedAt(Doomed(old(tree), (set k | k in keep), retention, inUse), failing, stuck)
    {
      ghost var keepAll := set k | k in keep;
      var keepSet := KeepSet(keep);
      var listed, keptOnDisk := ListExtra(keepSet, KeptOnDisk(tree, keepAll));
      var budget := EffectiveRetention(retention) - keptOnDisk;
      if budget < 0 {
        budget := 0;
      }
      FreeIsListed(tree, keepAll, inUse, listed);
      stuck := CollectBeyond(listed, budget, inUse, failing, Free(tree, keepAll, inUse));
    }

    method CollectBeyond(listed: seq<Entry>, budget: nat, inUse: set<string>, failing: set<string>,
        ghost free: set<Entry>) returns (stuck: Option<string>)
      requires Distinct(listed) && free == set e | e in listed && e.name !in inUse
      modifies this
      ensures var doomed := free - Newest(free, budget);
              tree == old(tree) - (set e | e in doomed && Reached(doomed, failing, e) :: e.name) &&
              StoppedAt(doomed, failing, stuck)
    {
      if |listed| <= budget {
        SubsetCard(free, Elems(listed));
        DistinctCard(listed);
        NoneDoomed(free, budget);
        return None;
      }
      var extra := new Entry[|listed|](i requires 0 <= i < |listed| => listed[i]);
      assert extra[..|listed|] == listed;
      var n := DropInUse(extra, |listed|, inUse);
      SortNewestFirst(extra, n);
      if n <= budget {
        SortedIsDistinct(extra[..n]);
        DistinctCard(extra[..n]);
        NoneDoomed(free, budget);
        return None;
      }
      DoomedIsSuffix(extra[..n], budget);
      assert extra[..n][budget..] == extra[budget..n];
      stuck := RemoveSuffix(extra, budget, n, failing, free - Newest(free, budget));
    }

    method KeepSet(keep: seq<string>) returns (keepSet: set<string>)
      ensures keepSet == set k | k in keep && k != ""
    {
      keepSet := {};
      for i := 0 to |keep|
        invariant keepSet == set k | k in keep[..i] && k != ""
      {
        assert keep[..i + 1] == keep[..i] + [keep[i]];
        if keep[i] != "" {
          keepSet := keepSet + {keep[i]};
        }
      }
      assert keep[..|keep|] == keep;
    }

    /** List the versions that are not keep-listed and count those that are. */
    method ListExtra(keepSet: set<string>, ghost kept: set<string>) returns (extra: seq<Entry>, keptOnDisk: nat)
      requires kept <= tree.Keys && forall v | v in tree :: v in keepSet <==> v in kept
      ensures Lists(tree, tree.Keys - kept, extra)
      ensures keptOnDisk == |kept|
    {
      extra, keptOnDisk := [], 0;
      var left := tree.Keys;
      assert kept - left == {} && tree.Keys - kept - left == {};
      while left != {}
        invariant left <= tree.Keys
        invariant keptOnDisk == |kept - left|
        invariant Lists(tree, tree.Keys - kept - left, extra)
      {
        var v :| v in left;
        ListsVisit(tree, kept, left, extra, v);
        if v in keepSet {
          keptOnDisk := keptOnDisk + 1;
        } else {
          extra := extra + [EntryOf(tree, v)];
        }
        left := left - {v};
      }
      assert kept - left == kept && tree.Keys - kept - left == tree.Keys - kept;
    }

    /** The in-place filter `extra[:0]`. */
    method DropInUse(extra: array<Entry>, n: nat, inUse: set<string>) returns (m: nat)
      requires n <= extra.Length && Distinct(extra[..n])
      modifies extra
      ensures m <= n && Distinct(extra[..m])
      ensures Elems(extra[..m]) == set e | e in old(extra[..n]) && e.name !in inUse
    {
      ghost var was := extra[..n];
      m := 0;
      for i := 0 to n
        invariant m <= i && extra[i..n] == was[i..]
        invariant Filtered(was[..i], extra[..m], inUse)
      {
        assert extra[i] == extra[i..n][0] == was[i];
        FilterStep(was, extra[..m], i, inUse);
        if extra[i].name !in inUse {
          ghost var before := extra[..m];
          extra[m] := extra[i];
          m := m + 1;
          assert extra[..m] == before + [was[i]];
        }
        assert extra[i + 1..n] == was[i + 1..];
      }
      assert was[..n] == was;
    }

    method RemoveSuffix(extra: array<Entry>, budget: nat, n: nat, failing: set<string>,
        ghost doomed: set<Entry>) returns (stuck: Option<string>)
      requires budget <= n <= extra.Length && NewestFirst(extra[..n]) && doomed == Elems(extra[budget..n])
      modifies this
      ensures tree == old(tree) - set e | e in doomed && Reached(doomed, failing, e) :: e.name
      ensures StoppedAt(doomed, failing, stuck)
    {
      ghost var s := extra[..n];
      for i := budget to n
        invariant forall j | budget <= j < i :: s[j].name !in failing
        invariant tree == old(tree) - Names(s[budget..i])
      {
        if extra[i].name in failing {
          assert s[budget..] == extra[budget..n];
          StopsHere(s, budget, i, failing);
          return Some(extra[i].name);
        }
        NamesGrow(s, budget, i);
        tree := tree - {extra[i].name};
      }
      assert s[budget..n] == extra[budget..n];
      return None;
    }
  }
}
