/** The artifact manager's shared-file operations, step by step on a mutable
    store, each proved to leave exactly the disk SharedDisk describes. */
module SharedStore {
  import opened Prelude
  import opened Digests
  import opened Retention
  import opened SharedDisk

  // ----- facts the collector's loops rely on -----

  /** The files left when the blobs in gone were removed with everything that
      belongs to them. */
  function Without(files: map<Path, File>, gone: set<Path>): map<Path, File> {
    map p | p in files && Base(p) !in gone :: files[p]
  }

  lemma RemovingThree(files: map<Path, File>, base: Path)
    requires !IsAux(base.name)
    ensures files - {base} - {Sidecar(base)} - {Partial(base)} == Without(files, {base})
  {
    forall q | q in files ensures Base(q) == base <==> q == base || q == Sidecar(base) || q == Partial(base) {
      BaseFiles(base, q);
    }
  }

  predicate Deleted(before: Disk, after: Disk, gone: set<Path>) {
    after.files == Without(before.files, gone) && after.links == before.links &&
    after.dirs <= before.dirs && WellFormed(after)
  }

  lemma DeletedMore(d0: Disk, d1: Disk, d2: Disk, gone: set<Path>, more: set<Path>)
    requires Deleted(d0, d1, gone) && Deleted(d1, d2, more)
    ensures Deleted(d0, d2, gone + more)
  {
  }

  function Doomed(d: Disk, retention: int, keepNames: set<string>, names: set<string>): set<Path> {
    set p | p in d.files && IsBlob(d, p) && p.name in names && !Keeps(d, retention, keepNames, p)
  }

  /** The entries of one name among the files already listed. */
  function Listed(d: Disk, listed: set<Path>, name: string): set<Entry> {
    set p | p in listed && p in d.files && !IsAux(p.name) && p.name == name :: EntryOf(d, p)
  }

  predicate DistinctNames(list: seq<Entry>) {
    forall i, j :: 0 <= i < j < |list| ==> list[i].name != list[j].name
  }

  predicate Grouped(d: Disk, byName: map<string, seq<Entry>>, listed: set<Path>) {
    byName.Keys == (set p | p in listed && !IsAux(p.name) :: p.name) &&
    forall n | n in byName :: Elems(byName[n]) == Listed(d, listed, n) && DistinctNames(byName[n])
  }

  lemma GroupedSkip(d: Disk, byName: map<string, seq<Entry>>, listed: set<Path>, p: Path)
    requires Grouped(d, byName, listed) && IsAux(p.name)
    ensures Grouped(d, byName, listed + {p})
  {
  }

  function Append(byName: map<string, seq<Entry>>, name: string, e: Entry): map<string, seq<Entry>> {
    byName[name := (if name in byName then byName[name] else []) + [e]]
  }

  lemma GroupedAppend(d: Disk, byName: map<string, seq<Entry>>, listed: set<Path>, p: Path)
    requires Grouped(d, byName, listed) && listed <= d.files.Keys && p in d.files && p !in listed && !IsAux(p.name)
    ensures Grouped(d, Append(byName, p.name, EntryOf(d, p)), listed + {p})
  {
    var e := EntryOf(d, p);
    var now := Append(byName, p.name, e);
    assert (set q | q in listed + {p} && !IsAux(q.name) :: q.name) ==
           (set q | q in listed && !IsAux(q.name) :: q.name) + {p.name};
    forall n | n in now ensures Elems(now[n]) == Listed(d, listed + {p}, n) && DistinctNames(now[n]) {
      if n == p.name {
        var prior := if n in byName then byName[n] else [];
        assert Elems(prior) == Listed(d, listed, n) by {
          if n !in byName { assert Listed(d, listed, n) == {}; }
        }
        assert now[n] == prior + [e];
        assert Elems(now[n]) == Elems(prior) + {e};
        assert Listed(d, listed + {p}, n) == Listed(d, listed, n) + {e};
        forall i | 0 <= i < |prior| ensures prior[i].name != e.name {
          assert prior[i] in Elems(prior);
        }
      } else {
        assert Listed(d, listed + {p}, n) == Listed(d, listed, n);
      }
    }
  }

  /** How many of the first i entries are not live. */
  function Spent(list: seq<Entry>, live: string, i: nat): nat
    requires i <= |list|
  {
    |Others(Elems(list[..i]), live)|
  }

  lemma RankAmongOthers(list: seq<Entry>, m: nat, live: string)
    requires NewestFirst(list) && m < |list|
    ensures Rank(list[m], Others(Elems(list), live)) == Spent(list, live, m)
  {
    var A, B := Above(list[m], Others(Elems(list), live)), Others(Elems(list[..m]), live);
    forall e | e in A ensures e in B {
      var j :| 0 <= j < |list| && list[j] == e;
      if j == m { NewerIrreflexive(e); } else if m < j { NewerAsymmetric(list[m], e); }
      assert list[..m][j] == e;
    }
    assert A == B;
  }

  /** A keep set that holds, of the listed names, exactly the live one and the
      newest others. */
  predicate ChosenBy(list: seq<Entry>, live: string, retention: int, keep: set<string>) {
    forall e | e in list ::
      e.name in keep <==> e.name == live || e in Newest(Others(Elems(list), live), Budget(retention, live))
  }

  function FirstKept(list: seq<Entry>, live: string, i: nat): set<string>
    requires i <= |list|
  {
    (if live != "" then {live} else {}) + set e | e in list[..i] :: e.name
  }

  lemma FirstKeptStart(list: seq<Entry>, live: string)
    ensures FirstKept(list, live, 0) == (if live != "" then {live} else {}) && Spent(list, live, 0) == 0
  {
  }

  /** Each entry that is not live takes a place of its own in the keep set. */
  lemma FirstKeptGrows(list: seq<Entry>, live: string, i: nat)
    requires i < |list| && DistinctNames(list) && list[i].name != ""
    ensures FirstKept(list, live, i + 1) == FirstKept(list, live, i) + {list[i].name}
    ensures |FirstKept(list, live, i + 1)| - |FirstKept(list, live, i)| ==
            Spent(list, live, i + 1) - Spent(list, live, i)
  {
    assert list[..i + 1] == list[..i] + [list[i]];
    assert FirstKept(list, live, i + 1) == FirstKept(list, live, i) + {list[i].name};
    SpentGrows(list, live, i);
    if list[i].name != live {
      assert list[i].name !in FirstKept(list, live, i);
    }
  }

  lemma SpentGrows(list: seq<Entry>, live: string, i: nat)
    requires i < |list| && DistinctNames(list)
    ensures Spent(list, live, i + 1) == Spent(list, live, i) + if list[i].name == live then 0 else 1
  {
    var before, after := Others(Elems(list[..i]), live), Others(Elems(list[..i + 1]), live);
    assert list[..i + 1] == list[..i] + [list[i]];
    if list[i].name == live {
      assert before == after;
    } else {
      assert after == before + {list[i]};
      assert list[i] !in before;
    }
  }

  lemma SortedNamesDistinct(sorted: seq<Entry>, entries: seq<Entry>)
    requires NewestFirst(sorted) && Elems(sorted) == Elems(entries) && DistinctNames(entries)
    ensures DistinctNames(sorted)
    ensures forall e | e in sorted :: e in entries
  {
    SortedIsDistinct(sorted);
    forall e | e in sorted ensures e in entries {
      assert e in Elems(sorted);
    }
    forall i, j | 0 <= i < j < |sorted| ensures sorted[i].name != sorted[j].name {
      assert sorted[i] in entries && sorted[j] in entries;
    }
  }

  /** Stopping at i, because the keep set is full or the list is exhausted,
      selects exactly the live name and the newest others. */
  lemma PrefixIsChosen(sorted: seq<Entry>, live: string, retention: int, i: nat)
    requires NewestFirst(sorted) && DistinctNames(sorted) && retention > 0 && i <= |sorted|
    requires forall e | e in sorted :: e.name != ""
    requires i > 0 ==> Spent(sorted, live, i - 1) < Budget(retention, live)
    requires i == |sorted| || Spent(sorted, live, i) >= Budget(retention, live)
    ensures ChosenBy(sorted, live, retention, FirstKept(sorted, live, i))
  {
    forall m | 0 <= m < |sorted|
      ensures sorted[m].name in FirstKept(sorted, live, i) <==>
              sorted[m].name == live || sorted[m] in Newest(Others(Elems(sorted), live), Budget(retention, live))
    {
      RankAmongOthers(sorted, m, live);
      if m < i {
        assert sorted[..i][m] == sorted[m];
        SubsetCard(Others(Elems(sorted[..m]), live), Others(Elems(sorted[..i - 1]), live));
      } else {
        SubsetCard(Others(Elems(sorted[..i]), live), Others(Elems(sorted[..m]), live));
        forall j | 0 <= j < i ensures sorted[..i][j].name != sorted[m].name {
        }
      }
    }
  }

  lemma ChosenElsewhere(a: seq<Entry>, b: seq<Entry>, live: string, retention: int, keep: set<string>)
    requires ChosenBy(a, live, retention, keep) && Elems(a) == Elems(b)
    ensures ChosenBy(b, live, retention, keep)
  {
  }

  function Dropped(list: seq<Entry>, keep: set<string>, name: string): set<Path> {
    set e | e in list && e.name !in keep :: Path(e.name, name)
  }

  /** The entries of one name left out of the keep set are its doomed blobs. */
  lemma DroppedIsDoomed(d: Disk, list: seq<Entry>, name: string, retention: int, keepNames: set<string>,
      keep: set<string>)
    requires !IsAux(name) && Elems(list) == Entries(d, name)
    requires name !in keepNames ==> keep == {}
    requires name in keepNames ==> retention > 0 && ChosenBy(list, LiveDir(d, name), retention, keep)
    ensures Dropped(list, keep, name) == Doomed(d, retention, keepNames, {name})
  {
    forall q | q in Dropped(list, keep, name) ensures q in Doomed(d, retention, keepNames, {name}) {
      var e :| e in list && e.name !in keep && q == Path(e.name, name);
      assert e in Elems(list);
    }
    forall q | q in Doomed(d, retention, keepNames, {name}) ensures q in Dropped(list, keep, name) {
      assert EntryOf(d, q) in Elems(list);
    }
  }

  /** What the sweep leaves, among files alone. */
  predicate SweptOk(files: map<Path, File>, p: Path)
    decreases |p.name|
  {
    p in files && !HasSuffix(p.name, PARTIAL) &&
    (HasSuffix(p.name, FETCHED_AT) ==> NamesDirectory(BaseName(p.name)) || SweptOk(files, Base(p)))
  }

  /** The files when those in visited have been swept. */
  function SweptIn(files: map<Path, File>, visited: set<Path>): map<Path, File> {
    map p | p in files && (p in visited ==> SweptOk(files, p)) :: files[p]
  }

  function InDir(files: map<Path, File>, dir: string): set<Path> {
    set p | p in files && p.dir == dir
  }

  function OutsideOf(files: map<Path, File>, left: set<string>): set<Path> {
    set p | p in files && p.dir !in left
  }

  lemma {:induction false} SweptOkInDir(f: map<Path, File>, g: map<Path, File>, p: Path)
    requires InDir(f, p.dir) == InDir(g, p.dir)
    ensures SweptOk(f, p) <==> SweptOk(g, p)
    decreases |p.name|
  {
    assert p in InDir(f, p.dir) <==> p in InDir(g, p.dir);
    if HasSuffix(p.name, FETCHED_AT) {
      SweptOkInDir(f, g, Base(p));
    }
  }

  lemma SweptMore(f0: map<Path, File>, f1: map<Path, File>, left: set<string>, dir: string)
    requires f1 == SweptIn(f0, OutsideOf(f0, left)) && dir in left
    ensures SweptIn(f1, InDir(f1, dir)) == SweptIn(f0, OutsideOf(f0, left - {dir}))
  {
    assert InDir(f0, dir) == InDir(f1, dir);
    forall p | p in f0 && p.dir == dir ensures SweptOk(f0, p) <==> SweptOk(f1, p) {
      SweptOkInDir(f0, f1, p);
    }
  }

  function Swept(files: map<Path, File>): map<Path, File> {
    map p | p in files && SweptOk(files, p) :: files[p]
  }

  /** Deleting every doomed blob first, the sweep leaves what survives. */
  lemma {:induction false} SurvivesIsSwept(d: Disk, files: map<Path, File>, retention: int, keepNames: set<string>,
      names: set<string>, p: Path)
    requires WellFormed(d) && names == set p | p in d.files && !IsAux(p.name) :: p.name
    requires files == Without(d.files, Doomed(d, retention, keepNames, names))
    ensures Survives(d, retention, keepNames, p) <==> SweptOk(files, p)
    decreases |p.name|
  {
    if HasSuffix(p.name, FETCHED_AT) {
      SurvivesIsSwept(d, files, retention, keepNames, names, Base(p));
      assert Base(p) in d.files && !IsAux(Base(p).name) ==> Base(p).name in names;
    } else if !IsAux(p.name) {
      assert Base(p) == p;
      assert p in d.files ==> p.name in names;
    }
  }

  lemma SweepFinishes(d0: Disk, d1: Disk, d2: Disk, retention: int, keepNames: set<string>, names: set<string>)
    requires WellFormed(d0) && names == set p | p in d0.files && !IsAux(p.name) :: p.name
    requires Deleted(d0, d1, Doomed(d0, retention, keepNames, names))
    requires d2.files == Swept(d1.files) && d2.dirs == (set p | p in d2.files :: p.dir) && d2.links == d1.links
    ensures d2 == AfterGC(d0, retention, keepNames)
  {
    forall p | p in d0.files ensures Survives(d0, retention, keepNames, p) <==> SweptOk(d1.files, p) {
      SurvivesIsSwept(d0, d1.files, retention, keepNames, names, p);
    }
    assert d2.files == AfterGC(d0, retention, keepNames).files;
  }

  /** Some name comes after its base. */
  lemma {:induction false} SomeBaseIsFirst(names: set<string>)
    requires names != {}
    ensures exists n :: n in names && BaseIsGone(names, n)
  {
    var n :| n in names;
    if !BaseIsGone(names, n) {
      FirstBelow(names, n);
    }
  }

  lemma {:induction false} FirstBelow(names: set<string>, n: string)
    requires n in names
    ensures exists m :: m in names && BaseIsGone(names, m)
    decreases |n|
  {
    if !BaseIsGone(names, n) {
      FirstBelow(names, TrimSuffix(n, FETCHED_AT));
    }
  }

  /** The base of a sidecar is not among the names still to be visited. */
  predicate BaseIsGone(names: set<string>, n: string) {
    HasSuffix(n, FETCHED_AT) ==> TrimSuffix(n, FETCHED_AT) !in names
  }

  class Manager {
    const hash: HashFn
    var dirs: set<string>
    var files: map<Path, File>
    var links: map<string, Path>

    constructor (hash: HashFn)
      ensures this.hash == hash && State() == Disk({}, map[], map[])
    {
      this.hash := hash;
      dirs, files, links := {}, map[], map[];
    }

    function State(): Disk
      reads this
    {
      Disk(dirs, files, links)
    }

    /** Fetch into a partial file, verify, install by rename, record the time. */
    method EnsureSharedFile(name: string, digest: string, env: FetchEnv) returns (outcome: Outcome)
      requires digest != "" ==> PlainComponent(DigestDirName(digest))
      modifies this
      ensures (State(), outcome) == AfterEnsure(hash, old(State()), name, digest, env)
    {
      if !ValidName(name) {
        return InvalidName;
      }
      if digest == "" {
        return EmptyDigest;
      }
      var dest := Path(DigestDirName(digest), name);
      var partial := Partial(dest);
      assert |partial.name| > |dest.name|;
      dirs := dirs + {dest.dir};
      if dest in files && DigestMatches(hash(files[dest].content), digest) {
        return Done;
      }
      outcome := FetchAndInstall(dest, partial, digest, env);
      if outcome == Done {
        files := Stamped(files, dest, env);
      }
    }

    method FetchAndInstall(dest: Path, partial: Path, digest: string, env: FetchEnv) returns (outcome: Outcome)
      requires dest != partial
      modifies this`files
      ensures outcome == FetchOutcome(hash, digest, env)
      ensures outcome == Done ==> files == (old(files) - {partial})[dest := File(env.written.value, env.mtime)]
      ensures outcome == Died && env.written.Some? ==>
                files == (old(files) - {partial})[partial := File(env.written.value, env.mtime)]
      ensures outcome != Done && !(outcome == Died && env.written.Some?) ==> files == old(files) - {partial}
    {
      files := files - {partial};
      if env.written.Some? {
        files := files[partial := File(env.written.value, env.mtime)];
      }
      if env.end == Killed {
        return Died;
      }
      if env.end == Failed {
        files := files - {partial};
        return FetchFailed;
      }
      if env.end == Cancelled {
        files := files - {partial};
        return FetchCancelled;
      }
      if partial !in files {
        return Unreadable;
      }
      if !DigestMatches(hash(files[partial].content), digest) {
        files := files - {partial};
        return Mismatch;
      }
      if !env.renamed {
        files := files - {partial};
        return InstallFailed;
      }
      files := files[dest := files[partial]] - {partial};
      return Done;
    }

    method SwitchSharedTo(name: string, digest: string, end: LinkEnd) returns (outcome: Outcome)
      requires PlainComponent(DigestDirName(digest))
      modifies this`links
      ensures (State(), outcome) == AfterSwitch(old(State()), name, digest, end)
    {
      if !ValidName(name) {
        return InvalidName;
      }
      var target := Path(DigestDirName(digest), name);
      if target !in files {
        return StoreEntryMissing;
      }
      var tmp := name + TMP;
      assert |tmp| > |name|;
      links := links - {tmp};
      links := links[tmp := target];
      if end == KilledBeforeRename {
        return Died;
      }
      if end == RenameFailed {
        links := links - {tmp};
        assert links == old(links) - {tmp};
        return LinkFailed;
      }
      links := links[name := links[tmp]] - {tmp};
      assert links == (old(links) - {tmp})[name := target];
      return Done;
    }

    /** removed: an existing link could be removed. */
    method RemoveSharedLink(name: string, removed: bool) returns (outcome: Outcome)
      modifies this`links
      ensures (State(), outcome) == AfterRemoveLink(old(State()), name, removed)
    {
      if !ValidName(name) {
        return InvalidName;
      }
      if name in links && !removed {
        return LinkFailed;
      }
      links := links - {name};
      return Done;
    }

    /** Directories, files and names are visited in an arbitrary order; the
        disk left does not depend on it. */
    method GCShared(retention: int, keepNames: set<string>)
      requires WellFormed(State())
      modifies this
      ensures State() == AfterGC(old(State()), retention, keepNames)
    {
      ghost var d0 := State();
      var byName := GroupByName();
      var names := byName.Keys;
      ghost var gone: set<Path> := {};
      assert Deleted(d0, State(), gone) && gone == Doomed(d0, retention, keepNames, byName.Keys - names);
      while names != {}
        invariant names <= byName.Keys
        invariant gone == Doomed(d0, retention, keepNames, byName.Keys - names)
        invariant Deleted(d0, State(), gone)
      {
        var name :| name in names;
        ghost var d1 := State();
        ghost var more := Doomed(d0, retention, keepNames, {name});
        CollectName(d0, name, byName[name], retention, keepNames);
        DeletedMore(d0, d1, State(), gone, more);
        names := names - {name};
        gone := gone + more;
        assert gone == Doomed(d0, retention, keepNames, byName.Keys - names);
      }
      ghost var d1 := State();
      assert byName.Keys - names == byName.Keys;
      SweepPartials();
      SweepFinishes(d0, d1, State(), retention, keepNames, byName.Keys);
    }

    /** One turn of the collector's loop over names. */
    method CollectName(ghost d0: Disk, name: string, list: seq<Entry>, retention: int, keepNames: set<string>)
      requires WellFormed(State()) && State().links == d0.links && WellFormed(d0)
      requires !IsAux(name) && Elems(list) == Entries(d0, name) && DistinctNames(list)
      modifies this`dirs, this`files
      ensures Deleted(old(State()), State(), Doomed(d0, retention, keepNames, {name}))
    {
      if name !in keepNames {
        DroppedIsDoomed(d0, list, name, retention, keepNames, {});
        RemoveEntries(list, {}, name);
      } else if retention > 0 {
        forall e | e in list ensures e.name != "" {
          assert e in Elems(list);
        }
        var keep := KeepSet(list, DigestDirName(RunningDigest(State(), name)), retention);
        DroppedIsDoomed(d0, list, name, retention, keepNames, keep);
        RemoveEntries(list, keep, name);
      } else {
        assert Doomed(d0, retention, keepNames, {name}) == {};
        assert State().files == Without(State().files, {});
      }
    }

    /** The listing loop of the collector. */
    method GroupByName() returns (byName: map<string, seq<Entry>>)
      requires WellFormed(State())
      ensures byName.Keys == set p | p in files && !IsAux(p.name) :: p.name
      ensures forall n | n in byName :: Elems(byName[n]) == Entries(State(), n) && DistinctNames(byName[n])
    {
      byName := map[];
      var left := dirs;
      while left != {}
        invariant left <= dirs
        invariant Grouped(State(), byName, OutsideOf(files, left))
      {
        var dir :| dir in left;
        byName := GroupDir(byName, dir, OutsideOf(files, left));
        assert OutsideOf(files, left) + InDir(files, dir) == OutsideOf(files, left - {dir});
        left := left - {dir};
      }
      assert OutsideOf(files, left) == files.Keys;
      forall n | n in byName ensures Elems(byName[n]) == Entries(State(), n) {
        assert Listed(State(), files.Keys, n) == Entries(State(), n);
      }
    }

    method GroupDir(before: map<string, seq<Entry>>, dir: string, ghost listed: set<Path>)
        returns (byName: map<string, seq<Entry>>)
      requires Grouped(State(), before, listed) && listed <= files.Keys && listed !! InDir(files, dir)
      ensures Grouped(State(), byName, listed + InDir(files, dir))
    {
      byName := before;
      ghost var seen: set<Path> := {};
      var names := set p | p in files && p.dir == dir :: p.name;
      assert listed + seen == listed;
      while names != {}
        invariant forall n | n in names :: Path(dir, n) in files
        invariant seen == set p | p in files && p.dir == dir && p.name !in names
        invariant Grouped(State(), byName, listed + seen)
      {
        var name :| name in names;
        var path := Path(dir, name);
        names := names - {name};
        if IsAux(name) {
          GroupedSkip(State(), byName, listed + seen, path);
        } else {
          GroupedAppend(State(), byName, listed + seen, path);
          byName := Append(byName, name, EntryOf(State(), path));
        }
        assert listed + seen + {path} == listed + (seen + {path});
        seen := seen + {path};
      }
      assert seen == InDir(files, dir);
    }

    /** Sort newest first, then fill the keep set until it has retention members. */
    method KeepSet(entries: seq<Entry>, live: string, retention: int) returns (keep: set<string>)
      requires retention > 0 && DistinctNames(entries) && forall e | e in entries :: e.name != ""
      ensures ChosenBy(entries, live, retention, keep)
    {
      var sorted := Sorted(entries);
      keep := if live != "" then {live} else {};
      FirstKeptStart(sorted, live);
      var i := 0;
      while i < |sorted| && |keep| < retention
        invariant 0 <= i <= |sorted|
        invariant keep == FirstKept(sorted, live, i)
        invariant |keep| == (if live == "" then 0 else 1) + Spent(sorted, live, i)
        invariant i > 0 ==> Spent(sorted, live, i - 1) < Budget(retention, live)
      {
        FirstKeptGrows(sorted, live, i);
        keep := keep + {sorted[i].name};
        i := i + 1;
      }
      PrefixIsChosen(sorted, live, retention, i);
      ChosenElsewhere(sorted, entries, live, retention, keep);
    }

    method Sorted(entries: seq<Entry>) returns (sorted: seq<Entry>)
      requires DistinctNames(entries)
      ensures NewestFirst(sorted) && DistinctNames(sorted) && Elems(sorted) == Elems(entries)
      ensures forall e | e in sorted :: e in entries
    {
      var list := new Entry[|entries|](i requires 0 <= i < |entries| => entries[i]);
      assert list[..list.Length] == entries;
      SortNewestFirst(list, list.Length);
      sorted := list[..list.Length];
      SortedNamesDistinct(sorted, entries);
    }

    /** Remove every listed entry whose directory is not in the keep set. */
    method RemoveEntries(list: seq<Entry>, keep: set<string>, name: string)
      requires WellFormed(State()) && !IsAux(name)
      modifies this`dirs, this`files
      ensures Deleted(old(State()), State(), Dropped(list, keep, name))
    {
      ghost var d0 := State();
      var i := 0;
      while i < |list|
        invariant 0 <= i <= |list|
        invariant Deleted(d0, State(), Dropped(list[..i], keep, name))
      {
        assert list[..i + 1] == list[..i] + [list[i]];
        var e := list[i];
        if e.name in keep {
          assert Dropped(list[..i + 1], keep, name) == Dropped(list[..i], keep, name);
        } else {
          assert Dropped(list[..i + 1], keep, name) == Dropped(list[..i], keep, name) + {Path(e.name, name)};
          ghost var d1 := State();
          RemoveStoreEntry(e.name, name);
          DeletedMore(d0, d1, State(), Dropped(list[..i], keep, name), {Path(e.name, name)});
        }
        i := i + 1;
      }
      assert list[..i] == list;
    }

    method RemoveStoreEntry(dir: string, name: string)
      requires WellFormed(State()) && !IsAux(name)
      modifies this`dirs, this`files
      ensures Deleted(old(State()), State(), {Path(dir, name)})
    {
      var base := Path(dir, name);
      RemovingThree(files, base);
      files := files - {base};
      files := files - {Sidecar(base)};
      files := files - {Partial(base)};
      RemoveDirIfEmpty(dir);
    }

    method RemoveDirIfEmpty(dir: string)
      modifies this`dirs
      ensures dirs == if exists p :: p in files && p.dir == dir then old(dirs) else old(dirs) - {dir}
    {
      var inside := set p | p in files && p.dir == dir;
      if inside == {} {
        assert forall p | p in files && p.dir == dir :: p in inside;
        dirs := dirs - {dir};
      } else {
        var p :| p in inside;
      }
    }

    /** Remove partial downloads, sidecars without their blob, and what is then
        an empty directory. */
    method SweepPartials()
      requires WellFormed(State())
      modifies this`dirs, this`files
      ensures files == Swept(old(files)) && dirs == (set p | p in files :: p.dir)
    {
      ghost var f0 := files;
      var left := dirs;
      while left != {}
        invariant left <= dirs
        invariant files == SweptIn(f0, OutsideOf(f0, left))
        invariant dirs == left + set p | p in files && p.dir !in left :: p.dir
        invariant forall p | p in files :: p.dir in dirs
      {
        var dir :| dir in left;
        ghost var f1 := files;
        SweepDir(dir);
        SweptMore(f0, f1, left, dir);
        RemoveDirIfEmpty(dir);
        left := left - {dir};
      }
    }

    /** A directory lists its files in order, so a base comes before its sidecar;
        otherwise the order is arbitrary. */
    method SweepDir(dir: string)
      modifies this`files
      ensures files == SweptIn(old(files), InDir(old(files), dir))
    {
      ghost var f0 := files;
      ghost var visited: set<Path> := {};
      var names := set p | p in files && p.dir == dir :: p.name;
      while names != {}
        invariant forall n | n in names :: Path(dir, n) in f0
        invariant visited == set p | p in f0 && p.dir == dir && p.name !in names
        invariant files == SweptIn(f0, visited)
      {
        SomeBaseIsFirst(names);
        var name :| name in names && BaseIsGone(names, name);
        var path := Path(dir, name);
        assert path in files;
        if HasSuffix(name, PARTIAL) {
          files := files - {path};
        } else if HasSuffix(name, FETCHED_AT) {
          var base := Path(dir, TrimSuffix(name, FETCHED_AT));
          assert base == Base(path);
          assert base in f0 ==> base in visited;
          assert base in files <==> SweptOk(f0, base);
          assert SweptOk(f0, path) <==> NamesDirectory(base.name) || SweptOk(f0, base);
          if !NamesDirectory(base.name) && base !in files {
            files := files - {path};
          }
        }
        names := names - {name};
        visited := visited + {path};
        assert files == SweptIn(f0, visited);
      }
      assert visited == InDir(f0, dir);
    }
  }
}
