/** Volume mounts of one assignment: names, container paths and overlap. */
module Mounts {
  import opened Prelude
  import opened Paths

  // ----- overlap -----

  predicate PathsOverlap(a: string, b: string) {
    var x, y := Clean(a), Clean(b);
    x == y || y + "/" <= x || x + "/" <= y
  }

  /** One component list is a prefix of the other: the paths are equal or one is
      a parent of the other. */
  predicate Comparable(a: string, b: string) {
    Comps(a) <= Comps(b) || Comps(b) <= Comps(a)
  }

  lemma PrefixBySlash(cs: seq<string>, ds: seq<string>)
    requires cs != [] && ds != [] && NoSlashes(cs) && NoSlashes(ds)
    ensures "/" + Join(cs) + "/" <= "/" + Join(ds) <==> cs < ds
  {
    if cs < ds {
      PrefixJoins(cs, ds);
    }
    if "/" + Join(cs) + "/" <= "/" + Join(ds) {
      PrefixSplits(cs, ds);
    }
  }

  lemma PrefixJoins(cs: seq<string>, ds: seq<string>)
    requires cs != [] && cs < ds
    ensures "/" + Join(cs) + "/" <= "/" + Join(ds)
  {
    var es := ds[|cs|..];
    assert ds == cs + es;
    JoinConcat(cs, es);
    assert "/" + Join(ds) == "/" + Join(cs) + "/" + Join(es);
  }

  lemma PrefixSplits(cs: seq<string>, ds: seq<string>)
    requires cs != [] && ds != [] && NoSlashes(cs) && NoSlashes(ds)
    requires "/" + Join(cs) + "/" <= "/" + Join(ds)
    ensures cs < ds
  {
    var p, q := "/" + Join(cs) + "/", "/" + Join(ds);
    var rest := q[|p|..];
    assert q == p + rest;
    assert q[1..] == Join(ds);
    assert (p + rest)[1..] == Join(cs) + "/" + rest;
    SplitConcat(Join(cs), rest);
    SplitOfJoin(cs);
    SplitOfJoin(ds);
  }

  /** On absolute paths the string test means the component relation, except
      that the root is not taken for a parent. */
  lemma OverlapMeaning(a: string, b: string)
    requires IsRooted(a) && IsRooted(b)
    ensures PathsOverlap(a, b) <==>
            Comps(a) == Comps(b) || (Comps(a) != [] && Comps(b) != [] && Comparable(a, b))
    ensures PathsOverlap(a, b) <==> PathsOverlap(b, a)
    ensures PathsOverlap(a, b) <==> PathsOverlap(Clean(a), Clean(b))
  {
    var cs, ds := Comps(a), Comps(b);
    CleanDecidesMeaning(a, b);
    CleanIdempotent(a);
    CleanIdempotent(b);
    CompsNormal(a);
    CompsNormal(b);
    if cs != [] && ds != [] {
      PrefixBySlash(cs, ds);
      PrefixBySlash(ds, cs);
    } else if cs != ds {
      RootIsNoPrefix(if cs == [] then ds else cs);
    }
  }

  lemma RootIsNoPrefix(cs: seq<string>)
    requires cs != [] && Normal(true, cs)
    ensures !("/" + Join([]) + "/" <= "/" + Join(cs)) && !("/" + Join(cs) + "/" <= "/" + Join([]))
  {
    FirstOfJoin(cs);
    assert NoSlash(cs[0]);
    assert ("/" + Join(cs))[1] == cs[0][0] != '/';
    assert "/" + Join([]) + "/" == "//";
  }

  /** So it agrees with the component relation exactly when not one of the two
      alone is the root. */
  lemma OverlapAgreesIff(a: string, b: string)
    requires IsRooted(a) && IsRooted(b)
    ensures (PathsOverlap(a, b) <==> Comparable(a, b)) <==> (Comps(a) == [] <==> Comps(b) == [])
  {
    OverlapMeaning(a, b);
  }

  // ----- one mount -----

  predicate NameOk(name: string) {
    name != "" && name != "lost+found" && name != "." && name != ".." &&
    forall i | 0 <= i < |name| :: name[i] != '/' && name[i] != '\\' && name[i] != '\0'
  }

  datatype PathError = Required | NotAbsolute | IsRoot | Reserved

  predicate AtOrUnder(cleaned: string, dir: string) {
    cleaned == dir || dir + "/" <= cleaned
  }

  predicate ReservedPath(cleaned: string) {
    AtOrUnder(cleaned, "/proc") || AtOrUnder(cleaned, "/dev") || AtOrUnder(cleaned, "/tmp") ||
      cleaned == "/etc/resolv.conf"
  }

  function ValidateContainerPath(p: string): Option<PathError> {
    if forall i | 0 <= i < |p| :: IsSpace(p[i]) then Some(Required)
    else if !IsRooted(p) then Some(NotAbsolute)
    else
      var cleaned := Clean(p);
      if cleaned == "/" then Some(IsRoot)
      else if ReservedPath(cleaned) then Some(Reserved)
      else None
  }

  /** The first component is dir. */
  predicate Under(p: string, dir: string) {
    Comps(p) != [] && Comps(p)[0] == dir
  }

  lemma AtOrUnderMeaning(p: string, dir: string, text: string)
    requires IsRooted(p) && dir != "" && NoSlash(dir) && dir != "." && dir != ".." && text == "/" + dir
    ensures AtOrUnder(Clean(p), text) <==> Under(p, dir)
  {
    var cs, ds := Comps(p), [dir];
    CompsNormal(p);
    assert Join(ds) == dir;
    assert text + "/" == "/" + Join(ds) + "/";
    if cs == [] {
      RootIsNoPrefix(ds);
    } else {
      PrefixBySlash(ds, cs);
      IsExactly(p, ds, text);
      assert cs[..1] == [cs[0]];
    }
  }

  /** In components: absolute, not the root, not under proc, dev or tmp, and not
      the resolver configuration. */
  lemma ContainerPathMeaning(p: string)
    ensures ValidateContainerPath(p).None? <==>
            IsRooted(p) && Comps(p) != [] && !Under(p, "proc") && !Under(p, "dev") && !Under(p, "tmp") &&
            Comps(p) != ["etc", "resolv.conf"]
  {
    if IsRooted(p) {
      assert !IsSpace(p[0]);
      CompsNormal(p);
      IsExactly(p, [], "/");
      ReservedMeaning(p);
    }
  }

  /** And which error a path gets. */
  lemma ContainerPathErrors(p: string)
    ensures match ValidateContainerPath(p)
            case None => true
            case Some(Required) => forall c | c in p :: IsSpace(c)
            case Some(NotAbsolute) => !IsRooted(p) && exists c :: c in p && !IsSpace(c)
            case Some(IsRoot) => IsRooted(p) && Comps(p) == []
            case Some(Reserved) =>
              IsRooted(p) &&
              (Under(p, "proc") || Under(p, "dev") || Under(p, "tmp") || Comps(p) == ["etc", "resolv.conf"])
  {
    if IsRooted(p) {
      assert !IsSpace(p[0]);
      IsExactly(p, [], "/");
      ReservedMeaning(p);
    }
  }

  /** Climbing back to the root does not get around the reserved directories. */
  lemma ClimbIsRefused(p: string, n: nat, dir: string)
    requires IsRooted(p) && n >= |Comps(p)| && dir in {"proc", "dev", "tmp"}
    ensures ValidateContainerPath(p + Ups(n) + "/" + dir) == Some(Reserved)
  {
    ClimbTakesLast(p, n);
    OrdinaryIsAppended(p + Ups(n), dir);
    var q := p + Ups(n) + "/" + dir;
    assert q[0] == p[0];
    assert Comps(q) == [dir];
    ContainerPathMeaning(q);
    ContainerPathErrors(q);
  }

  /** A volume name is valid exactly when, taken as a path, it is one ordinary
      component without backslash and NUL, and not the reserved one. */
  lemma NameIsOneComponent(name: string)
    ensures NameOk(name) <==>
            Comps("/" + name) == [name] && '\\' !in name && '\0' !in name && name != "lost+found"
  {
    OneComponent(name);
  }

  lemma ReservedMeaning(p: string)
    requires IsRooted(p)
    ensures ReservedPath(Clean(p)) <==>
            Under(p, "proc") || Under(p, "dev") || Under(p, "tmp") || Comps(p) == ["etc", "resolv.conf"]
  {
    AtOrUnderMeaning(p, "proc", "/proc");
    AtOrUnderMeaning(p, "dev", "/dev");
    AtOrUnderMeaning(p, "tmp", "/tmp");
    ResolverMeaning(p);
  }

  lemma ResolverMeaning(p: string)
    requires IsRooted(p)
    ensures Clean(p) == "/etc/resolv.conf" <==> Comps(p) == ["etc", "resolv.conf"]
  {
    var cs := ["etc", "resolv.conf"];
    assert cs[1..] == ["resolv.conf"];
    assert Join(cs) == "etc" + "/" + "resolv.conf";
    assert "/" + Join(cs) == "/etc/resolv.conf";
    IsExactly(p, cs, "/etc/resolv.conf");
  }

  lemma IsExactly(p: string, cs: seq<string>, text: string)
    requires IsRooted(p) && Normal(true, cs) && text == "/" + Join(cs)
    ensures Clean(p) == text <==> Comps(p) == cs
  {
    CompsOfRender(true, cs);
    CleanKeepsMeaning(p);
  }

  // ----- a list of mounts -----

  datatype Mount = Mount(name: string, path: string)

  datatype MountError =
    | BadName
    | BadPath(error: PathError)
    | Duplicate(name: string)
    | Overlaps(name: string, other: string)

  predicate MountOk(m: Mount) {
    NameOk(m.name) && ValidateContainerPath(m.path).None?
  }

  predicate Disjoint(a: Mount, b: Mount) {
    a.name != b.name && !Comparable(a.path, b.path)
  }

  /** Every entry is valid, and any two have different names and paths neither
      of which contains the other. */
  predicate Acceptable(ms: seq<Mount>) {
    (forall i | 0 <= i < |ms| :: MountOk(ms[i])) &&
    (forall i, j | 0 <= i < j < |ms| :: Disjoint(ms[i], ms[j]))
  }

  lemma ValidPathsOverlap(a: Mount, b: Mount)
    requires MountOk(a) && MountOk(b)
    ensures PathsOverlap(Clean(a.path), Clean(b.path)) <==> Comparable(a.path, b.path)
    ensures Comparable(a.path, b.path) <==> Comparable(b.path, a.path)
  {
    ContainerPathMeaning(a.path);
    ContainerPathMeaning(b.path);
    OverlapMeaning(a.path, b.path);
  }

  /** seen maps the names of the mounts so far to their cleaned paths. */
  ghost predicate Seen(ms: seq<Mount>, seen: map<string, string>) {
    (forall j | 0 <= j < |ms| :: ms[j].name in seen && seen[ms[j].name] == Clean(ms[j].path)) &&
    (forall n | n in seen :: exists j :: 0 <= j < |ms| && ms[j].name == n)
  }

  lemma SeenGrows(ms: seq<Mount>, seen: map<string, string>, m: Mount)
    requires Seen(ms, seen) && m.name !in seen
    ensures Seen(ms + [m], seen[m.name := Clean(m.path)])
  {
    var all, now := ms + [m], seen[m.name := Clean(m.path)];
    forall n | n in now ensures exists j :: 0 <= j < |all| && all[j].name == n {
      if n == m.name {
        assert all[|ms|].name == n;
      } else {
        var j :| 0 <= j < |ms| && ms[j].name == n;
        assert all[j].name == n;
      }
    }
  }

  lemma AcceptableGrows(ms: seq<Mount>, m: Mount)
    requires Acceptable(ms)
    ensures Acceptable(ms + [m]) <==> MountOk(m) && forall j | 0 <= j < |ms| :: Disjoint(ms[j], m)
  {
    var all := ms + [m];
    assert all[|ms|] == m;
    if Acceptable(all) {
      forall j | 0 <= j < |ms| ensures Disjoint(ms[j], m) {
        assert Disjoint(all[j], all[|ms|]);
      }
    }
  }

  lemma PrefixAcceptable(ms: seq<Mount>, i: nat)
    requires i <= |ms| && !Acceptable(ms[..i])
    ensures !Acceptable(ms)
  {
  }

  /** Why m is refused after the mounts before it. */
  ghost predicate Refused(before: seq<Mount>, m: Mount, e: MountError) {
    match e
    case BadName => !NameOk(m.name)
    case BadPath(error) => NameOk(m.name) && ValidateContainerPath(m.path) == Some(error)
    case Duplicate(name) => MountOk(m) && name == m.name && exists j :: 0 <= j < |before| && before[j].name == name
    case Overlaps(name, other) =>
      MountOk(m) && name == m.name && (forall j | 0 <= j < |before| :: before[j].name != name) &&
      exists j :: 0 <= j < |before| && before[j].name == other && Comparable(before[j].path, m.path)
  }

  /** Mount i is the first that cannot follow those before it. */
  ghost predicate RefusedAt(ms: seq<Mount>, i: int, e: MountError) {
    0 <= i < |ms| && Acceptable(ms[..i]) && Refused(ms[..i], ms[i], e)
  }

  /** Accepts exactly the acceptable lists; otherwise names the first mount that
      cannot follow those before it, and why. The seen map is scanned in an
      arbitrary order. */
  method ValidateMounts(ms: seq<Mount>) returns (r: Option<MountError>)
    ensures r.None? <==> Acceptable(ms)
    ensures r.Some? ==> exists i :: RefusedAt(ms, i, r.value)
  {
    var seen: map<string, string> := map[];
    for i := 0 to |ms|
      invariant Acceptable(ms[..i]) && Seen(ms[..i], seen)
    {
      var m := ms[i];
      AcceptableGrows(ms[..i], m);
      assert ms[..i + 1] == ms[..i] + [m];
      r := Refusal(ms[..i], m, seen);
      if r.Some? {
        PrefixAcceptable(ms, i + 1);
        assert RefusedAt(ms, i, r.value);
        return;
      }
      SeenGrows(ms[..i], seen, m);
      seen := seen[m.name := Clean(m.path)];
    }
    assert ms[..|ms|] == ms;
    return None;
  }

  /** One turn of the loop over the list. */
  method Refusal(ghost ms: seq<Mount>, m: Mount, seen: map<string, string>) returns (r: Option<MountError>)
    requires Acceptable(ms) && Seen(ms, seen)
    ensures r.None? <==> MountOk(m) && forall j | 0 <= j < |ms| :: Disjoint(ms[j], m)
    ensures r.None? ==> m.name !in seen
    ensures r.Some? ==> Refused(ms, m, r.value)
  {
    if !NameOk(m.name) {
      return Some(BadName);
    }
    var bad := ValidateContainerPath(m.path);
    if bad.Some? {
      return Some(BadPath(bad.value));
    }
    if m.name in seen {
      ghost var j :| 0 <= j < |ms| && ms[j].name == m.name;
      assert !Disjoint(ms[j], m);
      return Some(Duplicate(m.name));
    }
    var other := FindHit(Clean(m.path), seen);
    NoHitMeansDisjoint(ms, m, seen);
    if other.Some? {
      HitIsRefusal(ms, m, seen, other.value);
      return Some(Overlaps(m.name, other.value));
    }
    return None;
  }

  lemma HitIsRefusal(ms: seq<Mount>, m: Mount, seen: map<string, string>, n: string)
    requires Seen(ms, seen) && MountOk(m) && m.name !in seen && forall j | 0 <= j < |ms| :: MountOk(ms[j])
    requires Hits(Clean(m.path), seen, n)
    ensures Refused(ms, m, Overlaps(m.name, n))
  {
    var j :| 0 <= j < |ms| && ms[j].name == n;
    HitsMeanNotDisjoint(ms[j], m, seen);
    assert ms[j].name != m.name && Comparable(ms[j].path, m.path);
  }

  predicate Hits(cleaned: string, seen: map<string, string>, n: string) {
    n in seen && PathsOverlap(cleaned, seen[n])
  }

  lemma HitsMeanNotDisjoint(a: Mount, m: Mount, seen: map<string, string>)
    requires MountOk(a) && MountOk(m) && a.name in seen && seen[a.name] == Clean(a.path) && m.name !in seen
    ensures Disjoint(a, m) <==> !Hits(Clean(m.path), seen, a.name)
  {
    ValidPathsOverlap(m, a);
  }

  lemma NoHitMeansDisjoint(ms: seq<Mount>, m: Mount, seen: map<string, string>)
    requires Seen(ms, seen) && MountOk(m) && m.name !in seen && forall j | 0 <= j < |ms| :: MountOk(ms[j])
    ensures (forall n | n in seen :: !Hits(Clean(m.path), seen, n)) <==> forall j | 0 <= j < |ms| :: Disjoint(ms[j], m)
  {
    forall j | 0 <= j < |ms| ensures Disjoint(ms[j], m) <==> !Hits(Clean(m.path), seen, ms[j].name) {
      HitsMeanNotDisjoint(ms[j], m, seen);
    }
    forall n | n in seen && Hits(Clean(m.path), seen, n) ensures exists j :: 0 <= j < |ms| && !Disjoint(ms[j], m) {
      var j :| 0 <= j < |ms| && ms[j].name == n;
      assert !Disjoint(ms[j], m);
    }
  }

  method FindHit(cleaned: string, seen: map<string, string>) returns (other: Option<string>)
    ensures other.None? ==> forall n | n in seen :: !Hits(cleaned, seen, n)
    ensures other.Some? ==> Hits(cleaned, seen, other.value)
  {
    var left := seen.Keys;
    while left != {}
      invariant left <= seen.Keys
      invariant forall n | n in seen && n !in left :: !Hits(cleaned, seen, n)
    {
      var n :| n in left;
      if Hits(cleaned, seen, n) {
        return Some(n);
      }
      left := left - {n};
    }
    return None;
  }

  predicate CoveredBy(path: string, m: Mount) {
    Comps(m.path) <= Comps(path)
  }

  /** At most one accepted mount covers a container path. */
  lemma AtMostOneCovers(ms: seq<Mount>, path: string, i: nat, j: nat)
    requires Acceptable(ms) && i < j < |ms|
    ensures !(CoveredBy(path, ms[i]) && CoveredBy(path, ms[j]))
  {
    assert Disjoint(ms[i], ms[j]);
    PrefixesCompare(Comps(ms[i].path), Comps(ms[j].path), Comps(path));
  }

  lemma PrefixesCompare(a: seq<string>, b: seq<string>, p: seq<string>)
    ensures a <= p && b <= p ==> a <= b || b <= a
  {
  }

  lemma {:induction false} TwiceInMultiset(ms: seq<Mount>, m: Mount)
    requires multiset(ms)[m] >= 2
    ensures exists i, j :: 0 <= i < j < |ms| && ms[i] == m == ms[j]
  {
    assert ms == ms[..|ms| - 1] + [ms[|ms| - 1]];
    var last, init := ms[|ms| - 1], ms[..|ms| - 1];
    if last == m {
      assert m in multiset(init);
      var i :| 0 <= i < |init| && init[i] == m;
      assert ms[i] == m == ms[|ms| - 1];
    } else {
      TwiceInMultiset(init, m);
      var i, j :| 0 <= i < j < |init| && init[i] == m == init[j];
      assert ms[i] == m == ms[j];
    }
  }

  lemma InTwoPlaces(ns: seq<Mount>, i: nat, j: nat)
    requires i < j < |ns|
    ensures ns[i] == ns[j] ==> multiset(ns)[ns[i]] >= 2
  {
    assert ns == ns[..j] + ns[j..];
    assert ns[..j][i] in multiset(ns[..j]) && ns[j..][0] in multiset(ns[j..]);
  }

  lemma AcceptableIsOnce(ms: seq<Mount>, m: Mount)
    requires Acceptable(ms)
    ensures multiset(ms)[m] <= 1
  {
    if multiset(ms)[m] >= 2 {
      TwiceInMultiset(ms, m);
    }
  }

  lemma MembersAreDisjoint(ms: seq<Mount>, a: Mount, b: Mount)
    requires Acceptable(ms) && a in ms && b in ms && a != b
    ensures Disjoint(a, b)
  {
  }

  /** The verdict does not depend on the order of the list. */
  lemma OrderDoesNotMatter(ms: seq<Mount>, ns: seq<Mount>)
    requires multiset(ms) == multiset(ns)
    ensures Acceptable(ms) <==> Acceptable(ns)
  {
    if Acceptable(ms) { ReorderedIsAcceptable(ms, ns); }
    if Acceptable(ns) { ReorderedIsAcceptable(ns, ms); }
  }

  lemma ReorderedIsAcceptable(ms: seq<Mount>, ns: seq<Mount>)
    requires multiset(ms) == multiset(ns) && Acceptable(ms)
    ensures Acceptable(ns)
  {
    forall i | 0 <= i < |ns| ensures ns[i] in ms {
      assert ns[i] in multiset(ms);
    }
    forall i, j | 0 <= i < j < |ns| ensures Disjoint(ns[i], ns[j]) {
      InTwoPlaces(ns, i, j);
      AcceptableIsOnce(ms, ns[i]);
      MembersAreDisjoint(ms, ns[i], ns[j]);
    }
  }
}
