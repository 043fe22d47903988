/** Selecting an image from an OCI image index (OCI Image Index Specification,
    section "Image Index Property Descriptions"): the search that prunes by a
    shared visited set, and the plain depth-first search it must agree with. */
module ImageIndex {
  import opened Prelude

  datatype Platform = Platform(os: string, architecture: string, variant: string)

  datatype Descriptor = Descriptor(digest: string, isIndex: bool, platform: Option<Platform>)

  /** The blobs of a layout: the index blobs that can be opened, the manifests
      that can be read, and the images that can be opened. */
  datatype Layout = Layout(indexes: set<string>, manifests: map<string, seq<Descriptor>>, images: set<string>)

  datatype Fault = TooDeep | Unreadable

  /** NoMatch is the nil image with a nil error. */
  datatype Outcome = Found(digest: string, platform: Platform) | NoMatch | Fatal(fault: Fault)

  datatype Seen = SeenIndex | SeenPlatform(platform: Platform)

  const MAX_DEPTH: nat := 3

  function PlatformOf(d: Descriptor): Platform {
    if d.platform.Some? then d.platform.value else Platform("linux", "", "")
  }

  predicate PlatformOk(got: Platform, want: Platform) {
    (got.os == "" || EqualFold(got.os, want.os)) &&
    (got.architecture == "" || EqualFold(got.architecture, want.architecture))
  }

  predicate Matches(d: Descriptor, want: Platform) {
    !d.isIndex && PlatformOk(PlatformOf(d), want)
  }

  function Manifest(l: Layout, digest: string): Option<seq<Descriptor>> {
    if digest in l.manifests then Some(l.manifests[digest]) else None
  }

  function DepthLeft(depth: nat): nat {
    if depth > MAX_DEPTH then 0 else MAX_DEPTH + 1 - depth
  }

  // ----- the plain search -----

  function PlainIndex(l: Layout, want: Platform, manifest: Option<seq<Descriptor>>, depth: nat): Outcome
    decreases DepthLeft(depth), 2, 0
  {
    if depth > MAX_DEPTH then Fatal(TooDeep)
    else if manifest.None? then Fatal(Unreadable)
    else PlainList(l, want, manifest.value, depth)
  }

  function PlainList(l: Layout, want: Platform, ds: seq<Descriptor>, depth: nat): Outcome
    requires depth <= MAX_DEPTH
    decreases DepthLeft(depth), 1, |ds|
  {
    if ds == [] then NoMatch
    else
      var r := PlainDescriptor(l, want, ds[0], depth);
      if r == NoMatch then PlainList(l, want, ds[1..], depth) else r
  }

  function PlainDescriptor(l: Layout, want: Platform, d: Descriptor, depth: nat): Outcome
    requires depth <= MAX_DEPTH
    decreases DepthLeft(depth), 0, 0
  {
    if d.isIndex then
      if d.digest !in l.indexes then Fatal(Unreadable)
      else PlainIndex(l, want, Manifest(l, d.digest), depth + 1)
    else if !PlatformOk(PlatformOf(d), want) then NoMatch
    else if d.digest !in l.images then Fatal(Unreadable)
    else Found(d.digest, PlatformOf(d))
  }

  /** How many descriptors the plain search looks at. */
  function Cost(l: Layout, want: Platform, ds: seq<Descriptor>, depth: nat): nat
    requires depth <= MAX_DEPTH
    decreases DepthLeft(depth), 1, |ds|
  {
    if ds == [] then 0
    else
      CostOf(l, want, ds[0], depth) +
      if PlainDescriptor(l, want, ds[0], depth) == NoMatch then Cost(l, want, ds[1..], depth) else 0
  }

  function CostOf(l: Layout, want: Platform, d: Descriptor, depth: nat): nat
    requires depth <= MAX_DEPTH
    decreases DepthLeft(depth), 0, 0
  {
    1 + if d.isIndex && d.digest in l.manifests && depth < MAX_DEPTH
        then Cost(l, want, l.manifests[d.digest], depth + 1) else 0
  }

  /** Depth matters only to the nesting limit. */
  lemma {:induction false} DepthFree(l: Layout, want: Platform, ds: seq<Descriptor>, j: nat, k: nat)
    requires j <= MAX_DEPTH && k <= MAX_DEPTH
    requires !PlainList(l, want, ds, j).Fatal? && !PlainList(l, want, ds, k).Fatal?
    ensures PlainList(l, want, ds, j) == PlainList(l, want, ds, k)
    ensures Cost(l, want, ds, j) == Cost(l, want, ds, k)
    decreases DepthLeft(j), 1, |ds|
  {
    if ds != [] {
      DepthFreeDescriptor(l, want, ds[0], j, k);
      if PlainDescriptor(l, want, ds[0], j) == NoMatch {
        DepthFree(l, want, ds[1..], j, k);
      }
    }
  }

  lemma {:induction false} DepthFreeDescriptor(l: Layout, want: Platform, d: Descriptor, j: nat, k: nat)
    requires j <= MAX_DEPTH && k <= MAX_DEPTH
    requires !PlainDescriptor(l, want, d, j).Fatal? && !PlainDescriptor(l, want, d, k).Fatal?
    ensures PlainDescriptor(l, want, d, j) == PlainDescriptor(l, want, d, k)
    ensures CostOf(l, want, d, j) == CostOf(l, want, d, k)
    decreases DepthLeft(j), 0, 0
  {
    if d.isIndex {
      DepthFree(l, want, l.manifests[d.digest], j + 1, k + 1);
    }
  }

  // ----- the pruned search -----

  /** What a walk leaves: its outcome, the visited digests and the report. */
  datatype Walked = Walked(outcome: Outcome, visited: set<string>, seen: seq<Seen>)

  function PrunedIndex(l: Layout, want: Platform, manifest: Option<seq<Descriptor>>, depth: nat, visited: set<string>,
      seen: seq<Seen>): Walked
    decreases DepthLeft(depth), 1, 0
  {
    if depth > MAX_DEPTH then Walked(Fatal(TooDeep), visited, seen)
    else if manifest.None? then Walked(Fatal(Unreadable), visited, seen)
    else PrunedList(l, want, manifest.value, depth, visited, seen)
  }

  function PrunedList(l: Layout, want: Platform, ds: seq<Descriptor>, depth: nat, visited: set<string>,
      seen: seq<Seen>): Walked
    requires depth <= MAX_DEPTH
    decreases DepthLeft(depth), 0, |ds|
  {
    if ds == [] then Walked(NoMatch, visited, seen)
    else
      var d := ds[0];
      if d.digest in visited then PrunedList(l, want, ds[1..], depth, visited, seen)
      else
        var now := visited + {d.digest};
        if d.isIndex then
          if d.digest !in l.indexes then Walked(Fatal(Unreadable), now, seen + [SeenIndex])
          else
            var w := PrunedIndex(l, want, Manifest(l, d.digest), depth + 1, now, seen + [SeenIndex]);
            if w.outcome == NoMatch then PrunedList(l, want, ds[1..], depth, w.visited, w.seen) else w
        else
          var report := seen + [SeenPlatform(PlatformOf(d))];
          if !PlatformOk(PlatformOf(d), want) then PrunedList(l, want, ds[1..], depth, now, report)
          else if d.digest !in l.images then Walked(Fatal(Unreadable), now, report)
          else Walked(Found(d.digest, PlatformOf(d)), now, report)
  }

  /** The shared state of one selection. */
  class Walk {
    var visited: set<string>
    var seen: seq<Seen>

    constructor ()
      ensures visited == {} && seen == []
    {
      visited, seen := {}, [];
    }

    /** Recursion and loop over the shared visited set and report. It ends for
        every layout, cyclic ones included. */
    method PickImageFromIndex(l: Layout, want: Platform, manifest: Option<seq<Descriptor>>,
        depth: nat) returns (r: Outcome)
      modifies this
      ensures Walked(r, visited, seen) == PrunedIndex(l, want, manifest, depth, old(visited), old(seen))
      decreases DepthLeft(depth)
    {
      if depth > MAX_DEPTH {
        return Fatal(TooDeep);
      }
      if manifest.None? {
        return Fatal(Unreadable);
      }
      var ds := manifest.value;
      ghost var whole := PrunedList(l, want, ds, depth, visited, seen);
      assert ds[0..] == ds;
      for i := 0 to |ds|
        invariant PrunedList(l, want, ds[i..], depth, visited, seen) == whole
      {
        var d := ds[i];
        assert ds[i..][0] == d && ds[i..][1..] == ds[i + 1..];
        if d.digest in visited {
          continue;
        }
        visited := visited + {d.digest};
        if d.isIndex {
          seen := seen + [SeenIndex];
          if d.digest !in l.indexes {
            return Fatal(Unreadable);
          }
          var nested := PickImageFromIndex(l, want, Manifest(l, d.digest), depth + 1);
          if nested != NoMatch {
            return nested;
          }
          continue;
        }
        var p := PlatformOf(d);
        seen := seen + [SeenPlatform(p)];
        if !PlatformOk(p, want) {
          continue;
        }
        if d.digest !in l.images {
          return Fatal(Unreadable);
        }
        return Found(d.digest, p);
      }
      return NoMatch;
    }
  }

  // ----- reachability -----

  predicate IsMember(l: Layout, index: Descriptor, d: Descriptor) {
    index.isIndex && index.digest in l.manifests && d in l.manifests[index.digest]
  }

  /** path leads from the root manifest through nested indexes to its last
      descriptor. */
  predicate IsPath(l: Layout, root: seq<Descriptor>, path: seq<Descriptor>) {
    var n := |path|;
    n > 0 &&
    if n == 1 then path[0] in root
    else IsPath(l, root, path[..n - 1]) && IsMember(l, path[n - 2], path[n - 1])
  }

  ghost predicate Reachable(l: Layout, root: seq<Descriptor>, d: Descriptor) {
    exists path :: IsPath(l, root, path) && path[|path| - 1] == d
  }

  /** The search cannot tell the two apart: both are indexes, both mismatches, or
      both matches of one platform. */
  predicate Alike(d: Descriptor, e: Descriptor, want: Platform) {
    d.isIndex == e.isIndex && (Matches(d, want) <==> Matches(e, want)) &&
    (Matches(d, want) ==> PlatformOf(d) == PlatformOf(e))
  }

  /** Descriptors of equal digests are alike. */
  ghost predicate Consistent(l: Layout, want: Platform, root: seq<Descriptor>) {
    forall d, e | Reachable(l, root, d) && Reachable(l, root, e) && d.digest == e.digest :: Alike(d, e, want)
  }

  /** And then the plain search treats them alike at every depth. */
  lemma AlikeDescriptors(l: Layout, want: Platform, d: Descriptor, e: Descriptor)
    requires d.digest == e.digest && Alike(d, e, want)
    ensures forall k: nat | k <= MAX_DEPTH ::
              PlainDescriptor(l, want, d, k) == PlainDescriptor(l, want, e, k) &&
                CostOf(l, want, d, k) == CostOf(l, want, e, k)
    ensures Dead(l, want, d) <==> Dead(l, want, e)
    ensures forall bound: nat :: Pending(l, want, d, bound) <==> Pending(l, want, e, bound)
  {
    forall k: nat | k <= MAX_DEPTH
      ensures PlainDescriptor(l, want, d, k) == PlainDescriptor(l, want, e, k) &&
              CostOf(l, want, d, k) == CostOf(l, want, e, k)
    {
    }
  }

  lemma RootIsReachable(l: Layout, root: seq<Descriptor>)
    ensures forall d | d in root :: Reachable(l, root, d)
  {
    forall d | d in root ensures Reachable(l, root, d) {
      assert IsPath(l, root, [d]);
    }
  }

  lemma ChildrenAreReachable(l: Layout, root: seq<Descriptor>, d: Descriptor)
    requires Reachable(l, root, d) && d.isIndex && d.digest in l.manifests
    ensures forall c | c in l.manifests[d.digest] :: Reachable(l, root, c)
  {
    var path :| IsPath(l, root, path) && path[|path| - 1] == d;
    forall c | c in l.manifests[d.digest] ensures Reachable(l, root, c) {
      assert (path + [c])[..|path|] == path;
      assert IsPath(l, root, path + [c]);
    }
  }

  // ----- agreement with the plain search -----

  /** Nothing is found below d, at whatever depth it is met. */
  ghost predicate Dead(l: Layout, want: Platform, d: Descriptor) {
    forall k: nat | k <= MAX_DEPTH :: !PlainDescriptor(l, want, d, k).Found?
  }

  /** d is being searched, at a cost above bound: it cannot be met again by a
      plain search that costs at most bound and does not fail. */
  ghost predicate Pending(l: Layout, want: Platform, d: Descriptor, bound: nat) {
    exists k: nat :: k <= MAX_DEPTH && !PlainDescriptor(l, want, d, k).Fatal? && CostOf(l, want, d, k) > bound
  }

  ghost predicate Explained(l: Layout, want: Platform, root: seq<Descriptor>, visited: set<string>, bound: nat) {
    forall e | Reachable(l, root, e) && e.digest in visited :: Dead(l, want, e) || Pending(l, want, e, bound)
  }

  ghost predicate DeadSince(l: Layout, want: Platform, root: seq<Descriptor>, before: set<string>, after: set<string>) {
    before <= after && forall e | Reachable(l, root, e) && e.digest in after && e.digest !in before :: Dead(l, want, e)
  }

  lemma DeadWhenNoMatch(l: Layout, want: Platform, d: Descriptor, depth: nat)
    requires depth <= MAX_DEPTH && PlainDescriptor(l, want, d, depth) == NoMatch
    ensures Dead(l, want, d)
  {
    forall k: nat | k <= MAX_DEPTH ensures !PlainDescriptor(l, want, d, k).Found? {
      if PlainDescriptor(l, want, d, k).Found? {
        DepthFreeDescriptor(l, want, d, depth, k);
      }
    }
  }

  lemma VisitedIsSkippable(l: Layout, want: Platform, root: seq<Descriptor>, d: Descriptor, depth: nat,
      visited: set<string>, bound: nat)
    requires depth <= MAX_DEPTH && Explained(l, want, root, visited, bound)
    requires Reachable(l, root, d) && d.digest in visited
    requires !PlainDescriptor(l, want, d, depth).Fatal? && CostOf(l, want, d, depth) <= bound
    ensures PlainDescriptor(l, want, d, depth) == NoMatch
  {
    if !Dead(l, want, d) {
      var k: nat :| k <= MAX_DEPTH && !PlainDescriptor(l, want, d, k).Fatal? && CostOf(l, want, d, k) > bound;
      DepthFreeDescriptor(l, want, d, depth, k);
    }
  }

  lemma Explain(l: Layout, want: Platform, root: seq<Descriptor>, visited: set<string>, bound: nat, lower: nat,
      d: Descriptor)
    requires Consistent(l, want, root) && Explained(l, want, root, visited, bound) && lower <= bound
    requires Reachable(l, root, d) && (Dead(l, want, d) || Pending(l, want, d, lower))
    ensures Explained(l, want, root, visited, lower) && Explained(l, want, root, visited + {d.digest}, lower)
  {
    forall e | Reachable(l, root, e) && e.digest == d.digest ensures Dead(l, want, e) || Pending(l, want, e, lower) {
      AlikeDescriptors(l, want, d, e);
    }
  }

  lemma ExplainSince(l: Layout, want: Platform, root: seq<Descriptor>, before: set<string>, after: set<string>,
      bound: nat)
    requires Explained(l, want, root, before, bound) && DeadSince(l, want, root, before, after)
    ensures Explained(l, want, root, after, bound)
  {
  }

  /** After d, which was dead, and everything dead below it come the rest. */
  lemma DeadSinceChain(l: Layout, want: Platform, root: seq<Descriptor>, d: Descriptor, a: set<string>, b: set<string>,
      c: set<string>)
    requires Consistent(l, want, root) && Reachable(l, root, d) && Dead(l, want, d)
    requires DeadSince(l, want, root, a + {d.digest}, b) && DeadSince(l, want, root, b, c)
    ensures DeadSince(l, want, root, a, c)
  {
    forall e | Reachable(l, root, e) && e.digest == d.digest ensures Dead(l, want, e) {
      AlikeDescriptors(l, want, d, e);
    }
  }

  lemma {:induction false} PrunedListAgrees(l: Layout, want: Platform, root: seq<Descriptor>, ds: seq<Descriptor>,
      depth: nat, visited: set<string>, seen: seq<Seen>)
    requires Consistent(l, want, root) && depth <= MAX_DEPTH
    requires forall d | d in ds :: Reachable(l, root, d)
    requires !PlainList(l, want, ds, depth).Fatal?
    requires Explained(l, want, root, visited, Cost(l, want, ds, depth))
    ensures var w := PrunedList(l, want, ds, depth, visited, seen);
            w.outcome == PlainList(l, want, ds, depth) &&
            (w.outcome == NoMatch ==> DeadSince(l, want, root, visited, w.visited))
    decreases DepthLeft(depth), |ds|
  {
    if ds != [] {
      var d, rest, bound := ds[0], ds[1..], Cost(l, want, ds, depth);
      var now := visited + {d.digest};
      if d.digest in visited {
        VisitedIsSkippable(l, want, root, d, depth, visited, bound);
        DeadWhenNoMatch(l, want, d, depth);
        Explain(l, want, root, visited, bound, Cost(l, want, rest, depth), d);
        PrunedListAgrees(l, want, root, rest, depth, visited, seen);
      } else if d.isIndex {
        PrunedMembersAgree(l, want, root, ds, depth, visited, seen);
        var w := PrunedIndex(l, want, Manifest(l, d.digest), depth + 1, now, seen + [SeenIndex]);
        if w.outcome == NoMatch {
          DeadWhenNoMatch(l, want, d, depth);
          Explain(l, want, root, visited, bound, Cost(l, want, rest, depth), d);
          ExplainSince(l, want, root, now, w.visited, Cost(l, want, rest, depth));
          PrunedListAgrees(l, want, root, rest, depth, w.visited, w.seen);
          if PrunedList(l, want, rest, depth, w.visited, w.seen).outcome == NoMatch {
            var after := PrunedList(l, want, rest, depth, w.visited, w.seen).visited;
            DeadSinceChain(l, want, root, d, visited, w.visited, after);
          }
        }
      } else if !PlatformOk(PlatformOf(d), want) {
        var report := seen + [SeenPlatform(PlatformOf(d))];
        DeadWhenNoMatch(l, want, d, depth);
        Explain(l, want, root, visited, bound, Cost(l, want, rest, depth), d);
        PrunedListAgrees(l, want, root, rest, depth, now, report);
        if PrunedList(l, want, rest, depth, now, report).outcome == NoMatch {
          DeadSinceChain(l, want, root, d, visited, now, PrunedList(l, want, rest, depth, now, report).visited);
        }
      }
    }
  }

  lemma {:induction false} PrunedMembersAgree(l: Layout, want: Platform, root: seq<Descriptor>, ds: seq<Descriptor>,
      depth: nat, visited: set<string>, seen: seq<Seen>)
    requires Consistent(l, want, root) && depth <= MAX_DEPTH && ds != [] && ds[0].isIndex && Reachable(l, root, ds[0])
    requires !PlainDescriptor(l, want, ds[0], depth).Fatal?
    requires Explained(l, want, root, visited, Cost(l, want, ds, depth))
    ensures var d, now := ds[0], visited + {ds[0].digest};
            var w := PrunedIndex(l, want, Manifest(l, d.digest), depth + 1, now, seen + [SeenIndex]);
            d.digest in l.indexes && w.outcome == PlainDescriptor(l, want, d, depth) &&
            (w.outcome == NoMatch ==> DeadSince(l, want, root, now, w.visited))
    decreases DepthLeft(depth), 0
  {
    var d := ds[0];
    var members := l.manifests[d.digest];
    ChildrenAreReachable(l, root, d);
    var bound := Cost(l, want, members, depth + 1);
    assert CostOf(l, want, d, depth) > bound;
    assert Pending(l, want, d, bound);
    Explain(l, want, root, visited, Cost(l, want, ds, depth), bound, d);
    PrunedListAgrees(l, want, root, members, depth + 1, visited + {d.digest}, seen + [SeenIndex]);
  }

  /** The search with the shared visited set selects the same image and platform
      as the plain one, whenever the plain one ends without error and equal
      digests carry equal descriptors. */
  lemma PrunedAgreesWithPlain(l: Layout, want: Platform, root: seq<Descriptor>)
    requires Consistent(l, want, root) && !PlainIndex(l, want, Some(root), 0).Fatal?
    ensures PrunedIndex(l, want, Some(root), 0, {}, []).outcome == PlainIndex(l, want, Some(root), 0)
  {
    RootIsReachable(l, root);
    PrunedListAgrees(l, want, root, root, 0, {}, []);
  }

  // ----- what no match means -----

  /** Everything newly visited is a mismatch or an index whose members were
      visited too. */
  ghost predicate Exhausted(l: Layout, want: Platform, root: seq<Descriptor>, before: set<string>, after: set<string>) {
    before <= after &&
    forall e | Reachable(l, root, e) && e.digest in after && e.digest !in before ::
      !Matches(e, want) &&
      (e.isIndex ==> e.digest in l.manifests && forall c | c in l.manifests[e.digest] :: c.digest in after)
  }

  /** After a mismatch d and everything below it come the rest. */
  lemma ExhaustedFrom(l: Layout, want: Platform, root: seq<Descriptor>, d: Descriptor, a: set<string>, b: set<string>,
      c: set<string>)
    requires Consistent(l, want, root) && Reachable(l, root, d) && !Matches(d, want)
    requires d.isIndex ==> d.digest in l.manifests && forall e | e in l.manifests[d.digest] :: e.digest in b
    requires Exhausted(l, want, root, a + {d.digest}, b) && Exhausted(l, want, root, b, c)
    ensures Exhausted(l, want, root, a, c) && d.digest in c
  {
  }

  lemma {:induction false} NoMatchExhausts(l: Layout, want: Platform, root: seq<Descriptor>, ds: seq<Descriptor>,
      depth: nat, visited: set<string>, seen: seq<Seen>)
    requires Consistent(l, want, root) && depth <= MAX_DEPTH
    requires forall d | d in ds :: Reachable(l, root, d)
    requires PrunedList(l, want, ds, depth, visited, seen).outcome == NoMatch
    ensures var w := PrunedList(l, want, ds, depth, visited, seen);
            Exhausted(l, want, root, visited, w.visited) && forall d | d in ds :: d.digest in w.visited
    decreases DepthLeft(depth), |ds|, 1
  {
    if ds != [] {
      var d, rest := ds[0], ds[1..];
      if d.digest in visited {
        NoMatchExhausts(l, want, root, rest, depth, visited, seen);
      } else if d.isIndex {
        NoMatchExhaustsIndex(l, want, root, ds, depth, visited, seen);
      } else {
        var now, report := visited + {d.digest}, seen + [SeenPlatform(PlatformOf(d))];
        NoMatchExhausts(l, want, root, rest, depth, now, report);
        ExhaustedFrom(l, want, root, d, visited, now, PrunedList(l, want, rest, depth, now, report).visited);
      }
    }
  }

  lemma {:induction false} NoMatchExhaustsIndex(l: Layout, want: Platform, root: seq<Descriptor>, ds: seq<Descriptor>,
      depth: nat, visited: set<string>, seen: seq<Seen>)
    requires Consistent(l, want, root) && depth <= MAX_DEPTH && ds != [] && ds[0].isIndex && ds[0].digest !in visited
    requires forall d | d in ds :: Reachable(l, root, d)
    requires PrunedList(l, want, ds, depth, visited, seen).outcome == NoMatch
    ensures var w := PrunedList(l, want, ds, depth, visited, seen);
            Exhausted(l, want, root, visited, w.visited) && forall d | d in ds :: d.digest in w.visited
    decreases DepthLeft(depth), |ds|, 0
  {
    var d, rest := ds[0], ds[1..];
    var now, children := visited + {d.digest}, l.manifests[d.digest];
    ChildrenAreReachable(l, root, d);
    NoMatchExhausts(l, want, root, children, depth + 1, now, seen + [SeenIndex]);
    var w := PrunedList(l, want, children, depth + 1, now, seen + [SeenIndex]);
    NoMatchExhausts(l, want, root, rest, depth, w.visited, w.seen);
    ExhaustedFrom(l, want, root, d, visited, w.visited, PrunedList(l, want, rest, depth, w.visited, w.seen).visited);
  }

  lemma {:induction false} ReachableIsVisited(l: Layout, want: Platform, root: seq<Descriptor>, visited: set<string>,
      path: seq<Descriptor>)
    requires Exhausted(l, want, root, {}, visited) && (forall d | d in root :: d.digest in visited)
    requires IsPath(l, root, path)
    ensures path[|path| - 1].digest in visited
  {
    var n := |path|;
    if n > 1 {
      ReachableIsVisited(l, want, root, visited, path[..n - 1]);
      assert Reachable(l, root, path[n - 2]) by {
        assert path[..n - 1][n - 2] == path[n - 2];
      }
    }
  }

  /** No image and no error means that no reachable descriptor matches. */
  lemma NoMatchMeansNoneReachable(l: Layout, want: Platform, root: seq<Descriptor>, d: Descriptor)
    requires Consistent(l, want, root) && PrunedIndex(l, want, Some(root), 0, {}, []).outcome == NoMatch
    requires Reachable(l, root, d)
    ensures !Matches(d, want)
  {
    RootIsReachable(l, root);
    NoMatchExhausts(l, want, root, root, 0, {}, []);
    var path :| IsPath(l, root, path) && path[|path| - 1] == d;
    ReachableIsVisited(l, want, root, PrunedIndex(l, want, Some(root), 0, {}, []).visited, path);
  }

  /** r is the image of the matching descriptor d. */
  predicate IsSelected(l: Layout, want: Platform, d: Descriptor, r: Outcome) {
    Matches(d, want) && r == Found(d.digest, PlatformOf(d)) && d.digest in l.images
  }

  lemma {:induction false} FoundInList(l: Layout, want: Platform, root: seq<Descriptor>, ds: seq<Descriptor>,
      depth: nat, visited: set<string>, seen: seq<Seen>)
    requires depth <= MAX_DEPTH && forall d | d in ds :: Reachable(l, root, d)
    requires PrunedList(l, want, ds, depth, visited, seen).outcome.Found?
    ensures var r := PrunedList(l, want, ds, depth, visited, seen).outcome;
            exists d :: Reachable(l, root, d) && IsSelected(l, want, d, r)
    decreases DepthLeft(depth), |ds|
  {
    var d, rest := ds[0], ds[1..];
    var now := visited + {d.digest};
    if d.digest in visited {
      FoundInList(l, want, root, rest, depth, visited, seen);
    } else if d.isIndex {
      var children := l.manifests[d.digest];
      ChildrenAreReachable(l, root, d);
      var w := PrunedList(l, want, children, depth + 1, now, seen + [SeenIndex]);
      if w.outcome == NoMatch {
        FoundInList(l, want, root, rest, depth, w.visited, w.seen);
      } else {
        FoundInList(l, want, root, children, depth + 1, now, seen + [SeenIndex]);
      }
    } else if !PlatformOk(PlatformOf(d), want) {
      FoundInList(l, want, root, rest, depth, now, seen + [SeenPlatform(PlatformOf(d))]);
    } else {
      assert IsSelected(l, want, d, Found(d.digest, PlatformOf(d)));
    }
  }

  /** The search without an error decides whether a matching descriptor is
      reachable, and what it selects is one. */
  lemma PrunedDecidesReachability(l: Layout, want: Platform, root: seq<Descriptor>)
    requires Consistent(l, want, root) && !PrunedIndex(l, want, Some(root), 0, {}, []).outcome.Fatal?
    ensures var r := PrunedIndex(l, want, Some(root), 0, {}, []).outcome;
            (r.Found? <==> exists d :: Reachable(l, root, d) && Matches(d, want)) &&
            (r.Found? ==> exists d :: Reachable(l, root, d) && IsSelected(l, want, d, r))
  {
    RootIsReachable(l, root);
    if PrunedIndex(l, want, Some(root), 0, {}, []).outcome.Found? {
      FoundInList(l, want, root, root, 0, {}, []);
    } else {
      forall d | Reachable(l, root, d) ensures !Matches(d, want) {
        NoMatchMeansNoneReachable(l, want, root, d);
      }
    }
  }

  /** The platform asked for, spelled out: a descriptor without a platform counts as
      linux, and an empty field suits every request. */
  predicate Suits(d: Descriptor, want: Platform) {
    !d.isIndex &&
    var got := if d.platform.Some? then d.platform.value else Platform("linux", "", "");
    (got.os == "" || ToLower(got.os) == ToLower(want.os)) &&
    (got.architecture == "" || ToLower(got.architecture) == ToLower(want.architecture))
  }

  /** What is selected suits, and so does the platform that is reported; and when
      there is no match and no error, nothing reachable suits. */
  lemma SelectionSuits(l: Layout, want: Platform, root: seq<Descriptor>)
    requires Consistent(l, want, root)
    ensures match PrunedIndex(l, want, Some(root), 0, {}, []).outcome
            case Found(digest, p) =>
              (p.os == "" || ToLower(p.os) == ToLower(want.os)) &&
              (p.architecture == "" || ToLower(p.architecture) == ToLower(want.architecture)) &&
              exists d :: Reachable(l, root, d) && Suits(d, want) && d.digest == digest
            case NoMatch => forall d | Reachable(l, root, d) :: !Suits(d, want)
            case Fatal(_) => true
  {
    var r := PrunedIndex(l, want, Some(root), 0, {}, []).outcome;
    if r.Found? {
      PrunedDecidesReachability(l, want, root);
      var d :| Reachable(l, root, d) && IsSelected(l, want, d, r);
      assert Suits(d, want);
    } else if r == NoMatch {
      forall d | Reachable(l, root, d) ensures !Suits(d, want) {
        NoMatchMeansNoneReachable(l, want, root, d);
      }
    }
  }

  /** A blob the search needs and cannot have. */
  predicate IsUnreadable(l: Layout, d: Descriptor, want: Platform) {
    if d.isIndex then d.digest !in l.indexes || d.digest !in l.manifests else Suits(d, want) && d.digest !in l.images
  }

  /** A chain of depth nested indexes leads from the root to d. */
  ghost predicate AtDepth(l: Layout, root: seq<Descriptor>, d: Descriptor, depth: nat) {
    exists path :: IsPath(l, root, path) && |path| == depth + 1 && path[depth] == d
  }

  lemma ChildrenAreDeeper(l: Layout, root: seq<Descriptor>, d: Descriptor, depth: nat)
    requires AtDepth(l, root, d, depth) && d.isIndex && d.digest in l.manifests
    ensures forall c | c in l.manifests[d.digest] :: AtDepth(l, root, c, depth + 1)
  {
    var path :| IsPath(l, root, path) && |path| == depth + 1 && path[depth] == d;
    forall c | c in l.manifests[d.digest] ensures AtDepth(l, root, c, depth + 1) {
      assert (path + [c])[..|path|] == path;
      assert IsPath(l, root, path + [c]) && (path + [c])[depth + 1] == c;
    }
  }

  /** Why a search fails: something reachable is needed and cannot be read, or an
      index is nested in three others. */
  ghost predicate HasCause(l: Layout, want: Platform, root: seq<Descriptor>, fault: Fault) {
    match fault
    case Unreadable => exists d, k: nat :: AtDepth(l, root, d, k) && IsUnreadable(l, d, want)
    case TooDeep => exists d :: AtDepth(l, root, d, 3) && d.isIndex
  }

  lemma {:induction false} FatalListHasCause(l: Layout, want: Platform, root: seq<Descriptor>, ds: seq<Descriptor>,
      depth: nat, visited: set<string>, seen: seq<Seen>)
    requires depth <= MAX_DEPTH && forall d | d in ds :: AtDepth(l, root, d, depth)
    ensures var r := PrunedList(l, want, ds, depth, visited, seen).outcome;
            r.Fatal? ==> HasCause(l, want, root, r.fault)
    decreases DepthLeft(depth), |ds|
  {
    if ds != [] {
      var d, rest := ds[0], ds[1..];
      var now := visited + {d.digest};
      if d.digest in visited {
        FatalListHasCause(l, want, root, rest, depth, visited, seen);
      } else if d.isIndex {
        if d.digest in l.indexes && d.digest in l.manifests && depth < MAX_DEPTH {
          var children := l.manifests[d.digest];
          ChildrenAreDeeper(l, root, d, depth);
          FatalListHasCause(l, want, root, children, depth + 1, now, seen + [SeenIndex]);
          var w := PrunedList(l, want, children, depth + 1, now, seen + [SeenIndex]);
          FatalListHasCause(l, want, root, rest, depth, w.visited, w.seen);
        }
      } else {
        assert Suits(d, want) <==> Matches(d, want);
        if Matches(d, want) {
          assert AtDepth(l, root, d, depth) && (d.digest !in l.images ==> IsUnreadable(l, d, want));
        } else {
          FatalListHasCause(l, want, root, rest, depth, now, seen + [SeenPlatform(PlatformOf(d))]);
        }
      }
    }
  }

  lemma {:induction false} PlainFatalListHasCause(l: Layout, want: Platform, root: seq<Descriptor>, ds: seq<Descriptor>,
      depth: nat)
    requires depth <= MAX_DEPTH && forall d | d in ds :: AtDepth(l, root, d, depth)
    ensures var r := PlainList(l, want, ds, depth); r.Fatal? ==> HasCause(l, want, root, r.fault)
    decreases DepthLeft(depth), |ds|
  {
    if ds != [] {
      var d, rest := ds[0], ds[1..];
      assert AtDepth(l, root, d, depth);
      assert Suits(d, want) <==> Matches(d, want);
      if d.isIndex && d.digest in l.indexes && d.digest in l.manifests && depth < MAX_DEPTH {
        ChildrenAreDeeper(l, root, d, depth);
        PlainFatalListHasCause(l, want, root, l.manifests[d.digest], depth + 1);
      } else {
        assert PlainDescriptor(l, want, d, depth) == Fatal(Unreadable) ==> IsUnreadable(l, d, want);
      }
      PlainFatalListHasCause(l, want, root, rest, depth);
    }
  }

  /** An error of either search has a cause. */
  lemma FatalHasCause(l: Layout, want: Platform, root: seq<Descriptor>)
    ensures var r := PrunedIndex(l, want, Some(root), 0, {}, []).outcome;
            r.Fatal? ==> HasCause(l, want, root, r.fault)
    ensures var r := PlainIndex(l, want, Some(root), 0);
            r.Fatal? ==> HasCause(l, want, root, r.fault)
  {
    forall d | d in root ensures AtDepth(l, root, d, 0) {
      assert IsPath(l, root, [d]);
    }
    FatalListHasCause(l, want, root, root, 0, {}, []);
    PlainFatalListHasCause(l, want, root, root, 0);
  }

  /** A report entry is of something reachable: an index, or another descriptor's
      platform, linux when it has none. */
  ghost predicate IsReportOf(l: Layout, root: seq<Descriptor>, x: Seen) {
    match x
    case SeenIndex => exists d :: Reachable(l, root, d) && d.isIndex
    case SeenPlatform(p) =>
      exists d :: Reachable(l, root, d) && !d.isIndex &&
                  p == if d.platform.Some? then d.platform.value else Platform("linux", "", "")
  }

  lemma {:induction false} ReportsAreReachable(l: Layout, want: Platform, root: seq<Descriptor>, ds: seq<Descriptor>,
      depth: nat, visited: set<string>, seen: seq<Seen>)
    requires depth <= MAX_DEPTH && forall d | d in ds :: Reachable(l, root, d)
    requires forall x | x in seen :: IsReportOf(l, root, x)
    ensures forall x | x in PrunedList(l, want, ds, depth, visited, seen).seen :: IsReportOf(l, root, x)
    decreases DepthLeft(depth), |ds|
  {
    if ds != [] {
      var d, rest := ds[0], ds[1..];
      assert Reachable(l, root, d);
      var now := visited + {d.digest};
      if d.digest in visited {
        ReportsAreReachable(l, want, root, rest, depth, visited, seen);
      } else if d.isIndex {
        assert IsReportOf(l, root, SeenIndex);
        if d.digest in l.indexes && d.digest in l.manifests && depth < MAX_DEPTH {
          ChildrenAreReachable(l, root, d);
          ReportsAreReachable(l, want, root, l.manifests[d.digest], depth + 1, now, seen + [SeenIndex]);
          var w := PrunedList(l, want, l.manifests[d.digest], depth + 1, now, seen + [SeenIndex]);
          ReportsAreReachable(l, want, root, rest, depth, w.visited, w.seen);
        }
      } else {
        assert IsReportOf(l, root, SeenPlatform(PlatformOf(d)));
        ReportsAreReachable(l, want, root, rest, depth, now, seen + [SeenPlatform(PlatformOf(d))]);
      }
    }
  }

  /** Every digest is reported once, however often it is listed. */
  lemma {:induction false} ReportedOnce(l: Layout, want: Platform, ds: seq<Descriptor>, depth: nat,
      visited: set<string>, seen: seq<Seen>)
    requires depth <= MAX_DEPTH
    ensures var w := PrunedList(l, want, ds, depth, visited, seen);
            visited <= w.visited && seen <= w.seen && |w.seen| - |seen| == |w.visited| - |visited|
    decreases DepthLeft(depth), |ds|
  {
    if ds != [] {
      var d, rest := ds[0], ds[1..];
      var now := visited + {d.digest};
      if d.digest in visited {
        ReportedOnce(l, want, rest, depth, visited, seen);
      } else if d.isIndex {
        if d.digest in l.indexes && d.digest in l.manifests && depth < MAX_DEPTH {
          ReportedOnce(l, want, l.manifests[d.digest], depth + 1, now, seen + [SeenIndex]);
          var w := PrunedList(l, want, l.manifests[d.digest], depth + 1, now, seen + [SeenIndex]);
          ReportedOnce(l, want, rest, depth, w.visited, w.seen);
        }
      } else {
        ReportedOnce(l, want, rest, depth, now, seen + [SeenPlatform(PlatformOf(d))]);
      }
    }
  }

  // ----- lists without nested indexes, exactly -----

  predicate Flat(ds: seq<Descriptor>) {
    forall d | d in ds :: !d.isIndex
  }

  /** No match, or the first match does not repeat the digest of a descriptor
      before it (or of one visited already). */
  predicate FirstMatchIsNew(want: Platform, ds: seq<Descriptor>, visited: set<string>) {
    ds == [] ||
    if Matches(ds[0], want) then ds[0].digest !in visited
    else FirstMatchIsNew(want, ds[1..], visited + {ds[0].digest})
  }

  /** A digest that was visited is not selected. */
  lemma {:induction false} VisitedIsNotFound(l: Layout, want: Platform, ds: seq<Descriptor>, visited: set<string>,
      seen: seq<Seen>)
    requires Flat(ds)
    ensures var r := PrunedList(l, want, ds, 0, visited, seen).outcome; r.Found? ==> r.digest !in visited
  {
    if ds != [] {
      var d := ds[0];
      if d.digest in visited {
        VisitedIsNotFound(l, want, ds[1..], visited, seen);
      } else if !Matches(d, want) {
        VisitedIsNotFound(l, want, ds[1..], visited + {d.digest}, seen + [SeenPlatform(PlatformOf(d))]);
      }
    }
  }

  lemma {:induction false} FlatListAgreesIff(l: Layout, want: Platform, ds: seq<Descriptor>, visited: set<string>,
      seen: seq<Seen>)
    requires Flat(ds) && !PlainList(l, want, ds, 0).Fatal?
    ensures PrunedList(l, want, ds, 0, visited, seen).outcome == PlainList(l, want, ds, 0) <==>
            FirstMatchIsNew(want, ds, visited)
  {
    if ds != [] {
      var d, rest := ds[0], ds[1..];
      if Matches(d, want) {
        VisitedIsNotFound(l, want, ds, visited, seen);
      } else if d.digest in visited {
        assert visited + {d.digest} == visited;
        FlatListAgreesIff(l, want, rest, visited, seen);
      } else {
        FlatListAgreesIff(l, want, rest, visited + {d.digest}, seen + [SeenPlatform(PlatformOf(d))]);
      }
    }
  }

  /** Position i has the first match. */
  predicate FirstMatchAt(want: Platform, ds: seq<Descriptor>, i: nat) {
    i < |ds| && Matches(ds[i], want) && forall j | 0 <= j < i :: !Matches(ds[j], want)
  }

  lemma {:induction false} FirstMatchIsNewMeans(want: Platform, ds: seq<Descriptor>, visited: set<string>)
    ensures FirstMatchIsNew(want, ds, visited) <==>
            forall i: nat | FirstMatchAt(want, ds, i) ::
              ds[i].digest !in visited && forall j | 0 <= j < i :: ds[j].digest != ds[i].digest
  {
    if ds != [] {
      var rest, more := ds[1..], visited + {ds[0].digest};
      if Matches(ds[0], want) {
        assert FirstMatchAt(want, ds, 0);
      } else {
        FirstMatchIsNewMeans(want, rest, more);
        forall i: nat ensures FirstMatchAt(want, rest, i) <==> FirstMatchAt(want, ds, i + 1) {
          if FirstMatchAt(want, ds, i + 1) {
            forall j | 0 <= j < i ensures !Matches(rest[j], want) {
              assert rest[j] == ds[j + 1];
            }
          }
        }

      }
    }
  }

  /** On such a list the plain search selects the first match. */
  lemma {:induction false} PlainTakesFirst(l: Layout, want: Platform, ds: seq<Descriptor>)
    requires Flat(ds)
    ensures match PlainList(l, want, ds, 0)
            case Found(digest, p) =>
              exists i: nat :: FirstMatchAt(want, ds, i) && digest == ds[i].digest && p == PlatformOf(ds[i]) &&
                               digest in l.images
            case NoMatch => forall i | 0 <= i < |ds| :: !Matches(ds[i], want)
            case Fatal(fault) => exists i: nat :: FirstMatchAt(want, ds, i) && ds[i].digest !in l.images
  {
    if ds != [] {
      var rest := ds[1..];
      assert !ds[0].isIndex;
      if Matches(ds[0], want) {
        assert FirstMatchAt(want, ds, 0);
        assert PlainDescriptor(l, want, ds[0], 0) != NoMatch;
      } else {
        PlainTakesFirst(l, want, rest);
        var r := PlainList(l, want, rest, 0);
        assert PlainList(l, want, ds, 0) == r;
        if r.Found? {
          var i: nat :| FirstMatchAt(want, rest, i) && r.digest == rest[i].digest && r.platform == PlatformOf(rest[i]);
          FirstMatchShifts(want, ds, i);
        } else if r.Fatal? {
          var i: nat :| FirstMatchAt(want, rest, i) && rest[i].digest !in l.images;
          FirstMatchShifts(want, ds, i);
          assert ds[i + 1].digest !in l.images;
        }
      }
    }
  }

  lemma FirstMatchShifts(want: Platform, ds: seq<Descriptor>, i: nat)
    requires ds != [] && !Matches(ds[0], want) && FirstMatchAt(want, ds[1..], i)
    ensures FirstMatchAt(want, ds, i + 1) && ds[i + 1] == ds[1..][i]
  {
    forall j | 0 <= j < i + 1 ensures !Matches(ds[j], want) {
      assert j > 0 ==> ds[j] == ds[1..][j - 1];
    }
  }

  /** For every list without nested indexes and every platform, if the plain search
      ends without error: the pruned search selects the same image if and only if
      nothing matches or the first match has a digest of its own, different from
      every descriptor before it. */
  lemma FlatAgreesIff(l: Layout, want: Platform, root: seq<Descriptor>)
    requires Flat(root) && !PlainIndex(l, want, Some(root), 0).Fatal?
    ensures PrunedIndex(l, want, Some(root), 0, {}, []).outcome == PlainIndex(l, want, Some(root), 0) <==>
            forall i: nat | FirstMatchAt(want, root, i) :: forall j | 0 <= j < i :: root[j].digest != root[i].digest
  {
    FlatListAgreesIff(l, want, root, {}, []);
    FirstMatchIsNewMeans(want, root, {});
  }

  // ----- why the conditions are needed -----

  /** With one digest listed for two platforms, the pruned search misses the
      second. */
  lemma SharedDigestIsMissed()
    ensures var arm, amd := Platform("linux", "arm64", ""), Platform("linux", "amd64", "");
            var root := [Descriptor("d", false, Some(arm)), Descriptor("d", false, Some(amd))];
            var l := Layout({}, map[], {"d"});
            PlainIndex(l, amd, Some(root), 0) == Found("d", amd) &&
            PrunedIndex(l, amd, Some(root), 0, {}, []).outcome == NoMatch
  {
    var arm, amd := Platform("linux", "arm64", ""), Platform("linux", "amd64", "");
    var root := [Descriptor("d", false, Some(arm)), Descriptor("d", false, Some(amd))];
    var l := Layout({}, map[], {"d"});
    assert ToLower("arm64")[1] != ToLower("amd64")[1];
    assert root[1..] == [root[1]];
    assert PlainDescriptor(l, amd, root[0], 0) == NoMatch;
    assert PlainList(l, amd, root[1..], 0) == Found("d", amd);
    assert PrunedList(l, amd, root[1..], 0, {"d"}, [SeenPlatform(arm)]).outcome == NoMatch;
    assert {} + {"d"} == {"d"} && [] + [SeenPlatform(arm)] == [SeenPlatform(arm)];
  }

  /** On an index that lists itself the plain search exceeds the depth limit,
      while the pruned one goes on and selects the image. */
  lemma CycleIsSurvived(want: Platform)
    requires EqualFold(want.os, "linux")
    ensures var self, image := Descriptor("x", true, None), Descriptor("i", false, None);
            var l := Layout({"x"}, map["x" := [self, image]], {"i"});
            PlainIndex(l, want, Some([self]), 0) == Fatal(TooDeep) &&
            PrunedIndex(l, want, Some([self]), 0, {}, []).outcome == Found("i", Platform("linux", "", ""))
  {
    var self, image := Descriptor("x", true, None), Descriptor("i", false, None);
    var l := Layout({"x"}, map["x" := [self, image]], {"i"});
    var members := l.manifests["x"];
    assert members[1..] == [image];
    assert PlainDescriptor(l, want, self, 3) == Fatal(TooDeep);
    assert PlainDescriptor(l, want, self, 2) == Fatal(TooDeep);
    assert PlainDescriptor(l, want, self, 1) == Fatal(TooDeep);
    assert PlainDescriptor(l, want, self, 0) == Fatal(TooDeep);
    assert PrunedList(l, want, [image], 1, {"x"}, [SeenIndex]).outcome == Found("i", Platform("linux", "", ""));
    assert PrunedList(l, want, members, 1, {"x"}, [SeenIndex]).outcome == Found("i", Platform("linux", "", ""));
  }
}
