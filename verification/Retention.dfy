/** Retention ranking: the order both garbage collectors sort by, the set of
    the k newest entries, and the in-place sort that produces it. */
module Retention {
  import opened Prelude

  /** A candidate for deletion: a digest directory or a release version, and
      the instant it was installed. */
  datatype Entry = Entry(name: string, time: int)

  /** The comparators of both collectors: later first, then greater name. */
  predicate Newer(a: Entry, b: Entry) {
    a.time > b.time || (a.time == b.time && StrLess(b.name, a.name))
  }

  lemma NewerTotal(a: Entry, b: Entry)
    ensures a == b || Newer(a, b) || Newer(b, a)
  {
    StrLessTotal(a.name, b.name);
  }

  lemma NewerIrreflexive(a: Entry)
    ensures !Newer(a, a)
  {
    StrLessIrreflexive(a.name);
  }

  lemma NewerTransitive(a: Entry, b: Entry, c: Entry)
    requires Newer(a, b) && Newer(b, c)
    ensures Newer(a, c)
  {
    if a.time == c.time {
      StrLessTransitive(c.name, b.name, a.name);
    }
  }

  lemma NewerAsymmetric(a: Entry, b: Entry)
    requires Newer(a, b)
    ensures !Newer(b, a)
  {
    if Newer(b, a) {
      NewerTransitive(a, b, a);
      NewerIrreflexive(a);
    }
  }

  /** The members of S that are newer than e. */
  function Above(e: Entry, S: set<Entry>): set<Entry> {
    set x | x in S && Newer(x, e)
  }

  function Rank(e: Entry, S: set<Entry>): nat {
    |Above(e, S)|
  }

  /** The k newest members of S. */
  function Newest(S: set<Entry>, k: nat): set<Entry> {
    set e | e in S && Rank(e, S) < k
  }

  lemma RankMonotone(e: Entry, S: set<Entry>, T: set<Entry>)
    requires S <= T
    ensures Rank(e, S) <= Rank(e, T)
  {
    SubsetCard(Above(e, S), Above(e, T));
  }

  lemma {:induction false} SubsetCard<T>(A: set<T>, B: set<T>)
    requires A <= B
    ensures |A| <= |B|
  {
    if A != {} {
      var x :| x in A;
      SubsetCard(A - {x}, B - {x});
    }
  }

  /** Removing anything keeps what was among the k newest there. */
  lemma NewestMonotone(S: set<Entry>, T: set<Entry>, j: nat, k: nat)
    requires S <= T && j <= k
    ensures Newest(T, j) * S <= Newest(S, k)
  {
    forall e | e in Newest(T, j) * S ensures e in Newest(S, k) {
      RankMonotone(e, S, T);
    }
  }

  /** Whatever is newer than one of the k newest is one of them. */
  lemma NewestIsUpward(S: set<Entry>, k: nat, e: Entry, f: Entry)
    requires e in Newest(S, k) && f in S && Newer(f, e)
    ensures f in Newest(S, k)
  {
    forall x | x in Above(f, S) ensures x in Above(e, S) {
      NewerTransitive(x, f, e);
    }
    SubsetCard(Above(f, S), Above(e, S));
  }

  /** Choosing the k newest of the k newest changes nothing. */
  lemma NewestIdempotent(S: set<Entry>, k: nat)
    ensures Newest(Newest(S, k), k) == Newest(S, k)
  {
    NewestMonotone(Newest(S, k), S, k, k);
  }

  // ----- sorted sequences -----

  function Elems(s: seq<Entry>): set<Entry> {
    set e | e in s
  }

  predicate NewestFirst(s: seq<Entry>) {
    forall i, j :: 0 <= i < j < |s| ==> Newer(s[i], s[j])
  }

  predicate Distinct(s: seq<Entry>) {
    forall i, j :: 0 <= i < j < |s| ==> s[i] != s[j]
  }

  lemma {:induction false} DistinctCard(s: seq<Entry>)
    requires Distinct(s)
    ensures |Elems(s)| == |s|
  {
    if s == [] {
    } else {
      var n := |s| - 1;
      DistinctCard(s[..n]);
      assert Elems(s) == Elems(s[..n]) + {s[n]};
      assert s[n] !in Elems(s[..n]);
    }
  }

  lemma SortedIsDistinct(s: seq<Entry>)
    requires NewestFirst(s)
    ensures Distinct(s)
  {
    forall i, j | 0 <= i < j < |s| ensures s[i] != s[j] {
      NewerIrreflexive(s[i]);
    }
  }

  /** In a sorted list the rank of an element is its position. */
  lemma RankIsIndex(s: seq<Entry>, i: nat)
    requires NewestFirst(s) && i < |s|
    ensures Rank(s[i], Elems(s)) == i
  {
    SortedIsDistinct(s);
    forall j | i <= j < |s| ensures !Newer(s[j], s[i]) {
      if i == j { NewerIrreflexive(s[i]); } else { NewerAsymmetric(s[i], s[j]); }
    }
    assert Above(s[i], Elems(s)) == Elems(s[..i]);
    DistinctCard(s[..i]);
  }

  /** The k newest members of a sorted list are its first k. */
  lemma NewestIsPrefix(s: seq<Entry>, k: nat)
    requires NewestFirst(s)
    ensures Newest(Elems(s), k) == Elems(s[..if k < |s| then k else |s|])
  {
    forall i | 0 <= i < |s| ensures Rank(s[i], Elems(s)) == i {
      RankIsIndex(s, i);
    }
    SortedIsDistinct(s);
    var p := s[..if k < |s| then k else |s|];
    forall e | e in Newest(Elems(s), k) ensures e in Elems(p) {
      var i :| 0 <= i < |s| && s[i] == e;
      assert p[i] == e;
    }
    forall e | e in Elems(p) ensures e in Newest(Elems(s), k) {
      var i :| 0 <= i < |p| && p[i] == e;
      assert s[i] == e;
    }
  }

  /** Every finite set can be listed newest first. */
  lemma {:induction false} Listing(S: set<Entry>) returns (s: seq<Entry>)
    ensures NewestFirst(s) && Elems(s) == S
  {
    if S == {} {
      s := [];
    } else {
      var e :| e in S;
      var t := Listing(S - {e});
      var i := 0;
      while i < |t| && Newer(t[i], e)
        invariant 0 <= i <= |t|
        invariant forall j :: 0 <= j < i ==> Newer(t[j], e)
      {
        i := i + 1;
      }
      forall j | i <= j < |t| ensures Newer(e, t[j]) {
        assert t[i] in S - {e};
        NewerTotal(t[i], e);
        if i < j { NewerTransitive(e, t[i], t[j]); }
      }
      s := t[..i] + [e] + t[i..];
      assert Elems(s) == Elems(t) + {e};
    }
  }

  /** Exactly min(k, |S|) entries are kept. */
  lemma NewestCard(S: set<Entry>, k: nat)
    ensures |Newest(S, k)| == if k < |S| then k else |S|
  {
    var s := Listing(S);
    SortedIsDistinct(s);
    DistinctCard(s);
    NewestIsPrefix(s, k);
    DistinctCard(s[..if k < |s| then k else |s|]);
  }

  /** The in-place sort of a slice prefix (`sort.Slice`, `sort.SliceStable`). */
  method SortNewestFirst(a: array<Entry>, n: nat)
    requires n <= a.Length && Distinct(a[..n])
    modifies a
    ensures NewestFirst(a[..n]) && Elems(a[..n]) == old(Elems(a[..n]))
    ensures a[n..] == old(a[n..])
  {
    var i := 0;
    while i < n
      invariant 0 <= i <= n
      invariant a[n..] == old(a[n..])
      invariant Distinct(a[..n]) && Elems(a[..n]) == old(Elems(a[..n]))
      invariant NewestFirst(a[..i])
    {
      Sink(a, n, i);
      i := i + 1;
    }
  }

  /** Move element i left to its place among the sorted elements before it. */
  method Sink(a: array<Entry>, n: nat, i: nat)
    requires i < n <= a.Length && Distinct(a[..n]) && NewestFirst(a[..i])
    modifies a
    ensures NewestFirst(a[..i + 1]) && Distinct(a[..n]) && Elems(a[..n]) == old(Elems(a[..n]))
    ensures a[n..] == old(a[n..])
  {
    var j := i;
    while j > 0 && !Newer(a[j - 1], a[j])
      invariant 0 <= j <= i
      invariant a[n..] == old(a[n..])
      invariant Distinct(a[..n]) && Elems(a[..n]) == old(Elems(a[..n]))
      invariant forall p, q :: 0 <= p < q <= i && p != j && q != j ==> Newer(a[p], a[q])
      invariant forall q :: j < q <= i ==> Newer(a[j], a[q])
    {
      SwapNeighbours(a, n, j);
      j := j - 1;
    }
    forall p | 0 <= p < j ensures Newer(a[p], a[j]) {
      if p < j - 1 { NewerTransitive(a[p], a[j - 1], a[j]); }
    }
  }

  method SwapNeighbours(a: array<Entry>, n: nat, j: nat)
    requires 0 < j < n <= a.Length && Distinct(a[..n]) && !Newer(a[j - 1], a[j])
    modifies a
    ensures a[j] == old(a[j - 1]) && a[j - 1] == old(a[j]) && Newer(a[j - 1], a[j])
    ensures forall k | 0 <= k < n && k != j && k != j - 1 :: a[k] == old(a[k])
    ensures Distinct(a[..n]) && Elems(a[..n]) == old(Elems(a[..n])) && a[n..] == old(a[n..])
  {
    ghost var before := a[..n];
    assert before[j - 1] != before[j];
    NewerTotal(a[j - 1], a[j]);
    a[j - 1], a[j] := a[j], a[j - 1];
    SwapElems(before, j - 1);
    assert a[..n] == before[j - 1 := before[j]][j := before[j - 1]];
  }

  lemma SwapElems(s: seq<Entry>, i: nat)
    requires i + 1 < |s| && Distinct(s)
    ensures var t := s[i := s[i + 1]][i + 1 := s[i]]; Elems(t) == Elems(s) && Distinct(t)
  {
    var t := s[i := s[i + 1]][i + 1 := s[i]];
    forall e | e in Elems(s) ensures e in Elems(t) {
      var k :| 0 <= k < |s| && s[k] == e;
      assert t[if k == i then i + 1 else if k == i + 1 then i else k] == e;
    }
  }
}
