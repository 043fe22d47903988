/** Slash-separated paths: splitting, joining and Go's lexical path.Clean, with
    the component list a path means. */
module Paths {
  import opened Prelude

  predicate NoSlash(s: string) {
    forall i | 0 <= i < |s| :: s[i] != '/'
  }

  predicate NoSlashes(cs: seq<string>) {
    forall i | 0 <= i < |cs| :: NoSlash(cs[i])
  }

  /** strings.Split(s, "/"): one part more than there are slashes. */
  function Split(s: string): (r: seq<string>)
    ensures r != []
  {
    if s == "" then [""]
    else if s[0] == '/' then [""] + Split(s[1..])
    else var r := Split(s[1..]); [[s[0]] + r[0]] + r[1..]
  }

  function Join(cs: seq<string>): string {
    if cs == [] then ""
    else if |cs| == 1 then cs[0]
    else cs[0] + "/" + Join(cs[1..])
  }

  lemma {:induction false} SplitHasNoSlash(s: string)
    ensures NoSlashes(Split(s))
  {
    if s != "" {
      SplitHasNoSlash(s[1..]);
    }
  }

  lemma {:induction false} SplitPlain(s: string)
    requires NoSlash(s)
    ensures Split(s) == [s]
  {
    if s != "" {
      assert forall i | 0 <= i < |s[1..]| :: s[1..][i] == s[i + 1];
      SplitPlain(s[1..]);
      assert s == [s[0]] + s[1..];
    }
  }

  lemma {:induction false} SplitConcat(a: string, b: string)
    ensures Split(a + "/" + b) == Split(a) + Split(b)
  {
    var s := a + "/" + b;
    if a == "" {
      assert s == "/" + b && s[1..] == b;
    } else {
      assert s[0] == a[0] && s[1..] == a[1..] + "/" + b;
      SplitConcat(a[1..], b);
    }
  }

  lemma {:induction false} SplitOfJoin(cs: seq<string>)
    requires cs != [] && NoSlashes(cs)
    ensures Split(Join(cs)) == cs
  {
    SplitPlain(cs[0]);
    if |cs| > 1 {
      assert forall i | 0 <= i < |cs[1..]| :: cs[1..][i] == cs[i + 1];
      SplitOfJoin(cs[1..]);
      SplitConcat(cs[0], Join(cs[1..]));
    }
  }

  lemma {:induction false} JoinConcat(cs: seq<string>, ds: seq<string>)
    requires cs != [] && ds != []
    ensures Join(cs + ds) == Join(cs) + "/" + Join(ds)
  {
    if |cs| == 1 {
      assert (cs + ds)[1..] == ds;
    } else {
      assert (cs + ds)[1..] == cs[1..] + ds;
      JoinConcat(cs[1..], ds);
    }
  }

  // ----- path.Clean -----

  predicate IsRooted(s: string) {
    s != "" && s[0] == '/'
  }

  /** One component of the lexical walk: empty and "." go, ".." cancels the
      component before it, is dropped at a root, and is kept otherwise. */
  function Push(rooted: bool, stack: seq<string>, c: string): seq<string> {
    if c == "" || c == "." then stack
    else if c != ".." then stack + [c]
    else if stack != [] && stack[|stack| - 1] != ".." then stack[..|stack| - 1]
    else if rooted then stack
    else stack + [".."]
  }

  function Walk(rooted: bool, stack: seq<string>, cs: seq<string>): seq<string>
    decreases |cs|
  {
    if cs == [] then stack else Walk(rooted, Push(rooted, stack, cs[0]), cs[1..])
  }

  /** The components a path means. */
  function Comps(s: string): seq<string> {
    Walk(IsRooted(s), [], Split(s))
  }

  function Render(rooted: bool, cs: seq<string>): string {
    if rooted then "/" + Join(cs) else if cs == [] then "." else Join(cs)
  }

  function Clean(s: string): string {
    Render(IsRooted(s), Comps(s))
  }

  /** A component list no further cleaning changes. */
  predicate Normal(rooted: bool, cs: seq<string>) {
    (forall i | 0 <= i < |cs| :: cs[i] != "" && cs[i] != "." && NoSlash(cs[i])) &&
    (forall i | 0 <= i < |cs| && cs[i] == ".." :: !rooted && forall j | 0 <= j < i :: cs[j] == "..")
  }

  lemma PushNormal(rooted: bool, stack: seq<string>, c: string)
    requires Normal(rooted, stack) && NoSlash(c)
    ensures Normal(rooted, Push(rooted, stack, c))
  {
  }

  lemma {:induction false} WalkNormal(rooted: bool, stack: seq<string>, cs: seq<string>)
    requires Normal(rooted, stack) && NoSlashes(cs)
    ensures Normal(rooted, Walk(rooted, stack, cs))
    decreases |cs|
  {
    if cs != [] {
      assert NoSlash(cs[0]);
      assert forall i | 0 <= i < |cs[1..]| :: cs[1..][i] == cs[i + 1];
      PushNormal(rooted, stack, cs[0]);
      WalkNormal(rooted, Push(rooted, stack, cs[0]), cs[1..]);
    }
  }

  lemma CompsNormal(s: string)
    ensures Normal(IsRooted(s), Comps(s))
  {
    SplitHasNoSlash(s);
    WalkNormal(IsRooted(s), [], Split(s));
  }

  lemma {:induction false} WalkOfNormal(rooted: bool, stack: seq<string>, cs: seq<string>)
    requires Normal(rooted, stack + cs)
    ensures Walk(rooted, stack, cs) == stack + cs
    decreases |cs|
  {
    if cs != [] {
      var all := stack + cs;
      assert all[|stack|] == cs[0];
      if cs[0] == ".." && stack != [] {
        assert all[|stack| - 1] == "..";
      }
      assert Push(rooted, stack, cs[0]) == stack + [cs[0]];
      assert stack + [cs[0]] + cs[1..] == all;
      WalkOfNormal(rooted, stack + [cs[0]], cs[1..]);
    }
  }

  lemma {:induction false} WalkConcat(rooted: bool, stack: seq<string>, cs: seq<string>, ds: seq<string>)
    ensures Walk(rooted, stack, cs + ds) == Walk(rooted, Walk(rooted, stack, cs), ds)
    decreases |cs|
  {
    if cs == [] {
      assert cs + ds == ds;
    } else {
      assert (cs + ds)[0] == cs[0] && (cs + ds)[1..] == cs[1..] + ds;
      WalkConcat(rooted, Push(rooted, stack, cs[0]), cs[1..], ds);
    }
  }

  /** Rendering a normal list and reading it back gives the list. */
  lemma CompsOfRender(rooted: bool, cs: seq<string>)
    requires Normal(rooted, cs)
    ensures IsRooted(Render(rooted, cs)) == rooted && Comps(Render(rooted, cs)) == cs
  {
    assert [] + cs == cs;
    WalkOfNormal(rooted, [], cs);
    if rooted {
      var s := "/" + Join(cs);
      assert s[1..] == Join(cs);
      if cs == [] {
        assert Split(s) == ["", ""];
        assert Walk(true, [], ["", ""]) == Walk(true, [], [""]) == [];
      } else {
        SplitOfJoin(cs);
        assert Split(s) == [""] + cs;
        assert ([""] + cs)[1..] == cs;
      }
    } else if cs == [] {
      SplitPlain(".");
    } else {
      SplitOfJoin(cs);
      FirstOfJoin(cs);
    }
  }

  lemma FirstOfJoin(cs: seq<string>)
    requires cs != [] && cs[0] != ""
    ensures Join(cs) != "" && Join(cs)[0] == cs[0][0]
  {
  }

  /** Cleaning keeps the meaning of a path. */
  lemma CleanKeepsMeaning(s: string)
    ensures IsRooted(Clean(s)) == IsRooted(s) && Comps(Clean(s)) == Comps(s)
  {
    CompsNormal(s);
    CompsOfRender(IsRooted(s), Comps(s));
  }

  lemma CleanIdempotent(s: string)
    ensures Clean(Clean(s)) == Clean(s)
  {
    CleanKeepsMeaning(s);
  }

  /** Two paths clean to the same string exactly when they mean the same. */
  lemma CleanDecidesMeaning(a: string, b: string)
    ensures Clean(a) == Clean(b) <==> IsRooted(a) == IsRooted(b) && Comps(a) == Comps(b)
  {
    CleanKeepsMeaning(a);
    CleanKeepsMeaning(b);
  }

  // ----- what each last component does -----

  predicate Ordinary(c: string) {
    c != "" && c != "." && c != ".." && NoSlash(c)
  }

  lemma OneMore(s: string, c: string)
    requires s != "" && NoSlash(c)
    ensures IsRooted(s + "/" + c) == IsRooted(s)
    ensures Comps(s + "/" + c) == Push(IsRooted(s), Comps(s), c)
  {
    var t := s + "/" + c;
    assert t[0] == s[0];
    SplitConcat(s, c);
    SplitPlain(c);
    WalkConcat(IsRooted(s), [], Split(s), [c]);
    assert Walk(IsRooted(s), Comps(s), [c]) == Push(IsRooted(s), Comps(s), c);
  }

  /** An ordinary component is appended. */
  lemma OrdinaryIsAppended(s: string, c: string)
    requires s != "" && Ordinary(c)
    ensures Comps(s + "/" + c) == Comps(s) + [c]
  {
    OneMore(s, c);
  }

  /** A trailing slash and a dot change nothing. */
  lemma DotIsDropped(s: string)
    requires s != ""
    ensures Comps(s + "/") == Comps(s) && Comps(s + "/.") == Comps(s)
  {
    OneMore(s, "");
    OneMore(s, ".");
    assert s + "/" + "" == s + "/" && s + "/" + "." == s + "/.";
  }

  /** At a root ".." takes the last component away and is dropped when there is
      none. */
  lemma DotDotAtRoot(s: string)
    requires IsRooted(s)
    ensures Comps(s + "/..") == if Comps(s) == [] then [] else Comps(s)[..|Comps(s)| - 1]
  {
    OneMore(s, "..");
    CompsNormal(s);
    assert s + "/" + ".." == s + "/..";
  }

  /** On a relative path it takes the last component away, unless that is ".." or
      there is none; then it is kept. */
  lemma DotDotOnRelative(s: string)
    requires s != "" && !IsRooted(s)
    ensures var cs := Comps(s);
            Comps(s + "/..") == if cs != [] && cs[|cs| - 1] != ".." then cs[..|cs| - 1] else cs + [".."]
  {
    OneMore(s, "..");
    assert s + "/" + ".." == s + "/..";
  }

  /** Where it all starts: these and the lemmas above give the components of every
      path, one component after the other. */
  lemma FirstComponent(c: string)
    requires NoSlash(c)
    ensures Comps(c) == (if c == "" || c == "." then [] else [c])
    ensures Comps("/" + c) == (if Ordinary(c) then [c] else [])
  {
    SplitPlain(c);
    assert ("/" + c)[1..] == c && Split("/" + c) == [""] + [c];
    assert ([""] + [c])[1..] == [c];
    assert Walk(true, [], [""] + [c]) == Walk(true, [], [c]) == Push(true, [], c);
    if c != "" {
      assert Walk(false, [], [c]) == Push(false, [], c);
    }
  }

  /** A name is one component exactly when it is an ordinary one. */
  lemma OneComponent(name: string)
    ensures Comps("/" + name) == [name] <==> Ordinary(name)
  {
    if NoSlash(name) {
      FirstComponent(name);
    } else {
      CompsNormal("/" + name);
      assert forall c | c in Comps("/" + name) :: NoSlash(c);
    }
  }

  function Ups(n: nat): string {
    if n == 0 then "" else Ups(n - 1) + "/.."
  }

  /** n steps up from a rooted path. */
  lemma {:induction false} ClimbTakesLast(s: string, n: nat)
    requires IsRooted(s)
    ensures IsRooted(s + Ups(n))
    ensures Comps(s + Ups(n)) == Comps(s)[..if n < |Comps(s)| then |Comps(s)| - n else 0]
  {
    if n == 0 {
      assert s + Ups(0) == s;
    } else {
      ClimbTakesLast(s, n - 1);
      DotDotAtRoot(s + Ups(n - 1));
      assert s + Ups(n) == s + Ups(n - 1) + "/..";
    }
  }
}
