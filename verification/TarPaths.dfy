/** The path checks of image extraction: tar entry names and symlink targets. */
module TarPaths {
  import opened Prelude
  import opened Paths

  // ----- safeTarName -----

  function Slashed(s: string): (r: string)
    ensures |r| == |s|
  {
    seq(|s|, i requires 0 <= i < |s| => if s[i] == '\\' then '/' else s[i])
  }

  /** The entry name after the prefix "./", backslashes and one leading slash are
      dealt with. */
  function Stripped(name: string): string {
    TrimPrefix(Slashed(TrimPrefix(name, "./")), "/")
  }

  /** None is the refusal of a name that leaves the root. */
  function SafeTarName(name: string): Option<string> {
    var slashed := Slashed(TrimPrefix(name, "./"));
    if slashed == "" || slashed == "." then Some(".")
    else
      var rel := if IsRooted(slashed) then TrimPrefix(slashed, "/") else slashed;
      if ".." in Split(rel) then None
      else
        var cleaned := Clean(rel);
        if cleaned == ".." || "../" <= cleaned || "/" <= cleaned then None else Some(cleaned)
  }

  /** "." or a clean relative path without "..". */
  predicate SafeRelative(p: string) {
    p == "." || (!IsRooted(p) && Comps(p) != [] && Join(Comps(p)) == p && ".." !in Comps(p))
  }

  lemma {:induction false} WalkWithoutDotDot(rooted: bool, stack: seq<string>, cs: seq<string>)
    requires ".." !in stack && ".." !in cs
    ensures ".." !in Walk(rooted, stack, cs)
    ensures forall c | c in Walk(rooted, stack, cs) :: c in stack || c in cs
    decreases |cs|
  {
    if cs != [] {
      WalkWithoutDotDot(rooted, Push(rooted, stack, cs[0]), cs[1..]);
    }
  }

  /** Exactly the names without a ".." component and without a second leading
      slash are accepted. */
  lemma SafeTarNameAccepts(name: string)
    ensures SafeTarName(name).Some? <==> ".." !in Split(Stripped(name)) && !IsRooted(Stripped(name))
  {
    var slashed := Slashed(TrimPrefix(name, "./"));
    var rel := Stripped(name);
    if slashed == "." {
      SplitPlain(".");
    } else if slashed != "" {
      assert rel == (if IsRooted(slashed) then TrimPrefix(slashed, "/") else slashed);
      if ".." !in Split(rel) {
        CleanedWithoutDotDot(rel);
      }
    }
  }

  lemma CleanedWithoutDotDot(rel: string)
    requires ".." !in Split(rel)
    ensures Clean(rel) != ".." && !("../" <= Clean(rel)) && ("/" <= Clean(rel) <==> IsRooted(rel))
    ensures ".." !in Comps(rel)
  {
    WalkWithoutDotDot(IsRooted(rel), [], Split(rel));
    CompsNormal(rel);
    if IsRooted(rel) {
      assert Clean(rel)[0] == '/';
    } else {
      StartsWithDotDot(Comps(rel));
      CleanKeepsMeaning(rel);
    }
  }

  lemma SafeTarNameIsSafe(name: string)
    requires SafeTarName(name).Some?
    ensures SafeRelative(SafeTarName(name).value)
  {
    var slashed := Slashed(TrimPrefix(name, "./"));
    if slashed != "" && slashed != "." {
      var rel := Stripped(name);
      CleanedWithoutDotDot(rel);
      CleanKeepsMeaning(rel);
    }
  }

  /** The components that are not dropped. */
  function WithoutDots(cs: seq<string>): seq<string> {
    if cs == [] then []
    else (if cs[0] == "" || cs[0] == "." then [] else [cs[0]]) + WithoutDots(cs[1..])
  }

  lemma {:induction false} WalkIsFilter(rooted: bool, stack: seq<string>, cs: seq<string>)
    requires ".." !in cs
    ensures Walk(rooted, stack, cs) == stack + WithoutDots(cs)
    decreases |cs|
  {
    if cs != [] {
      assert cs[0] != "..";
      WalkIsFilter(rooted, Push(rooted, stack, cs[0]), cs[1..]);
    }
  }

  lemma {:induction false} WithoutDotsConcat(cs: seq<string>, ds: seq<string>)
    ensures WithoutDots(cs + ds) == WithoutDots(cs) + WithoutDots(ds)
  {
    if cs == [] {
      assert cs + ds == ds;
    } else {
      assert (cs + ds)[0] == cs[0] && (cs + ds)[1..] == cs[1..] + ds;
      WithoutDotsConcat(cs[1..], ds);
    }
  }

  /** The result means what the stripped name means. */
  lemma SafeTarNameMeans(name: string)
    requires SafeTarName(name).Some?
    ensures ".." !in Split(Stripped(name)) && !IsRooted(Stripped(name))
    ensures Comps(SafeTarName(name).value) == Comps(Stripped(name)) == WithoutDots(Split(Stripped(name)))
  {
    var slashed, rel := Slashed(TrimPrefix(name, "./")), Stripped(name);
    SafeTarNameAccepts(name);
    CleanKeepsMeaning(rel);
    WalkIsFilter(false, [], Split(rel));
    if slashed == "" || slashed == "." {
      SplitPlain(".");
    }
  }

  /** An accepted name keeps its meaning: for a name without backslashes the result
      is made of the name's own components, without the empty ones and the dots. */
  lemma SafeTarNameKeepsMeaning(name: string)
    requires SafeTarName(name).Some?
    ensures Comps(SafeTarName(name).value) == Comps(Stripped(name))
    ensures '\\' !in name ==>
              var cs := WithoutDots(Split(name));
              Comps(SafeTarName(name).value) == cs && SafeTarName(name).value == if cs == [] then "." else Join(cs)
  {
    SafeTarNameMeans(name);
    SafeTarNameIsSafe(name);
    if '\\' !in name {
      StripKeepsComponents(name);
    }
    if SafeTarName(name).value == "." {
      SplitPlain(".");
    }
  }

  lemma FirstIsDropped(head: string, rest: string)
    requires head == "" || head == "."
    ensures WithoutDots(Split(head + "/" + rest)) == WithoutDots(Split(rest))
  {
    SplitConcat(head, rest);
    SplitPlain(head);
    WithoutDotsConcat([head], Split(rest));
    assert WithoutDots([head]) == [];
  }

  lemma PrefixIsDropped(name: string)
    ensures WithoutDots(Split(TrimPrefix(name, "./"))) == WithoutDots(Split(name))
  {
    if "./" <= name {
      assert name == "." + "/" + TrimPrefix(name, "./");
      FirstIsDropped(".", TrimPrefix(name, "./"));
    }
  }

  lemma SlashIsDropped(name: string)
    ensures WithoutDots(Split(TrimPrefix(name, "/"))) == WithoutDots(Split(name))
  {
    if "/" <= name {
      assert name == "" + "/" + TrimPrefix(name, "/");
      FirstIsDropped("", TrimPrefix(name, "/"));
    }
  }

  /** The prefix and the leading slash only add components that are dropped. */
  lemma StripKeepsComponents(name: string)
    requires '\\' !in name
    ensures WithoutDots(Split(Stripped(name))) == WithoutDots(Split(name))
  {
    PrefixIsDropped(name);
    SlashIsDropped(TrimPrefix(name, "./"));
    assert Slashed(TrimPrefix(name, "./")) == TrimPrefix(name, "./");
  }

  predicate SlashLike(c: char) {
    c == '/' || c == '\\'
  }

  /** A backslash counts as a slash: names that differ only in which of the two they
      use, after the prefix, get the same answer. */
  lemma BackslashIsSlash(a: string, b: string)
    requires "./" <= a <==> "./" <= b
    requires |a| == |b| && forall i | 0 <= i < |a| :: a[i] == b[i] || (SlashLike(a[i]) && SlashLike(b[i]))
    ensures SafeTarName(a) == SafeTarName(b)
  {
    assert Slashed(TrimPrefix(a, "./")) == Slashed(TrimPrefix(b, "./"));
  }

  lemma {:induction false} JoinWithout(cs: seq<string>, bad: char)
    requires bad != '/' && forall c | c in cs :: bad !in c
    ensures bad !in Join(cs)
  {
    if |cs| > 1 {
      JoinWithout(cs[1..], bad);
    }
  }

  lemma {:induction false} SplitWithout(s: string, bad: char)
    requires bad !in s
    ensures forall c | c in Split(s) :: bad !in c
  {
    if s != "" {
      SplitWithout(s[1..], bad);
    }
  }

  lemma DotSlashSplits(p: string)
    requires "./" <= p
    ensures Split(p)[0] == "."
  {
  }

  lemma SafeHasNoBackslash(rel: string)
    requires '\\' !in rel && ".." !in Split(rel)
    ensures '\\' !in Join(Comps(rel))
  {
    WalkWithoutDotDot(IsRooted(rel), [], Split(rel));
    SplitWithout(rel, '\\');
    JoinWithout(Comps(rel), '\\');
  }

  /** Extracting an already safe name changes nothing. */
  lemma SafeTarNameIdempotent(name: string)
    requires SafeTarName(name).Some?
    ensures SafeTarName(SafeTarName(name).value) == SafeTarName(name)
  {
    var safe := SafeTarName(name).value;
    SafeTarNameIsSafe(name);
    if safe != "." {
      var cs := Comps(safe);
      var rel := Stripped(name);
      CleanKeepsMeaning(rel);
      CompsNormal(safe);
      SafeHasNoBackslash(rel);
      SplitOfJoin(cs);
      if "./" <= safe {
        DotSlashSplits(safe);
      }
      assert Slashed(safe) == safe;
      FirstOfJoin(cs);
      CleanedWithoutDotDot(safe);
      CleanIdempotent(rel);
    }
  }

  // ----- checkSymlinkTarget -----

  /** path.Dir: everything up to the last slash, cleaned. */
  function Dir(p: string): string {
    var parts := Split(p);
    Clean(if |parts| == 1 then "" else Join(parts[..|parts| - 1]) + "/")
  }

  /** path.Join of a non-empty directory and one more element, which path.Join
      leaves out when it is empty. */
  function JoinPath(dir: string, elem: string): string {
    Clean(if elem == "" then dir else dir + "/" + elem)
  }

  predicate SymlinkOk(rel: string, link: string) {
    IsRooted(link) ||
    var joined := Clean(JoinPath(Dir(rel), link));
    joined != ".." && !("../" <= joined)
  }

  /** The walk never steps above where it starts by more than depth. */
  predicate StaysInside(depth: nat, cs: seq<string>)
    decreases |cs|
  {
    cs == [] ||
    if cs[0] == "" || cs[0] == "." then StaysInside(depth, cs[1..])
    else if cs[0] == ".." then depth > 0 && StaysInside(depth - 1, cs[1..])
    else StaysInside(depth + 1, cs[1..])
  }

  lemma {:induction false} EscapedStaysEscaped(stack: seq<string>, cs: seq<string>)
    requires stack != [] && stack[0] == ".."
    ensures var r := Walk(false, stack, cs); r != [] && r[0] == ".."
    decreases |cs|
  {
    if cs != [] {
      EscapedStaysEscaped(Push(false, stack, cs[0]), cs[1..]);
    }
  }

  /** A relative walk ends outside exactly when some prefix of it was outside. */
  lemma {:induction false} EscapesIffBelowZero(stack: seq<string>, cs: seq<string>)
    requires ".." !in stack
    ensures var r := Walk(false, stack, cs); StaysInside(|stack|, cs) <==> !(r != [] && r[0] == "..")
    decreases |cs|
  {
    if cs == [] {
    } else if cs[0] == ".." && stack == [] {
      assert Push(false, stack, cs[0]) == [".."];
      EscapedStaysEscaped([".."], cs[1..]);
    } else {
      EscapesIffBelowZero(Push(false, stack, cs[0]), cs[1..]);
    }
  }

  lemma StartsWithDotDot(cs: seq<string>)
    requires Normal(false, cs)
    ensures var p := Render(false, cs); (p == ".." || "../" <= p) <==> cs != [] && cs[0] == ".."
  {
    if cs != [] {
      SplitOfJoin(cs);
      SplitPlain("..");
      var p := Join(cs);
      if "../" <= p {
        assert p == ".." + "/" + p[3..];
        SplitConcat("..", p[3..]);
      }
      if cs[0] == ".." && |cs| > 1 {
        assert p == "../" + Join(cs[1..]);
      }
    }
  }

  /** For every entry and link: a relative link is accepted exactly when the
      walk from the root through the entry's directory and the link never steps
      above the root. */
  lemma SymlinkAcceptedIff(rel: string, link: string)
    ensures SymlinkOk(rel, link) <==>
            IsRooted(link) || IsRooted(Dir(rel)) || StaysInside(0, Split(Dir(rel)) + Split(link))
  {
    var dir := Dir(rel);
    CleanNotEmpty(if |Split(rel)| == 1 then "" else Join(Split(rel)[..|Split(rel)| - 1]) + "/");
    JoinedComps(dir, link);
    CleanIdempotent(if link == "" then dir else dir + "/" + link);
    CompsNormal(JoinPath(dir, link));
    if IsRooted(dir) {
      assert Clean(JoinPath(dir, link))[0] == '/';
    } else {
      EscapesIffBelowZero([], Split(dir) + Split(link));
      StartsWithDotDot(Comps(JoinPath(dir, link)));
    }
  }

  lemma JoinedComps(dir: string, link: string)
    requires dir != ""
    ensures IsRooted(JoinPath(dir, link)) == IsRooted(dir)
    ensures Comps(JoinPath(dir, link)) == Walk(IsRooted(dir), [], Split(dir) + Split(link))
  {
    if link == "" {
      CleanKeepsMeaning(dir);
      WalkConcat(IsRooted(dir), [], Split(dir), [""]);
    } else {
      var path := dir + "/" + link;
      assert path[0] == dir[0];
      CleanKeepsMeaning(path);
      SplitConcat(dir, link);
    }
  }

  lemma CleanNotEmpty(s: string)
    ensures Clean(s) != ""
  {
    CompsNormal(s);
    if Comps(s) != [] { FirstOfJoin(Comps(s)); }
  }

  predicate Named(cs: seq<string>) {
    forall i | 0 <= i < |cs| :: cs[i] != "" && cs[i] != "." && cs[i] != ".."
  }

  lemma {:induction false} StaysInsideConcat(depth: nat, cs: seq<string>, ds: seq<string>)
    requires Named(cs)
    ensures StaysInside(depth, cs + ds) <==> StaysInside(depth + |cs|, ds)
    decreases |cs|
  {
    if cs == [] {
      assert cs + ds == ds;
    } else {
      assert (cs + ds)[0] == cs[0] && (cs + ds)[1..] == cs[1..] + ds;
      StaysInsideConcat(depth + 1, cs[1..], ds);
    }
  }

  lemma CleanOfTrailingSlash(ds: seq<string>)
    requires ds != [] && Normal(false, ds)
    ensures Clean(Join(ds) + "/") == Join(ds)
  {
    var s := Join(ds) + "/";
    FirstOfJoin(ds);
    assert NoSlash(ds[0]);
    assert !IsRooted(s);
    SplitConcat(Join(ds), "");
    assert Join(ds) + "/" + "" == s;
    SplitOfJoin(ds);
    TrailingSlashWalk(ds);
  }

  lemma TrailingSlashWalk(ds: seq<string>)
    requires Normal(false, ds)
    ensures Walk(false, [], ds + [""]) == ds
  {
    WalkConcat(false, [], ds, [""]);
    assert [] + ds == ds;
    WalkOfNormal(false, [], ds);
  }

  /** The directory of a safe name is the name without its last component. */
  lemma DirOfSafe(rel: string)
    requires SafeRelative(rel) && rel != "."
    ensures Dir(rel) == Render(false, Comps(rel)[..|Comps(rel)| - 1])
  {
    var cs := Comps(rel);
    CompsNormal(rel);
    SplitOfJoin(cs);
    if |cs| == 1 {
      assert Split("") == [""] && Comps("") == [];
    } else {
      CleanOfTrailingSlash(cs[..|cs| - 1]);
    }
  }

  lemma DepthOfSplit(dir: string, ds: seq<string>, link: seq<string>)
    requires Split(dir) == ds && Named(ds)
    ensures StaysInside(0, Split(dir) + link) <==> StaysInside(|ds|, link)
  {
    StaysInsideConcat(0, ds, link);
  }

  lemma DepthOfDot(link: seq<string>)
    ensures StaysInside(0, Split(".") + link) <==> StaysInside(0, link)
  {
  }

  /** From a directory without "..", depth counts its components. */
  lemma DirDepth(ds: seq<string>, link: seq<string>)
    requires Normal(false, ds) && ".." !in ds
    ensures !IsRooted(Render(false, ds))
    ensures StaysInside(0, Split(Render(false, ds)) + link) <==> StaysInside(|ds|, link)
  {
    if ds == [] {
      DepthOfDot(link);
    } else {
      FirstOfJoin(ds);
      assert NoSlash(ds[0]);
      SplitOfJoin(ds);
      DepthOfSplit(Join(ds), ds, link);
    }
  }

  /** For an extracted entry: a relative link is accepted exactly when it climbs
      no higher, at any point, than the entry's directory is deep. */
  lemma SafeEntrySymlinkAcceptedIff(rel: string, link: string)
    requires SafeRelative(rel) && rel != "."
    ensures SymlinkOk(rel, link) <==> IsRooted(link) || StaysInside(|Comps(rel)| - 1, Split(link))
  {
    var cs := Comps(rel);
    var ds := cs[..|cs| - 1];
    CompsNormal(rel);
    DirOfSafe(rel);
    assert forall c | c in ds :: c in cs;
    DirDepth(ds, Split(link));
    SymlinkAcceptedIff(rel, link);
  }
}
