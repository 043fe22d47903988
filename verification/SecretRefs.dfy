/** Public secret references: "secret.<name>". */
module SecretRefs {
  import opened Prelude

  const PREFIX := "secret."
  const MAX_NAME := 63

  function Token(name: string): string {
    PREFIX + name
  }

  datatype NameError = Empty | TooLong | HasPrefix | Whitespace | BadStart | BadChar(c: char)

  predicate IsNameStart(c: char) {
    'a' <= c <= 'z' || 'A' <= c <= 'Z' || '0' <= c <= '9'
  }

  predicate IsNameChar(c: char) {
    IsNameStart(c) || c == '-' || c == '_' || c == '.'
  }

  /** The check of one character of a name. */
  function CheckChar(c: char, first: bool): Option<NameError> {
    if IsSpace(c) then Some(Whitespace)
    else if first then (if IsNameStart(c) then None else Some(BadStart))
    else if IsNameChar(c) then None
    else Some(BadChar(c))
  }

  function CheckChars(name: string, i: nat): Option<NameError>
    requires i <= |name|
    decreases |name| - i
  {
    if i == |name| then None
    else
      var e := CheckChar(name[i], i == 0);
      if e.Some? then e else CheckChars(name, i + 1)
  }

  function ValidateName(name: string): Option<NameError> {
    if name == "" then Some(Empty)
    else if |name| > MAX_NAME then Some(TooLong)
    else if PREFIX <= name then Some(HasPrefix)
    else CheckChars(name, 0)
  }

  datatype Ref = Text | Secret(name: string) | Broken(error: NameError)

  function ParseRef(value: string): Ref {
    if !(PREFIX <= value) then Text
    else
      var name := TrimPrefix(value, PREFIX);
      var e := ValidateName(name);
      if e.Some? then Broken(e.value) else Secret(name)
  }

  predicate WellFormed(name: string) {
    1 <= |name| <= MAX_NAME && !(PREFIX <= name) && IsNameStart(name[0]) &&
    forall i | 0 <= i < |name| :: IsNameChar(name[i])
  }

  lemma {:induction false} CheckCharsMeaning(name: string, i: nat)
    requires i <= |name|
    ensures CheckChars(name, i).None? <==>
            forall j | i <= j < |name| :: IsNameChar(name[j]) && (j == 0 ==> IsNameStart(name[j]))
    decreases |name| - i
  {
    if i < |name| {
      CheckCharsMeaning(name, i + 1);
    }
  }

  /** The characters, one by one. */
  lemma NameCharactersAre(c: char)
    ensures IsNameStart(c) <==>
            c in "abcdefghijklmnopqrstuvwxyz" || c in "ABCDEFGHIJKLMNOPQRSTUVWXYZ" || c in "0123456789"
    ensures IsNameChar(c) <==> IsNameStart(c) || c in "-_."
  {
    IsLower(c);
    IsUpper(c);
    CharIn(c, "0123456789", '0');
  }

  lemma IsLower(c: char)
    ensures c in "abcdefghijklmnopqrstuvwxyz" <==> 'a' <= c <= 'z'
  {
    CharIn(c, "abcdefghijklmnopqrstuvwxyz", 'a');
  }

  lemma IsUpper(c: char)
    ensures c in "ABCDEFGHIJKLMNOPQRSTUVWXYZ" <==> 'A' <= c <= 'Z'
  {
    CharIn(c, "ABCDEFGHIJKLMNOPQRSTUVWXYZ", 'A');
  }

  /** A run of consecutive characters has those from its first to its last. */
  lemma CharIn(c: char, run: string, first: char)
    requires run != "" && forall i | 0 <= i < |run| :: run[i] as int == first as int + i
    ensures c in run <==> first as int <= c as int < first as int + |run|
  {
    if first as int <= c as int < first as int + |run| {
      assert run[c as int - first as int] == c;
    }
  }

  lemma ValidMeansWellFormed(name: string)
    ensures ValidateName(name).None? <==> WellFormed(name)
  {
    if name != "" {
      CheckCharsMeaning(name, 0);
    }
  }

  /** A value is read as the secret n exactly when it is n's token and n is a
      well-formed name; a token of any other name is refused, never taken for
      text. */
  lemma ParseInvertsToken(value: string, n: string)
    ensures ParseRef(value) == Secret(n) <==> WellFormed(n) && value == Token(n)
    ensures ParseRef(Token(n)) != Text
  {
    ValidMeansWellFormed(n);
    if PREFIX <= value {
      assert value == PREFIX + value[|PREFIX|..];
    }
    assert Token(n)[|PREFIX|..] == n;
  }
}
