/** Names in SQL text: lower-cased, printed plain when simple and quoted otherwise; and the
    reader that PostgreSQL has for them. */
module SqlNames {
  import opened Wrappers
  import opened Text

  function ToLower(s: string): (r: string)
    ensures |r| == |s| && forall i :: 0 <= i < |r| ==> r[i] == Lower(s[i])
  {
    seq(|s|, i requires 0 <= i < |s| => Lower(s[i]))
  }

  lemma LowerTwice(s: string)
    ensures ToLower(ToLower(s)) == ToLower(s)
  {
  }

  predicate IsAlpha(c: char) { 'a' <= c <= 'z' || 'A' <= c <= 'Z' }

  predicate NameChar(c: char) { IsAlpha(c) || '0' <= c <= '9' || c == '_' }

  predicate Simple(name: string) {
    && name != "" && (IsAlpha(name[0]) || name[0] == '_')
    && forall i :: 0 <= i < |name| ==> NameChar(name[i])
  }

  method IsSimpleName(name: string) returns (simple: bool)
    ensures simple == Simple(name)
  {
    if name == "" { return false; }
    var firstChar := name[0];
    if !IsAlpha(firstChar) && firstChar != '_' { return false; }
    for i := 0 to |name|
      invariant forall j :: 0 <= j < i ==> NameChar(name[j])
    {
      if !NameChar(name[i]) { return false; }
    }
    return true;
  }

  /** Quotes doubled. */
  function Doubled(s: string): string {
    if s == "" then "" else (if s[0] == '"' then "\"\"" else [s[0]]) + Doubled(s[1..])
  }

  /** quote_name: the name between quotes, with its own quotes doubled. */
  function Quoted(s: string): string { "\"" + (Doubled(s) + "\"") }

  function Esc(name: string): string {
    if Simple(ToLower(name)) then ToLower(name) else Quoted(ToLower(name))
  }

  method EscSqlName(name: string) returns (text: string)
    ensures text == Esc(name)
  {
    var lowered := ToLower(name);
    var simple := IsSimpleName(lowered);
    if simple { return lowered; }
    return Quoted(lowered);
  }

  lemma EscLower(name: string)
    ensures Esc(ToLower(name)) == Esc(name)
  {
    LowerTwice(name);
  }

  // ---- reading a name ----

  /** After an opening quote: up to the next quote that is not doubled. */
  function ReadQuoted(s: string): (r: Option<(string, string)>)
    ensures r.Some? ==> |r.value.1| < |s|
  {
    if s == "" then None
    else if s[0] == '"' && (|s| == 1 || s[1] != '"') then Some(("", s[1..]))
    else
      var n := if s[0] == '"' then 2 else 1;
      match ReadQuoted(s[n..])
      case None => None
      case Some((name, rest)) => Some(([s[0]] + name, rest))
  }

  /** Length of the run of name characters at the front. */
  function Run(s: string): (n: nat)
    ensures n <= |s| && (forall i :: 0 <= i < n ==> NameChar(s[i])) && (n < |s| ==> !NameChar(s[n]))
  {
    if s == "" || !NameChar(s[0]) then 0 else 1 + Run(s[1..])
  }

  /** An identifier and what follows it: a quoted one is taken as it is, any other is folded
      to lower case. */
  function ReadName(s: string): (r: Option<(string, string)>)
    ensures r.Some? ==> |r.value.1| < |s|
  {
    if s != "" && s[0] == '"' then ReadQuoted(s[1..])
    else
      var n := Run(s);
      if n == 0 then None else Some((ToLower(s[..n]), s[n..]))
  }

  lemma {:induction false} ReadDoubled(name: string, rest: string)
    requires rest == "" || rest[0] != '"'
    ensures ReadQuoted(Doubled(name) + ("\"" + rest)) == Some((name, rest))
  {
    var s := Doubled(name) + ("\"" + rest);
    if name == "" {
      assert s == "\"" + rest && s[1..] == rest;
    } else {
      ReadDoubled(name[1..], rest);
      var later := Doubled(name[1..]) + ("\"" + rest);
      var first := if name[0] == '"' then "\"\"" else [name[0]];
      Assoc(first, Doubled(name[1..]), "\"" + rest);
      assert s == first + later;
      assert s[|first|..] == later;
      assert name == [name[0]] + name[1..];
    }
  }

  /** What may follow a name: neither a quote nor a name character. */
  predicate EndsName(rest: string) { rest == "" || (rest[0] != '"' && !NameChar(rest[0])) }

  /** An escaped name reads back, whatever it holds, as its lower case. */
  lemma ReadEsc(name: string, rest: string)
    requires EndsName(rest)
    ensures ReadName(Esc(name) + rest) == Some((ToLower(name), rest))
  {
    var l := ToLower(name);
    if Simple(l) {
      LowerTwice(name);
      assert (l + rest)[..|l|] == l && (l + rest)[|l|..] == rest;
      assert (l + rest)[0] == l[0];
    } else {
      ReadDoubled(l, rest);
      hide ReadQuoted, Doubled;
      var s := Quoted(l) + rest;
      Assoc("\"", Doubled(l) + "\"", rest);
      Assoc(Doubled(l), "\"", rest);
      assert s == "\"" + (Doubled(l) + ("\"" + rest));
      assert s[1..] == Doubled(l) + ("\"" + rest);
    }
  }
}
