/** Text templates with {column} placeholders: the in-place, key-by-key replacement against
    one simultaneous substitution, and the scan that lists a template's columns. */
module Templates {
  import opened Text

  // ---- the replacement ----

  predicate IsAt(s: string, pattern: string, i: nat) {
    i + |pattern| <= |s| && s[i..i + |pattern|] == pattern
  }

  /** Offset of the first occurrence at or after i, or the length plus one. */
  function FindFrom(s: string, pattern: string, i: nat): (r: nat)
    ensures i <= r || r == |s| + 1
    ensures r <= |s| ==> r + |pattern| <= |s| && IsAt(s, pattern, r) && forall j :: i <= j < r ==> !IsAt(s, pattern, j)
    ensures r > |s| ==> r == |s| + 1 && forall j :: i <= j ==> !IsAt(s, pattern, j)
    decreases |s| + 1 - i
  {
    if i > |s| then |s| + 1
    else if IsAt(s, pattern, i) then i
    else FindFrom(s, pattern, i + 1)
  }

  /** Every occurrence replaced, left to right, never inside a replacement. */
  function ReplaceAll(s: string, pattern: string, value: string): string
    requires pattern != ""
    decreases |s|
  {
    var i := FindFrom(s, pattern, 0);
    if i > |s| then s else s[..i] + (value + ReplaceAll(s[i + |pattern|..], pattern, value))
  }

  function Placeholder(key: string): string { "{" + (key + "}") }

  type Row = seq<(string, string)>

  function Format(format: string, row: Row): string {
    if row == [] then format
    else ReplaceAll(Format(format, row[..|row| - 1]), Placeholder(row[|row| - 1].0), row[|row| - 1].1)
  }

  lemma FindShifts(s: string, pattern: string, pos: nat)
    requires pos <= |s| && pattern != ""
    ensures var i := FindFrom(s, pattern, pos); var j := FindFrom(s[pos..], pattern, 0);
      if i > |s| then j > |s[pos..]| else j == i - pos
  {
    var i, j := FindFrom(s, pattern, pos), FindFrom(s[pos..], pattern, 0);
    hide FindFrom;
    assert forall k :: 0 <= k ==> (IsAt(s[pos..], pattern, k) <==> IsAt(s, pattern, pos + k));
    if i <= |s| { assert IsAt(s[pos..], pattern, i - pos); }
  }

  lemma ReplaceOne(s: string, pattern: string, value: string, pos: nat)
    requires pattern != "" && pos <= |s| && FindFrom(s, pattern, pos) <= |s|
    ensures var found := FindFrom(s, pattern, pos);
      && pos <= found && found + |pattern| <= |s|
      && ReplaceAll(s[pos..], pattern, value)
         == s[pos..found] + (value + ReplaceAll(s[found + |pattern|..], pattern, value))
  {
    FindShifts(s, pattern, pos);
    hide FindFrom, IsAt, ReplaceAll;
    var found := FindFrom(s, pattern, pos);
    ReplaceAt(s[pos..], pattern, value, s[pos..found], s[found + |pattern|..]);
  }

  lemma ReplaceAt(s: string, pattern: string, value: string, head: string, tail: string)
    requires pattern != "" && FindFrom(s, pattern, 0) <= |s|
    requires head == s[..FindFrom(s, pattern, 0)] && tail == s[FindFrom(s, pattern, 0) + |pattern|..]
    ensures ReplaceAll(s, pattern, value) == head + (value + ReplaceAll(tail, pattern, value))
  {
  }

  lemma Splice(s: string, value: string, pos: nat, found: nat, after: nat)
    requires pos <= found <= after <= |s|
    ensures var next := s[..found] + value + s[after..];
      next[found + |value|..] == s[after..] && next[..found + |value|] == s[..found] + value
    ensures s[..pos] + s[pos..found] == s[..found]
  {
  }

  /** One key: text before pos is done, and the length from pos on shrinks at every turn. */
  method ReplaceInPlace(s: string, pattern: string, value: string) returns (result: string)
    requires pattern != ""
    ensures result == ReplaceAll(s, pattern, value)
  {
    hide ReplaceAll, FindFrom;
    result := s;
    var pos: nat := 0;
    assert s[..0] + ReplaceAll(s[0..], pattern, value) == ReplaceAll(s, pattern, value) by { assert s[0..] == s; }
    while FindFrom(result, pattern, pos) <= |result|
      invariant pos <= |result|
      invariant result[..pos] + ReplaceAll(result[pos..], pattern, value) == ReplaceAll(s, pattern, value)
      decreases |result| - pos
    {
      var found := FindFrom(result, pattern, pos);
      ReplaceOne(result, pattern, value, pos);
      Splice(result, value, pos, found, found + |pattern|);
      Assoc4(result[..pos], result[pos..found], value, ReplaceAll(result[found + |pattern|..], pattern, value));
      Assoc(result[pos..found], value, ReplaceAll(result[found + |pattern|..], pattern, value));
      result := result[..found] + value + result[found + |pattern|..];
      pos := found + |value|;
    }
    NoneLeft(result, pattern, value, pos);
  }

  lemma NoneLeft(s: string, pattern: string, value: string, pos: nat)
    requires pattern != "" && pos <= |s| && FindFrom(s, pattern, pos) > |s|
    ensures s[..pos] + ReplaceAll(s[pos..], pattern, value) == s
  {
    FindShifts(s, pattern, pos);
  }

  method FormatString(format: string, row: Row) returns (result: string)
    ensures result == Format(format, row)
  {
    result := format;
    for i := 0 to |row|
      invariant result == Format(format, row[..i])
    {
      assert row[..i + 1][..i] == row[..i];
      result := ReplaceInPlace(result, Placeholder(row[i].0), row[i].1);
    }
    assert row[..|row|] == row;
  }

  // ---- templates as pieces ----

  /** Text, a placeholder, or a last opening brace that nothing closes. */
  datatype Piece = Lit(text: string) | Hole(key: string) | Open(text: string)

  function Show(p: Piece): string {
    match p
    case Lit(t) => t
    case Hole(k) => Placeholder(k)
    case Open(t) => "{" + t
  }

  function Render(pieces: seq<Piece>): string {
    if pieces == [] then "" else Show(pieces[0]) + Render(pieces[1..])
  }

  function OpenAt(s: string): (o: nat)
    ensures o <= |s| && Lacks(s[..o], '{') && (o < |s| ==> s[o] == '{')
  {
    Find(s, '{')
  }

  /** The closing brace after the first opening one, or the length. */
  function CloseAt(s: string): (c: nat)
    requires OpenAt(s) < |s|
    ensures OpenAt(s) < c <= |s| && Lacks(s[OpenAt(s) + 1..c], '}') && (c < |s| ==> s[c] == '}')
  {
    var o := OpenAt(s);
    var i := Find(s[o + 1..], '}');
    assert s[o + 1..][..i] == s[o + 1..o + 1 + i];
    o + 1 + i
  }

  /** Pieces as a scan for braces finds them. */
  function Parse(s: string): seq<Piece> {
    var o := OpenAt(s);
    if o == |s| then [Lit(s)]
    else
      var c := CloseAt(s);
      if c == |s| then [Lit(s[..o]), Open(s[o + 1..])]
      else [Lit(s[..o]), Hole(s[o + 1..c])] + Parse(s[c + 1..])
  }

  function Holes(pieces: seq<Piece>): seq<string> {
    if pieces == [] then []
    else (if pieces[0].Hole? then [pieces[0].key] else []) + Holes(pieces[1..])
  }

  /** Braces do not nest: no placeholder holds an opening brace. */
  predicate NoNesting(format: string) {
    forall key :: key in Holes(Parse(format)) ==> Lacks(key, '{')
  }

  /** One simultaneous substitution. */
  function Lookup(row: Row, key: string): Piece {
    if row == [] then Hole(key)
    else
      var found := Lookup(row[..|row| - 1], key);
      if found.Hole? && row[|row| - 1].0 == key then Lit(row[|row| - 1].1) else found
  }

  function Filled(row: Row, p: Piece): Piece {
    if p.Hole? then Lookup(row, p.key) else p
  }

  function Fill(row: Row, pieces: seq<Piece>): seq<Piece> {
    seq(|pieces|, i requires 0 <= i < |pieces| => Filled(row, pieces[i]))
  }

  // ---- parsing loses nothing ----

  predicate GoodPiece(p: Piece) {
    match p
    case Lit(t) => Lacks(t, '{')
    case Hole(k) => Lacks(k, '{') && Lacks(k, '}')
    case Open(t) => Lacks(t, '}')
  }

  /** Pieces whose only placeholders are the holes; an open brace comes last. */
  predicate Good(pieces: seq<Piece>) {
    && (forall i :: 0 <= i < |pieces| ==> GoodPiece(pieces[i]))
    && (forall i :: 0 <= i < |pieces| - 1 ==> !pieces[i].Open?)
  }

  lemma RenderTwo(a: Piece, b: Piece, rest: seq<Piece>)
    ensures Render([a, b] + rest) == Show(a) + (Show(b) + Render(rest))
  {
    assert ([a, b] + rest)[1..] == [b] + rest && ([b] + rest)[1..] == rest;
  }

  lemma Rejoin(s: string, o: nat, c: nat)
    requires o < c < |s| && s[o] == '{' && s[c] == '}'
    ensures s[..o] + (Placeholder(s[o + 1..c]) + s[c + 1..]) == s
  {
  }

  lemma {:induction false} ParseRenders(s: string)
    ensures Render(Parse(s)) == s
    decreases |s|
  {
    hide OpenAt, CloseAt, Placeholder, Render;
    var o := OpenAt(s);
    if o == |s| {
      RenderOne(Lit(s));
    } else {
      var c := CloseAt(s);
      if c == |s| {
        RenderTwo(Lit(s[..o]), Open(s[o + 1..]), []);
        RenderNone();
        assert [Lit(s[..o]), Open(s[o + 1..])] + [] == Parse(s);
      } else {
        ParseRenders(s[c + 1..]);
        RenderTwo(Lit(s[..o]), Hole(s[o + 1..c]), Parse(s[c + 1..]));
        Rejoin(s, o, c);
      }
    }
  }

  lemma RenderNone()
    ensures Render([]) == ""
  {
  }

  lemma RenderOne(p: Piece)
    ensures Render([p]) == Show(p)
  {
    assert [p][1..] == [];
  }

  lemma GoodCons(text: string, key: string, rest: seq<Piece>)
    requires Lacks(text, '{') && Lacks(key, '{') && Lacks(key, '}') && Good(rest)
    ensures Good([Lit(text), Hole(key)] + rest)
  {
    var all := [Lit(text), Hole(key)] + rest;
    assert forall i :: 2 <= i < |all| ==> all[i] == rest[i - 2];
  }

  lemma GoodLast(text: string, tail: string)
    requires Lacks(text, '{') && Lacks(tail, '}')
    ensures Good([Lit(text)]) && Good([Lit(text), Open(tail)])
  {
  }

  lemma {:induction false} ParseGood(s: string)
    requires NoNesting(s)
    ensures Good(Parse(s))
    decreases |s|
  {
    hide OpenAt, CloseAt, Holes, Good, Lacks;
    var o := OpenAt(s);
    assert s[..|s|] == s;
    if o == |s| {
      GoodLast(s, "");
    } else if CloseAt(s) == |s| {
      assert s[o + 1..CloseAt(s)] == s[o + 1..];
      GoodLast(s[..o], s[o + 1..]);
    } else {
      var c := CloseAt(s);
      var key, rest := s[o + 1..c], Parse(s[c + 1..]);
      HolesCons(Lit(s[..o]), Hole(key), rest);
      assert key in Holes(Parse(s)) && forall k :: k in Holes(rest) ==> k in Holes(Parse(s));
      ParseGood(s[c + 1..]);
      GoodCons(s[..o], key, rest);
    }
  }

  lemma HolesCons(text: Piece, hole: Piece, rest: seq<Piece>)
    requires text.Lit? && hole.Hole?
    ensures Holes([text, hole] + rest) == [hole.key] + Holes(rest)
  {
    assert ([text, hole] + rest)[1..] == [hole] + rest;
    assert ([hole] + rest)[1..] == rest;
  }

  // ---- replacing in pieces ----

  lemma FindSkips(a: string, rest: string, pattern: string)
    requires pattern != "" && forall i :: 0 <= i < |a| ==> !IsAt(a + rest, pattern, i)
    ensures var i := FindFrom(a + rest, pattern, 0); var j := FindFrom(rest, pattern, 0);
      if j > |rest| then i > |a + rest| else i == |a| + j
  {
    hide FindFrom;
    FindShifts(a + rest, pattern, |a|);
    assert (a + rest)[|a|..] == rest;
    hide IsAt;
  }

  lemma CutBehind(a: string, rest: string, j: nat, n: nat)
    requires j + n <= |rest|
    ensures (a + rest)[..|a| + j] == a + rest[..j] && (a + rest)[|a| + j + n..] == rest[j + n..]
  {
  }

  /** Where no occurrence starts, replacement leaves the text alone. */
  lemma Skip(a: string, rest: string, pattern: string, value: string)
    requires pattern != "" && forall i :: 0 <= i < |a| ==> !IsAt(a + rest, pattern, i)
    ensures ReplaceAll(a + rest, pattern, value) == a + ReplaceAll(rest, pattern, value)
  {
    FindSkips(a, rest, pattern);
    var j := FindFrom(rest, pattern, 0);
    if j <= |rest| {
      hide FindFrom, IsAt, ReplaceAll;
      CutBehind(a, rest, j, |pattern|);
      var head, tail := rest[..j], rest[j + |pattern|..];
      ReplaceAt(rest, pattern, value, head, tail);
      ReplaceAt(a + rest, pattern, value, a + head, tail);
      Assoc(a, head, value + ReplaceAll(tail, pattern, value));
    }
  }

  lemma StartsWithBrace(s: string, key: string, i: nat)
    requires IsAt(s, Placeholder(key), i)
    ensures i + |key| + 2 <= |s| && s[i] == '{' && s[i + 1 + |key|] == '}' && s[i + 1..i + 1 + |key|] == key
  {
    var p := Placeholder(key);
    assert p[0] == '{' && p[|key| + 1] == '}' && |p| == |key| + 2;
    assert forall j :: 0 <= j < |p| ==> s[i + j] == s[i..i + |p|][j] == p[j];
    assert forall j :: 0 <= j < |key| ==> s[i + 1..i + 1 + |key|][j] == p[j + 1] == key[j];
  }

  /** One of the two starts with the other. */
  predicate Comparable(a: string, b: string) { a <= b || b <= a }

  /** The text neither holds the key's placeholder nor ends with a beginning of it. */
  predicate Inert(t: string, key: string) {
    forall p :: 0 <= p < |t| ==> !Comparable(t[p..], Placeholder(key))
  }

  lemma NoBraceIsInert(t: string, key: string)
    requires Lacks(t, '{')
    ensures Inert(t, key)
  {
    forall p | 0 <= p < |t| ensures !Comparable(t[p..], Placeholder(key)) {
      assert t[p..][0] == t[p] && t[p] in t && Placeholder(key)[0] == '{';
    }
  }

  lemma MatchIsComparable(t: string, rest: string, pattern: string, i: nat)
    requires i < |t| && IsAt(t + rest, pattern, i)
    ensures Comparable(t[i..], pattern)
  {
    var s := t + rest;
    if |t| - i >= |pattern| {
      assert t[i..][..|pattern|] == s[i..i + |pattern|];
    } else {
      assert s[i..i + |pattern|][..|t| - i] == t[i..];
    }
  }

  lemma SkipText(t: string, rest: string, key: string, value: string)
    requires Inert(t, key)
    ensures ReplaceAll(t + rest, Placeholder(key), value) == t + ReplaceAll(rest, Placeholder(key), value)
  {
    hide Placeholder;
    forall i | 0 <= i < |t| ensures !IsAt(t + rest, Placeholder(key), i) {
      if IsAt(t + rest, Placeholder(key), i) { MatchIsComparable(t, rest, Placeholder(key), i); }
    }
    NotEmpty(key);
    Skip(t, rest, Placeholder(key), value);
  }

  lemma SkipHole(k: string, rest: string, key: string, value: string)
    requires Lacks(k, '{') && Lacks(k, '}') && Lacks(key, '}') && k != key
    ensures ReplaceAll(Placeholder(k) + rest, Placeholder(key), value)
         == Placeholder(k) + ReplaceAll(rest, Placeholder(key), value)
  {
    var a := Placeholder(k);
    var s := a + rest;
    forall i | 0 <= i < |a| ensures !IsAt(s, Placeholder(key), i) {
      if IsAt(s, Placeholder(key), i) {
        StartsWithBrace(s, key, i);
        NotInside(k, rest, key, i);
      }
    }
    Skip(a, rest, Placeholder(key), value);
  }

  lemma PlaceholderChars(k: string, rest: string)
    ensures var s := Placeholder(k) + rest;
      && |s| >= |k| + 2 && s[0] == '{' && s[|k| + 1] == '}' && s[1..|k| + 1] == k
      && forall j :: 0 <= j < |k| ==> s[j + 1] == k[j]
  {
  }

  /** The only brace pair that starts inside a plain placeholder is its own. */
  lemma StartsAtFront(s: string, k: string, i: nat)
    requires |s| >= |k| + 2 && s[|k| + 1] == '}' && Lacks(k, '{') && i < |k| + 2 && s[i] == '{'
    requires forall j :: 0 <= j < |k| ==> s[j + 1] == k[j]
    ensures i == 0
  {
    assert 1 <= i <= |k| ==> k[i - 1] in k;
  }

  lemma CutAtClose(s: string, k: string)
    requires |k| + 2 <= |s| && s[|k| + 1] == '}' && s[1..|k| + 1] == k && Lacks(k, '}')
    ensures Find(s[1..], '}') == |k|
  {
    hide Find;
    assert s[1..] == k + ['}'] + s[|k| + 2..];
    FindAt(k, '}', s[|k| + 2..]);
  }

  lemma FirstClose(s: string, k: string, key: string)
    requires Lacks(k, '}') && Lacks(key, '}') && |k| + 2 <= |s| && |key| + 2 <= |s|
    requires s[|k| + 1] == '}' && s[|key| + 1] == '}' && s[1..|k| + 1] == k && s[1..|key| + 1] == key
    ensures k == key
  {
    hide Find;
    CutAtClose(s, k);
    CutAtClose(s, key);
  }

  lemma NotInside(k: string, rest: string, key: string, i: nat)
    requires Lacks(k, '{') && Lacks(k, '}') && Lacks(key, '}') && i < |k| + 2
    requires var s := Placeholder(k) + rest;
      i + |key| + 2 <= |s| && s[i] == '{' && s[i + 1 + |key|] == '}' && s[i + 1..i + 1 + |key|] == key
    ensures k == key
  {
    hide Placeholder, Lacks;
    var s := Placeholder(k) + rest;
    PlaceholderChars(k, rest);
    StartsAtFront(s, k, i);
    FirstClose(s, k, key);
  }

  lemma TakeHole(rest: string, key: string, value: string)
    ensures ReplaceAll(Placeholder(key) + rest, Placeholder(key), value)
         == value + ReplaceAll(rest, Placeholder(key), value)
  {
    var p := Placeholder(key);
    var s := p + rest;
    assert s[0..|p|] == p && s[|p|..] == rest;
    assert IsAt(s, p, 0);
    assert FindFrom(s, p, 0) == 0;
    assert s[..0] + (value + ReplaceAll(rest, p, value)) == value + ReplaceAll(rest, p, value);
  }

  lemma SkipOpen(t: string, key: string, value: string)
    requires Lacks(t, '}')
    ensures ReplaceAll("{" + t, Placeholder(key), value) == "{" + t
  {
    var s := "{" + t;
    assert forall i :: 1 <= i < |s| ==> s[i] == t[i - 1] && t[i - 1] in t;
    forall i: nat ensures !IsAt(s, Placeholder(key), i) {
      if IsAt(s, Placeholder(key), i) { StartsWithBrace(s, key, i); }
    }
  }

  function Plug(key: string, value: string, p: Piece): Piece {
    if p == Hole(key) then Lit(value) else p
  }

  function PlugAll(key: string, value: string, pieces: seq<Piece>): seq<Piece> {
    seq(|pieces|, i requires 0 <= i < |pieces| => Plug(key, value, pieces[i]))
  }

  predicate GoodPieceFor(p: Piece, key: string) {
    if p.Lit? then Inert(p.text, key) else GoodPiece(p)
  }

  /** Pieces whose only placeholders for this key are its holes. */
  predicate GoodFor(pieces: seq<Piece>, key: string) {
    && (forall i :: 0 <= i < |pieces| ==> GoodPieceFor(pieces[i], key))
    && (forall i :: 0 <= i < |pieces| - 1 ==> !pieces[i].Open?)
  }

  lemma ReplaceInFront(p: Piece, tail: string, key: string, value: string)
    requires GoodPieceFor(p, key) && Lacks(key, '}') && (p.Open? ==> tail == "")
    ensures ReplaceAll(Show(p) + tail, Placeholder(key), value)
         == Show(Plug(key, value, p)) + ReplaceAll(tail, Placeholder(key), value)
  {
    hide ReplaceAll, Placeholder, Inert;
    match p
    case Lit(t) => SkipText(t, tail, key, value);
    case Hole(k) =>
      if k == key { TakeHole(tail, key, value); } else { SkipHole(k, tail, key, value); }
    case Open(t) =>
      SkipOpen(t, key, value);
      NothingToReplace(key, value);
      assert "{" + t + "" == "{" + t;
  }

  /** Replacing one key in the text replaces exactly its holes. */
  lemma {:induction false} ReplacePieces(pieces: seq<Piece>, key: string, value: string)
    requires GoodFor(pieces, key) && Lacks(key, '}')
    ensures ReplaceAll(Render(pieces), Placeholder(key), value) == Render(PlugAll(key, value, pieces))
  {
    hide ReplaceAll, Placeholder, Inert, Show, Plug, Lacks;
    if pieces != [] {
      var rest := pieces[1..];
      assert GoodFor(rest, key) && GoodPieceFor(pieces[0], key) && (pieces[0].Open? ==> rest == []);
      ReplacePieces(rest, key, value);
      assert PlugAll(key, value, pieces)[1..] == PlugAll(key, value, rest);
      ReplaceInFront(pieces[0], Render(rest), key, value);
    } else {
      NothingToReplace(key, value);
    }
  }

  // ---- the whole row ----

  predicate PlainKey(key: string) { Lacks(key, '{') && Lacks(key, '}') }

  /** Keys hold no brace, and no value can start the placeholder of a later key. */
  predicate GoodRow(row: Row) {
    && (forall i :: 0 <= i < |row| ==> PlainKey(row[i].0))
    && (forall i, j :: 0 <= i < j < |row| ==> Inert(row[i].1, row[j].0))
  }

  /** In particular any row without braces in keys and without opening braces in values. */
  lemma NoBracesIsGood(row: Row)
    requires forall i :: 0 <= i < |row| ==> PlainKey(row[i].0) && Lacks(row[i].1, '{')
    ensures GoodRow(row)
  {
    forall i, j | 0 <= i < j < |row| ensures Inert(row[i].1, row[j].0) {
      NoBraceIsInert(row[i].1, row[j].0);
    }
  }

  lemma {:induction false} LookupGood(row: Row, key: string)
    ensures var p := Lookup(row, key);
      p == Hole(key) || (p.Lit? && exists i :: 0 <= i < |row| && row[i].1 == p.text)
  {
    if row != [] {
      var rest := row[..|row| - 1];
      LookupGood(rest, key);
      var p := Lookup(rest, key);
      if p.Lit? {
        var i :| 0 <= i < |rest| && rest[i].1 == p.text;
        assert row[i].1 == p.text;
      }
    }
  }

  /** After the keys so far, the text is good for the next one. */
  lemma FillGood(row: Row, pieces: seq<Piece>)
    requires row != [] && GoodRow(row) && Good(pieces)
    ensures GoodFor(Fill(row[..|row| - 1], pieces), row[|row| - 1].0)
  {
    var rest, key := row[..|row| - 1], row[|row| - 1].0;
    var filled := Fill(rest, pieces);
    hide Inert;
    forall i | 0 <= i < |filled| ensures GoodPieceFor(filled[i], key) && (i < |filled| - 1 ==> !filled[i].Open?) {
      assert GoodPiece(pieces[i]);
      if pieces[i].Hole? {
        LookupGood(rest, pieces[i].key);
        if filled[i].Lit? {
          var k :| 0 <= k < |rest| && rest[k].1 == filled[i].text;
          assert Inert(row[k].1, key);
        }
      } else if pieces[i].Lit? {
        NoBraceIsInert(pieces[i].text, key);
      }
    }
  }

  lemma FillStep(row: Row, pieces: seq<Piece>)
    requires row != []
    ensures var last := row[|row| - 1];
      PlugAll(last.0, last.1, Fill(row[..|row| - 1], pieces)) == Fill(row, pieces)
  {
    var rest, last := row[..|row| - 1], row[|row| - 1];
    var plugged, filled := PlugAll(last.0, last.1, Fill(rest, pieces)), Fill(row, pieces);
    forall i | 0 <= i < |pieces| ensures plugged[i] == filled[i] {
      if pieces[i].Hole? { LookupGood(rest, pieces[i].key); }
    }
  }

  lemma {:induction false} FormatPieces(row: Row, pieces: seq<Piece>)
    requires GoodRow(row) && Good(pieces)
    ensures Format(Render(pieces), row) == Render(Fill(row, pieces))
  {
    if row == [] {
      assert Fill(row, pieces) == pieces;
    } else {
      var rest, last := row[..|row| - 1], row[|row| - 1];
      hide Inert;
      FormatPieces(rest, pieces);
      FillGood(row, pieces);
      ReplacePieces(Fill(rest, pieces), last.0, last.1);
      FillStep(row, pieces);
    }
  }

  /** Key-by-key replacement in place is one simultaneous substitution, for every template
      whose braces do not nest and every row whose keys hold no brace and whose values
      cannot start the placeholder of a later key. */
  lemma FormatIsSubstitution(format: string, row: Row)
    requires NoNesting(format) && GoodRow(row)
    ensures Format(format, row) == Render(Fill(row, Parse(format)))
  {
    hide GoodRow;
    ParseRenders(format);
    ParseGood(format);
    FormatPieces(row, Parse(format));
  }

  // ---- exactly which values ----

  lemma {:induction false} ReplaceSelf(s: string, pattern: string)
    requires pattern != ""
    ensures ReplaceAll(s, pattern, pattern) == s
    decreases |s|
  {
    var i := FindFrom(s, pattern, 0);
    if i <= |s| {
      hide FindFrom;
      var head, tail := s[..i], s[i + |pattern|..];
      ReplaceSelf(tail, pattern);
      assert s[i..i + |pattern|] == pattern;
      assert s == head + (pattern + tail);
      ReplaceAt(s, pattern, pattern, head, tail);
    }
  }

  lemma {:induction false} ReplaceLength(s: string, pattern: string, value: string)
    requires pattern != ""
    ensures |value| >= |pattern| ==> |ReplaceAll(s, pattern, value)| >= |s|
    ensures |value| <= |pattern| ==> |ReplaceAll(s, pattern, value)| <= |s|
    decreases |s|
  {
    var i := FindFrom(s, pattern, 0);
    if i <= |s| {
      hide FindFrom, IsAt;
      var head, tail := s[..i], s[i + |pattern|..];
      ReplaceLength(tail, pattern, value);
      ReplaceAt(s, pattern, value, head, tail);
    }
  }

  /** Replacing something that occurs by something else changes the text. */
  lemma MiddleDiffers(head: string, pattern: string, tail: string, value: string, after: string)
    requires value != pattern
    requires if |value| < |pattern| then |after| <= |tail| else |after| >= |tail|
    ensures head + (value + after) != head + (pattern + tail)
  {
    var x, y := head + (value + after), head + (pattern + tail);
    if |value| == |pattern| {
      assert x[|head|..|head| + |value|] == value && y[|head|..|head| + |value|] == pattern;
    }
  }

  lemma CutTwice(s: string, i: nat, n: nat)
    requires i + n <= |s|
    ensures s == s[..i] + (s[i..i + n] + s[i + n..])
  {
  }

  lemma ReplaceChanges(s: string, pattern: string, value: string, p: nat)
    requires pattern != "" && value != pattern && IsAt(s, pattern, p)
    ensures ReplaceAll(s, pattern, value) != s
  {
    var i := FindFrom(s, pattern, 0);
    assert i <= |s| && s[i..i + |pattern|] == pattern;
    hide FindFrom, IsAt, ReplaceAll;
    var head, tail := s[..i], s[i + |pattern|..];
    ReplaceLength(tail, pattern, value);
    ReplaceAt(s, pattern, value, head, tail);
    CutTwice(s, i, |pattern|);
    MiddleDiffers(head, pattern, tail, value, ReplaceAll(tail, pattern, value));
  }

  /** A template of one placeholder and text after it. */
  lemma ParseHole(key: string, w: string)
    requires Lacks(key, '}') && Lacks(w, '{')
    ensures Parse(Placeholder(key) + w) == [Lit(""), Hole(key), Lit(w)]
  {
    var s := Placeholder(key) + w;
    HoleBounds(key, w);
    hide OpenAt, CloseAt, Placeholder;
    ParseStep(s, key, w);
    assert [Lit(""), Hole(key)] + [Lit(w)] == [Lit(""), Hole(key), Lit(w)];
  }

  lemma ParseStep(s: string, key: string, w: string)
    requires OpenAt(s) == 0 < |s| && CloseAt(s) < |s|
    requires s[..0] == "" && s[1..CloseAt(s)] == key && s[CloseAt(s) + 1..] == w
    ensures Parse(s) == [Lit(""), Hole(key)] + Parse(w)
  {
  }

  lemma HoleBounds(key: string, w: string)
    requires Lacks(key, '}')
    ensures var s := Placeholder(key) + w;
      && OpenAt(s) == 0 && OpenAt(s) < |s| && CloseAt(s) == |key| + 1 < |s|
      && s[..0] == "" && s[1..|key| + 1] == key && s[|key| + 2..] == w
  {
    var s := Placeholder(key) + w;
    var rest := key + "}" + w;
    assert s == "" + ['{'] + rest;
    FindAt("", '{', rest);
    assert s[1..] == key + ['}'] + w;
    FindAt(key, '}', w);
    hide Find;
    assert s[1..][..|key|] == s[1..|key| + 1];
  }

  lemma RenderThree(key: Piece, w: string)
    ensures Render([Lit(""), key, Lit(w)]) == Show(key) + w
  {
    var pieces := [Lit(""), key, Lit(w)];
    assert pieces == [Lit(""), key] + [Lit(w)];
    RenderTwo(Lit(""), key, [Lit(w)]);
    RenderOne(Lit(w));
  }

  /** What a row of two makes of such a template at once. */
  lemma HoleFilled(a: string, va: string, b: string, vb: string, w: string)
    requires PlainKey(a) && Lacks(w, '{')
    ensures var row := [(a, va), (b, vb)]; var format := Placeholder(a) + w;
      NoNesting(format) && Render(Fill(row, Parse(format))) == va + w
  {
    var row := [(a, va), (b, vb)];
    hide Placeholder, Parse;
    ParseHole(a, w);
    var pieces := [Lit(""), Hole(a), Lit(w)];
    assert [Lit(""), Hole(a)] + [Lit(w)] == pieces;
    HolesCons(Lit(""), Hole(a), [Lit(w)]);
    NoHoles(Lit(w), Lit(w));
    hide Holes;
    assert row[..1] == [(a, va)] && row[..1][..0] == [];
    assert Lookup([], a) == Hole(a) && Lookup(row[..1], a) == Lit(va) && Lookup(row, a) == Lit(va);
    assert Fill(row, pieces) == [Lit(""), Lit(va), Lit(w)];
    RenderThree(Lit(va), w);
  }

  /** And key by key. */
  lemma HoleTemplate(a: string, va: string, b: string, vb: string, w: string)
    requires Lacks(w, '{')
    ensures Format(Placeholder(a) + w, [(a, va), (b, vb)]) == ReplaceAll(va + w, Placeholder(b), vb)
  {
    var row := [(a, va), (b, vb)];
    var format := Placeholder(a) + w;
    NotEmpty(a);
    NotEmpty(b);
    hide Placeholder, ReplaceAll, Inert;
    assert row[..1] == [(a, va)] && row[..1][..0] == [];
    TakeHole(w, a, va);
    NoBraceIsInert(w, a);
    SkipText(w, "", a, va);
    NothingToReplace(a, va);
    assert w + "" == w;
    assert Format(format, row[..1]) == va + w;
  }

  lemma NothingToReplace(key: string, value: string)
    ensures ReplaceAll("", Placeholder(key), value) == ""
  {
    assert forall i: nat :: !IsAt("", Placeholder(key), i);
  }

  /** Key by key is at once. */
  ghost predicate Faithful(format: string, row: Row) {
    Format(format, row) == Render(Fill(row, Parse(format)))
  }

  lemma Completes(va: string, b: string, p: nat, w: string)
    requires p < |va| && Comparable(va[p..], Placeholder(b))
    requires w == if |va| - p < |Placeholder(b)| then Placeholder(b)[|va| - p..] else ""
    ensures IsAt(va + w, Placeholder(b), p)
  {
    hide Placeholder;
    var pattern, n := Placeholder(b), |va| - p;
    if n < |pattern| {
      assert va[p..] == pattern[..n];
      assert (va + w)[p..p + |pattern|] == va[p..] + w;
      assert pattern[..n] + pattern[n..] == pattern;
    } else {
      assert (va + w)[p..p + |pattern|] == va[p..][..|pattern|];
    }
  }

  lemma TailLacks(b: string, n: nat, w: string)
    requires Lacks(b, '{') && n >= 1
    requires w == if n < |Placeholder(b)| then Placeholder(b)[n..] else ""
    ensures Lacks(w, '{')
  {
    var rest := b + "}";
    assert Placeholder(b) == "{" + rest && Lacks(rest, '{');
    if n < |Placeholder(b)| { assert w == rest[n - 1..]; }
  }

  /** A value that can start a later key's placeholder, when that key's value is not the
      placeholder itself, spoils some template. */
  lemma Spoils(a: string, va: string, b: string, vb: string)
    requires PlainKey(a) && PlainKey(b) && !Inert(va, b) && vb != Placeholder(b)
    ensures exists format :: NoNesting(format) && !Faithful(format, [(a, va), (b, vb)])
  {
    var pattern := Placeholder(b);
    var p :| 0 <= p < |va| && Comparable(va[p..], pattern);
    var n := |va| - p;
    var w := if n < |pattern| then pattern[n..] else "";
    Completes(va, b, p, w);
    TailLacks(b, n, w);
    NotEmpty(b);
    hide Placeholder, Inert, Comparable, IsAt, NoNesting, ReplaceAll, Parse, Fill;
    HoleFilled(a, va, b, vb, w);
    HoleTemplate(a, va, b, vb, w);
    ReplaceChanges(va + w, pattern, vb, p);
    assert !Faithful(Placeholder(a) + w, [(a, va), (b, vb)]);
  }

  lemma {:induction false} SameShow(a: seq<Piece>, b: seq<Piece>)
    requires |a| == |b| && forall i :: 0 <= i < |a| ==> Show(a[i]) == Show(b[i])
    ensures Render(a) == Render(b)
  {
    if a != [] { SameShow(a[1..], b[1..]); }
  }

  /** A key whose value is its own placeholder changes nothing. */
  lemma OwnPlaceholder(format: string, a: string, va: string, b: string)
    requires NoNesting(format) && PlainKey(a)
    ensures var row := [(a, va), (b, Placeholder(b))];
      Format(format, row) == Render(Fill(row, Parse(format)))
  {
    hide Placeholder, Parse, ReplaceAll, NoNesting;
    var row := [(a, va), (b, Placeholder(b))];
    var one := [(a, va)];
    assert row[..1] == one;
    FormatIsSubstitution(format, one);
    NotEmpty(b);
    ReplaceSelf(Format(format, one), Placeholder(b));
    var pieces := Parse(format);
    forall i | 0 <= i < |pieces| ensures Show(Fill(row, pieces)[i]) == Show(Fill(one, pieces)[i]) {
      if pieces[i].Hole? { LookupGood(one, pieces[i].key); }
    }
    SameShow(Fill(row, pieces), Fill(one, pieces));
  }

  lemma NotEmpty(key: string)
    ensures Placeholder(key) != ""
  {
  }

  /** Of two keys in order, replacement is the simultaneous substitution for every template
      exactly when the first value cannot start the second placeholder, or the second value
      is that placeholder. */
  lemma SubstitutionExactly(a: string, va: string, b: string, vb: string)
    requires PlainKey(a) && PlainKey(b)
    ensures var row := [(a, va), (b, vb)];
      (forall format :: NoNesting(format) ==> Faithful(format, row)) <==> Inert(va, b) || vb == Placeholder(b)
  {
    hide Placeholder, Parse, ReplaceAll, NoNesting, Fill, Render, Format, Inert;
    var row := [(a, va), (b, vb)];
    if vb == Placeholder(b) {
      forall format | NoNesting(format) ensures Faithful(format, row) {
        OwnPlaceholder(format, a, va, b);
      }
    } else if Inert(va, b) {
      forall format | NoNesting(format) ensures Faithful(format, row) {
        FormatIsSubstitution(format, row);
      }
    } else {
      Spoils(a, va, b, vb);
    }
  }

  // ---- exactly which templates ----

  /** The key holds an opening brace and then b: a placeholder of b inside its own. */
  predicate Nests(key: string, b: string) {
    |key| > |b| && key[|key| - |b| - 1..] == "{" + b
  }

  /** Where a placeholder of b can start in one of another key: at its front, or at a nested
      brace. */
  lemma StartsInHole(key: string, rest: string, b: string, p: nat)
    requires Lacks(key, '}') && Lacks(b, '}') && p < |key| + 2 && IsAt(Placeholder(key) + rest, Placeholder(b), p)
    ensures p + |b| == |key| && (if p == 0 then key == b else Nests(key, b))
  {
    var s := Placeholder(key) + rest;
    StartsWithBrace(s, b, p);
    HoleText(key, rest);
    hide Placeholder, IsAt;
    ClosesHole(s, key, b, p);
    assert s[p + 1..p + 1 + |b|] == s[1..|key| + 1][p..];
    if p > 0 { assert key[p - 1..] == [key[p - 1]] + key[p..] && s[p] == key[p - 1]; }
  }

  /** Two closing braces that both follow text without one are the same. */
  lemma ClosesHole(s: string, key: string, b: string, p: nat)
    requires Lacks(key, '}') && Lacks(b, '}') && p < |key| + 2
    requires |s| >= |key| + 2 && s[|key| + 1] == '}' && s[1..|key| + 1] == key
    requires p + |b| + 2 <= |s| && s[p] == '{' && s[p + 1 + |b|] == '}' && s[p + 1..p + 1 + |b|] == b
    ensures p + |b| == |key|
  {
    assert forall j :: 0 <= j < |key| ==> s[j + 1] == key[j] && key[j] in key;
    assert forall j :: 0 <= j < |b| ==> s[p + 1 + j] == b[j] && b[j] in b;
  }

  lemma HoleText(key: string, rest: string)
    ensures var s := Placeholder(key) + rest;
      |s| >= |key| + 2 && s[0] == '{' && s[|key| + 1] == '}' && s[1..|key| + 1] == key
  {
  }

  lemma NestedText(key: string, rest: string, b: string)
    requires Nests(key, b)
    ensures Placeholder(key) + rest == "{" + key[..|key| - |b| - 1] + (Placeholder(b) + rest)
    ensures |"{" + key[..|key| - |b| - 1]| == |key| - |b| < |key| + 2
  {
    assert key == key[..|key| - |b| - 1] + ("{" + b);
  }

  lemma NoStartBefore(key: string, rest: string, b: string, n: nat)
    requires Lacks(key, '}') && Lacks(b, '}') && key != b && n <= |key| + 2
    requires Nests(key, b) ==> n == |key| - |b|
    ensures forall p :: 0 <= p < n ==> !IsAt(Placeholder(key) + rest, Placeholder(b), p)
  {
    hide Placeholder, IsAt, Nests;
    forall p | 0 <= p < n ensures !IsAt(Placeholder(key) + rest, Placeholder(b), p) {
      if IsAt(Placeholder(key) + rest, Placeholder(b), p) { StartsInHole(key, rest, b, p); }
    }
  }

  /** Removing b's placeholders from one of another key and what follows it. */
  lemma RemoveInHole(key: string, rest: string, b: string)
    requires Lacks(key, '}') && PlainKey(b)
    ensures var after := ReplaceAll(rest, Placeholder(b), "");
      ReplaceAll(Placeholder(key) + rest, Placeholder(b), "")
      == if key == b then "" + after
         else if Nests(key, b) then "{" + key[..|key| - |b| - 1] + after
         else Placeholder(key) + after
  {
    NotEmpty(b);
    var n := |Placeholder(key)|;
    assert n == |key| + 2;
    if Nests(key, b) { NestedText(key, rest, b); }
    hide ReplaceAll, Placeholder, IsAt;
    if key == b {
      TakeHole(rest, b, "");
    } else if Nests(key, b) {
      var front := "{" + key[..|key| - |b| - 1];
      NoStartBefore(key, rest, b, |front|);
      Skip(front, Placeholder(b) + rest, Placeholder(b), "");
      TakeHole(rest, b, "");
      assert "" + ReplaceAll(rest, Placeholder(b), "") == ReplaceAll(rest, Placeholder(b), "");
    } else {
      NoStartBefore(key, rest, b, n);
      Skip(Placeholder(key), rest, Placeholder(b), "");
    }
  }

  /** The template with b's holes emptied, at once. */
  function Emptied(s: string, b: string): string { Render(Fill([(b, "")], Parse(s))) }

  predicate SomeNests(keys: seq<string>, b: string) { exists i :: 0 <= i < |keys| && Nests(keys[i], b) }

  lemma EmptiedText(s: string, b: string)
    requires OpenAt(s) == |s| || CloseAt(s) == |s|
    ensures Emptied(s, b) == s && Columns(s) == []
  {
    NoColumns(s);
    ParseRenders(s);
    hide Render, OpenAt, CloseAt;
    assert Fill([(b, "")], Parse(s)) == Parse(s);
  }

  lemma EmptiedHole(s: string, b: string)
    requires OpenAt(s) < |s| && CloseAt(s) < |s|
    ensures var o, c := OpenAt(s), CloseAt(s); var key := s[o + 1..c];
      Emptied(s, b) == s[..o] + ((if key == b then "" else Placeholder(key)) + Emptied(s[c + 1..], b))
  {
    hide OpenAt, CloseAt, Render, Placeholder;
    var o, c := OpenAt(s), CloseAt(s);
    var key, rest := s[o + 1..c], Parse(s[c + 1..]);
    var row := [(b, "")];
    assert row[..0] == [];
    assert Lookup([], key) == Hole(key) && Lookup(row, key) == if key == b then Lit("") else Hole(key);
    assert Fill(row, [Lit(s[..o]), Hole(key)] + rest) == [Lit(s[..o]), Lookup(row, key)] + Fill(row, rest);
    RenderTwo(Lit(s[..o]), Lookup(row, key), Fill(row, rest));
  }

  /** Removing b key by key leaves at most what emptying its holes at once leaves, and less
      where a placeholder of b is nested in another. */
  ghost predicate RemovesAtLeast(s: string, b: string) {
    var left := |ReplaceAll(s, Placeholder(b), "")|;
    left <= |Emptied(s, b)| && (SomeNests(Columns(s), b) ==> left < |Emptied(s, b)|)
  }

  lemma RemovesFromText(s: string, b: string)
    requires OpenAt(s) == |s| || CloseAt(s) == |s|
    ensures RemovesAtLeast(s, b)
  {
    EmptiedText(s, b);
    ReplaceLength(s, Placeholder(b), "");
  }

  lemma FirstColumn(s: string)
    requires OpenAt(s) < |s| && CloseAt(s) < |s|
    ensures Columns(s) == [s[OpenAt(s) + 1..CloseAt(s)]] + Columns(s[CloseAt(s) + 1..])
  {
    hide OpenAt, CloseAt, Columns;
    NextColumn(s, 0);
    assert s[0..] == s;
  }

  lemma PlaceholderLength(key: string)
    ensures |Placeholder(key)| == |key| + 2
  {
  }

  lemma EmptiedLength(s: string, b: string)
    requires OpenAt(s) < |s| && CloseAt(s) < |s|
    ensures var key, rest := s[OpenAt(s) + 1..CloseAt(s)], s[CloseAt(s) + 1..];
      |Emptied(s, b)| == OpenAt(s) + (if key == b then 0 else |key| + 2) + |Emptied(rest, b)|
  {
    hide OpenAt, CloseAt, Emptied, Placeholder;
    EmptiedHole(s, b);
    PlaceholderLength(s[OpenAt(s) + 1..CloseAt(s)]);
  }

  lemma RemovedLength(s: string, b: string)
    requires OpenAt(s) < |s| && CloseAt(s) < |s| && PlainKey(b)
    ensures var key, rest := s[OpenAt(s) + 1..CloseAt(s)], s[CloseAt(s) + 1..];
      |ReplaceAll(s, Placeholder(b), "")| == OpenAt(s) + |ReplaceAll(rest, Placeholder(b), "")|
        + (if key == b then 0 else if Nests(key, b) then |key| - |b| else |key| + 2)
  {
    hide ReplaceAll, OpenAt, CloseAt, Placeholder, Nests;
    var o, c := OpenAt(s), CloseAt(s);
    NotEmpty(b);
    Rejoin(s, o, c);
    PlaceholderLength(s[o + 1..c]);
    RemoveLength(s[..o], s[o + 1..c], s[c + 1..], b);
  }

  lemma {:induction false} RemovesMore(s: string, b: string)
    requires PlainKey(b)
    ensures RemovesAtLeast(s, b)
    decreases |s|
  {
    hide ReplaceAll, OpenAt, CloseAt, Columns, Emptied, Placeholder, Nests, SomeNests;
    NotEmpty(b);
    if OpenAt(s) == |s| || CloseAt(s) == |s| {
      RemovesFromText(s, b);
    } else {
      var key, rest := s[OpenAt(s) + 1..CloseAt(s)], s[CloseAt(s) + 1..];
      RemovesMore(rest, b);
      FirstColumn(s);
      EmptiedLength(s, b);
      RemovedLength(s, b);
      NestsInFront(key, Columns(rest), b);
    }
  }

  lemma RemoveLength(text: string, key: string, rest: string, b: string)
    requires Lacks(text, '{') && Lacks(key, '}') && PlainKey(b)
    ensures var after := |ReplaceAll(rest, Placeholder(b), "")|;
      |ReplaceAll(text + (Placeholder(key) + rest), Placeholder(b), "")|
      == |text| + after + if key == b then 0 else if Nests(key, b) then |key| - |b| else |Placeholder(key)|
  {
    NoBraceIsInert(text, b);
    if Nests(key, b) { NestedText(key, rest, b); }
    hide ReplaceAll, Placeholder, Nests, Inert;
    SkipText(text, Placeholder(key) + rest, b, "");
    RemoveInHole(key, rest, b);
  }

  lemma NestsInFront(key: string, rest: seq<string>, b: string)
    ensures SomeNests([key] + rest, b) <==> Nests(key, b) || SomeNests(rest, b)
    ensures Nests(key, b) ==> key != b
  {
    var keys := [key] + rest;
    assert keys[0] == key && forall i :: 0 <= i < |rest| ==> keys[i + 1] == rest[i];
    if SomeNests(rest, b) {
      var i :| 0 <= i < |rest| && Nests(rest[i], b);
      assert Nests(keys[i + 1], b);
    }
    if SomeNests(keys, b) {
      var i :| 0 <= i < |keys| && Nests(keys[i], b);
      assert i > 0 ==> Nests(rest[i - 1], b);
    }
  }

  /** A key with an opening brace nests what follows its last one. */
  lemma {:induction false} LastBrace(key: string) returns (b: string)
    requires !Lacks(key, '{') && Lacks(key, '}')
    ensures PlainKey(b) && Nests(key, b)
  {
    var rest := key[1..];
    assert key == [key[0]] + rest;
    if Lacks(rest, '{') {
      b := rest;
    } else {
      b := LastBrace(rest);
      assert key[|key| - |b| - 1..] == rest[|rest| - |b| - 1..];
    }
  }

  lemma {:induction false} ColumnsLackClose(s: string)
    ensures forall key :: key in Columns(s) ==> Lacks(key, '}')
    decreases |s|
  {
    hide OpenAt, CloseAt, Columns, Lacks;
    if OpenAt(s) == |s| || CloseAt(s) == |s| {
      NoColumns(s);
    } else {
      ColumnsLackClose(s[CloseAt(s) + 1..]);
      FirstColumn(s);
    }
  }

  /** Nested braces spoil a row of one harmless pair. */
  lemma NestingSpoils(format: string)
    requires !NoNesting(format)
    ensures exists row :: GoodRow(row) && !Faithful(format, row)
  {
    var keys := Columns(format);
    var key :| key in keys && !Lacks(key, '{');
    ColumnsLackClose(format);
    var b := LastBrace(key);
    var i :| 0 <= i < |keys| && keys[i] == key;
    assert SomeNests(keys, b);
    RemovesMore(format, b);
    NotEmpty(b);
    var row := [(b, "")];
    assert row[..0] == [];
    hide ReplaceAll, Parse, Render, Fill, Holes;
    assert Format(format, row) == ReplaceAll(format, Placeholder(b), "");
    assert GoodRow(row) && !Faithful(format, row);
  }

  /** Key by key is at once, for every row whose values cannot start a later placeholder,
      exactly on the templates whose braces do not nest. */
  lemma FaithfulExactly(format: string)
    ensures (forall row :: GoodRow(row) ==> Faithful(format, row)) <==> NoNesting(format)
  {
    hide GoodRow, NoNesting, Format, Parse, Render, Fill;
    if NoNesting(format) {
      forall row | GoodRow(row) ensures Faithful(format, row) { FormatIsSubstitution(format, row); }
    } else {
      NestingSpoils(format);
    }
  }

  // ---- the columns of a template ----

  ghost function Columns(s: string): seq<string> { Holes(Parse(s)) }

  lemma NoHoles(a: Piece, b: Piece)
    requires !a.Hole? && !b.Hole?
    ensures Holes([a, b]) == [] && Holes([a]) == []
  {
    assert [a, b][1..] == [b] && [b][1..] == [] && [a][1..] == [];
    assert Holes([b]) == [];
  }

  lemma NoColumns(s: string)
    requires OpenAt(s) == |s| || CloseAt(s) == |s|
    ensures Columns(s) == []
  {
    hide OpenAt, CloseAt, Holes;
    var o := OpenAt(s);
    if o == |s| {
      NoHoles(Lit(s), Lit(s));
    } else {
      NoHoles(Lit(s[..o]), Open(s[o + 1..]));
    }
  }

  lemma NextColumn(s: string, pos: nat)
    requires pos <= |s| && OpenAt(s[pos..]) < |s[pos..]| && CloseAt(s[pos..]) < |s[pos..]|
    ensures var rest := s[pos..]; var next := pos + CloseAt(rest) + 1;
      next <= |s| && Columns(rest) == [rest[OpenAt(rest) + 1..CloseAt(rest)]] + Columns(s[next..])
  {
    hide OpenAt, CloseAt, Holes;
    var rest := s[pos..];
    var o, c := OpenAt(rest), CloseAt(rest);
    HolesCons(Lit(rest[..o]), Hole(rest[o + 1..c]), Parse(rest[c + 1..]));
    assert rest[c + 1..] == s[pos + c + 1..];
  }

  /** Lists exactly the placeholders of the template, in order. */
  method ParseTemplateColumns(displayTemplate: string) returns (columns: seq<string>)
    ensures columns == Columns(displayTemplate)
  {
    hide Columns, OpenAt, CloseAt, Lacks;
    assert displayTemplate[0..] == displayTemplate;
    columns := [];
    var pos: nat := 0;
    while pos < |displayTemplate|
      invariant pos <= |displayTemplate|
      invariant columns + Columns(displayTemplate[pos..]) == Columns(displayTemplate)
    {
      var rest := displayTemplate[pos..];
      var start := OpenAt(rest);
      if start == |rest| { NoColumns(rest); return; }
      var end := CloseAt(rest);
      if end == |rest| { NoColumns(rest); return; }
      NextColumn(displayTemplate, pos);
      columns := columns + [rest[start + 1..end]];
      pos := pos + end + 1;
    }
    assert displayTemplate[pos..] == "";
    EmptyTemplate();
  }

  lemma EmptyTemplate()
    ensures Columns("") == []
  {
    NoColumns("");
  }

  lemma {:induction false} HoleListed(pieces: seq<Piece>, i: nat)
    requires i < |pieces| && pieces[i].Hole?
    ensures pieces[i].key in Holes(pieces)
  {
    if i > 0 { HoleListed(pieces[1..], i - 1); }
  }

  /** Only the listed columns matter: rows that agree on them give the same text. */
  lemma OnlyListedColumnsMatter(format: string, a: Row, b: Row)
    requires NoNesting(format) && GoodRow(a) && GoodRow(b)
    requires forall key :: key in Columns(format) ==> Lookup(a, key) == Lookup(b, key)
    ensures Format(format, a) == Format(format, b)
  {
    FormatIsSubstitution(format, a);
    FormatIsSubstitution(format, b);
    var pieces := Parse(format);
    hide Parse, Holes, Lookup;
    forall i | 0 <= i < |pieces| ensures Filled(a, pieces[i]) == Filled(b, pieces[i]) {
      if pieces[i].Hole? { HoleListed(pieces, i); }
    }
    assert Fill(a, pieces) == Fill(b, pieces);
  }

  // ---- where the condition fails ----

  lemma ReplaceWhole(key: string, value: string)
    ensures ReplaceAll(Placeholder(key), Placeholder(key), value) == value
  {
    TakeHole("", key, value);
    assert Placeholder(key) + "" == Placeholder(key);
    assert forall i: nat :: !IsAt("", Placeholder(key), i);
    assert value + "" == value;
  }

  /** A value that holds a placeholder is itself substituted into by a later key. */
  lemma BracedValueIsReplacedAgain()
    ensures var row := [("a", "{b}"), ("b", "c")];
      Format("{a}", row) == "c" && Render(Fill(row, Parse("{a}"))) == "{b}"
  {
    assert Placeholder("a") + "" == "{a}" && Placeholder("b") == "{b}";
    HoleFilled("a", "{b}", "b", "c", "");
    HoleTemplate("a", "{b}", "b", "c", "");
    assert "{b}" + "" == "{b}";
    ReplaceWhole("b", "c");
  }

  /** So is a placeholder that nested braces form only after a replacement. */
  lemma NestedBracesAreReplacedAgain()
    ensures var row := [("a", "b"), ("b", "c")];
      Format("{{a}}", row) == "c" && Render(Fill(row, Parse("{{a}}"))) == "{{a}}" && !NoNesting("{{a}}")
  {
    NestedReplaced();
    NestedFilled();
  }

  lemma NestedFilled()
    ensures var row := [("a", "b"), ("b", "c")];
      Render(Fill(row, Parse("{{a}}"))) == "{{a}}" && !NoNesting("{{a}}")
  {
    var row := [("a", "b"), ("b", "c")];
    var key := "{a";
    assert Placeholder(key) + "}" == "{{a}}";
    assert key[0] == '{' && |key| == 2 && |row[0].0| == 1 && |row[1].0| == 1;
    HoleStays(key, "}", row);
  }

  /** A placeholder that is not a key of the row stays. */
  lemma HoleStays(key: string, w: string, row: Row)
    requires Lacks(key, '}') && Lacks(w, '{') && |row| == 2 && row[0].0 != key && row[1].0 != key
    ensures var format := Placeholder(key) + w;
      Render(Fill(row, Parse(format))) == format && (!Lacks(key, '{') ==> !NoNesting(format))
  {
    hide Placeholder, Parse;
    ParseHole(key, w);
    var pieces := [Lit(""), Hole(key), Lit(w)];
    assert pieces == [Lit(""), Hole(key)] + [Lit(w)];
    HolesCons(Lit(""), Hole(key), [Lit(w)]);
    assert row[..1] == [row[0]] && row[..1][..0] == [];
    assert Lookup([], key) == Hole(key) && Lookup(row[..1], key) == Hole(key) && Lookup(row, key) == Hole(key);
    assert Fill(row, pieces) == pieces;
    RenderThree(Hole(key), w);
  }

  lemma InnerReplaced()
    ensures ReplaceAll("{{a}}", "{a}", "b") == "{b}"
  {
    var s := "{{a}}";
    assert !IsAt(s, "{a}", 0) by { assert s[0..3][1] == '{'; }
    assert "{" + "{a}}" == s && "{a}" + "}" == "{a}}" && "{" + ("b" + "}") == "{b}" && Placeholder("a") == "{a}";
    Skip("{", "{a}}", "{a}", "b");
    TakeHole("}", "a", "b");
    assert ReplaceAll("}", "{a}", "b") == "}" by { assert forall i: nat :: !IsAt("}", "{a}", i); }
  }

  lemma NestedReplaced()
    ensures Format("{{a}}", [("a", "b"), ("b", "c")]) == "c"
  {
    hide ReplaceAll;
    var row := [("a", "b"), ("b", "c")];
    assert Placeholder("a") == "{a}" && Placeholder("b") == "{b}";
    InnerReplaced();
    ReplaceWhole("b", "c");
    assert row[..1] == [("a", "b")] && row[..1][..0] == [];
    assert Format("{{a}}", row[..1]) == "{b}";
  }
}
