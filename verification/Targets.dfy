/** The key under which the scheduler shares one session among the jobs of one target. */
module Targets {
  import opened Text

  datatype Target = Target(serverUrl: string, email: string, password: string, headers: seq<(string, string)>)

  function HeaderLine(h: (string, string)): string { h.0 + (":" + (" " + h.1)) }

  function Lines(t: Target): (lines: seq<string>)
    ensures |lines| == 3 + |t.headers|
  {
    [t.serverUrl, t.email, t.password] + seq(|t.headers|, i requires 0 <= i < |t.headers| => HeaderLine(t.headers[i]))
  }

  function TargetKey(t: Target): string { JoinWith('\n', Lines(t)) }

  /** The key as the scheduler builds it, by appending header after header. */
  method BuildTargetKey(t: Target) returns (key: string)
    ensures key == TargetKey(t)
  {
    hide HeaderLine;
    var lines := Lines(t);
    key := t.serverUrl + ("\n" + t.email) + ("\n" + t.password);
    assert lines[..1] == [t.serverUrl] && lines[..2][..1] == lines[..1] && lines[..3][..2] == lines[..2];
    assert JoinWith('\n', lines[..2]) == t.serverUrl + ("\n" + t.email);
    for i := 0 to |t.headers|
      invariant key == JoinWith('\n', lines[..i + 3])
    {
      assert lines[..i + 4][..i + 3] == lines[..i + 3] && lines[..i + 4][i + 3] == HeaderLine(t.headers[i]);
      key := key + ("\n" + HeaderLine(t.headers[i]));
    }
    assert lines[..|t.headers| + 3] == lines;
  }

  // ---- which targets share a key ----

  /** The key of a target without headers. */
  lemma PlainKey(url: string, email: string, password: string)
    ensures TargetKey(Target(url, email, password, [])) == url + ("\n" + email) + ("\n" + password)
  {
    var lines := Lines(Target(url, email, password, []));
    assert lines == [url, email, password] && lines[..2] == [url, email] && lines[..2][..1] == [url];
    assert JoinWith('\n', lines[..2]) == url + ("\n" + email);
  }

  /** The password and header lines as one text. */
  function Rest(t: Target): string
    decreases |t.headers|
  {
    if t.headers == [] then t.password
    else
      var n := |t.headers| - 1;
      Rest(t.(headers := t.headers[..n])) + ("\n" + HeaderLine(t.headers[n]))
  }

  lemma {:induction false} KeyIsRest(t: Target)
    ensures TargetKey(t) == t.serverUrl + ("\n" + t.email) + ("\n" + Rest(t))
    decreases |t.headers|
  {
    if t.headers == [] {
      PlainKey(t.serverUrl, t.email, t.password);
    } else {
      var n := |t.headers| - 1;
      var shorter := t.(headers := t.headers[..n]);
      hide HeaderLine;
      KeyIsRest(shorter);
      assert Lines(t)[..n + 3] == Lines(shorter);
      var front, last := t.serverUrl + ("\n" + t.email), "\n" + HeaderLine(t.headers[n]);
      Assoc("\n", Rest(shorter), last);
      Assoc(front, "\n" + Rest(shorter), last);
    }
  }

  /** Joined parts hold a separator between each two, and no other exactly when the parts
      hold none. */
  lemma {:induction false} CountSeparators(c: char, parts: seq<string>)
    requires parts != []
    ensures multiset(JoinWith(c, parts))[c] >= |parts| - 1
    ensures multiset(JoinWith(c, parts))[c] == |parts| - 1 <==> forall p :: p in parts ==> Lacks(p, c)
  {
    var front, last := parts[..|parts| - 1], parts[|parts| - 1];
    assert parts == front + [last] && last in parts;
    assert Lacks(last, c) <==> multiset(last)[c] == 0;
    if front != [] {
      CountSeparators(c, front);
      var joined := JoinWith(c, front);
      assert multiset(joined + ([c] + last))[c] == multiset(joined)[c] + 1 + multiset(last)[c];
      hide JoinWith, Lacks;
    }
  }

  ghost predicate NewlineFree(t: Target) { forall l :: l in Lines(t) ==> Lacks(l, '\n') }

  /** Newline-free targets share a key exactly when they have the same lines. */
  lemma SameKeySameLines(a: Target, b: Target)
    requires NewlineFree(a) && NewlineFree(b)
    ensures TargetKey(a) == TargetKey(b) <==> Lines(a) == Lines(b)
  {
    hide SplitOn, JoinWith, Lines;
    SplitJoin('\n', Lines(a));
    SplitJoin('\n', Lines(b));
  }

  predicate NoNewlines(t: Target) {
    Lacks(t.serverUrl, '\n') && Lacks(t.email, '\n') && Lacks(t.password, '\n')
  }

  lemma PlainIsUnique(t: Target, u: Target)
    requires t.headers == [] && NoNewlines(t) && TargetKey(u) == TargetKey(t)
    ensures u == t
  {
    ThreeLines(t);
    hide JoinWith, Lines;
    CountSeparators('\n', Lines(t));
    CountSeparators('\n', Lines(u));
    assert u.headers == [];
    SameKeySameLines(t, u);
    ThreeLines(u);
  }

  lemma ThreeLines(t: Target)
    requires t.headers == []
    ensures Lines(t) == [t.serverUrl, t.email, t.password] && (NewlineFree(t) <==> NoNewlines(t))
  {
    assert Lines(t)[0] == t.serverUrl && Lines(t)[1] == t.email && Lines(t)[2] == t.password;
  }

  /** A newline in one of the three texts moves the borders between them. */
  lemma Regrouped(t: Target) returns (u: Target)
    requires t.headers == [] && !NoNewlines(t)
    ensures u != t && TargetKey(u) == TargetKey(t)
  {
    var url, email, password := t.serverUrl, t.email, t.password;
    PlainKey(url, email, password);
    if !Lacks(url, '\n') {
      var a, b := AtNewline(url);
      u := Target(a, b, email + ("\n" + password), []);
      PlainKey(a, b, u.password);
      Assoc("\n", email, "\n" + password);
      Assoc(a + ("\n" + b), "\n" + email, "\n" + password);
    } else if !Lacks(email, '\n') {
      var a, b := AtNewline(email);
      u := Target(url + ("\n" + a), b, password, []);
      PlainKey(u.serverUrl, b, password);
      Assoc("\n", a, "\n" + b);
      Assoc(url, "\n" + a, "\n" + b);
    } else {
      var a, b := AtNewline(password);
      u := Target(url + ("\n" + email), a, b, []);
      PlainKey(u.serverUrl, a, b);
      Assoc("\n", a, "\n" + b);
      Assoc(url + ("\n" + email), "\n" + a, "\n" + b);
    }
  }

  lemma AtNewline(s: string) returns (a: string, b: string)
    requires !Lacks(s, '\n')
    ensures s == a + ("\n" + b) && |a| < |s| && |b| < |s|
  {
    var i :| 0 <= i < |s| && s[i] == '\n';
    a, b := s[..i], s[i + 1..];
  }

  /** A target's key is its own exactly when it has no headers and no newline: every other
      target shares its key, and so its session, with some different target. */
  lemma KeyIsOwnExactly(t: Target)
    ensures (forall u :: TargetKey(u) == TargetKey(t) ==> u == t) <==> t.headers == [] && NoNewlines(t)
  {
    hide TargetKey, NoNewlines;
    if t.headers == [] && NoNewlines(t) {
      forall u | TargetKey(u) == TargetKey(t) ensures u == t { PlainIsUnique(t, u); }
    } else if t.headers == [] {
      var u := Regrouped(t);
    } else {
      var u := Target(t.serverUrl, t.email, Rest(t), []);
      KeyIsRest(t);
      KeyIsRest(u);
      assert u != t && TargetKey(u) == TargetKey(t);
    }
  }

  // ---- among targets without newlines ----

  /** Colon and space, as they end a header name. */
  predicate HasColonSpace(s: string) {
    exists i :: 0 <= i < |s| - 1 && s[i] == ':' && s[i + 1] == ' '
  }

  /** The first name, a colon and a space start the second name, and the rest of the second
      line is the first value. */
  predicate Extends(h: (string, string), g: (string, string)) {
    h.0 + ": " <= g.0 && h.1 == g.0[|h.0| + 2..] + (": " + g.1)
  }

  lemma LineAt(h: (string, string))
    ensures HeaderLine(h) == h.0 + (": " + h.1)
  {
    assert ":" + (" " + h.1) == ": " + h.1;
  }

  lemma LongerName(h: (string, string), g: (string, string))
    requires HeaderLine(h) == HeaderLine(g) && |h.0| < |g.0|
    ensures Extends(h, g)
  {
    LineAt(h);
    LineAt(g);
    var line, n := HeaderLine(h), |h.0|;
    assert line[..n] == h.0 && line[n..n + 2] == ": " && line[n + 2..] == h.1;
    assert line[..|g.0|] == g.0;
    assert line[|g.0|] == ':' && line[n + 1] == ' ';
    assert g.0[..n + 2] == line[..n + 2] == h.0 + ": ";
    assert line[n + 2..] == g.0[n + 2..] + (": " + g.1);
  }

  lemma ExtendsSharesLine(h: (string, string), g: (string, string))
    requires Extends(h, g)
    ensures HeaderLine(h) == HeaderLine(g)
  {
    LineAt(h);
    LineAt(g);
    var rest := g.0[|h.0| + 2..];
    assert g.0 == h.0 + ": " + rest;
    Assoc(h.0, ": ", rest + (": " + g.1));
    Assoc(h.0 + ": ", rest, ": " + g.1);
  }

  /** Two headers print one line exactly when they are equal or one name starts with the
      other followed by a colon and a space, and the values make up for it. */
  lemma SameLineExactly(h: (string, string), g: (string, string))
    ensures HeaderLine(h) == HeaderLine(g) <==> h == g || Extends(h, g) || Extends(g, h)
  {
    if HeaderLine(h) == HeaderLine(g) {
      if |h.0| < |g.0| {
        LongerName(h, g);
      } else if |g.0| < |h.0| {
        LongerName(g, h);
      } else {
        assert HeaderLine(h)[..|h.0|] == h.0 && HeaderLine(g)[..|g.0|] == g.0;
        assert HeaderLine(h)[|h.0| + 2..] == h.1 && HeaderLine(g)[|g.0| + 2..] == g.1;
      }
    } else {
      if Extends(h, g) { ExtendsSharesLine(h, g); }
      if Extends(g, h) { ExtendsSharesLine(g, h); }
    }
  }

  /** Newline-free targets share a key exactly when they agree on the three texts and, header
      by header, on the printed line. */
  lemma SameKeyExactly(a: Target, b: Target)
    requires NewlineFree(a) && NewlineFree(b)
    ensures TargetKey(a) == TargetKey(b) <==>
      && a.serverUrl == b.serverUrl && a.email == b.email && a.password == b.password
      && |a.headers| == |b.headers|
      && forall i :: 0 <= i < |a.headers| ==>
           var h, g := a.headers[i], b.headers[i]; h == g || Extends(h, g) || Extends(g, h)
  {
    SameKeySameLines(a, b);
    LinesAgree(a, b);
    hide TargetKey, HeaderLine, Extends, Lines, NewlineFree;
    forall i | 0 <= i < |a.headers| && |a.headers| == |b.headers|
      ensures HeaderLine(a.headers[i]) == HeaderLine(b.headers[i]) <==>
        var h, g := a.headers[i], b.headers[i]; h == g || Extends(h, g) || Extends(g, h)
    {
      SameLineExactly(a.headers[i], b.headers[i]);
    }
  }

  lemma LinesAgree(a: Target, b: Target)
    ensures Lines(a) == Lines(b) <==>
      && a.serverUrl == b.serverUrl && a.email == b.email && a.password == b.password
      && |a.headers| == |b.headers|
      && forall i :: 0 <= i < |a.headers| ==> HeaderLine(a.headers[i]) == HeaderLine(b.headers[i])
  {
    hide HeaderLine;
    var la, lb := Lines(a), Lines(b);
    assert la[0] == a.serverUrl && la[1] == a.email && la[2] == a.password;
    assert lb[0] == b.serverUrl && lb[1] == b.email && lb[2] == b.password;
    if la == lb {
      forall i | 0 <= i < |a.headers| ensures HeaderLine(a.headers[i]) == HeaderLine(b.headers[i]) {
        assert la[i + 3] == lb[i + 3];
      }
    }
  }

  /** What makes the key a target's own among its like: no newline in any part, no colon and
      space in a header name. */
  ghost predicate Clean(t: Target) {
    NewlineFree(t) && forall h :: h in t.headers ==> !HasColonSpace(h.0)
  }

  lemma ExtendedNameHasColonSpace(h: (string, string), g: (string, string))
    requires Extends(h, g)
    ensures HasColonSpace(g.0)
  {
    var n := |h.0|;
    assert (h.0 + ": ")[n] == ':' && (h.0 + ": ")[n + 1] == ' ';
    assert g.0[n] == ':' && g.0[n + 1] == ' ';
  }

  /** Clean targets share a key only when they are the same target. */
  lemma TargetKeyInjective(a: Target, b: Target)
    requires Clean(a) && Clean(b) && TargetKey(a) == TargetKey(b)
    ensures a == b
  {
    SameKeyExactly(a, b);
    hide TargetKey, NewlineFree, Extends, HasColonSpace;
    forall i | 0 <= i < |a.headers| ensures a.headers[i] == b.headers[i] {
      var h, g := a.headers[i], b.headers[i];
      assert h in a.headers && g in b.headers;
      if Extends(h, g) { ExtendedNameHasColonSpace(h, g); }
      if Extends(g, h) { ExtendedNameHasColonSpace(g, h); }
    }
  }

  /** A header line that can be cut at another colon and space is another header's too. */
  lemma OtherCut(h: (string, string)) returns (g: (string, string))
    requires HasColonSpace(h.0) || HasColonSpace(h.1)
    ensures g != h && HeaderLine(g) == HeaderLine(h)
  {
    if HasColonSpace(h.0) {
      var i :| 0 <= i < |h.0| - 1 && h.0[i] == ':' && h.0[i + 1] == ' ';
      g := (h.0[..i], h.0[i + 2..] + (": " + h.1));
      assert h.0[..i + 2] == h.0[..i] + ": ";
      ExtendsSharesLine(g, h);
    } else {
      var i :| 0 <= i < |h.1| - 1 && h.1[i] == ':' && h.1[i + 1] == ' ';
      g := (h.0 + ": " + h.1[..i], h.1[i + 2..]);
      assert g.0[|h.0| + 2..] == h.1[..i] && h.1 == h.1[..i] + (": " + h.1[i + 2..]);
      ExtendsSharesLine(h, g);
    }
  }

  lemma ExtendedValueHasColonSpace(h: (string, string), g: (string, string))
    requires Extends(h, g)
    ensures HasColonSpace(h.1)
  {
    var n := |g.0| - |h.0| - 2;
    assert h.1[n] == (": " + g.1)[0] && h.1[n + 1] == (": " + g.1)[1];
  }

  /** Among targets without newlines, a target's key is its own exactly when none of its
      header names and values holds a colon and a space. */
  lemma OwnAmongLikeExactly(t: Target)
    requires NewlineFree(t)
    ensures (forall u :: NewlineFree(u) && TargetKey(u) == TargetKey(t) ==> u == t)
        <==> forall h :: h in t.headers ==> !HasColonSpace(h.0) && !HasColonSpace(h.1)
  {
    hide TargetKey, HasColonSpace, Extends, HeaderLine;
    if i :| 0 <= i < |t.headers| && (HasColonSpace(t.headers[i].0) || HasColonSpace(t.headers[i].1)) {
      var g := OtherCut(t.headers[i]);
      var u := t.(headers := t.headers[i := g]);
      assert u.headers[i] == g && t.headers[i] in t.headers;
      assert Lines(u) == Lines(t);
      SameKeySameLines(u, t);
    } else {
      forall u | NewlineFree(u) && TargetKey(u) == TargetKey(t) ensures u == t {
        SameKeyExactly(u, t);
        hide NewlineFree;
        forall i | 0 <= i < |t.headers| ensures u.headers[i] == t.headers[i] {
          var g, h := u.headers[i], t.headers[i];
          if Extends(g, h) { ExtendedNameHasColonSpace(g, h); }
          if Extends(h, g) { ExtendedValueHasColonSpace(h, g); }
        }
      }
    }
  }

  /** A newline in a password makes two different targets share a key, and so a session. */
  lemma NewlineCollides()
    ensures var a := Target("u", "e", "p\nn: v", []); var b := Target("u", "e", "p", [("n", "v")]);
      a != b && TargetKey(a) == TargetKey(b)
  {
    var b := Target("u", "e", "p", [("n", "v")]);
    KeyIsRest(b);
    PlainKey("u", "e", "p\nn: v");
    assert b.headers[..0] == [] && HeaderLine(("n", "v")) == "n: v";
    assert Rest(b) == "p" + ("\n" + "n: v");
  }
}
