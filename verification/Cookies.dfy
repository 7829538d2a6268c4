/** The scheduler's cookie jar and the server's CSRF guard: what the client harvests from
    Set-Cookie and prints as a Cookie header, the guard parses back. */
module Cookies {
  import opened Text

  type Jar = map<string, string>

  // ---- trimming and searching ----

  predicate ClientSpace(c: char) { c == ' ' || 9 <= c as int <= 13 }

  predicate ServerSpace(c: char) { c == ' ' || c == '\t' }

  /** s without the characters that satisfy `space` at either end. */
  function Trim(space: char -> bool, s: string): (r: string)
    ensures Tight(space, r)
    ensures forall c :: c in r ==> c in s
  {
    if s == "" then ""
    else if space(s[0]) then Trim(space, s[1..])
    else if space(s[|s| - 1]) then Trim(space, s[..|s| - 1])
    else s
  }

  predicate Tight(space: char -> bool, s: string) {
    s == "" || (!space(s[0]) && !space(s[|s| - 1]))
  }

  lemma TrimTight(space: char -> bool, s: string)
    requires Tight(space, s)
    ensures Trim(space, s) == s
  {
  }

  /** The client's trim: two loops that move the ends inward. */
  method ClientTrim(s: string) returns (r: string)
    ensures r == Trim(ClientSpace, s)
  {
    var start := 0;
    while start < |s| && ClientSpace(s[start])
      invariant start <= |s| && Trim(ClientSpace, s[start..]) == Trim(ClientSpace, s)
    {
      assert s[start..][1..] == s[start + 1..];
      start := start + 1;
    }
    var end := |s|;
    assert s[start..end] == s[start..];
    while end > start && ClientSpace(s[end - 1])
      invariant start <= end <= |s|
      invariant Trim(ClientSpace, s[start..end]) == Trim(ClientSpace, s)
      invariant start < |s| ==> !ClientSpace(s[start])
    {
      assert s[start..end][..end - start - 1] == s[start..end - 1];
      end := end - 1;
    }
    return s[start..end];
  }

  /** The guard's trim: a view that loses characters at both ends. */
  method ServerTrim(view: string) returns (s: string)
    ensures s == Trim(ServerSpace, view)
  {
    s := view;
    while s != "" && ServerSpace(s[0])
      invariant Trim(ServerSpace, s) == Trim(ServerSpace, view)
      decreases |s|
    {
      s := s[1..];
    }
    while s != "" && ServerSpace(s[|s| - 1])
      invariant Trim(ServerSpace, s) == Trim(ServerSpace, view)
      invariant s == "" || !ServerSpace(s[0])
      decreases |s|
    {
      s := s[..|s| - 1];
    }
  }

  // ---- the client's jar ----

  /** What is stored of the front of a text. */
  function StorePair(jar: Jar, nameValue: string): Jar {
    var eq := Find(nameValue, '=');
    if eq == |nameValue| || eq == 0 then jar
    else
      var name := Trim(ClientSpace, nameValue[..eq]);
      var value := Trim(ClientSpace, nameValue[eq + 1..]);
      if name == "" then jar else jar[name := value]
  }

  function StoreSetCookie(jar: Jar, setCookie: string): Jar {
    StorePair(jar, Trim(ClientSpace, setCookie[..Find(setCookie, ';')]))
  }

  function StoreAll(jar: Jar, setCookies: seq<string>): Jar {
    if setCookies == [] then jar
    else StoreSetCookie(StoreAll(jar, setCookies[..|setCookies| - 1]), setCookies[|setCookies| - 1])
  }

  predicate GoodName(name: string) {
    name != "" && Tight(ClientSpace, name) && Lacks(name, '=') && Lacks(name, ';')
  }

  predicate GoodValue(value: string) { Tight(ClientSpace, value) && Lacks(value, ';') }

  /** What every harvested jar looks like. */
  ghost predicate JarInv(jar: Jar) {
    forall name :: name in jar ==> GoodName(name) && GoodValue(jar[name])
  }

  lemma StoreKeeps(jar: Jar, setCookie: string)
    requires JarInv(jar)
    ensures JarInv(StoreSetCookie(jar, setCookie))
  {
    hide Trim;
    var head := setCookie[..Find(setCookie, ';')];
    var nameValue := Trim(ClientSpace, head);
    assert ';' !in nameValue;
    var eq := Find(nameValue, '=');
    assert '=' !in nameValue[..eq];
    assert forall c :: c in nameValue[..eq] ==> c in nameValue;
    if eq < |nameValue| {
      assert forall c :: c in nameValue[eq + 1..] ==> c in nameValue;
    }
  }

  lemma {:induction false} StoreAllKeeps(jar: Jar, setCookies: seq<string>)
    requires JarInv(jar)
    ensures JarInv(StoreAll(jar, setCookies))
  {
    if setCookies != [] {
      StoreAllKeeps(jar, setCookies[..|setCookies| - 1]);
      StoreKeeps(StoreAll(jar, setCookies[..|setCookies| - 1]), setCookies[|setCookies| - 1]);
    }
  }

  // ---- what a Set-Cookie text sets ----

  predicate Blank(s: string) { forall c :: c in s ==> ClientSpace(c) }

  /** A name and a value around an equals sign, white space around both, and then nothing
      or attributes behind a semicolon. */
  predicate Spelled(text: string, a: string, name: string, b: string, c: string, value: string, d: string, tail: string) {
    && text == a + name + b + "=" + (c + value + d) + tail
    && Blank(a) && Blank(b) && Blank(c) && Blank(d)
    && GoodName(name) && GoodValue(value) && (tail == "" || tail[0] == ';')
  }

  ghost predicate Sets(text: string, name: string, value: string) {
    exists a, b, c, d, tail :: Spelled(text, a, name, b, c, value, d, tail)
  }

  /** No equals sign before the first semicolon, or nothing but white space before it. */
  predicate SetsNothing(text: string) {
    var head := text[..Find(text, ';')];
    var eq := Find(head, '=');
    eq == |head| || Blank(head[..eq])
  }

  lemma {:induction false} TrimBlank(a: string, s: string, d: string)
    requires Blank(a) && Blank(d) && Tight(ClientSpace, s)
    ensures Trim(ClientSpace, a + s + d) == s
    decreases |a| + |d|
  {
    var all := a + s + d;
    if a != "" {
      assert a[0] in a && all[1..] == a[1..] + s + d;
      TrimBlank(a[1..], s, d);
    } else if d != "" {
      assert d[|d| - 1] in d && all[..|all| - 1] == a + s + d[..|d| - 1];
      assert s == "" ==> d[0] in d && all[1..] == s + "" + d[1..];
      if s == "" { TrimBlank("", "", d[1..]); } else { TrimBlank("", s, d[..|d| - 1]); }
    } else {
      assert all == s;
    }
  }

  lemma {:induction false} TrimSplits(s: string) returns (a: string, d: string)
    ensures s == a + Trim(ClientSpace, s) + d && Blank(a) && Blank(d)
    decreases |s|
  {
    if s == "" {
      a, d := "", "";
    } else if ClientSpace(s[0]) {
      a, d := TrimSplits(s[1..]);
      hide Trim;
      Wider([s[0]], a, Trim(ClientSpace, s), d, "");
      a := [s[0]] + a;
      assert s == [s[0]] + s[1..];
    } else if ClientSpace(s[|s| - 1]) {
      a, d := TrimSplits(s[..|s| - 1]);
      hide Trim;
      Wider("", a, Trim(ClientSpace, s), d, [s[|s| - 1]]);
      d := d + [s[|s| - 1]];
    } else {
      a, d := "", "";
    }
  }

  lemma Wider(x: string, a: string, s: string, d: string, y: string)
    ensures x + (a + s + d) + y == (x + a) + s + (d + y)
    ensures "" + a == a && d + "" == d && x + "" == x
    ensures (a + s + d) + y == a + s + (d + y) && x + (a + s + d) == (x + a) + s + d
  {
  }

  lemma HeadOf(front: string, tail: string)
    requires Lacks(front, ';') && (tail == "" || tail[0] == ';')
    ensures (front + tail)[..Find(front + tail, ';')] == front
  {
    if tail == "" {
      FindNone(front, ';');
      assert front + tail == front;
    } else {
      assert front + tail == front + [';'] + tail[1..];
      FindAt(front, ';', tail[1..]);
    }
  }

  /** The front of a spelled text without the white space at its ends. */
  lemma TrimFront(a: string, name: string, b: string, c: string, value: string, d: string) returns (r: string)
    requires Blank(a) && Blank(b) && Blank(c) && Blank(d) && GoodName(name) && GoodValue(value)
    ensures Trim(ClientSpace, a + name + b + "=" + (c + value + d)) == name + b + "=" + r
    ensures Trim(ClientSpace, r) == value
  {
    var front := a + name + b + "=" + (c + value + d);
    r := if value == "" then "" else c + value;
    var s, behind := name + b + "=" + r, if value == "" then c + d else d;
    assert s[0] == name[0] && s[|s| - 1] == if value == "" then '=' else value[|value| - 1];
    assert front == a + s + behind;
    hide Trim;
    TrimBlank(a, s, behind);
    TrimBlank(if value == "" then "" else c, value, "");
    assert r == (if value == "" then "" else c) + value + "";
  }

  /** A spelled text stores its value under its name. */
  lemma StoreSpelled(jar: Jar, text: string, name: string, value: string)
    requires Sets(text, name, value)
    ensures StoreSetCookie(jar, text) == jar[name := value]
  {
    var a, b, c, d, tail :| Spelled(text, a, name, b, c, value, d, tail);
    hide Trim, Find, StorePair;
    var front := a + name + b + "=" + (c + value + d);
    HeadOf(front, tail);
    var r := TrimFront(a, name, b, c, value, d);
    PairStores(jar, name, b, r);
  }

  lemma PairStores(jar: Jar, name: string, b: string, r: string)
    requires GoodName(name) && Blank(b)
    ensures StorePair(jar, name + b + "=" + r) == jar[name := Trim(ClientSpace, r)]
  {
    hide Trim, Find;
    var pair := name + b + "=" + r;
    assert pair == (name + b) + ['='] + r;
    FindAt(name + b, '=', r);
    assert pair[..|name + b|] == "" + name + b;
    assert pair[|name + b| + 1..] == r;
    TrimBlank("", name, b);
  }

  /** Every other text stores nothing. */
  lemma StoreNothing(jar: Jar, text: string)
    requires SetsNothing(text)
    ensures StoreSetCookie(jar, text) == jar
  {
    hide Trim, Find;
    var head := text[..Find(text, ';')];
    var eq := Find(head, '=');
    if eq == |head| {
      assert head[..eq] == head;
      assert forall c :: c in Trim(ClientSpace, head) ==> c in head;
    } else {
      var x := head[eq + 1..];
      var c, d := TrimSplits(x);
      var value := Trim(ClientSpace, x);
      var r := if value == "" then "" else c + value;
      assert head == head[..eq] + ("=" + r) + (if value == "" then c + d else d);
      assert value != "" ==> ("=" + r)[|r|] == value[|value| - 1];
      TrimBlank(head[..eq], "=" + r, if value == "" then c + d else d);
      assert "=" + r == "" + ['='] + r;
      FindAt("", '=', r);
    }
  }

  /** A text sets a cookie or nothing. */
  lemma SetsOrNothing(text: string)
    ensures SetsNothing(text) <==> forall name, value :: !Sets(text, name, value)
  {
    hide Trim, Find;
    if !SetsNothing(text) {
      var name, value := Spell(text);
    } else {
      forall name, value ensures !Sets(text, name, value) {
        var jar := map[name := value + "x"];
        assert jar[name := value][name] == value && |jar[name]| > |value|;
        StoreNothing(jar, text);
        if Sets(text, name, value) { StoreSpelled(jar, text, name, value); }
      }
    }
  }

  lemma Spell(text: string) returns (name: string, value: string)
    requires !SetsNothing(text)
    ensures Sets(text, name, value)
  {
    hide Trim, Find;
    var head, tail := text[..Find(text, ';')], text[Find(text, ';')..];
    var eq := Find(head, '=');
    var x, y := head[..eq], head[eq + 1..];
    var a, b := TrimSplits(x);
    var c, d := TrimSplits(y);
    name, value := Trim(ClientSpace, x), Trim(ClientSpace, y);
    assert name == "" ==> x == a + b;
    assert forall ch :: ch in x || ch in y ==> ch in head;
    assert head == x + "=" + y;
    assert text == head + tail;
    assert Spelled(text, a, name, b, c, value, d, tail);
  }

  // ---- over a whole response ----

  ghost predicate SetsName(text: string, name: string) { exists value :: Sets(text, name, value) }

  /** A text leaves the names that it does not set. */
  lemma OthersStay(jar: Jar, text: string, name: string)
    requires !SetsName(text, name)
    ensures name in StoreSetCookie(jar, text) <==> name in jar
    ensures name in jar ==> StoreSetCookie(jar, text)[name] == jar[name]
  {
    hide StoreSetCookie, Sets, SetsNothing;
    SetsOrNothing(text);
    if SetsNothing(text) {
      StoreNothing(jar, text);
    } else {
      var n, v :| Sets(text, n, v);
      StoreSpelled(jar, text, n, v);
    }
  }

  ghost predicate NoneSets(texts: seq<string>, from: nat, name: string) {
    forall j :: from <= j < |texts| ==> !SetsName(texts[j], name)
  }

  /** The last text that sets the name sets it to this value. */
  ghost predicate LastSets(texts: seq<string>, name: string, value: string) {
    exists i :: 0 <= i < |texts| && Sets(texts[i], name, value) && NoneSets(texts, i + 1, name)
  }

  /** The last occurrence of a name wins, and a name that is never set keeps its value. */
  lemma {:induction false} LastWins(jar: Jar, texts: seq<string>, name: string, value: string)
    ensures LastSets(texts, name, value) ==> name in StoreAll(jar, texts) && StoreAll(jar, texts)[name] == value
    ensures NoneSets(texts, 0, name) ==>
      (name in StoreAll(jar, texts) <==> name in jar) && (name in jar ==> StoreAll(jar, texts)[name] == jar[name])
  {
    hide StoreSetCookie, Sets, SetsName;
    if texts != [] {
      var n := |texts| - 1;
      var rest, text := texts[..n], texts[n];
      LastWins(jar, rest, name, value);
      if !SetsName(text, name) { OthersStay(StoreAll(jar, rest), text, name); }
      if i :| 0 <= i < |texts| && Sets(texts[i], name, value) && NoneSets(texts, i + 1, name) {
        if i == n {
          StoreSpelled(StoreAll(jar, rest), text, name, value);
        } else {
          assert !SetsName(texts[n], name) && rest[i] == texts[i];
        }
      }
      if NoneSets(texts, 0, name) { assert !SetsName(texts[n], name); }
    }
  }

  /** The Cookie header for the jar's names in a given order. */
  function Pair(jar: Jar, name: string): string
    requires name in jar
  {
    name + "=" + jar[name]
  }

  function Header(jar: Jar, order: seq<string>): string
    requires forall name :: name in order ==> name in jar
  {
    if order == [] then ""
    else if |order| == 1 then Pair(jar, order[0])
    else Pair(jar, order[0]) + ";" + (" " + Header(jar, order[1..]))
  }

  /** An order lists the jar's names, each once. */
  ghost predicate Lists(order: seq<string>, jar: Jar) {
    && (forall name :: name in order <==> name in jar)
    && (forall i, j :: 0 <= i < j < |order| ==> order[i] != order[j])
  }

  // ---- the server's parser ----

  function GetCookieValue(header: string, name: string): string
    decreases |header|
  {
    var semi := Find(header, ';');
    var pair := Trim(ServerSpace, header[..semi]);
    var eq := Find(pair, '=');
    if eq < |pair| && Trim(ServerSpace, pair[..eq]) == name then Trim(ServerSpace, pair[eq + 1..])
    else if semi == |header| then ""
    else GetCookieValue(header[semi + 1..], name)
  }

  lemma PairDecides(header: string, name: string)
    ensures var semi := Find(header, ';'); var pair := Trim(ServerSpace, header[..semi]); var eq := Find(pair, '=');
      GetCookieValue(header, name)
      == if eq < |pair| && Trim(ServerSpace, pair[..eq]) == name then Trim(ServerSpace, pair[eq + 1..])
         else if semi == |header| then ""
         else GetCookieValue(header[semi + 1..], name)
  {
    hide Trim, Find;
  }

  method ParseCookieHeader(header: string, name: string) returns (value: string)
    ensures value == GetCookieValue(header, name)
  {
    hide Trim, Find, GetCookieValue;
    var pos := 0;
    assert header[0..] == header;
    while pos <= |header|
      invariant pos <= |header|
      invariant GetCookieValue(header[pos..], name) == GetCookieValue(header, name)
      decreases |header| - pos
    {
      var semi := pos + Find(header[pos..], ';');
      assert header[pos..][..semi - pos] == header[pos..semi];
      PairDecides(header[pos..], name);
      var pair := ServerTrim(header[pos..semi]);
      var eq := Find(pair, '=');
      if eq < |pair| {
        var key := ServerTrim(pair[..eq]);
        if key == name {
          value := ServerTrim(pair[eq + 1..]);
          return;
        }
      }
      if semi == |header| { return ""; }
      assert header[pos..][semi - pos + 1..] == header[semi + 1..];
      pos := semi + 1;
    }
    value := "";
  }

  // ---- the two agree ----

  /** The first piece of a header, up to a semicolon or the end. */
  lemma FirstPiece(piece: string, rest: string, wanted: string)
    requires Lacks(piece, ';') && (rest == "" || rest[0] == ';')
    ensures var pair := Trim(ServerSpace, piece); var eq := Find(pair, '=');
      GetCookieValue(piece + rest, wanted)
      == if eq < |pair| && Trim(ServerSpace, pair[..eq]) == wanted then Trim(ServerSpace, pair[eq + 1..])
         else if rest == "" then "" else GetCookieValue(rest[1..], wanted)
  {
    hide Find, Trim, GetCookieValue;
    PieceEnds(piece, rest);
    PairDecides(piece + rest, wanted);
  }

  lemma PieceEnds(piece: string, rest: string)
    requires Lacks(piece, ';') && (rest == "" || rest[0] == ';')
    ensures var header := piece + rest;
      && Find(header, ';') == |piece| && header[..|piece|] == piece
      && (rest != "" ==> header[|piece| + 1..] == rest[1..])
  {
    hide Find;
    var header := piece + rest;
    if rest == "" {
      FindNone(piece, ';');
      assert header == piece;
    } else {
      FindAt(piece, ';', rest[1..]);
      assert header == piece + [';'] + rest[1..];
    }
  }

  /** One pair of the header, with or without the space that joins pairs, read by the server. */
  lemma ReadPair(jar: Jar, name: string, lead: string, rest: string, wanted: string)
    requires JarInv(jar) && name in jar && (lead == "" || lead == " ")
    requires rest == "" || rest[0] == ';'
    ensures GetCookieValue(lead + Pair(jar, name) + rest, wanted)
         == if wanted == name then jar[name] else if rest == "" then "" else GetCookieValue(rest[1..], wanted)
  {
    hide GetCookieValue, Find, Trim;
    var value := jar[name];
    var pair := Pair(jar, name);
    FirstPiece(lead + pair, rest, wanted);
    TrimPair(name, value, lead);
    FindAt(name, '=', value);
    assert pair == name + ['='] + value;
    assert pair[..|name|] == name && pair[|name| + 1..] == value;
    TrimTight(ServerSpace, name);
    TrimTight(ServerSpace, value);
  }

  lemma TrimPair(name: string, value: string, lead: string)
    requires GoodName(name) && GoodValue(value) && (lead == "" || lead == " ")
    ensures Trim(ServerSpace, lead + (name + "=" + value)) == name + "=" + value
  {
    var pair := name + "=" + value;
    assert Tight(ServerSpace, pair) by {
      assert pair[0] == name[0];
      if value != "" { assert pair[|pair| - 1] == value[|value| - 1]; } else { assert pair[|pair| - 1] == '='; }
    }
    TrimTight(ServerSpace, pair);
    if lead == " " {
      assert (lead + pair)[1..] == pair;
    } else {
      assert lead + pair == pair;
    }
  }

  lemma {:induction false} ReadHeader(jar: Jar, order: seq<string>, lead: string, wanted: string)
    requires JarInv(jar) && order != [] && (forall name :: name in order ==> name in jar)
    requires lead == "" || lead == " "
    ensures GetCookieValue(lead + Header(jar, order), wanted) == if wanted in order then jar[wanted] else ""
    decreases |order|
  {
    hide GetCookieValue;
    var name := order[0];
    if |order| == 1 {
      ReadPair(jar, name, lead, "", wanted);
      assert lead + Pair(jar, name) + "" == lead + Header(jar, order);
    } else {
      var later := order[1..];
      var rest := ";" + (" " + Header(jar, later));
      assert lead + Header(jar, order) == lead + Pair(jar, name) + rest;
      assert rest[1..] == " " + Header(jar, later);
      ReadPair(jar, name, lead, rest, wanted);
      ReadHeader(jar, later, " ", wanted);
      assert wanted in order <==> wanted == name || wanted in later;
    }
  }

  /** For every harvested jar, in whatever order its names are printed, the server reads
      exactly the stored value for each stored name and nothing for any other. */
  lemma HeaderRoundTrip(jar: Jar, order: seq<string>, wanted: string)
    requires JarInv(jar) && Lists(order, jar)
    ensures GetCookieValue(Header(jar, order), wanted) == if wanted in jar then jar[wanted] else ""
  {
    if order == [] {
      assert Header(jar, order) == "";
    } else {
      ReadHeader(jar, order, "", wanted);
      assert "" + Header(jar, order) == Header(jar, order);
    }
  }

  /** Over any sequence of Set-Cookie texts, starting from an empty jar: the server reads for
      each name the value that the last text with that name sets, and nothing for a name
      that no text sets. */
  lemma HarvestRoundTrip(setCookies: seq<string>, order: seq<string>, wanted: string, value: string)
    requires Lists(order, StoreAll(map[], setCookies))
    requires LastSets(setCookies, wanted, value) || (value == "" && NoneSets(setCookies, 0, wanted))
    ensures var jar := StoreAll(map[], setCookies);
      (forall name :: name in order ==> name in jar) && GetCookieValue(Header(jar, order), wanted) == value
  {
    hide StoreAll, LastSets, NoneSets, GetCookieValue;
    StoreAllKeeps(map[], setCookies);
    LastWins(map[], setCookies, wanted, value);
    HeaderRoundTrip(StoreAll(map[], setCookies), order, wanted);
  }
}
