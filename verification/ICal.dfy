/** Text escaping (section 3.3.11 of RFC 5545) and line folding (section 3.1 of RFC 5545)
    that keeps UTF-8 characters whole (RFC 3629). Characters stand for octets. */
module ICal {
  import opened Text

  // ---- escaping ----

  function EscapeChar(c: char): string {
    if c == '\\' then "\\\\"
    else if c == ',' then "\\,"
    else if c == ';' then "\\;"
    else if c == '\n' then "\\n"
    else if c == '\r' then ""
    else [c]
  }

  function Escape(text: string): string {
    if text == "" then "" else Escape(text[..|text| - 1]) + EscapeChar(text[|text| - 1])
  }

  method EscapeICalText(text: string) returns (result: string)
    ensures result == Escape(text)
  {
    result := "";
    for i := 0 to |text|
      invariant result == Escape(text[..i])
    {
      assert text[..i + 1][..i] == text[..i];
      var c := text[i];
      match c
      case '\\' => result := result + "\\\\";
      case ',' => result := result + "\\,";
      case ';' => result := result + "\\;";
      case '\n' => result := result + "\\n";
      case '\r' =>
      case _ => result := result + [c];
    }
    assert text[..|text|] == text;
  }

  /** What a reader of section 3.3.11 makes of an escaped value. */
  datatype Unescaped = Malformed | Plain(text: string)

  function Unescape(s: string): Unescaped {
    if s == "" then Plain("")
    else if s[0] != '\\' then Prefix([s[0]], Unescape(s[1..]))
    else if |s| < 2 then Malformed
    else if s[1] == 'n' || s[1] == 'N' then Prefix("\n", Unescape(s[2..]))
    else if s[1] in "\\,;" then Prefix([s[1]], Unescape(s[2..]))
    else Malformed
  }

  function Prefix(p: string, u: Unescaped): Unescaped {
    if u.Malformed? then Malformed else Plain(p + u.text)
  }

  function DropCr(s: string): string {
    if s == "" then "" else (if s[0] == '\r' then "" else [s[0]]) + DropCr(s[1..])
  }

  lemma {:induction false} EscapeFront(c: char, rest: string)
    ensures Escape([c] + rest) == EscapeChar(c) + Escape(rest)
  {
    hide EscapeChar;
    var s := [c] + rest;
    if rest == "" {
      assert s[..0] == "";
    } else {
      var front, last := rest[..|rest| - 1], rest[|rest| - 1];
      assert s[..|s| - 1] == [c] + front;
      EscapeFront(c, front);
      assert (EscapeChar(c) + Escape(front)) + EscapeChar(last) == EscapeChar(c) + (Escape(front) + EscapeChar(last));
    }
  }

  lemma EscapeCharClean(c: char)
    ensures '\r' !in EscapeChar(c) && '\n' !in EscapeChar(c)
  {
  }

  lemma UnescapeFront(c: char, tail: string)
    ensures Unescape(EscapeChar(c) + tail)
         == if c == '\r' then Unescape(tail) else Prefix([c], Unescape(tail))
  {
    var e := EscapeChar(c);
    assert (e + tail)[|e|..] == tail;
  }

  /** Escaped text is one line, and unescaping it gives the original without its CRs. */
  lemma {:induction false} EscapeRoundTrip(text: string)
    ensures Unescape(Escape(text)) == Plain(DropCr(text))
    ensures Lacks(Escape(text), '\r') && Lacks(Escape(text), '\n')
  {
    if text != "" {
      hide Escape, Unescape, EscapeChar;
      EscapeCharClean(text[0]);
      var c, rest := text[0], text[1..];
      assert text == [c] + rest;
      EscapeFront(c, rest);
      EscapeRoundTrip(rest);
      UnescapeFront(c, Escape(rest));
    }
  }

  // ---- folding one line ----

  const MAX_OCTETS: nat := 75

  /** The test (octet & 0xC0) == 0x80. */
  predicate IsContinuation(c: char) { 0x80 <= c as int < 0xC0 }

  /** The back-off loop: from a split after `take` octets to the nearest character start. */
  function BackOff(line: string, pos: nat, take: nat): (b: nat)
    requires pos + take < |line|
    ensures b <= take
    ensures b > 0 ==> !IsContinuation(line[pos + b])
    ensures forall j :: pos + b < j <= pos + take ==> IsContinuation(line[j])
  {
    if take > 0 && IsContinuation(line[pos + take]) then BackOff(line, pos, take - 1) else take
  }

  function Budget(first: bool): nat { if first then MAX_OCTETS else MAX_OCTETS - 1 }

  /** How many octets the segment at pos takes. */
  function Take(line: string, pos: nat, first: bool): (take: nat)
    requires pos < |line|
    ensures 1 <= take <= Budget(first) && pos + take <= |line|
  {
    var remaining := |line| - pos;
    var most := if Budget(first) < remaining then Budget(first) else remaining;
    if most < remaining then
      var b := BackOff(line, pos, most);
      if b == 0 then most else b
    else most
  }

  function Segments(line: string, pos: nat, first: bool): seq<string>
    requires pos <= |line|
    decreases |line| - pos
  {
    if pos == |line| then []
    else
      var take := Take(line, pos, first);
      [line[pos..pos + take]] + Segments(line, pos + take, false)
  }

  /** The segments of a folded line: the line itself when it is short enough. */
  function FoldSegments(line: string): seq<string> {
    if |line| <= MAX_OCTETS then [line] else Segments(line, 0, true)
  }

  /** What starts a continuation line: a line break and one space. */
  function Continuation(): string { "\r\n " }

  /** Segments joined by a line break and one space. */
  function Join(segments: seq<string>): string {
    if segments == [] then ""
    else if |segments| == 1 then segments[0]
    else segments[0] + Continuation() + Join(segments[1..])
  }

  function Concat(segments: seq<string>): string {
    if segments == [] then "" else segments[0] + Concat(segments[1..])
  }

  function Fold(line: string): string { Join(FoldSegments(line)) }

  /** What the fold loop still has to append from pos on. */
  function Rest(line: string, pos: nat, first: bool): string
    requires pos <= |line|
    decreases |line| - pos
  {
    if pos == |line| then ""
    else
      var take := Take(line, pos, first);
      (if first then line[pos..pos + take] else Continuation() + line[pos..pos + take])
      + Rest(line, pos + take, false)
  }

  lemma {:induction false} RestJoins(line: string, pos: nat, first: bool)
    requires pos < |line|
    ensures Rest(line, pos, first)
         == if first then Join(Segments(line, pos, first)) else Continuation() + Join(Segments(line, pos, first))
    decreases |line| - pos
  {
    hide Take, Continuation;
    var take := Take(line, pos, first);
    var here := line[pos..pos + take];
    var later := Segments(line, pos + take, false);
    if pos + take < |line| {
      RestJoins(line, pos + take, false);
      assert later != [];
      assert ([here] + later)[1..] == later;
      Assoc(here, Continuation(), Join(later));
      Assoc4(Continuation(), here, Continuation(), Join(later));
    } else {
      assert Segments(line, pos, first) == [here];
    }
  }

  /** One pass of the fold loop up to the split: the budget and the back-off. */
  method ChooseTake(line: string, pos: nat, firstSegment: bool) returns (take: nat)
    requires pos < |line|
    ensures take == Take(line, pos, firstSegment)
  {
    var budget := if firstSegment then MAX_OCTETS else MAX_OCTETS - 1;
    var remaining := |line| - pos;
    var most := if budget < remaining then budget else remaining;
    take := most;
    if take < remaining {
      while take > 0 && IsContinuation(line[pos + take])
        invariant 0 <= take <= most && BackOff(line, pos, take) == BackOff(line, pos, most)
      {
        take := take - 1;
      }
      if take == 0 {
        take := most;
      }
    }
  }

  /** The fold loop. */
  method FoldLong(line: string) returns (result: string)
    ensures result == Rest(line, 0, true)
  {
    hide Take, Rest, Continuation;
    result := "";
    var pos := 0;
    var firstSegment := true;
    assert result + Rest(line, 0, true) == Rest(line, 0, true);
    while pos < |line|
      invariant pos <= |line|
      invariant result + Rest(line, pos, firstSegment) == Rest(line, 0, true)
    {
      var take := ChooseTake(line, pos, firstSegment);
      RestStep(result, line, pos, firstSegment);
      if !firstSegment {
        result := result + Continuation();
      }
      result := result + line[pos..pos + take];
      pos := pos + take;
      firstSegment := false;
    }
    RestEnd(result, line, firstSegment);
  }

  method FoldLine(line: string) returns (result: string)
    ensures result == Fold(line)
  {
    if |line| <= MAX_OCTETS {
      result := line;
    } else {
      result := FoldLong(line);
      RestJoins(line, 0, true);
    }
  }

  lemma RestStep(done: string, line: string, pos: nat, first: bool)
    requires pos < |line|
    ensures var take := Take(line, pos, first); var piece := line[pos..pos + take];
      done + Rest(line, pos, first)
      == (if first then done + piece else done + Continuation() + piece) + Rest(line, pos + take, false)
  {
    hide Take, Continuation;
    var take := Take(line, pos, first);
    var piece := line[pos..pos + take];
    var later := Rest(line, pos + take, false);
    if first { Assoc(done, piece, later); } else { Assoc4(done, Continuation(), piece, later); }
  }

  lemma RestEnd(done: string, line: string, first: bool)
    ensures done + Rest(line, |line|, first) == done
  {
  }

  /** Every physical line fits: 75 octets for the first segment, 74 after the space. */
  ghost predicate FitsLimit(segments: seq<string>) {
    forall i :: 0 <= i < |segments| ==> |segments[i]| <= Budget(i == 0)
  }

  lemma {:induction false} SegmentsConcat(line: string, pos: nat, first: bool)
    requires pos <= |line|
    ensures Concat(Segments(line, pos, first)) == line[pos..]
    decreases |line| - pos
  {
    hide Take;
    if pos < |line| {
      var take := Take(line, pos, first);
      var later := Segments(line, pos + take, false);
      SegmentsConcat(line, pos + take, false);
      assert ([line[pos..pos + take]] + later)[1..] == later;
      assert line[pos..pos + take] + line[pos + take..] == line[pos..];
    }
  }

  lemma {:induction false} SegmentsFit(line: string, pos: nat, first: bool)
    requires pos <= |line|
    ensures forall i :: 0 <= i < |Segments(line, pos, first)| ==>
              |Segments(line, pos, first)[i]| <= Budget(first && i == 0)
    decreases |line| - pos
  {
    hide Take;
    if pos < |line| {
      SegmentsFit(line, pos + Take(line, pos, first), false);
    }
  }

  /** Folding cuts the line into pieces that fit, and loses nothing. */
  lemma FoldSplits(line: string)
    ensures FoldSegments(line) != [] && Concat(FoldSegments(line)) == line
    ensures FitsLimit(FoldSegments(line))
  {
    hide Segments;
    SegmentsConcat(line, 0, true);
    SegmentsFit(line, 0, true);
    assert line[0..] == line;
    if |line| <= MAX_OCTETS {
      assert FoldSegments(line) == [line];
    }
  }

  // ---- UTF-8 ----

  predicate In(c: char, lo: int, hi: int) { lo <= c as int <= hi }

  /** Length of the well-formed character at the front of s (section 4 of RFC 3629), or 0. */
  function CharLength(s: string): (n: nat)
    ensures n <= 4 && n <= |s|
    ensures n > 0 ==> !IsContinuation(s[0])
    ensures forall k :: 1 <= k < n ==> IsContinuation(s[k])
  {
    if s == "" then 0
    else if In(s[0], 0, 0x7F) then 1
    else if In(s[0], 0xC2, 0xDF) then
      if |s| >= 2 && In(s[1], 0x80, 0xBF) then 2 else 0
    else if In(s[0], 0xE0, 0xEF) then
      var lo := if s[0] as int == 0xE0 then 0xA0 else 0x80;
      var hi := if s[0] as int == 0xED then 0x9F else 0xBF;
      if |s| >= 3 && In(s[1], lo, hi) && In(s[2], 0x80, 0xBF) then 3 else 0
    else if In(s[0], 0xF0, 0xF4) then
      var lo := if s[0] as int == 0xF0 then 0x90 else 0x80;
      var hi := if s[0] as int == 0xF4 then 0x8F else 0xBF;
      if |s| >= 4 && In(s[1], lo, hi) && In(s[2], 0x80, 0xBF) && In(s[3], 0x80, 0xBF) then 4 else 0
    else 0
  }

  predicate Utf8(s: string)
    decreases |s|
  {
    s == "" || (CharLength(s) > 0 && Utf8(s[CharLength(s)..]))
  }

  /** The length of the first character depends on that character's octets only. */
  lemma CharLengthLocal(s: string, k: nat)
    requires 0 < CharLength(s) <= k <= |s|
    ensures CharLength(s[..k]) == CharLength(s)
  {
  }

  /** Well-formed text may be cut wherever a character starts. */
  lemma {:induction false} Utf8Cut(s: string, k: nat)
    requires Utf8(s) && k <= |s| && (k < |s| ==> !IsContinuation(s[k]))
    ensures Utf8(s[..k]) && Utf8(s[k..])
    decreases |s|
  {
    var n := CharLength(s);
    if k > 0 && s != "" {
      assert k >= n;
      CharLengthLocal(s, k);
      hide CharLength;
      Utf8Cut(s[n..], k - n);
      assert s[n..][k - n..] == s[k..];
      assert s[..k][n..] == s[n..][..k - n];
    } else {
      assert s[..k] == "" && s[k..] == s;
    }
  }

  /** A character starts within any four neighbouring octets of well-formed text. */
  lemma {:induction false} StartWithinFour(s: string, k: nat)
    requires Utf8(s) && 3 <= k < |s|
    ensures !(IsContinuation(s[k]) && IsContinuation(s[k - 1])
              && IsContinuation(s[k - 2]) && IsContinuation(s[k - 3]))
    decreases |s|
  {
    var n := CharLength(s);
    if k >= n + 3 {
      StartWithinFour(s[n..], k - n);
    } else if n <= k {
      assert CharLength(s[n..]) > 0;
      assert s[n..][0] == s[n];
    }
  }

  /** On well-formed text the back-off always finds a character start, so the fallback
      that would split a character is never taken. */
  lemma BackOffFinds(line: string, pos: nat, take: nat)
    requires pos + take < |line| && Utf8(line[pos..]) && take >= 4
    ensures BackOff(line, pos, take) >= take - 3
  {
    StartWithinFour(line[pos..], take);
    var s := line[pos..];
    assert s[take] == line[pos + take] && s[take - 1] == line[pos + take - 1]
      && s[take - 2] == line[pos + take - 2] && s[take - 3] == line[pos + take - 3];
  }

  lemma TakeEndsCharacter(line: string, pos: nat, first: bool)
    requires pos < |line| && Utf8(line[pos..])
    ensures pos + Take(line, pos, first) < |line| ==> !IsContinuation(line[pos + Take(line, pos, first)])
  {
    hide Utf8;
    if Budget(first) < |line| - pos {
      BackOffFinds(line, pos, Budget(first));
    }
  }

  ghost predicate AllUtf8(pieces: seq<string>) {
    forall i :: 0 <= i < |pieces| ==> Utf8(pieces[i])
  }

  lemma {:induction false} SegmentsUtf8(line: string, pos: nat, first: bool)
    requires pos <= |line| && Utf8(line[pos..])
    ensures AllUtf8(Segments(line, pos, first))
    decreases |line| - pos
  {
    hide Take, Utf8;
    if pos < |line| {
      hide AllUtf8;
      var take := Take(line, pos, first);
      var s := line[pos..];
      TakeEndsCharacter(line, pos, first);
      Utf8Cut(s, take);
      assert s[take..] == line[pos + take..];
      assert s[..take] == line[pos..pos + take];
      SegmentsUtf8(line, pos + take, false);
    }
  }

  /** Folding never splits a character. */
  lemma FoldKeepsCharacters(line: string)
    requires Utf8(line)
    ensures AllUtf8(FoldSegments(line))
  {
    assert line[0..] == line;
    SegmentsUtf8(line, 0, true);
  }
}
