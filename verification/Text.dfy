/** Decimal numbers as text, and small facts about text, shared by the printers. */
module Text {

  predicate Lacks(s: string, c: char) { c !in s }

  lemma Assoc(a: string, b: string, c: string)
    ensures a + (b + c) == a + b + c
  {
  }

  lemma Assoc4(a: string, b: string, c: string, d: string)
    ensures a + (b + c + d) == a + b + c + d
    ensures a + b + (c + d) == a + b + c + d
  {
  }

  // ---- case ----

  function Lower(c: char): char {
    if 'A' <= c <= 'Z' then (c as int + 32) as char else c
  }

  // ---- finding a character ----

  /** Offset of the first c, or the length of s. */
  function Find(s: string, c: char): (i: nat)
    ensures i <= |s| && (i < |s| ==> s[i] == c)
    ensures c !in s[..i]
  {
    if s == "" || s[0] == c then 0
    else
      var i := Find(s[1..], c);
      assert s[..i + 1] == [s[0]] + s[1..][..i];
      i + 1
  }

  lemma FindAt(a: string, c: char, b: string)
    requires c !in a
    ensures Find(a + [c] + b, c) == |a|
  {
    var s := a + [c] + b;
    var i := Find(s, c);
    assert s[|a|] == c;
    assert forall k :: 0 <= k < |a| ==> s[k] == a[k] && a[k] in a;
    assert forall k :: 0 <= k < i ==> s[..i][k] == s[k];
  }

  lemma FindNone(s: string, c: char)
    requires c !in s
    ensures Find(s, c) == |s|
  {
    assert forall k :: 0 <= k < |s| ==> s[k] in s;
  }

  // ---- joining and splitting ----

  function JoinWith(separator: char, parts: seq<string>): string
    requires parts != []
  {
    if |parts| == 1 then parts[0]
    else JoinWith(separator, parts[..|parts| - 1]) + ([separator] + parts[|parts| - 1])
  }

  function SplitOn(separator: char, s: string): seq<string> {
    var i := Find(s, separator);
    if i == |s| then [s] else [s[..i]] + SplitOn(separator, s[i + 1..])
  }

  lemma {:induction false} SplitAppend(separator: char, s: string, part: string)
    requires Lacks(part, separator)
    ensures SplitOn(separator, s + ([separator] + part)) == SplitOn(separator, s) + [part]
    decreases |s|
  {
    var i := Find(s, separator);
    var all := s + ([separator] + part);
    if i == |s| {
      FindAt(s, separator, part);
      assert all == s + [separator] + part && all[..i] == s && all[i + 1..] == part;
      FindNone(part, separator);
    } else {
      assert all == s[..i] + [separator] + (s[i + 1..] + ([separator] + part));
      FindAt(s[..i], separator, s[i + 1..] + ([separator] + part));
      assert all[..i] == s[..i] && all[i + 1..] == s[i + 1..] + ([separator] + part);
      SplitAppend(separator, s[i + 1..], part);
    }
  }

  /** Splitting undoes joining when no part holds the separator. */
  lemma {:induction false} SplitJoin(separator: char, parts: seq<string>)
    requires parts != [] && forall p :: p in parts ==> Lacks(p, separator)
    ensures SplitOn(separator, JoinWith(separator, parts)) == parts
  {
    var last := parts[|parts| - 1];
    assert last in parts;
    if |parts| == 1 {
      FindNone(last, separator);
    } else {
      assert JoinWith(separator, parts) == JoinWith(separator, parts[..|parts| - 1]) + ([separator] + last);
      assert parts == parts[..|parts| - 1] + [last];
      hide SplitOn, Find, JoinWith, Lacks;
      SplitJoin(separator, parts[..|parts| - 1]);
      SplitAppend(separator, JoinWith(separator, parts[..|parts| - 1]), last);
    }
  }

  // ---- decimal ----

  function Digit(d: nat): char
    requires d < 10
  {
    "0123456789"[d]
  }

  /** std::to_string of a non-negative number. */
  function NatToString(n: nat): (s: string)
    ensures s != "" && forall c :: c in s ==> '0' <= c <= '9'
    ensures s[0] == '0' ==> n == 0 && s == "0"
  {
    if n < 10 then [Digit(n)] else NatToString(n / 10) + [Digit(n % 10)]
  }

  function IntToString(n: int): (s: string)
    ensures s != "" && forall c :: c in s ==> '0' <= c <= '9' || c == '-'
  {
    if n < 0 then "-" + NatToString(-n) else NatToString(n)
  }

  predicate IsDigit(c: char) { '0' <= c <= '9' }

  predicate AllDigits(s: string) { forall c :: c in s ==> IsDigit(c) }

  /** The value of a string of digits. */
  function DigitsValue(s: string): nat
    requires AllDigits(s)
  {
    if s == "" then 0
    else
      assert IsDigit(s[|s| - 1]) by { assert s[|s| - 1] in s; }
      DigitsValue(s[..|s| - 1]) * 10 + (s[|s| - 1] as int - '0' as int)
  }

  /** Reading the printed digits gives the number back. */
  lemma {:induction false} NatRoundTrip(n: nat)
    ensures AllDigits(NatToString(n)) && DigitsValue(NatToString(n)) == n
  {
    var s := NatToString(n);
    if n < 10 {
      assert s[..|s| - 1] == "";
    } else {
      NatRoundTrip(n / 10);
      assert s[..|s| - 1] == NatToString(n / 10);
    }
  }

  /** Text padded on the left with zeros to a width, as std::setw with fill '0'. */
  function Padded(width: nat, s: string): (r: string)
    ensures |r| >= width && |r| >= |s| && r[|r| - |s|..] == s
    ensures forall c :: c in r ==> c == '0' || c in s
    decreases width - |s|
  {
    if |s| >= width then s else Padded(width, "0" + s)
  }
}
