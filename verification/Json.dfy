/** The JSON printer of `Json::Value` without doubles, and a reader written from the
    grammar of sections 2 to 7 of RFC 8259. Characters stand for octets. */
module Json {
  import opened Wrappers
  import opened Text

  datatype Value =
    | Null
    | Bool(b: bool)
    | Int(n: int)
    | Str(s: string)
    | Arr(items: seq<Value>)
    | Obj(members: seq<Member>)

  datatype Member = Member(key: string, value: Value)

  // ---- printing ----

  function HexDigit(d: nat): char
    requires d < 16
  {
    "0123456789ABCDEF"[d]
  }

  function EscapedChar(c: char): string {
    if c == '\"' then "\\\""
    else if c == '\\' then "\\\\"
    else if c as int == 8 then "\\b"
    else if c as int == 12 then "\\f"
    else if c == '\n' then "\\n"
    else if c == '\r' then "\\r"
    else if c == '\t' then "\\t"
    else if c as int < 0x20 then "\\u00" + [HexDigit(c as int / 16), HexDigit(c as int % 16)]
    else [c]
  }

  /** The characters of s from i on, escaped, and the closing quote. */
  function EscapedFrom(s: string, i: nat): string
    requires i <= |s|
    decreases |s| - i
  {
    if i == |s| then "\"" else EscapedChar(s[i]) + EscapedFrom(s, i + 1)
  }

  function PrintString(s: string): string { "\"" + EscapedFrom(s, 0) }

  function Print(v: Value): string
    decreases v, 0
  {
    match v
    case Null => "null"
    case Bool(b) => if b then "true" else "false"
    case Int(n) => IntToString(n)
    case Str(s) => PrintString(s)
    case Arr(items) => "[" + PrintItems(items, 0)
    case Obj(members) => "{" + PrintMembers(members, 0)
  }

  /** The elements from i on, with the commas between them, and the closing bracket. */
  function PrintItems(items: seq<Value>, i: nat): string
    requires i <= |items|
    decreases items, |items| - i
  {
    if i == |items| then "]"
    else (if i > 0 then "," + Print(items[i]) else Print(items[i])) + PrintItems(items, i + 1)
  }

  function PrintMember(m: Member): string
    decreases m, 1
  {
    PrintString(m.key) + ":" + Print(m.value)
  }

  function PrintMembers(members: seq<Member>, i: nat): string
    requires i <= |members|
    decreases members, |members| - i
  {
    if i == |members| then "}"
    else (if i > 0 then "," + PrintMember(members[i]) else PrintMember(members[i])) + PrintMembers(members, i + 1)
  }

  method AppendEscapedJsonString(out: string, s: string) returns (r: string)
    ensures r == out + PrintString(s)
  {
    hide EscapedChar;
    r := out + "\"";
    Assoc(out, "\"", EscapedFrom(s, 0));
    for i := 0 to |s|
      invariant r + EscapedFrom(s, i) == out + PrintString(s)
    {
      Assoc(r, EscapedChar(s[i]), EscapedFrom(s, i + 1));
      r := r + EscapedChar(s[i]);
    }
    r := r + "\"";
  }

  method AppendJson(v: Value, out: string) returns (r: string)
    ensures r == out + Print(v)
    decreases v
  {
    match v
    case Null => r := out + "null";
    case Bool(b) => r := out + (if b then "true" else "false");
    case Int(n) => r := out + IntToString(n);
    case Str(s) => r := AppendEscapedJsonString(out, s);
    case Arr(items) =>
      r := AppendItems(items, out + "[");
      Assoc(out, "[", PrintItems(items, 0));
    case Obj(members) =>
      r := AppendMembers(members, out + "{");
      Assoc(out, "{", PrintMembers(members, 0));
  }

  method AppendItems(items: seq<Value>, out: string) returns (r: string)
    ensures r == out + PrintItems(items, 0)
    decreases items
  {
    hide Print;
    r := out;
    var first := true;
    for i := 0 to |items|
      invariant first == (i == 0)
      invariant r + PrintItems(items, i) == out + PrintItems(items, 0)
    {
      Assoc4(r, ",", Print(items[i]), PrintItems(items, i + 1));
      Assoc(r, Print(items[i]), PrintItems(items, i + 1));
      Assoc(",", Print(items[i]), PrintItems(items, i + 1));
      if !first { r := r + ","; }
      first := false;
      r := AppendJson(items[i], r);
    }
    r := r + "]";
  }

  method AppendMembers(members: seq<Member>, out: string) returns (r: string)
    ensures r == out + PrintMembers(members, 0)
    decreases members
  {
    hide Print, PrintMember, PrintString;
    r := out;
    var first := true;
    for i := 0 to |members|
      invariant first == (i == 0)
      invariant r + PrintMembers(members, i) == out + PrintMembers(members, 0)
    {
      var m := members[i];
      Assoc4(r, ",", PrintMember(m), PrintMembers(members, i + 1));
      Assoc(r, PrintMember(m), PrintMembers(members, i + 1));
      Assoc(",", PrintMember(m), PrintMembers(members, i + 1));
      if !first { r := r + ","; }
      first := false;
      r := AppendMember(m, r);
    }
    r := r + "}";
  }

  method AppendMember(m: Member, out: string) returns (r: string)
    ensures r == out + PrintMember(m)
    decreases m
  {
    hide Print, PrintString;
    r := AppendEscapedJsonString(out, m.key);
    r := r + ":";
    r := AppendJson(m.value, r);
    Assoc4(out, PrintString(m.key), ":", Print(m.value));
  }

  // ---- reading ----

  datatype Read<+T> = Fail | Got(result: T, rest: string)

  predicate IsSpace(c: char) { c == ' ' || c == '\t' || c == '\n' || c == '\r' }

  function SkipSpace(s: string): (r: string)
    ensures |r| <= |s|
    ensures s != "" && !IsSpace(s[0]) ==> r == s
    ensures r == "" || !IsSpace(r[0])
  {
    if s != "" && IsSpace(s[0]) then SkipSpace(s[1..]) else s
  }

  function HexValue(c: char): int {
    if '0' <= c <= '9' then c as int - '0' as int
    else if 'A' <= c <= 'F' then c as int - 'A' as int + 10
    else if 'a' <= c <= 'f' then c as int - 'a' as int + 10
    else -1
  }

  /** Four hexadecimal digits at the front of s, or -1. */
  function Hex4(s: string): (code: int)
    ensures -1 <= code < 0x10000
  {
    if |s| >= 4 && HexValue(s[0]) >= 0 && HexValue(s[1]) >= 0 && HexValue(s[2]) >= 0 && HexValue(s[3]) >= 0
    then ((HexValue(s[0]) * 16 + HexValue(s[1])) * 16 + HexValue(s[2])) * 16 + HexValue(s[3])
    else -1
  }

  /** The octets of a code point in UTF-8. */
  function Octets(code: int): string
    requires 0 <= code < 0x110000
  {
    if code < 0x80 then [code as char]
    else if code < 0x800 then [(0xC0 + code / 64) as char, (0x80 + code % 64) as char]
    else if code < 0x10000 then
      [(0xE0 + code / 4096) as char, (0x80 + code / 64 % 64) as char, (0x80 + code % 64) as char]
    else
      [(0xF0 + code / 262144) as char, (0x80 + code / 4096 % 64) as char,
       (0x80 + code / 64 % 64) as char, (0x80 + code % 64) as char]
  }

  /** One escape sequence, from after its backslash. */
  function ReadEscape(s: string): (r: Read<string>)
    ensures r.Got? ==> |r.rest| < |s|
  {
    if s == "" then Fail
    else if s[0] == '\"' || s[0] == '\\' || s[0] == '/' then Got([s[0]], s[1..])
    else if s[0] == 'b' then Got([8 as char], s[1..])
    else if s[0] == 'f' then Got([12 as char], s[1..])
    else if s[0] == 'n' then Got("\n", s[1..])
    else if s[0] == 'r' then Got("\r", s[1..])
    else if s[0] == 't' then Got("\t", s[1..])
    else if s[0] != 'u' || Hex4(s[1..]) < 0 then Fail
    else
      var code := Hex4(s[1..]);
      if code < 0xD800 || 0xE000 <= code then Got(Octets(code), s[5..])
      else if 0xDC00 <= code || |s| < 11 || s[5] != '\\' || s[6] != 'u' then Fail
      else
        var low := Hex4(s[7..]);
        if 0xDC00 <= low < 0xE000
        then Got(Octets(0x10000 + (code - 0xD800) * 1024 + (low - 0xDC00)), s[11..])
        else Fail
  }

  /** The rest of a string, from after its opening quote. */
  function ReadChars(s: string): (r: Read<string>)
    ensures r.Got? ==> |r.rest| < |s|
    decreases |s|
  {
    if s == "" || s[0] as int < 0x20 then Fail
    else if s[0] == '\"' then Got("", s[1..])
    else if s[0] == '\\' then
      match ReadEscape(s[1..])
      case Fail => Fail
      case Got(c, rest) => Prepend(c, ReadChars(rest))
    else Prepend([s[0]], ReadChars(s[1..]))
  }

  function Prepend(c: string, r: Read<string>): Read<string> {
    if r.Fail? then Fail else Got(c + r.result, r.rest)
  }

  function DigitsPrefix(s: string): (n: nat)
    ensures n <= |s| && AllDigits(s[..n])
    ensures n < |s| ==> !IsDigit(s[n])
  {
    if s != "" && IsDigit(s[0]) then
      var n := DigitsPrefix(s[1..]);
      assert s[..n + 1] == [s[0]] + s[1..][..n];
      n + 1
    else 0
  }

  /** A number without fraction or exponent. */
  function ReadNat(s: string): (r: Read<int>)
    ensures r.Got? ==> |r.rest| < |s|
  {
    var n := DigitsPrefix(s);
    if n == 0 || (n > 1 && s[0] == '0') || (n < |s| && s[n] in ".eE") then Fail
    else Got(DigitsValue(s[..n]), s[n..])
  }

  function ReadNumber(s: string): (r: Read<Value>)
    ensures r.Got? ==> |r.rest| < |s|
  {
    if s != "" && s[0] == '-' then
      match ReadNat(s[1..])
      case Fail => Fail
      case Got(n, rest) => Got(Int(-n), rest)
    else
      match ReadNat(s)
      case Fail => Fail
      case Got(n, rest) => Got(Int(n), rest)
  }

  function ReadWord(s: string, word: string, v: Value): (r: Read<Value>)
    requires word != ""
    ensures r.Got? ==> |r.rest| < |s|
  {
    if word <= s then Got(v, s[|word|..]) else Fail
  }

  function ReadValue(text: string): (r: Read<Value>)
    ensures r.Got? ==> |r.rest| < |text|
    decreases |text|, 0
  {
    var s := SkipSpace(text);
    if s == "" then Fail
    else if s[0] == 'n' then ReadWord(s, "null", Null)
    else if s[0] == 't' then ReadWord(s, "true", Bool(true))
    else if s[0] == 'f' then ReadWord(s, "false", Bool(false))
    else if s[0] == '\"' then
      match ReadChars(s[1..])
      case Fail => Fail
      case Got(c, rest) => Got(Str(c), rest)
    else if s[0] == '[' then
      match ReadArray(s[1..])
      case Fail => Fail
      case Got(items, rest) => Got(Arr(items), rest)
    else if s[0] == '{' then
      match ReadObject(s[1..])
      case Fail => Fail
      case Got(members, rest) => Got(Obj(members), rest)
    else ReadNumber(s)
  }

  function ReadArray(text: string): (r: Read<seq<Value>>)
    ensures r.Got? ==> |r.rest| < |text|
    decreases |text|, 2
  {
    var s := SkipSpace(text);
    if s != "" && s[0] == ']' then Got([], s[1..]) else ReadItems(text)
  }

  function ReadItems(text: string): (r: Read<seq<Value>>)
    ensures r.Got? ==> |r.rest| < |text|
    decreases |text|, 1
  {
    match ReadValue(text)
    case Fail => Fail
    case Got(v, after) =>
      var s := SkipSpace(after);
      if s != "" && s[0] == ']' then Got([v], s[1..])
      else if s != "" && s[0] == ',' then
        match ReadItems(s[1..])
        case Fail => Fail
        case Got(items, rest) => Got([v] + items, rest)
      else Fail
  }

  function ReadObject(text: string): (r: Read<seq<Member>>)
    ensures r.Got? ==> |r.rest| < |text|
    decreases |text|, 3
  {
    var s := SkipSpace(text);
    if s != "" && s[0] == '}' then Got([], s[1..]) else ReadMembers(text)
  }

  function ReadMember(text: string): (r: Read<Member>)
    ensures r.Got? ==> |r.rest| < |text|
    decreases |text|, 1
  {
    var s := SkipSpace(text);
    if s == "" || s[0] != '\"' then Fail
    else
      match ReadChars(s[1..])
      case Fail => Fail
      case Got(key, after) =>
        var colon := SkipSpace(after);
        if colon == "" || colon[0] != ':' then Fail
        else
          match ReadValue(colon[1..])
          case Fail => Fail
          case Got(v, rest) => Got(Member(key, v), rest)
  }

  function ReadMembers(text: string): (r: Read<seq<Member>>)
    ensures r.Got? ==> |r.rest| < |text|
    decreases |text|, 2
  {
    match ReadMember(text)
    case Fail => Fail
    case Got(m, after) =>
      var s := SkipSpace(after);
      if s != "" && s[0] == '}' then Got([m], s[1..])
      else if s != "" && s[0] == ',' then
        match ReadMembers(s[1..])
        case Fail => Fail
        case Got(members, rest) => Got([m] + members, rest)
      else Fail
  }

  /** A whole JSON text. */
  function ReadText(text: string): Option<Value> {
    match ReadValue(text)
    case Fail => None
    case Got(v, rest) => if SkipSpace(rest) == "" then Some(v) else None
  }

  // ---- strings read back ----

  lemma HexRoundTrip(d: nat)
    requires d < 16
    ensures HexValue(HexDigit(d)) == d
  {
  }

  lemma ReadControl(c: char, tail: string)
    requires c as int < 0x20
    ensures var e := "u00" + [HexDigit(c as int / 16), HexDigit(c as int % 16)];
      ReadEscape(e + tail) == Got([c], tail)
  {
    HexRoundTrip(c as int / 16);
    HexRoundTrip(c as int % 16);
    var s := "u00" + [HexDigit(c as int / 16), HexDigit(c as int % 16)] + tail;
    assert s[1..][..4] == "00" + [HexDigit(c as int / 16), HexDigit(c as int % 16)];
    assert HexValue('0') == 0;
    assert Hex4(s[1..]) == c as int;
    assert s[5..] == tail;
  }

  lemma ReadShort(c: char, tail: string)
    requires |EscapedChar(c)| == 2
    ensures ReadEscape([EscapedChar(c)[1]] + tail) == Got([c], tail)
  {
    hide Hex4, Octets;
    assert ([EscapedChar(c)[1]] + tail)[1..] == tail;
  }

  lemma EscapedShape(c: char)
    ensures var e := EscapedChar(c);
      || (e == [c] && c as int >= 0x20 && c != '\"' && c != '\\')
      || (|e| == 2 && e[0] == '\\')
      || (c as int < 0x20 && e == "\\" + ("u00" + [HexDigit(c as int / 16), HexDigit(c as int % 16)]))
  {
  }

  lemma ReadEscapedChar(c: char, tail: string)
    ensures ReadChars(EscapedChar(c) + tail) == Prepend([c], ReadChars(tail))
  {
    var e := EscapedChar(c);
    EscapedShape(c);
    hide EscapedChar, ReadEscape;
    if e == [c] && c as int >= 0x20 && c != '\"' && c != '\\' {
      assert (e + tail)[1..] == tail;
    } else {
      hide ReadChars;
      if |e| == 2 && e[0] == '\\' {
        ReadShort(c, tail);
        assert e == "\\" + [e[1]];
        Assoc("\\", [e[1]], tail);
      } else {
        ReadControl(c, tail);
        var u := "u00" + [HexDigit(c as int / 16), HexDigit(c as int % 16)];
        Assoc("\\", u, tail);
      }
    }
  }

  lemma {:induction false} ReadString(s: string, i: nat, rest: string)
    requires i <= |s|
    ensures ReadChars(EscapedFrom(s, i) + rest) == Got(s[i..], rest)
    decreases |s| - i
  {
    hide EscapedChar;
    if i == |s| {
      assert ("\"" + rest)[1..] == rest;
    } else {
      var later := EscapedFrom(s, i + 1);
      Assoc(EscapedChar(s[i]), later, rest);
      ReadEscapedChar(s[i], later + rest);
      ReadString(s, i + 1, rest);
      assert [s[i]] + s[i + 1..] == s[i..];
    }
  }

  // ---- numbers read back ----

  /** What may follow a value: nothing that could continue a number. */
  predicate EndsValue(rest: string) { rest == "" || rest[0] in ",]}" }

  lemma {:induction false} DigitsPrefixOf(digits: string, rest: string)
    requires AllDigits(digits) && EndsValue(rest)
    ensures DigitsPrefix(digits + rest) == |digits|
  {
    if digits == "" {
      assert digits + rest == rest;
    } else {
      assert digits[0] in digits;
      assert (digits + rest)[1..] == digits[1..] + rest;
      DigitsPrefixOf(digits[1..], rest);
    }
  }

  lemma ReadPrintedNat(n: nat, rest: string)
    requires EndsValue(rest)
    ensures ReadNat(NatToString(n) + rest) == Got(n, rest)
  {
    hide NatToString, DigitsPrefix, DigitsValue;
    NatRoundTrip(n);
    var digits := NatToString(n);
    DigitsPrefixOf(digits, rest);
    assert (digits + rest)[..|digits|] == digits && (digits + rest)[|digits|..] == rest;
  }

  lemma OpenNumber(s: string)
    requires s != "" && (s[0] == '-' || IsDigit(s[0]))
    ensures ReadValue(s) == ReadNumber(s)
  {
    hide ReadNumber, ReadArray, ReadObject, ReadChars, ReadWord;
  }

  lemma ReadPrintedInt(n: int, rest: string)
    requires EndsValue(rest)
    ensures ReadValue(IntToString(n) + rest) == Got(Int(n), rest)
  {
    hide NatToString, ReadNat, ReadValue;
    var s := IntToString(n) + rest;
    var digits := NatToString(if n < 0 then -n else n);
    assert digits[0] in digits;
    ReadPrintedNat(if n < 0 then -n else n, rest);
    if n < 0 { assert s[1..] == digits + rest; }
    OpenNumber(s);
  }

  // ---- values read back ----

  lemma ReadLiteral(word: string, v: Value, rest: string)
    requires (word, v) in [("null", Null), ("true", Bool(true)), ("false", Bool(false))]
    ensures ReadValue(word + rest) == Got(v, rest)
  {
    var s := word + rest;
    assert s[0] == word[0];
    assert word <= s && s[|word|..] == rest;
  }

  lemma OpenString(x: string)
    ensures ReadValue("\"" + x) == match ReadChars(x)
      case Fail => Fail
      case Got(c, rest) => Got(Str(c), rest)
  {
    assert ("\"" + x)[1..] == x;
  }

  /** A printed value starts with a character that is no space and closes nothing. */
  lemma PrintStarts(v: Value)
    ensures Print(v) != "" && !IsSpace(Print(v)[0]) && Print(v)[0] !in ",]}"
  {
    if v.Int? {
      assert IntToString(v.n)[0] in IntToString(v.n);
      hide IntToString;
    }
  }

  /** Reading what was printed gives the value back, whatever ends it. */
  lemma {:induction false} ReadPrinted(v: Value, rest: string)
    requires EndsValue(rest)
    ensures ReadValue(Print(v) + rest) == Got(v, rest)
    decreases v, 0
  {
    match v
    case Null => ReadLiteral("null", v, rest);
    case Bool(b) => ReadLiteral(if b then "true" else "false", v, rest);
    case Int(n) => ReadPrintedInt(n, rest);
    case Str(s) =>
      hide ReadValue, ReadChars, EscapedFrom;
      Assoc("\"", EscapedFrom(s, 0), rest);
      OpenString(EscapedFrom(s, 0) + rest);
      ReadString(s, 0, rest);
      assert s[0..] == s;
    case Arr(items) =>
      hide ReadValue, ReadArray, PrintItems;
      Assoc("[", PrintItems(items, 0), rest);
      ReadPrintedArray(items, rest);
    case Obj(members) =>
      hide ReadValue, ReadObject, PrintMembers;
      Assoc("{", PrintMembers(members, 0), rest);
      ReadPrintedObject(members, rest);
  }

  lemma ReadPrintedArray(items: seq<Value>, rest: string)
    ensures ReadArray(PrintItems(items, 0) + rest) == Got(items, rest)
    decreases items, |items| + 1
  {
    var s := PrintItems(items, 0) + rest;
    if items == [] {
      assert s[0] == ']' && s[1..] == rest;
    } else {
      PrintStarts(items[0]);
      assert s[0] == Print(items[0])[0];
      hide Print, ReadItems;
      ReadPrintedItems(items, 0, rest);
      var x := Print(items[0]) + PrintItems(items, 1);
      assert items[0..] == items;
    }
  }

  /** From element i on, after the comma if there is one. */
  lemma {:induction false} ReadPrintedItems(items: seq<Value>, i: nat, rest: string)
    requires i < |items|
    ensures ReadItems(Print(items[i]) + PrintItems(items, i + 1) + rest) == Got(items[i..], rest)
    decreases items, |items| - i
  {
    hide Print, ReadValue;
    var tail := PrintItems(items, i + 1) + rest;
    Assoc(Print(items[i]), PrintItems(items, i + 1), rest);
    if i + 1 == |items| {
      assert tail[0] == ']' && tail[1..] == rest;
      ReadPrinted(items[i], tail);
      assert items[i..] == [items[i]];
    } else {
      var later := Print(items[i + 1]) + PrintItems(items, i + 2) + rest;
      assert tail == "," + later by {
        Assoc4(",", Print(items[i + 1]), PrintItems(items, i + 2), rest);
      }
      assert tail[0] == ',' && tail[1..] == later;
      ReadPrinted(items[i], tail);
      ReadPrintedItems(items, i + 1, rest);
      assert [items[i]] + items[i + 1..] == items[i..];
    }
  }

  lemma MemberStarts(m: Member)
    ensures PrintMember(m) != "" && PrintMember(m)[0] == '\"'
  {
    hide Print, EscapedFrom;
  }

  lemma ReadPrintedObject(members: seq<Member>, rest: string)
    ensures ReadObject(PrintMembers(members, 0) + rest) == Got(members, rest)
    decreases members, |members| + 1
  {
    hide PrintMember, ReadMembers;
    var s := PrintMembers(members, 0) + rest;
    if members == [] {
      assert s[0] == '}' && s[1..] == rest;
    } else {
      MemberStarts(members[0]);
      assert s[0] == PrintMember(members[0])[0];
      ReadPrintedMembers(members, 0, rest);
      assert members[0..] == members;
    }
  }

  lemma {:induction false} ReadPrintedMembers(members: seq<Member>, i: nat, rest: string)
    requires i < |members|
    ensures ReadMembers(PrintMember(members[i]) + PrintMembers(members, i + 1) + rest) == Got(members[i..], rest)
    decreases members, |members| - i
  {
    hide PrintMember, ReadMember;
    var tail := PrintMembers(members, i + 1) + rest;
    Assoc(PrintMember(members[i]), PrintMembers(members, i + 1), rest);
    if i + 1 == |members| {
      assert tail[0] == '}' && tail[1..] == rest;
      ReadPrintedMember(members[i], tail);
      assert members[i..] == [members[i]];
    } else {
      var later := PrintMember(members[i + 1]) + PrintMembers(members, i + 2) + rest;
      assert tail == "," + later by {
        Assoc4(",", PrintMember(members[i + 1]), PrintMembers(members, i + 2), rest);
      }
      assert tail[0] == ',' && tail[1..] == later;
      ReadPrintedMember(members[i], tail);
      ReadPrintedMembers(members, i + 1, rest);
      assert [members[i]] + members[i + 1..] == members[i..];
    }
  }

  lemma ReadPrintedMember(m: Member, rest: string)
    requires EndsValue(rest)
    ensures ReadMember(PrintMember(m) + rest) == Got(m, rest)
    decreases m, 1
  {
    hide Print, EscapedFrom, ReadChars, ReadValue;
    var after := ":" + (Print(m.value) + rest);
    var s := "\"" + (EscapedFrom(m.key, 0) + after);
    assert PrintMember(m) + rest == s by {
      Assoc4(PrintString(m.key), ":", Print(m.value), rest);
      Assoc(PrintString(m.key), ":", Print(m.value) + rest);
      Assoc("\"", EscapedFrom(m.key, 0), after);
      Assoc(":", Print(m.value), rest);
      Assoc(PrintString(m.key) + ":", Print(m.value), rest);
    }
    assert s[0] == '\"' && s[1..] == EscapedFrom(m.key, 0) + after;
    ReadString(m.key, 0, after);
    assert m.key[0..] == m.key;
    assert after[0] == ':' && after[1..] == Print(m.value) + rest;
    ReadPrinted(m.value, rest);
  }

  /** Every printed text is JSON that reads back to the value printed. */
  lemma TextRoundTrip(v: Value)
    ensures ReadText(Print(v)) == Some(v)
  {
    hide Print, ReadValue;
    ReadPrinted(v, "");
    assert Print(v) + "" == Print(v);
  }

  /** Different values print differently, at any depth. */
  lemma PrintInjective(v: Value, w: Value)
    requires Print(v) == Print(w)
    ensures v == w
  {
    hide Print, ReadText;
    TextRoundTrip(v);
    TextRoundTrip(w);
  }
}
