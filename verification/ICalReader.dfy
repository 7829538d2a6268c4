/** A reader of a generated calendar, written from the grammar of sections 3.1 to 3.3 of
    RFC 5545: it finds the events, the entries of each by property name, and the values of
    times, texts and addresses. */
module ICalReader {
  import opened Wrappers
  import opened Text
  import opened Calendar
  import opened ICal
  import opened ICalDocument

  // ---- lines and events ----

  /** What follows a property name: a colon and the value, or a semicolon and parameters. */
  datatype Entry = Entry(separator: char, rest: string)

  function NameEnd(line: string): (e: nat)
    ensures e <= |line|
  {
    if line == "" || line[0] == ':' || line[0] == ';' then 0 else 1 + NameEnd(line[1..])
  }

  /** The entries of a property, in order. */
  function Entries(lines: seq<string>, name: string): seq<Entry> {
    if lines == [] then []
    else
      var line := lines[|lines| - 1];
      var e := NameEnd(line);
      Entries(lines[..|lines| - 1], name)
      + if e < |line| && line[..e] == name then [Entry(line[e], line[e + 1..])] else []
  }

  /** The number of lines before the given one. */
  function Before(lines: seq<string>, line: string): (n: nat)
    ensures n <= |lines|
  {
    if lines == [] || lines[0] == line then 0 else 1 + Before(lines[1..], line)
  }

  /** The lines of each event, from its first to the one before its end. */
  function Events(lines: seq<string>): seq<seq<string>> {
    if lines == [] then []
    else if lines[0] != "BEGIN:VEVENT" then Events(lines[1..])
    else
      var n := 1 + Before(lines[1..], "END:VEVENT");
      [lines[..n]] + Events(lines[n..])
  }

  // ---- times ----

  datatype Instant = Instant(seconds: int, utc: bool)

  /** Seconds since 1970 of YYYYMMDDTHHMMSS, with or without a "Z". */
  function ReadDateTime(s: string): Option<Instant> {
    if |s| < 15 || (s[15..] != "" && s[15..] != "Z") || s[8] != 'T' then None
    else if !AllDigits(s[..8]) || !AllDigits(s[9..15]) then None
    else
      var month := Number(s[4..6]);
      if month < 1 || month > 12 then None
      else
        var days := DaysFromCivil(Date(Number(s[..4]), month, Number(s[6..8])));
        var seconds := Number(s[9..11]) * 3600 + Number(s[11..13]) * 60 + Number(s[13..15]);
        Some(Instant(days * 86400 + seconds, s[15..] == "Z"))
  }

  function Number(s: string): nat { if AllDigits(s) then DigitsValue(s) else 0 }

  // ---- addresses ----

  /** Offset of the first colon outside double quotes, or the length of s. */
  function ColonAt(s: string, quoted: bool): (i: nat)
    ensures i <= |s|
  {
    if s == "" || (s[0] == ':' && !quoted) then 0 else 1 + ColonAt(s[1..], quoted != (s[0] == '\"'))
  }

  function QuotedAfter(s: string, quoted: bool): bool {
    if s == "" then quoted else QuotedAfter(s[1..], quoted != (s[0] == '\"'))
  }

  /** The value behind the parameters of a property. */
  function ValueOf(rest: string): string {
    var i := ColonAt(rest, false);
    if i == |rest| then "" else rest[i + 1..]
  }

  // ---- times read back ----

  lemma NatLength(n: nat)
    ensures n < 100 ==> |NatToString(n)| <= 2
    ensures n < 10000 <==> |NatToString(n)| <= 4
  {
    if n >= 10 { assert |NatToString(n)| == |NatToString(n / 10)| + 1; }
    if n >= 100 { assert |NatToString(n / 10)| == |NatToString(n / 100)| + 1; }
    if n >= 1000 { assert |NatToString(n / 100)| == |NatToString(n / 1000)| + 1; }
    if n >= 10000 { assert |NatToString(n / 1000)| == |NatToString(n / 10000)| + 1; }
  }

  lemma {:induction false} ZeroFront(s: string)
    requires AllDigits(s)
    ensures AllDigits("0" + s) && DigitsValue("0" + s) == DigitsValue(s)
  {
    var z := "0" + s;
    assert forall c :: c in z ==> c == '0' || c in s;
    if s == "" {
      assert z[..|z| - 1] == "" && z[|z| - 1] == '0';
    } else {
      assert z[..|z| - 1] == "0" + s[..|s| - 1];
      ZeroFront(s[..|s| - 1]);
    }
  }

  lemma {:induction false} PaddedValue(width: nat, s: string)
    requires AllDigits(s)
    ensures AllDigits(Padded(width, s)) && DigitsValue(Padded(width, s)) == DigitsValue(s)
    ensures |Padded(width, s)| == if |s| >= width then |s| else width
    decreases width - |s|
  {
    if |s| < width {
      ZeroFront(s);
      PaddedValue(width, "0" + s);
    }
  }

  /** A number printed in a field that is wide enough fills it and reads back. */
  lemma FieldReads(width: nat, n: nat)
    requires (width == 2 && n < 100) || (width == 4 && n < 10000)
    ensures var f := Padded(width, IntToString(n)); |f| == width && AllDigits(f) && Number(f) == n
  {
    NatLength(n);
    NatRoundTrip(n);
    hide NatToString, DigitsValue;
    PaddedValue(width, NatToString(n));
  }

  lemma {:induction false} DigitsJoin(a: string, b: string)
    requires AllDigits(a) && AllDigits(b)
    ensures AllDigits(a + b)
  {
  }

  /** The fields of a time, cut out again. */
  lemma FieldsCut(y: string, m: string, d: string, h: string, i: string, s: string, z: string)
    requires |y| == 4 && |m| == 2 && |d| == 2 && |h| == 2 && |i| == 2 && |s| == 2
    ensures var t := y + m + d + "T" + h + i + s + z;
      && |t| == 15 + |z| && t[..8] == y + m + d && t[8] == 'T' && t[9..15] == h + i + s && t[15..] == z
      && t[..4] == y && t[4..6] == m && t[6..8] == d && t[9..11] == h && t[11..13] == i && t[13..15] == s
  {
  }

  /** A date and a second of its day as the printer writes them. */
  function TimeText(d: Date, s: nat, z: string): string {
    Padded(4, IntToString(d.year)) + Padded(2, IntToString(d.month)) + Padded(2, IntToString(d.day))
    + "T" + Padded(2, IntToString(s / 3600)) + Padded(2, IntToString(s % 3600 / 60))
    + Padded(2, IntToString(s % 60)) + z
  }

  function SecondOf(us: int): (s: nat)
    ensures s < 86400 && us / DAY_US * 86400 + s == us / 1_000_000
  {
    assert us == us / DAY_US * 86400 * 1_000_000 + us % DAY_US;
    us % DAY_US / 1_000_000
  }

  lemma FormatIsTimeText(us: int)
    ensures FormatUtcDateTime(us) == TimeText(StoredDate(us), SecondOf(us), "Z")
    ensures FormatFloatingDateTime(us) == TimeText(StoredDate(us), SecondOf(us), "")
  {
    hide Padded, IntToString, StoredDate;
    var front := TimeText(StoredDate(us), SecondOf(us), "");
    NothingAfter(front);
    assert TimeText(StoredDate(us), SecondOf(us), "Z") == front + "Z";
  }

  lemma Clock(s: nat)
    requires s < 86400
    ensures 0 <= s / 3600 < 24 && 0 <= s % 3600 / 60 < 60 && 0 <= s % 60 < 60
    ensures s / 3600 * 3600 + s % 3600 / 60 * 60 + s % 60 == s
  {
    assert s % 3600 % 60 == s % 60;
  }

  predicate Field(width: nat, f: string) { |f| == width && AllDigits(f) }

  lemma ReadFields(y: string, m: string, d: string, h: string, i: string, s: string, z: string)
    requires Field(4, y) && Field(2, m) && Field(2, d) && Field(2, h) && Field(2, i) && Field(2, s)
    requires 1 <= Number(m) <= 12 && (z == "" || z == "Z")
    ensures ReadDateTime(y + m + d + "T" + h + i + s + z)
         == Some(Instant(DaysFromCivil(Date(Number(y), Number(m), Number(d))) * 86400
                         + (Number(h) * 3600 + Number(i) * 60 + Number(s)), z == "Z"))
  {
    hide DaysFromCivil, Number, AllDigits;
    FieldsCut(y, m, d, h, i, s, z);
    DigitsJoin(y, m); DigitsJoin(y + m, d);
    DigitsJoin(h, i); DigitsJoin(h + i, s);
  }

  predicate Shows(width: nat, n: int) {
    var f := Padded(width, IntToString(n)); Field(width, f) && Number(f) == n
  }

  lemma ItShows(width: nat, n: int)
    requires 0 <= n && ((width == 2 && n < 100) || (width == 4 && n < 10000))
    ensures Shows(width, n)
  {
    FieldReads(width, n);
  }

  lemma ReadShown(d: Date, h: int, i: int, s: int, z: string)
    requires Shows(4, d.year) && Shows(2, d.month) && Shows(2, d.day) && Shows(2, h) && Shows(2, i) && Shows(2, s)
    requires 1 <= d.month <= 12 && (z == "" || z == "Z")
    ensures ReadDateTime(
        Padded(4, IntToString(d.year)) + Padded(2, IntToString(d.month)) + Padded(2, IntToString(d.day))
        + "T" + Padded(2, IntToString(h)) + Padded(2, IntToString(i)) + Padded(2, IntToString(s)) + z)
      == Some(Instant(DaysFromCivil(d) * 86400 + (h * 3600 + i * 60 + s), z == "Z"))
  {
    hide Padded, IntToString, DaysFromCivil, Number, ReadDateTime, AllDigits;
    ReadFields(Padded(4, IntToString(d.year)), Padded(2, IntToString(d.month)), Padded(2, IntToString(d.day)),
               Padded(2, IntToString(h)), Padded(2, IntToString(i)), Padded(2, IntToString(s)), z);
  }

  /** What is read from a printed time whose year has four digits. */
  lemma TimeTextReads(d: Date, s: nat, z: string)
    requires 0 <= d.year <= 9999 && 1 <= d.month <= 12 && 1 <= d.day <= 31 && s < 86400 && (z == "" || z == "Z")
    ensures ReadDateTime(TimeText(d, s, z)) == Some(Instant(DaysFromCivil(d) * 86400 + s, z == "Z"))
  {
    hide Padded, IntToString, DaysFromCivil, ReadDateTime, Shows;
    Clock(s);
    ItShows(4, d.year); ItShows(2, d.month); ItShows(2, d.day);
    ItShows(2, s / 3600); ItShows(2, s % 3600 / 60); ItShows(2, s % 60);
    ReadShown(d, s / 3600, s % 3600 / 60, s % 60, z);
  }

  /** A year of five digits or with a sign does not read. */
  lemma WideYear(d: Date, s: nat, z: string)
    requires !(0 <= d.year <= 9999) && (z == "" || z == "Z")
    ensures ReadDateTime(TimeText(d, s, z)) == None
  {
    var y, m, day := Padded(4, IntToString(d.year)), Padded(2, IntToString(d.month)), Padded(2, IntToString(d.day));
    NoLetter(4, d.year); NoLetter(2, d.month); NoLetter(2, d.day);
    if d.year > 9999 { NatLength(d.year); } else { SignIsNoDigit(d.year); }
    assert |y| == 4 ==> '-' in y;
    hide Padded, IntToString, ReadDateTime;
    WideText(y, m, day, Padded(2, IntToString(s / 3600)), Padded(2, IntToString(s % 3600 / 60)), Padded(2, IntToString(s % 60)), z);
  }

  lemma NoLetter(width: nat, n: int)
    ensures Lacks(Padded(width, IntToString(n)), 'T')
  {
  }

  lemma WideText(y: string, m: string, d: string, h: string, i: string, s: string, z: string)
    requires |y| >= 4 && |m| >= 2 && |d| >= 2 && |h| >= 2 && |i| >= 2 && |s| >= 2
    requires Lacks(y, 'T') && Lacks(m, 'T') && Lacks(d, 'T') && (|y| == 4 ==> '-' in y)
    ensures ReadDateTime(y + m + d + "T" + h + i + s + z) == None
  {
    var date := y + m + d;
    var t := date + "T" + h + i + s + z;
    assert |t| == |y| + |m| + |d| + 1 + |h| + |i| + |s| + |z|;
    if |y| == 4 {
      assert t[..4] == y;
      var k :| 0 <= k < |y| && y[k] == '-';
      assert t[..8][k] == '-';
    } else if |date| > 8 {
      assert t[8] == date[8];
      assert date[8] in y || date[8] in m || date[8] in d;
    }
  }

  lemma SignIsNoDigit(year: int)
    requires year < 0
    ensures var y := Padded(4, IntToString(year)); |y| >= 4 && '-' in y
  {
    var s := IntToString(year);
    assert s[0] == '-';
    var y := Padded(4, s);
    assert y[|y| - |s|..][0] == '-';
  }

  /** The year of a timestamp, and that of another 65536 years away, do not share days. */
  lemma OtherYear(n: int, d: Date)
    requires 1 <= d.month <= 12 && 1 <= d.day <= 31 && d.year != YearOf(n) && (d.year - YearOf(n)) % 65536 == 0
    ensures DaysFromCivil(d) != n
  {
    hide YearStart, YearOf;
    var y, w := YearOf(n), d.year;
    if y < w { YearsAscend(y + 1, w); } else { YearsAscend(w, w + 2); YearsAscend(w + 2, y); YearsApart(w); }
  }

  lemma YearsApart(w: int)
    ensures YearStart(w) + 730 <= YearStart(w + 2)
  {
    hide YearStart;
    YearsAscend(w, w + 1);
    YearsAscend(w + 1, w + 2);
  }

  /** The day read from the stored date is the timestamp's day exactly when the year fits. */
  lemma StoredDay(us: int)
    ensures var d := StoredDate(us); var y := CivilFromDays(us / DAY_US).year;
      && 1 <= d.month <= 12 && 1 <= d.day <= 31
      && (DaysFromCivil(d) == us / DAY_US <==> d.year == y)
      && (0 <= y <= 9999 ==> d.year == y)
  {
    hide DaysFromCivil, CivilFromDays, YearOf, MonthLength;
    var d, c := StoredDate(us), CivilFromDays(us / DAY_US);
    MonthHasDays(c.year, c.month);
    if d.year == c.year { assert d == c; } else { OtherYear(us / DAY_US, d); }
  }

  lemma SameSecond(us: int, days: int)
    ensures days * 86400 + SecondOf(us) == us / 1_000_000 <==> days == us / DAY_US
  {
    var n, s := us / DAY_US, SecondOf(us);
    hide SecondOf;
  }

  lemma ReadsWhen(d: Date, s: nat, z: string, seconds: int, y: int)
    requires 1 <= d.month <= 12 && 1 <= d.day <= 31 && s < 86400 && (z == "" || z == "Z")
    requires DaysFromCivil(d) * 86400 + s == seconds <==> d.year == y
    requires 0 <= y <= 9999 ==> d.year == y
    ensures ReadDateTime(TimeText(d, s, z)) == Some(Instant(seconds, z == "Z")) <==> 0 <= y <= 9999
  {
    hide ReadDateTime, TimeText, DaysFromCivil;
    if 0 <= d.year <= 9999 {
      TimeTextReads(d, s, z);
    } else {
      WideYear(d, s, z);
    }
  }

  lemma TimeTextExactly(us: int, z: string)
    requires z == "" || z == "Z"
    ensures ReadDateTime(TimeText(StoredDate(us), SecondOf(us), z)) == Some(Instant(us / 1_000_000, z == "Z"))
      <==> 0 <= CivilFromDays(us / DAY_US).year <= 9999
  {
    hide ReadDateTime, TimeText, StoredDate, CivilFromDays, DaysFromCivil, SecondOf;
    StoredDay(us);
    SameSecond(us, DaysFromCivil(StoredDate(us)));
    ReadsWhen(StoredDate(us), SecondOf(us), z, us / 1_000_000, CivilFromDays(us / DAY_US).year);
  }

  /** A printed time reads back to its second exactly when its year has four digits. */
  lemma TimeReadsExactly(us: int, utc: bool)
    ensures ReadDateTime(if utc then FormatUtcDateTime(us) else FormatFloatingDateTime(us)) == Some(Instant(us / 1_000_000, utc))
      <==> 0 <= CivilFromDays(us / DAY_US).year <= 9999
  {
    hide ReadDateTime, TimeText, StoredDate, CivilFromDays, SecondOf, FormatUtcDateTime, FormatFloatingDateTime;
    FormatIsTimeText(us);
    TimeTextExactly(us, if utc then "Z" else "");
  }

  // ---- addresses read back ----

  lemma {:induction false} ColonBehind(a: string, b: string, quoted: bool)
    ensures ColonAt(a + b, quoted)
         == if ColonAt(a, quoted) < |a| then ColonAt(a, quoted) else |a| + ColonAt(b, QuotedAfter(a, quoted))
  {
    if a == "" {
      assert a + b == b;
    } else {
      assert (a + b)[0] == a[0] && (a + b)[1..] == a[1..] + b;
      ColonBehind(a[1..], b, quoted != (a[0] == '\"'));
    }
  }

  lemma {:induction false} QuotedBehind(a: string, b: string, quoted: bool)
    ensures QuotedAfter(a + b, quoted) == QuotedAfter(b, QuotedAfter(a, quoted))
  {
    if a == "" {
      assert a + b == b;
    } else {
      assert (a + b)[0] == a[0] && (a + b)[1..] == a[1..] + b;
      QuotedBehind(a[1..], b, quoted != (a[0] == '\"'));
    }
  }

  /** No colon outside double quotes, and every quote closed. */
  predicate Closed(s: string) { ColonAt(s, false) == |s| && !QuotedAfter(s, false) }

  lemma EscapedCharCloses(c: char, quoted: bool)
    ensures (ColonAt(EscapeChar(c), quoted) == |EscapeChar(c)| <==> c != ':' || quoted)
    ensures QuotedAfter(EscapeChar(c), quoted) == (quoted != (c == '\"'))
  {
    var e := EscapeChar(c);
    if |e| == 1 {
      assert e == [c] && e[1..] == "";
    } else {
      PlainCloses(e, quoted);
    }
  }

  /** Escaping touches neither colons nor quotes. */
  lemma {:induction false} EscapedCloses(s: string, quoted: bool)
    ensures ColonAt(Escape(s), quoted) == |Escape(s)| <==> ColonAt(s, quoted) == |s|
    ensures QuotedAfter(Escape(s), quoted) == QuotedAfter(s, quoted)
  {
    if s != "" {
      var c, rest := s[0], s[1..];
      assert s == [c] + rest;
      EscapeFront(c, rest);
      EscapedCharCloses(c, quoted);
      EscapedCloses(rest, quoted != (c == '\"'));
      hide Escape, EscapeChar;
      ColonBehind(EscapeChar(c), Escape(rest), quoted);
      QuotedBehind(EscapeChar(c), Escape(rest), quoted);
    }
  }

  lemma {:induction false} PlainCloses(s: string, quoted: bool)
    requires Lacks(s, ':') && Lacks(s, '\"')
    ensures ColonAt(s, quoted) == |s| && QuotedAfter(s, quoted) == quoted
  {
    if s != "" {
      assert s[0] in s && forall c :: c in s[1..] ==> c in s;
      PlainCloses(s[1..], quoted);
    }
  }

  lemma Between(between: string)
    requires between == "" || between == ";RSVP=FALSE"
    ensures Lacks(between, ':') && Lacks(between, '\"') && Lacks("CN=", ':') && Lacks("CN=", '\"')
  {
  }

  /** The parameters in front of the address close exactly when the name does. */
  lemma ParametersClose(name: string, between: string)
    requires between == "" || between == ";RSVP=FALSE"
    ensures Closed("CN=" + Escape(name) + between) <==> Closed(name)
  {
    hide Escape, ColonAt, QuotedAfter;
    var front := "CN=" + Escape(name);
    Between(between);
    EscapedCloses(name, false);
    PlainCloses("CN=", false);
    PlainCloses(between, false);
    PlainCloses(between, true);
    ColonBehind("CN=", Escape(name), false);
    QuotedBehind("CN=", Escape(name), false);
    ColonBehind(front, between, false);
    QuotedBehind(front, between, false);
  }

  /** The address behind a name is what a reader finds exactly when the name closes. */
  lemma AddressReadsExactly(name: string, between: string, address: string)
    requires address != "" && (between == "" || between == ";RSVP=FALSE")
    ensures ValueOf("CN=" + Escape(name) + between + ":" + address) == address <==> Closed(name)
  {
    ParametersClose(name, between);
    hide Escape;
    var all := "CN=" + Escape(name) + between;
    ColonFirst(address);
    hide ColonAt, QuotedAfter;
    ColonBehind(all, ":" + address, false);
    assert all + (":" + address) == all + ":" + address;
    assert (all + ":" + address)[|all| + 1..] == address;
  }

  lemma ColonFirst(address: string)
    ensures ColonAt(":" + address, false) == 0 && ColonAt(":" + address, true) >= 1
  {
  }

  // ---- the entries of printed lines ----

  predicate IsName(name: string) { Lacks(name, ':') && Lacks(name, ';') }

  lemma {:induction false} NameEnds(name: string, separator: char, rest: string)
    requires IsName(name) && (separator == ':' || separator == ';')
    ensures NameEnd(name + [separator] + rest) == |name|
  {
    var line := name + [separator] + rest;
    if name == "" {
      assert line[0] == separator;
    } else {
      assert line[0] == name[0] && name[0] in name;
      assert line[1..] == name[1..] + [separator] + rest;
      assert forall c :: c in name[1..] ==> c in name;
      NameEnds(name[1..], separator, rest);
    }
  }

  function Entering(p: string, e: Entry, name: string): seq<Entry> { if p == name then [e] else [] }

  /** One more line, with the name in front of it. */
  lemma More(lines: seq<string>, line: string, p: string, e: Entry, name: string)
    requires line == p + [e.separator] + e.rest && IsName(p) && (e.separator == ':' || e.separator == ';')
    ensures Entries(lines + [line], name) == Entries(lines, name) + Entering(p, e, name)
  {
    NameEnds(p, e.separator, e.rest);
    assert (lines + [line])[..|lines|] == lines;
    assert line[..|p|] == p && line[|p| + 1..] == e.rest;
  }

  lemma MoreWhen(lines: seq<string>, condition: bool, line: string, p: string, e: Entry, name: string)
    requires line == p + [e.separator] + e.rest && IsName(p) && (e.separator == ':' || e.separator == ';')
    ensures Entries(lines + When(condition, line), name)
         == Entries(lines, name) + if condition then Entering(p, e, name) else []
  {
    if condition {
      More(lines, line, p, e, name);
    } else {
      assert lines + [] == lines;
      assert Entries(lines, name) + [] == Entries(lines, name);
    }
  }

  // ---- the entries of one event ----

  /** The entries of a property that is always there, or only when its field is not empty. */
  function Value(text: string): seq<Entry> { [Entry(':', text)] }

  function OptionalValue(field: string, text: string): seq<Entry> { if field == "" then [] else Value(text) }

  function UidOf(e: Event, domain: string, now: Moment): string {
    if e.uid != "" then e.uid
    else "synthetic-" + IntToString(now.uidUs) + "-" + NatToString(now.counter) + "@" + domain
  }

  ghost predicate ShowsTime(entries: seq<Entry>, us: int, utc: bool) {
    && |entries| == 1 && entries[0].separator == ':'
    && (ReadDateTime(entries[0].rest) == Some(Instant(us / 1_000_000, utc))
        <==> 0 <= CivilFromDays(us / DAY_US).year <= 9999)
  }

  predicate ShowsText(entries: seq<Entry>, text: string) {
    |entries| == 1 && entries[0].separator == ':' && Unescape(entries[0].rest) == Plain(DropCr(text))
  }

  /** A person's name among the parameters and the address behind them, which a reader finds
      exactly when the name has no colon outside quotes and closes its quotes. */
  ghost predicate ShowsPerson(entries: seq<Entry>, name: string, between: string, email: string) {
    && |entries| == 1 && entries[0].separator == ';'
    && (exists cn :: Unescape(cn) == Plain(DropCr(name)) && entries[0].rest == "CN=" + cn + between + ":" + ("mailto:" + email))
    && (ValueOf(entries[0].rest) == "mailto:" + email <==> Closed(name))
  }

  /** The event's identity and times. */
  ghost predicate DescribesTimes(lines: seq<string>, e: Event, domain: string, now: Moment) {
    && Entries(lines, "UID") == Value(UidOf(e, domain, now))
    && ShowsTime(Entries(lines, "DTSTAMP"), now.stampUs, true)
    && Entries(lines, "SEQUENCE") == Value(if e.sequence == "" then "0" else e.sequence)
    && Entries(lines, "STATUS") == OptionalValue(e.status, e.status)
    && ShowsTime(Entries(lines, "DTSTART"), e.startTimeUs, !e.floatingLocal)
    && ShowsTime(Entries(lines, "DTEND"), e.endTimeUs, !e.floatingLocal)
  }

  /** The event's texts and people, each there exactly when its field is not empty. */
  ghost predicate DescribesTexts(lines: seq<string>, e: Event) {
    && ShowsText(Entries(lines, "SUMMARY"), e.title)
    && (if e.location == "" then Entries(lines, "LOCATION") == [] else ShowsText(Entries(lines, "LOCATION"), e.location))
    && (if e.description == "" then Entries(lines, "DESCRIPTION") == []
        else ShowsText(Entries(lines, "DESCRIPTION"), e.description))
    && Entries(lines, "RRULE") == OptionalValue(e.rrule, e.rrule)
    && (if e.organizerEmail == "" then Entries(lines, "ORGANIZER") == []
        else ShowsPerson(Entries(lines, "ORGANIZER"), e.organizerName, "", e.organizerEmail))
    && (if e.attendeeEmail == "" then Entries(lines, "ATTENDEE") == []
        else ShowsPerson(Entries(lines, "ATTENDEE"), e.attendeeName, ";RSVP=FALSE", e.attendeeEmail))
  }

  /** The lines describe the event, property by property. */
  ghost predicate Describes(lines: seq<string>, e: Event, domain: string, now: Moment) {
    DescribesTimes(lines, e, domain, now) && DescribesTexts(lines, e)
  }

  lemma StartNames()
    ensures IsName("BEGIN") && IsName("UID") && IsName("DTSTAMP") && IsName("SEQUENCE") && IsName("STATUS")
    ensures IsName("DTSTART") && IsName("DTEND")
  {
  }

  lemma TextNames()
    ensures IsName("SUMMARY") && IsName("LOCATION") && IsName("DESCRIPTION") && IsName("RRULE")
    ensures IsName("ORGANIZER") && IsName("ATTENDEE")
  {
  }

  lemma Front(p: string, text: string)
    ensures p + ":" + text == p + [':'] + text
  {
  }

  lemma NoEntries(name: string)
    ensures Entries([], name) == []
  {
  }

  lemma StartEntries(e: Event, domain: string, now: Moment, name: string)
    ensures Entries(StartLines(e, domain, now), name)
      == Entering("BEGIN", Entry(':', "VEVENT"), name)
         + Entering("UID", Entry(':', UidOf(e, domain, now)), name)
         + Entering("DTSTAMP", Entry(':', FormatUtcDateTime(now.stampUs)), name)
         + Entering("SEQUENCE", Entry(':', if e.sequence == "" then "0" else e.sequence), name)
         + (if e.status != "" then Entering("STATUS", Entry(':', e.status), name) else [])
         + Entering("DTSTART", Entry(':', FormatTime(e, e.startTimeUs)), name)
         + Entering("DTEND", Entry(':', FormatTime(e, e.endTimeUs)), name)
  {
    hide When, FormatTime, FormatUtcDateTime, IntToString, NatToString, Entries, Entering, IsName;
    StartNames();
    var l: seq<string> := [];
    NoEntries(name);
    More(l, "BEGIN:VEVENT", "BEGIN", Entry(':', "VEVENT"), name);
    l := l + ["BEGIN:VEVENT"];
    var uid := "UID:" + ResolveUid(e.uid, domain, now);
    More(l, uid, "UID", Entry(':', UidOf(e, domain, now)), name);
    l := l + [uid];
    var stamp := "DTSTAMP:" + FormatUtcDateTime(now.stampUs);
    More(l, stamp, "DTSTAMP", Entry(':', FormatUtcDateTime(now.stampUs)), name);
    l := l + [stamp];
    var sequence := if e.sequence == "" then "0" else e.sequence;
    More(l, "SEQUENCE:" + sequence, "SEQUENCE", Entry(':', sequence), name);
    l := l + ["SEQUENCE:" + sequence];
    MoreWhen(l, e.status != "", "STATUS:" + e.status, "STATUS", Entry(':', e.status), name);
    l := l + When(e.status != "", "STATUS:" + e.status);
    var start := FormatTime(e, e.startTimeUs);
    More(l, "DTSTART:" + start, "DTSTART", Entry(':', start), name);
    l := l + ["DTSTART:" + start];
    var end := FormatTime(e, e.endTimeUs);
    More(l, "DTEND:" + end, "DTEND", Entry(':', end), name);
  }

  /** The rest of an entry with a person's name and address. */
  function PersonText(name: string, between: string, email: string): string {
    "CN=" + Escape(name) + between + ":" + ("mailto:" + email)
  }

  function FirstText(e: Event): seq<string> {
    [] + ["SUMMARY:" + Escape(e.title)]
    + When(e.location != "", "LOCATION:" + Escape(e.location))
    + When(e.description != "", "DESCRIPTION:" + Escape(e.description))
    + When(e.rrule != "", "RRULE:" + e.rrule)
  }

  function FirstEntries(e: Event, name: string): seq<Entry> {
    Entering("SUMMARY", Entry(':', Escape(e.title)), name)
    + (if e.location != "" then Entering("LOCATION", Entry(':', Escape(e.location)), name) else [])
    + (if e.description != "" then Entering("DESCRIPTION", Entry(':', Escape(e.description)), name) else [])
    + (if e.rrule != "" then Entering("RRULE", Entry(':', e.rrule), name) else [])
  }

  lemma FirstTextEntries(e: Event, name: string)
    ensures Entries(FirstText(e), name) == FirstEntries(e, name)
  {
    hide When, Escape, Entries, Entering, IsName;
    TextNames();
    NoEntries(name);
    var title, location, description := Escape(e.title), Escape(e.location), Escape(e.description);
    var l: seq<string> := [];
    More(l, "SUMMARY:" + title, "SUMMARY", Entry(':', title), name);
    l := l + ["SUMMARY:" + title];
    MoreWhen(l, e.location != "", "LOCATION:" + location, "LOCATION", Entry(':', location), name);
    l := l + When(e.location != "", "LOCATION:" + location);
    MoreWhen(l, e.description != "", "DESCRIPTION:" + description, "DESCRIPTION", Entry(':', description), name);
    l := l + When(e.description != "", "DESCRIPTION:" + description);
    MoreWhen(l, e.rrule != "", "RRULE:" + e.rrule, "RRULE", Entry(':', e.rrule), name);
  }

  lemma TextEntries(e: Event, name: string)
    ensures Entries(TextLines(e), name)
      == FirstEntries(e, name)
         + (if e.organizerEmail != "" then
              Entering("ORGANIZER", Entry(';', PersonText(e.organizerName, "", e.organizerEmail)), name) else [])
         + (if e.attendeeEmail != "" then
              Entering("ATTENDEE", Entry(';', PersonText(e.attendeeName, ";RSVP=FALSE", e.attendeeEmail)), name) else [])
  {
    hide When, Escape, Entries, Entering, FirstEntries, PersonText;
    FirstTextEntries(e, name);
    var l := FirstText(e);
    OrganizerEntry(l, e, name);
    l := l + When(e.organizerEmail != "", "ORGANIZER;CN=" + Escape(e.organizerName) + ":mailto:" + e.organizerEmail);
    AttendeeEntry(l, e, name);
  }

  lemma OrganizerEntry(l: seq<string>, e: Event, name: string)
    ensures Entries(
        l + When(e.organizerEmail != "", "ORGANIZER;CN=" + Escape(e.organizerName) + ":mailto:" + e.organizerEmail), name)
      == Entries(l, name)
         + if e.organizerEmail != "" then
             Entering("ORGANIZER", Entry(';', PersonText(e.organizerName, "", e.organizerEmail)), name) else []
  {
    hide When, Escape, Entries, Entering, IsName, PersonText;
    TextNames();
    OrganizerLine(e);
    var organizer := "ORGANIZER;CN=" + Escape(e.organizerName) + ":mailto:" + e.organizerEmail;
    MoreWhen(l, e.organizerEmail != "", organizer, "ORGANIZER",
             Entry(';', PersonText(e.organizerName, "", e.organizerEmail)), name);
  }

  lemma AttendeeEntry(l: seq<string>, e: Event, name: string)
    ensures Entries(
        l + When(e.attendeeEmail != "",
                 "ATTENDEE;CN=" + Escape(e.attendeeName) + ";RSVP=FALSE:mailto:" + e.attendeeEmail), name)
      == Entries(l, name)
         + if e.attendeeEmail != "" then
             Entering("ATTENDEE", Entry(';', PersonText(e.attendeeName, ";RSVP=FALSE", e.attendeeEmail)), name) else []
  {
    hide When, Escape, Entries, Entering, IsName, PersonText;
    TextNames();
    AttendeeLine(e);
    var attendee := "ATTENDEE;CN=" + Escape(e.attendeeName) + ";RSVP=FALSE:mailto:" + e.attendeeEmail;
    MoreWhen(l, e.attendeeEmail != "", attendee, "ATTENDEE",
             Entry(';', PersonText(e.attendeeName, ";RSVP=FALSE", e.attendeeEmail)), name);
  }

  lemma OrganizerLine(e: Event)
    ensures "ORGANIZER;CN=" + Escape(e.organizerName) + ":mailto:" + e.organizerEmail
         == "ORGANIZER" + [';'] + PersonText(e.organizerName, "", e.organizerEmail)
  {
    hide Escape;
    var n := Escape(e.organizerName);
    assert "ORGANIZER;CN=" == "ORGANIZER" + [';'] + "CN=" && ":mailto:" == ":" + "mailto:" && n + "" == n;
  }

  lemma AttendeeLine(e: Event)
    ensures "ATTENDEE;CN=" + Escape(e.attendeeName) + ";RSVP=FALSE:mailto:" + e.attendeeEmail
         == "ATTENDEE" + [';'] + PersonText(e.attendeeName, ";RSVP=FALSE", e.attendeeEmail)
  {
    hide Escape;
    assert "ATTENDEE;CN=" == "ATTENDEE" + [';'] + "CN=";
    assert ";RSVP=FALSE:mailto:" == ";RSVP=FALSE" + (":" + "mailto:");
  }

  lemma {:induction false} EntriesConcat(a: seq<string>, b: seq<string>, name: string)
    ensures Entries(a + b, name) == Entries(a, name) + Entries(b, name)
  {
    if b == [] {
      assert a + b == a;
    } else {
      assert (a + b)[..|a + b| - 1] == a + b[..|b| - 1];
      EntriesConcat(a, b[..|b| - 1], name);
    }
  }

  lemma StartValues(e: Event, domain: string, now: Moment)
    ensures var lines := StartLines(e, domain, now);
      && Entries(lines, "UID") == Value(UidOf(e, domain, now))
      && Entries(lines, "DTSTAMP") == Value(FormatUtcDateTime(now.stampUs))
      && Entries(lines, "SEQUENCE") == Value(if e.sequence == "" then "0" else e.sequence)
      && Entries(lines, "STATUS") == OptionalValue(e.status, e.status)
      && Entries(lines, "DTSTART") == Value(FormatTime(e, e.startTimeUs))
      && Entries(lines, "DTEND") == Value(FormatTime(e, e.endTimeUs))
  {
    hide StartLines, FormatTime, UidOf, FormatUtcDateTime, Entries;
    StartEntries(e, domain, now, "UID");
    StartEntries(e, domain, now, "DTSTAMP");
    StartEntries(e, domain, now, "SEQUENCE");
    StartEntries(e, domain, now, "STATUS");
    StartEntries(e, domain, now, "DTSTART");
    StartEntries(e, domain, now, "DTEND");
  }

  lemma StartLacks(e: Event, domain: string, now: Moment)
    ensures var lines := StartLines(e, domain, now);
      && Entries(lines, "SUMMARY") == [] && Entries(lines, "LOCATION") == [] && Entries(lines, "DESCRIPTION") == []
      && Entries(lines, "RRULE") == [] && Entries(lines, "ORGANIZER") == [] && Entries(lines, "ATTENDEE") == []
  {
    hide StartLines, FormatTime, UidOf, FormatUtcDateTime, Entries;
    StartEntries(e, domain, now, "SUMMARY");
    StartEntries(e, domain, now, "LOCATION");
    StartEntries(e, domain, now, "DESCRIPTION");
    StartEntries(e, domain, now, "RRULE");
    StartEntries(e, domain, now, "ORGANIZER");
    StartEntries(e, domain, now, "ATTENDEE");
  }

  lemma TextValues(e: Event)
    ensures var lines := TextLines(e);
      && Entries(lines, "SUMMARY") == Value(Escape(e.title))
      && Entries(lines, "LOCATION") == OptionalValue(e.location, Escape(e.location))
      && Entries(lines, "DESCRIPTION") == OptionalValue(e.description, Escape(e.description))
      && Entries(lines, "RRULE") == OptionalValue(e.rrule, e.rrule)
  {
    hide TextLines, PersonText, Escape, Entries;
    TextEntries(e, "SUMMARY");
    TextEntries(e, "LOCATION");
    TextEntries(e, "DESCRIPTION");
    TextEntries(e, "RRULE");
  }

  lemma PersonValues(e: Event)
    ensures var lines := TextLines(e);
      && Entries(lines, "ORGANIZER") == (if e.organizerEmail == "" then []
           else [Entry(';', PersonText(e.organizerName, "", e.organizerEmail))])
      && Entries(lines, "ATTENDEE") == (if e.attendeeEmail == "" then []
           else [Entry(';', PersonText(e.attendeeName, ";RSVP=FALSE", e.attendeeEmail))])
  {
    hide TextLines, PersonText, Escape, Entries;
    TextEntries(e, "ORGANIZER");
    TextEntries(e, "ATTENDEE");
  }

  lemma TextLacks(e: Event)
    ensures var lines := TextLines(e);
      && Entries(lines, "UID") == [] && Entries(lines, "DTSTAMP") == [] && Entries(lines, "SEQUENCE") == []
      && Entries(lines, "STATUS") == [] && Entries(lines, "DTSTART") == [] && Entries(lines, "DTEND") == []
  {
    hide TextLines, PersonText, Escape, Entries;
    TextEntries(e, "UID");
    TextEntries(e, "DTSTAMP");
    TextEntries(e, "SEQUENCE");
    TextEntries(e, "STATUS");
    TextEntries(e, "DTSTART");
    TextEntries(e, "DTEND");
  }

  lemma TimeShown(e: Event, us: int)
    ensures ShowsTime(Value(FormatTime(e, us)), us, !e.floatingLocal)
  {
    hide FormatUtcDateTime, FormatFloatingDateTime, ReadDateTime;
    TimeReadsExactly(us, !e.floatingLocal);
  }

  lemma StampShown(us: int)
    ensures ShowsTime(Value(FormatUtcDateTime(us)), us, true)
  {
    hide FormatUtcDateTime, FormatFloatingDateTime, ReadDateTime;
    TimeReadsExactly(us, true);
  }

  lemma PersonShown(name: string, between: string, email: string)
    requires between == "" || between == ";RSVP=FALSE"
    ensures ShowsPerson([Entry(';', PersonText(name, between, email))], name, between, email)
  {
    hide Escape, Unescape, ValueOf, Closed;
    EscapeRoundTrip(name);
    AddressReadsExactly(name, between, "mailto:" + email);
  }

  lemma FromFirst(a: seq<string>, b: seq<string>, name: string)
    requires Entries(b, name) == []
    ensures Entries(a + b, name) == Entries(a, name)
  {
    EntriesConcat(a, b, name);
    assert Entries(a, name) + [] == Entries(a, name);
  }

  lemma FromSecond(a: seq<string>, b: seq<string>, name: string)
    requires Entries(a, name) == []
    ensures Entries(a + b, name) == Entries(b, name)
  {
    EntriesConcat(a, b, name);
    assert [] + Entries(b, name) == Entries(b, name);
  }

  lemma TimesDescribed(e: Event, domain: string, now: Moment)
    ensures DescribesTimes(StartLines(e, domain, now) + TextLines(e), e, domain, now)
  {
    hide StartLines, TextLines, Entries, FormatTime, FormatUtcDateTime, ShowsTime, UidOf;
    var a, b := StartLines(e, domain, now), TextLines(e);
    StartValues(e, domain, now);
    TextLacks(e);
    FromFirst(a, b, "UID"); FromFirst(a, b, "DTSTAMP"); FromFirst(a, b, "SEQUENCE");
    FromFirst(a, b, "STATUS"); FromFirst(a, b, "DTSTART"); FromFirst(a, b, "DTEND");
    StampShown(now.stampUs); TimeShown(e, e.startTimeUs); TimeShown(e, e.endTimeUs);
  }

  lemma TextsDescribed(e: Event, domain: string, now: Moment)
    ensures DescribesTexts(StartLines(e, domain, now) + TextLines(e), e)
  {
    hide StartLines, TextLines, Entries, Escape, Unescape, ShowsPerson, PersonText;
    var a, b := StartLines(e, domain, now), TextLines(e);
    StartLacks(e, domain, now);
    TextValues(e);
    PersonValues(e);
    FromSecond(a, b, "SUMMARY"); FromSecond(a, b, "LOCATION"); FromSecond(a, b, "DESCRIPTION");
    FromSecond(a, b, "RRULE"); FromSecond(a, b, "ORGANIZER"); FromSecond(a, b, "ATTENDEE");
    EscapeRoundTrip(e.title); EscapeRoundTrip(e.location); EscapeRoundTrip(e.description);
    PersonShown(e.organizerName, "", e.organizerEmail);
    PersonShown(e.attendeeName, ";RSVP=FALSE", e.attendeeEmail);
  }

  /** The lines of one event, found by property name, are the event's fields. */
  lemma EventDescribed(e: Event, domain: string, now: Moment)
    ensures Describes(StartLines(e, domain, now) + TextLines(e), e, domain, now)
  {
    hide DescribesTimes, DescribesTexts;
    TimesDescribed(e, domain, now);
    TextsDescribed(e, domain, now);
  }

  // ---- the events of a calendar ----

  /** Lines before the first event are passed over. */
  lemma {:induction false} SkipLines(lines: seq<string>, rest: seq<string>)
    requires "BEGIN:VEVENT" !in lines
    ensures Events(lines + rest) == Events(rest)
  {
    if lines == [] {
      assert lines + rest == rest;
    } else {
      assert lines[0] in lines;
      assert (lines + rest)[1..] == lines[1..] + rest;
      SkipLines(lines[1..], rest);
    }
  }

  lemma {:induction false} BeforeEnd(lines: seq<string>, end: string, rest: seq<string>)
    requires end !in lines
    ensures Before(lines + [end] + rest, end) == |lines|
  {
    var all := lines + [end] + rest;
    if lines != [] {
      assert lines[0] in lines;
      assert all[1..] == lines[1..] + [end] + rest;
      BeforeEnd(lines[1..], end, rest);
    }
  }

  lemma OneEvent(block: seq<string>, rest: seq<string>)
    requires block != [] && block[0] == "BEGIN:VEVENT" && "END:VEVENT" !in block[1..]
    ensures Events(block + ["END:VEVENT"] + rest) == [block] + Events(rest)
  {
    var all := block + ["END:VEVENT"] + rest;
    assert all[1..] == block[1..] + ["END:VEVENT"] + rest;
    BeforeEnd(block[1..], "END:VEVENT", rest);
    assert all[..|block|] == block;
    assert all[|block|..] == ["END:VEVENT"] + rest;
    SkipLines(["END:VEVENT"], rest);
  }

  /** A line of a property is among its entries. */
  lemma {:induction false} LineEnters(lines: seq<string>, name: string, value: string)
    requires IsName(name) && name + ":" + value in lines
    ensures Entry(':', value) in Entries(lines, name)
  {
    var n := |lines| - 1;
    if lines[n] == name + ":" + value {
      NameEnds(name, ':', value);
      assert name + ":" + value == name + [':'] + value;
      assert lines[n][..|name|] == name && lines[n][|name| + 1..] == value;
    } else {
      assert lines == lines[..n] + [lines[n]];
      LineEnters(lines[..n], name, value);
    }
  }

  function Block(e: Event, domain: string, now: Moment): seq<string> {
    StartLines(e, domain, now) + TextLines(e)
  }

  lemma EndNotEntered(e: Event, domain: string, now: Moment)
    ensures Entries(Block(e, domain, now), "END") == []
  {
    hide StartLines, TextLines, Entries, FormatTime, UidOf, PersonText, Escape, FormatUtcDateTime;
    StartEntries(e, domain, now, "END");
    TextEntries(e, "END");
    FromFirst(StartLines(e, domain, now), TextLines(e), "END");
  }

  lemma BeginsWith(e: Event, domain: string, now: Moment)
    ensures StartLines(e, domain, now) != [] && StartLines(e, domain, now)[0] == "BEGIN:VEVENT"
  {
    hide When, FormatTime, ResolveUid, FormatUtcDateTime;
  }

  lemma BlockIsOpen(e: Event, domain: string, now: Moment)
    ensures var block := Block(e, domain, now);
      block != [] && block[0] == "BEGIN:VEVENT" && "END:VEVENT" !in block[1..]
  {
    BeginsWith(e, domain, now);
    hide StartLines, TextLines, Entries;
    EndNotEntered(e, domain, now);
    EndIsName();
    var block := Block(e, domain, now);
    if "END:VEVENT" in block { LineEnters(block, "END", "VEVENT"); }
    hide Block;
    assert forall line :: line in block[1..] ==> line in block;
  }

  lemma EndIsName()
    ensures IsName("END") && "END" + ":" + "VEVENT" == "END:VEVENT"
    ensures IsName("BEGIN") && "BEGIN" + ":" + "VEVENT" == "BEGIN:VEVENT"
  {
  }

  function Blocks(events: seq<Event>, domain: string, moments: seq<Moment>): seq<seq<string>>
    requires |moments| == |events|
  {
    seq(|events|, i requires 0 <= i < |events| => Block(events[i], domain, moments[i]))
  }

  lemma NextBlock(events: seq<Event>, domain: string, moments: seq<Moment>)
    requires |moments| == |events| > 0
    ensures var n := |events| - 1;
      Blocks(events, domain, moments)
      == Blocks(events[..n], domain, moments[..n]) + [Block(events[n], domain, moments[n])]
  {
    hide Block;
    var n := |events| - 1;
    var all, front := Blocks(events, domain, moments), Blocks(events[..n], domain, moments[..n]);
    assert |all| == n + 1 && |front| == n;
    assert forall i :: 0 <= i < n ==> all[i] == front[i];
    assert all[n] == Block(events[n], domain, moments[n]);
  }

  lemma NextLines(events: seq<Event>, domain: string, moments: seq<Moment>)
    requires |moments| == |events| > 0
    ensures var n := |events| - 1;
      AllEventLines(events, domain, moments)
      == AllEventLines(events[..n], domain, moments[..n]) + (Block(events[n], domain, moments[n]) + ["END:VEVENT"])
  {
    hide Block, EventLines;
    LinesOfBlock(events[|events| - 1], domain, moments[|events| - 1]);
  }

  lemma LinesOfBlock(e: Event, domain: string, now: Moment)
    ensures EventLines(e, domain, now) == Block(e, domain, now) + ["END:VEVENT"]
  {
    hide StartLines, TextLines;
  }

  lemma {:induction false} EventsFound(events: seq<Event>, domain: string, moments: seq<Moment>, rest: seq<string>)
    requires |moments| == |events|
    ensures Events(AllEventLines(events, domain, moments) + rest) == Blocks(events, domain, moments) + Events(rest)
    decreases |events|
  {
    if events == [] {
      assert AllEventLines(events, domain, moments) + rest == rest;
    } else {
      hide Events, EventLines, Block, Blocks, AllEventLines;
      var n := |events| - 1;
      var front, block := AllEventLines(events[..n], domain, moments[..n]), Block(events[n], domain, moments[n]);
      NextBlock(events, domain, moments);
      NextLines(events, domain, moments);
      EventsFound(events[..n], domain, moments[..n], block + ["END:VEVENT"] + rest);
      BlockIsOpen(events[n], domain, moments[n]);
      LastEvent(front, block, Blocks(events[..n], domain, moments[..n]), rest);
    }
  }

  lemma LastEvent(front: seq<string>, block: seq<string>, found: seq<seq<string>>, rest: seq<string>)
    requires block != [] && block[0] == "BEGIN:VEVENT" && "END:VEVENT" !in block[1..]
    requires Events(front + (block + ["END:VEVENT"] + rest)) == found + Events(block + ["END:VEVENT"] + rest)
    ensures Events(front + (block + ["END:VEVENT"]) + rest) == found + [block] + Events(rest)
  {
    OneEvent(block, rest);
    hide Events;
    AssocLines(front, block + ["END:VEVENT"], rest);
    assert found + ([block] + Events(rest)) == found + [block] + Events(rest);
  }

  // ---- the head of a calendar ----

  /** The lines in front of the first event, or of the end of the calendar. */
  function Head(lines: seq<string>): seq<string> {
    if lines == [] || lines[0] == "BEGIN:VEVENT" || lines[0] == "END:VCALENDAR" then []
    else [lines[0]] + Head(lines[1..])
  }

  /** The head names the product, the calendar and the interval, the last two only when
      there is one. */
  predicate DescribesHead(lines: seq<string>, c: Config) {
    && Entries(lines, "VERSION") == Value("2.0") && Entries(lines, "CALSCALE") == Value("GREGORIAN")
    && Entries(lines, "METHOD") == Value("PUBLISH")
    && Entries(lines, "PRODID") == Value(c.prodId)
    && (if c.calendarName == "" then Entries(lines, "X-WR-CALNAME") == []
        else ShowsText(Entries(lines, "X-WR-CALNAME"), c.calendarName))
    && Entries(lines, "REFRESH-INTERVAL")
       == (if c.refreshInterval == "" then [] else [Entry(';', "VALUE=DURATION:" + c.refreshInterval)])
    && Entries(lines, "X-PUBLISHED-TTL") == OptionalValue(c.refreshInterval, c.refreshInterval)
  }

  lemma HeadNames()
    ensures IsName("BEGIN") && IsName("VERSION") && IsName("PRODID") && IsName("CALSCALE") && IsName("METHOD")
    ensures IsName("X-WR-CALNAME") && IsName("REFRESH-INTERVAL") && IsName("X-PUBLISHED-TTL")
  {
  }

  function FirstHead(c: Config): seq<string> {
    [] + ["BEGIN:VCALENDAR"] + ["VERSION:2.0"] + ["PRODID:" + c.prodId]
    + ["CALSCALE:GREGORIAN"] + ["METHOD:PUBLISH"]
  }

  lemma FirstHeadEntries(c: Config, name: string)
    ensures Entries(FirstHead(c), name)
      == Entering("BEGIN", Entry(':', "VCALENDAR"), name) + Entering("VERSION", Entry(':', "2.0"), name)
         + Entering("PRODID", Entry(':', c.prodId), name) + Entering("CALSCALE", Entry(':', "GREGORIAN"), name)
         + Entering("METHOD", Entry(':', "PUBLISH"), name)
  {
    hide Entries, Entering, IsName;
    HeadNames();
    NoEntries(name);
    var l: seq<string> := [];
    More(l, "BEGIN:VCALENDAR", "BEGIN", Entry(':', "VCALENDAR"), name);
    l := l + ["BEGIN:VCALENDAR"];
    More(l, "VERSION:2.0", "VERSION", Entry(':', "2.0"), name);
    l := l + ["VERSION:2.0"];
    More(l, "PRODID:" + c.prodId, "PRODID", Entry(':', c.prodId), name);
    l := l + ["PRODID:" + c.prodId];
    More(l, "CALSCALE:GREGORIAN", "CALSCALE", Entry(':', "GREGORIAN"), name);
    l := l + ["CALSCALE:GREGORIAN"];
    More(l, "METHOD:PUBLISH", "METHOD", Entry(':', "PUBLISH"), name);
  }

  lemma HeadEntries(c: Config, name: string)
    ensures Entries(HeadLines(c), name)
      == Entries(FirstHead(c), name)
         + (if c.calendarName != "" then Entering("X-WR-CALNAME", Entry(':', Escape(c.calendarName)), name) else [])
         + (if c.refreshInterval != "" then
              Entering("REFRESH-INTERVAL", Entry(';', "VALUE=DURATION:" + c.refreshInterval), name) else [])
         + (if c.refreshInterval != "" then Entering("X-PUBLISHED-TTL", Entry(':', c.refreshInterval), name) else [])
  {
    hide Entries, Entering, IsName, When, Escape;
    HeadNames();
    RefreshLine(c.refreshInterval);
    var l := FirstHead(c);
    MoreWhen(l, c.calendarName != "", "X-WR-CALNAME:" + Escape(c.calendarName), "X-WR-CALNAME",
             Entry(':', Escape(c.calendarName)), name);
    l := l + When(c.calendarName != "", "X-WR-CALNAME:" + Escape(c.calendarName));
    MoreWhen(l, c.refreshInterval != "", "REFRESH-INTERVAL;VALUE=DURATION:" + c.refreshInterval, "REFRESH-INTERVAL",
             Entry(';', "VALUE=DURATION:" + c.refreshInterval), name);
    l := l + When(c.refreshInterval != "", "REFRESH-INTERVAL;VALUE=DURATION:" + c.refreshInterval);
    MoreWhen(l, c.refreshInterval != "", "X-PUBLISHED-TTL:" + c.refreshInterval, "X-PUBLISHED-TTL",
             Entry(':', c.refreshInterval), name);
  }

  lemma RefreshLine(interval: string)
    ensures "REFRESH-INTERVAL;VALUE=DURATION:" + interval == "REFRESH-INTERVAL" + [';'] + ("VALUE=DURATION:" + interval)
  {
    assert "REFRESH-INTERVAL;VALUE=DURATION:" == "REFRESH-INTERVAL" + [';'] + "VALUE=DURATION:";
  }

  lemma HeadDescribed(c: Config)
    ensures DescribesHead(HeadLines(c), c)
  {
    hide Entries, HeadLines, Escape, Unescape, FirstHead;
    EscapeRoundTrip(c.calendarName);
    FirstHeadEntries(c, "CALSCALE"); FirstHeadEntries(c, "METHOD");
    HeadEntries(c, "CALSCALE"); HeadEntries(c, "METHOD");
    FirstHeadEntries(c, "VERSION"); FirstHeadEntries(c, "PRODID"); FirstHeadEntries(c, "X-WR-CALNAME");
    FirstHeadEntries(c, "REFRESH-INTERVAL"); FirstHeadEntries(c, "X-PUBLISHED-TTL");
    HeadEntries(c, "VERSION"); HeadEntries(c, "PRODID"); HeadEntries(c, "X-WR-CALNAME");
    HeadEntries(c, "REFRESH-INTERVAL"); HeadEntries(c, "X-PUBLISHED-TTL");
  }

  lemma HeadHasNoEvent(c: Config)
    ensures "BEGIN:VEVENT" !in HeadLines(c)
  {
    hide Entries, HeadLines, Escape, FirstHead;
    FirstHeadEntries(c, "BEGIN");
    HeadEntries(c, "BEGIN");
    EndIsName();
    if "BEGIN:VEVENT" in HeadLines(c) { LineEnters(HeadLines(c), "BEGIN", "VEVENT"); }
  }

  lemma HeadHasNoEnd(c: Config)
    ensures "END:VCALENDAR" !in HeadLines(c)
  {
    hide Entries, HeadLines, Escape, FirstHead;
    FirstHeadEntries(c, "END");
    HeadEntries(c, "END");
    EndIsName();
    assert "END" + ":" + "VCALENDAR" == "END:VCALENDAR";
    if "END:VCALENDAR" in HeadLines(c) { LineEnters(HeadLines(c), "END", "VCALENDAR"); }
  }

  lemma {:induction false} HeadEnds(head: seq<string>, rest: seq<string>)
    requires "BEGIN:VEVENT" !in head && "END:VCALENDAR" !in head
    requires rest != [] && (rest[0] == "BEGIN:VEVENT" || rest[0] == "END:VCALENDAR")
    ensures Head(head + rest) == head
  {
    if head == [] {
      assert head + rest == rest;
    } else {
      assert head[0] in head;
      assert (head + rest)[1..] == head[1..] + rest;
      HeadEnds(head[1..], rest);
    }
  }

  lemma {:induction false} EventsBegin(events: seq<Event>, domain: string, moments: seq<Moment>)
    requires |moments| == |events| > 0
    ensures var lines := AllEventLines(events, domain, moments); lines != [] && lines[0] == "BEGIN:VEVENT"
  {
    hide Block, AllEventLines;
    var n := |events| - 1;
    var front, block := AllEventLines(events[..n], domain, moments[..n]), Block(events[n], domain, moments[n]);
    NextLines(events, domain, moments);
    BlockIsOpen(events[n], domain, moments[n]);
    if n > 0 {
      EventsBegin(events[..n], domain, moments[..n]);
    } else {
      assert events[..n] == [] && moments[..n] == [];
      NoEventLines(domain);
    }
    FirstLine(front, block, ["END:VEVENT"]);
  }

  lemma FirstLine(front: seq<string>, block: seq<string>, end: seq<string>)
    requires block != []
    ensures var all := front + (block + end); all != [] && all[0] == if front == [] then block[0] else front[0]
  {
  }

  lemma NoEventLines(domain: string)
    ensures AllEventLines([], domain, []) == []
  {
  }

  // ---- the whole calendar ----

  /** A reader of the lines finds the events in order, each with its fields, and the head. */
  ghost predicate ReadsAs(lines: seq<string>, events: seq<Event>, c: Config, moments: seq<Moment>)
    requires |moments| == |events|
  {
    && |Events(lines)| == |events|
    && (forall i :: 0 <= i < |events| ==> Describes(Events(lines)[i], events[i], c.uidDomain, moments[i]))
    && DescribesHead(Head(lines), c)
  }

  lemma CalendarDescribed(events: seq<Event>, c: Config, moments: seq<Moment>)
    requires |moments| == |events|
    ensures ReadsAs(CalendarLines(events, c, moments), events, c, moments)
  {
    hide Describes, DescribesHead, HeadLines, AllEventLines, Block, Head;
    var head, all, end := HeadLines(c), AllEventLines(events, c.uidDomain, moments), ["END:VCALENDAR"];
    AssocLines(head, all, end);
    HeadHasNoEvent(c);
    HeadHasNoEnd(c);
    HeadDescribed(c);
    SkipLines(head, all + end);
    EventsFound(events, c.uidDomain, moments, end);
    assert Events(end) == [] by { SkipLines(end, []); assert end + [] == end; }
    if events == [] { NoEventLines(c.uidDomain); } else { EventsBegin(events, c.uidDomain, moments); }
    HeadEnds(head, all + end);
    forall i | 0 <= i < |events|
      ensures Describes(Block(events[i], c.uidDomain, moments[i]), events[i], c.uidDomain, moments[i])
    {
      BlockDescribed(events[i], c.uidDomain, moments[i]);
    }
  }

  lemma BlockDescribed(e: Event, domain: string, now: Moment)
    ensures Describes(Block(e, domain, now), e, domain, now)
  {
    hide Describes;
    EventDescribed(e, domain, now);
  }
}
