/** The whole document: the lines that `GenerateImpl` emits, the loop that folds them,
    and a reader that unfolds and splits the result (section 3.1 of RFC 5545). The wall
    clock and the counter behind synthetic identifiers are parameters. */
module ICalDocument {
  import opened Text
  import opened ICal
  import opened Calendar

  // ---- reading a document ----

  /** Deletes every line break that is followed by a space or a tab, with that character. */
  function Unfold(s: string): string {
    if s == "" then ""
    else if |s| >= 3 && s[0] == '\r' && s[1] == '\n' && (s[2] == ' ' || s[2] == '\t') then Unfold(s[3..])
    else [s[0]] + Unfold(s[1..])
  }

  /** Offset of the first line break, or the length of s. */
  function FindCrlf(s: string): (e: nat)
    ensures e <= |s|
    ensures e < |s| ==> e + 2 <= |s|
  {
    if |s| < 2 then |s|
    else if s[0] == '\r' && s[1] == '\n' then 0
    else 1 + FindCrlf(s[1..])
  }

  /** The lines of a text, each ended by a line break. */
  function SplitLines(s: string): seq<string>
    decreases |s|
  {
    if s == "" then []
    else
      var e := FindCrlf(s);
      if e == |s| then [s] else [s[..e]] + SplitLines(s[e + 2..])
  }

  function ReadDocument(text: string): seq<string> { SplitLines(Unfold(text)) }

  // ---- writing lines ----

  /** The break that ends a line. */
  function Eol(): string { "\r\n" }

  function RawLines(lines: seq<string>): string {
    if lines == [] then "" else lines[0] + Eol() + RawLines(lines[1..])
  }

  function FoldedLines(lines: seq<string>): string {
    if lines == [] then "" else Fold(lines[0]) + Eol() + FoldedLines(lines[1..])
  }

  /** The folding loop at the end of GenerateImpl. */
  method FoldAll(raw: string) returns (folded: string)
    ensures folded == FoldedLines(SplitLines(raw))
  {
    hide SplitLines, FoldedLines, Eol, Fold;
    folded := "";
    var pos := 0;
    while pos < |raw|
      invariant pos <= |raw|
      invariant folded + FoldedLines(SplitLines(raw[pos..])) == FoldedLines(SplitLines(raw))
      decreases |raw| - pos
    {
      FoldOne(folded, raw[pos..]);
      var eol := pos + FindCrlf(raw[pos..]);
      var line := raw[pos..eol];
      assert raw[pos..][..eol - pos] == line;
      var foldedLine := FoldLine(line);
      folded := folded + foldedLine;
      folded := folded + Eol();
      if eol == |raw| { return; }
      assert raw[pos..][eol - pos + 2..] == raw[eol + 2..];
      pos := eol + 2;
    }
    EndFolding(folded, raw[pos..]);
  }

  lemma EndFolding(done: string, rest: string)
    requires rest == ""
    ensures done + FoldedLines(SplitLines(rest)) == done
  {
  }

  lemma FoldOne(done: string, s: string)
    requires s != ""
    ensures var e := FindCrlf(s);
      done + FoldedLines(SplitLines(s))
      == if e == |s| then done + Fold(s[..e]) + Eol()
         else done + Fold(s[..e]) + Eol() + FoldedLines(SplitLines(s[e + 2..]))
  {
    hide Eol, Fold;
    var e := FindCrlf(s);
    var later := if e == |s| then [] else SplitLines(s[e + 2..]);
    assert s[..|s|] == s;
    assert SplitLines(s) == [s[..e]] + later;
    assert ([s[..e]] + later)[1..] == later;
    Assoc4(done, Fold(s[..e]), Eol(), FoldedLines(later));
    if e == |s| { NothingAfter(done + Fold(s[..e]) + Eol()); }
  }

  lemma NothingAfter(s: string)
    ensures s + "" == s
  {
  }

  // ---- what the reader sees ----

  lemma {:induction false} FindAfter(line: string, rest: string)
    requires Lacks(line, '\r')
    ensures FindCrlf(line + Eol() + rest) == |line|
  {
    var s := line + Eol() + rest;
    if line == "" {
      assert s[0] == '\r' && s[1] == '\n';
    } else {
      assert s[0] == line[0] && s[0] in line;
      assert s[1..] == line[1..] + Eol() + rest;
      FindAfter(line[1..], rest);
    }
  }

  lemma SplitFront(line: string, rest: string)
    requires Lacks(line, '\r')
    ensures SplitLines(line + Eol() + rest) == [line] + SplitLines(rest)
  {
    FindAfter(line, rest);
    var s := line + Eol() + rest;
    assert s[..|line|] == line && s[|line| + 2..] == rest;
  }

  ghost predicate NoCr(lines: seq<string>) {
    forall i :: 0 <= i < |lines| ==> Lacks(lines[i], '\r')
  }

  lemma {:induction false} SplitRaw(lines: seq<string>)
    requires NoCr(lines)
    ensures SplitLines(RawLines(lines)) == lines
  {
    if lines != [] {
      hide SplitLines, Eol;
      SplitFront(lines[0], RawLines(lines[1..]));
      SplitRaw(lines[1..]);
      assert [lines[0]] + lines[1..] == lines;
    }
  }

  lemma {:induction false} UnfoldFront(a: string, b: string)
    requires Lacks(a, '\r')
    ensures Unfold(a + b) == a + Unfold(b)
  {
    if a == "" {
      assert a + b == b;
    } else {
      assert (a + b)[0] == a[0] && a[0] in a;
      assert (a + b)[1..] == a[1..] + b;
      UnfoldFront(a[1..], b);
      assert [a[0]] + (a[1..] + Unfold(b)) == a + Unfold(b);
    }
  }

  lemma UnfoldContinuation(b: string)
    ensures Unfold(Continuation() + b) == Unfold(b)
  {
    assert (Continuation() + b)[3..] == b;
  }

  /** A line break stays when what follows is not a continuation. */
  lemma UnfoldEol(b: string)
    requires b == "" || (b[0] != ' ' && b[0] != '\t')
    ensures Unfold(Eol() + b) == Eol() + Unfold(b)
  {
    EolFront(b);
    UnfoldPlain(Eol() + b);
    UnfoldLf(b);
    hide Unfold, Eol;
    Assoc("\r", "\n", Unfold(b));
    assert Eol() == "\r" + "\n";
  }

  lemma EolFront(b: string)
    ensures var s := Eol() + b;
      && Eol() == "\r" + "\n" && |s| == |b| + 2 && s[0] == '\r' && s[1..] == "\n" + b && (b != "" ==> s[2] == b[0])
  {
  }

  lemma UnfoldPlain(s: string)
    requires s != "" && (|s| >= 3 ==> s[2] != ' ' && s[2] != '\t')
    ensures Unfold(s) == [s[0]] + Unfold(s[1..])
  {
  }

  lemma UnfoldLf(b: string)
    ensures Unfold("\n" + b) == "\n" + Unfold(b)
  {
    assert ("\n" + b)[0] == '\n' && ("\n" + b)[1..] == b;
  }

  lemma {:induction false} UnfoldJoin(segments: seq<string>, b: string)
    requires segments != [] && NoCr(segments)
    ensures Unfold(Join(segments) + b) == Concat(segments) + Unfold(b)
  {
    hide Unfold, Continuation;
    var first := segments[0];
    if |segments| == 1 {
      UnfoldFront(first, b);
      assert Concat(segments) == first + "";
      assert first + "" == first;
    } else {
      var later := segments[1..];
      UnfoldJoin(later, b);
      Assoc4(first, Continuation(), Join(later), b);
      Assoc(first, Continuation() + Join(later), b);
      Assoc(Continuation(), Join(later), b);
      UnfoldFront(first, Continuation() + (Join(later) + b));
      UnfoldContinuation(Join(later) + b);
      Assoc(first, Concat(later), Unfold(b));
    }
  }

  lemma {:induction false} PiecesLack(segments: seq<string>)
    requires Lacks(Concat(segments), '\r')
    ensures NoCr(segments)
  {
    if segments != [] {
      var rest := Concat(segments[1..]);
      forall c | c in segments[0] || c in rest ensures c in Concat(segments) {}
      PiecesLack(segments[1..]);
      assert forall i :: 1 <= i < |segments| ==> segments[i] == segments[1..][i - 1];
    }
  }

  /** Unfolding a folded line gives the line back, in front of anything. */
  lemma UnfoldFold(line: string, b: string)
    requires Lacks(line, '\r')
    ensures Unfold(Fold(line) + b) == line + Unfold(b)
  {
    FoldSplits(line);
    PiecesLack(FoldSegments(line));
    UnfoldJoin(FoldSegments(line), b);
  }

  /** A logical line may follow another: it is not empty and does not look like a continuation. */
  ghost predicate StartsLine(line: string) { line != "" && line[0] != ' ' && line[0] != '\t' }

  ghost predicate ProperLines(lines: seq<string>) {
    NoCr(lines) && forall i :: 0 <= i < |lines| ==> StartsLine(lines[i])
  }

  lemma {:induction false} UnfoldLines(lines: seq<string>)
    requires ProperLines(lines)
    ensures Unfold(FoldedLines(lines)) == RawLines(lines)
  {
    if lines != [] {
      hide Unfold, Fold, Eol;
      var line, later := lines[0], lines[1..];
      var tail := FoldedLines(later);
      UnfoldLines(later);
      assert tail == "" || (tail[0] != ' ' && tail[0] != '\t') by {
        if later != [] {
          assert StartsLine(lines[1]);
        }
      }
      Assoc(Fold(line), Eol(), tail);
      UnfoldFold(line, Eol() + tail);
      UnfoldEol(tail);
      Assoc(line, Eol(), RawLines(later));
    }
  }

  // ---- physical lines ----

  function Continued(segments: seq<string>): seq<string> {
    if segments == [] then [] else [" " + segments[0]] + Continued(segments[1..])
  }

  function Physical(segments: seq<string>): seq<string> {
    if segments == [] then [] else [segments[0]] + Continued(segments[1..])
  }

  function PhysicalLines(lines: seq<string>): seq<string> {
    if lines == [] then [] else Physical(FoldSegments(lines[0])) + PhysicalLines(lines[1..])
  }

  /** A continuation line, with its space, is the first segment of what remains. */
  function Indented(segments: seq<string>): seq<string>
    requires |segments| > 1
  {
    [" " + segments[1]] + segments[2..]
  }

  lemma JoinIndented(segments: seq<string>)
    requires |segments| > 1
    ensures Join(segments) == segments[0] + Eol() + Join(Indented(segments))
  {
    var first, later := segments[0], segments[1..];
    JoinUnfold(segments);
    ContinuationIsEol();
    JoinShifted(segments);
    hide Join, Continuation, Eol, Indented;
    Assoc4(first, Eol(), " ", Join(later));
    Assoc(first, Eol(), " ");
  }

  lemma JoinUnfold(segments: seq<string>)
    requires |segments| > 1
    ensures Join(segments) == segments[0] + Continuation() + Join(segments[1..])
  {
  }

  lemma ContinuationIsEol()
    ensures Continuation() == Eol() + " "
  {
  }

  lemma JoinShifted(segments: seq<string>)
    requires |segments| > 1
    ensures Join(Indented(segments)) == " " + Join(segments[1..])
  {
    var later, indented := segments[1..], Indented(segments);
    assert indented[1..] == segments[2..] && later[1..] == segments[2..];
    if |segments| > 2 {
      JoinUnfold(later);
      JoinUnfold(indented);
      hide Join, Continuation;
      Assoc4(" ", segments[1], Continuation(), Join(segments[2..]));
    }
  }

  lemma PhysicalIndented(segments: seq<string>)
    requires |segments| > 1 && NoCr(segments)
    ensures Physical(segments) == [segments[0]] + Physical(Indented(segments))
    ensures NoCr(Indented(segments))
  {
    assert segments[1..][1..] == segments[2..];
    assert Indented(segments)[1..] == segments[2..];
    forall i | 0 <= i < |Indented(segments)| ensures Lacks(Indented(segments)[i], '\r') {
      assert Lacks(segments[i + 1], '\r');
    }
  }

  lemma AssocLines(a: seq<string>, b: seq<string>, c: seq<string>)
    ensures a + (b + c) == a + b + c
  {
  }

  lemma {:induction false} SplitJoin(segments: seq<string>, rest: string)
    requires segments != [] && NoCr(segments)
    ensures SplitLines(Join(segments) + Eol() + rest) == Physical(segments) + SplitLines(rest)
    decreases |segments|
  {
    hide SplitLines, Eol;
    var first := segments[0];
    if |segments| == 1 {
      SplitFront(first, rest);
      assert Physical(segments) == [first];
    } else {
      hide Join, Physical, Indented, NoCr;
      var indented := Indented(segments);
      JoinIndented(segments);
      PhysicalIndented(segments);
      Assoc4(first + Eol(), Join(indented), Eol(), rest);
      SplitFront(first, Join(indented) + Eol() + rest);
      SplitJoin(indented, rest);
      AssocLines([first], Physical(indented), SplitLines(rest));
    }
  }

  lemma {:induction false} ContinuedFit(segments: seq<string>)
    requires forall i :: 0 <= i < |segments| ==> |segments[i]| <= MAX_OCTETS - 1
    ensures forall i :: 0 <= i < |Continued(segments)| ==> |Continued(segments)[i]| <= MAX_OCTETS
  {
    if segments != [] { ContinuedFit(segments[1..]); }
  }

  lemma {:induction false} SplitFolded(lines: seq<string>)
    requires NoCr(lines)
    ensures SplitLines(FoldedLines(lines)) == PhysicalLines(lines)
    ensures forall i :: 0 <= i < |PhysicalLines(lines)| ==> |PhysicalLines(lines)[i]| <= MAX_OCTETS
  {
    if lines != [] {
      hide SplitLines, FoldSegments, Join, Eol;
      var segments := FoldSegments(lines[0]);
      FoldSplits(lines[0]);
      PiecesLack(segments);
      ContinuedFit(segments[1..]);
      SplitJoin(segments, FoldedLines(lines[1..]));
      SplitFolded(lines[1..]);
    }
  }

  // ---- the lines of a calendar ----

  datatype Event = Event(
    title: string, startTimeUs: int, endTimeUs: int, location: string, description: string,
    uid: string, status: string, rrule: string, organizerEmail: string, organizerName: string,
    attendeeEmail: string, attendeeName: string, sequence: string, floatingLocal: bool)

  datatype Config = Config(prodId: string, uidDomain: string, calendarName: string, refreshInterval: string)

  /** What the outside world supplies while one event is written. */
  datatype Moment = Moment(stampUs: int, uidUs: int, counter: nat)

  function FormatUtcDateTime(us: int): string {
    var d := StoredDate(us);
    var s := us % DAY_US / 1_000_000;
    Padded(4, IntToString(d.year)) + Padded(2, IntToString(d.month)) + Padded(2, IntToString(d.day))
    + "T" + Padded(2, IntToString(s / 3600)) + Padded(2, IntToString(s % 3600 / 60))
    + Padded(2, IntToString(s % 60)) + "Z"
  }

  function FormatFloatingDateTime(us: int): string {
    var utc := FormatUtcDateTime(us);
    utc[..|utc| - 1]
  }

  function ResolveUid(uid: string, domain: string, now: Moment): string {
    if uid != "" then uid
    else "synthetic-" + IntToString(now.uidUs) + "-" + NatToString(now.counter) + "@" + domain
  }

  function When(condition: bool, line: string): seq<string> { if condition then [line] else [] }

  function FormatTime(e: Event, us: int): string {
    if e.floatingLocal then FormatFloatingDateTime(us) else FormatUtcDateTime(us)
  }

  function StartLines(e: Event, domain: string, now: Moment): seq<string> {
    [] + ["BEGIN:VEVENT"]
    + ["UID:" + ResolveUid(e.uid, domain, now)]
    + ["DTSTAMP:" + FormatUtcDateTime(now.stampUs)]
    + ["SEQUENCE:" + (if e.sequence == "" then "0" else e.sequence)]
    + When(e.status != "", "STATUS:" + e.status)
    + ["DTSTART:" + FormatTime(e, e.startTimeUs)]
    + ["DTEND:" + FormatTime(e, e.endTimeUs)]
  }

  function TextLines(e: Event): seq<string> {
    [] + ["SUMMARY:" + Escape(e.title)]
    + When(e.location != "", "LOCATION:" + Escape(e.location))
    + When(e.description != "", "DESCRIPTION:" + Escape(e.description))
    + When(e.rrule != "", "RRULE:" + e.rrule)
    + When(e.organizerEmail != "", "ORGANIZER;CN=" + Escape(e.organizerName) + ":mailto:" + e.organizerEmail)
    + When(e.attendeeEmail != "",
           "ATTENDEE;CN=" + Escape(e.attendeeName) + ";RSVP=FALSE:mailto:" + e.attendeeEmail)
  }

  function EventLines(e: Event, domain: string, now: Moment): seq<string> {
    StartLines(e, domain, now) + TextLines(e) + ["END:VEVENT"]
  }

  function AllEventLines(events: seq<Event>, domain: string, moments: seq<Moment>): seq<string>
    requires |moments| == |events|
  {
    if events == [] then []
    else AllEventLines(events[..|events| - 1], domain, moments[..|events| - 1])
         + EventLines(events[|events| - 1], domain, moments[|events| - 1])
  }

  function HeadLines(c: Config): seq<string> {
    [] + ["BEGIN:VCALENDAR"] + ["VERSION:2.0"] + ["PRODID:" + c.prodId]
    + ["CALSCALE:GREGORIAN"] + ["METHOD:PUBLISH"]
    + When(c.calendarName != "", "X-WR-CALNAME:" + Escape(c.calendarName))
    + When(c.refreshInterval != "", "REFRESH-INTERVAL;VALUE=DURATION:" + c.refreshInterval)
    + When(c.refreshInterval != "", "X-PUBLISHED-TTL:" + c.refreshInterval)
  }

  function CalendarLines(events: seq<Event>, c: Config, moments: seq<Moment>): seq<string>
    requires |moments| == |events|
  {
    HeadLines(c) + AllEventLines(events, c.uidDomain, moments) + ["END:VCALENDAR"]
  }

  // ---- the document reads back ----

  /** The fields written without escaping hold no carriage return. */
  predicate CleanEvent(e: Event) {
    && Lacks(e.uid, '\r') && Lacks(e.status, '\r') && Lacks(e.rrule, '\r') && Lacks(e.sequence, '\r')
    && Lacks(e.organizerEmail, '\r') && Lacks(e.attendeeEmail, '\r')
  }

  predicate CleanConfig(c: Config) {
    Lacks(c.prodId, '\r') && Lacks(c.uidDomain, '\r') && Lacks(c.refreshInterval, '\r')
  }

  lemma ProperAppend(a: seq<string>, b: seq<string>)
    requires ProperLines(a) && ProperLines(b)
    ensures ProperLines(a + b)
  {
  }

  lemma NumberClean(width: nat, n: int)
    ensures Lacks(Padded(width, IntToString(n)), '\r')
  {
  }

  lemma DateTimeClean(us: int)
    ensures Lacks(FormatUtcDateTime(us), '\r') && Lacks(FormatFloatingDateTime(us), '\r')
  {
    hide IntToString, StoredDate, Padded;
    var d := StoredDate(us);
    var s := us % DAY_US / 1_000_000;
    NumberClean(4, d.year); NumberClean(2, d.month); NumberClean(2, d.day);
    NumberClean(2, s / 3600); NumberClean(2, s % 3600 / 60); NumberClean(2, s % 60);
  }

  lemma UidClean(uid: string, domain: string, now: Moment)
    requires Lacks(uid, '\r') && Lacks(domain, '\r')
    ensures Lacks(ResolveUid(uid, domain, now), '\r')
  {
    hide IntToString, NatToString;
  }

  ghost predicate ProperPrefix(prefix: string) { Lacks(prefix, '\r') && StartsLine(prefix) }

  /** Adding a line, or a line that may be left out, to proper lines. */
  lemma Grow(lines: seq<string>, prefix: string, text: string) returns (more: seq<string>)
    requires ProperLines(lines) && ProperPrefix(prefix) && Lacks(text, '\r')
    ensures more == lines + [prefix + text] && ProperLines(more)
  {
    more := lines + [prefix + text];
  }

  lemma GrowWhen(lines: seq<string>, condition: bool, prefix: string, text: string) returns (more: seq<string>)
    requires ProperLines(lines) && ProperPrefix(prefix) && Lacks(text, '\r')
    ensures more == lines + When(condition, prefix + text) && ProperLines(more)
  {
    more := lines + When(condition, prefix + text);
  }

  lemma Literals()
    ensures Lacks("", '\r') && Lacks("0", '\r') && Lacks(":mailto:", '\r')
    ensures Lacks(";RSVP=FALSE:mailto:", '\r')
  {
  }

  lemma TextPrefixes()
    ensures ProperPrefix("SUMMARY:") && ProperPrefix("LOCATION:") && ProperPrefix("DESCRIPTION:")
    ensures ProperPrefix("RRULE:") && ProperPrefix("ORGANIZER;CN=") && ProperPrefix("ATTENDEE;CN=")
    ensures ProperPrefix("END:VEVENT")
  {
  }

  lemma FeedPrefixes()
    ensures ProperPrefix("X-WR-CALNAME:") && ProperPrefix("X-PUBLISHED-TTL:")
    ensures ProperPrefix("REFRESH-INTERVAL;VALUE=DURATION:")
  {
  }

  lemma StartLinesProper(e: Event, domain: string, now: Moment)
    requires CleanEvent(e) && Lacks(domain, '\r')
    ensures ProperLines(StartLines(e, domain, now))
  {
    hide When, ProperLines, FormatUtcDateTime, FormatFloatingDateTime, ResolveUid, Lacks, ProperPrefix;
    Literals();
    UidClean(e.uid, domain, now);
    DateTimeClean(now.stampUs); DateTimeClean(e.startTimeUs); DateTimeClean(e.endTimeUs);
    NothingAfter("BEGIN:VEVENT");
    var l := Grow([], "BEGIN:VEVENT", "");
    l := Grow(l, "UID:", ResolveUid(e.uid, domain, now));
    l := Grow(l, "DTSTAMP:", FormatUtcDateTime(now.stampUs));
    l := Grow(l, "SEQUENCE:", if e.sequence == "" then "0" else e.sequence);
    l := GrowWhen(l, e.status != "", "STATUS:", e.status);
    l := Grow(l, "DTSTART:", FormatTime(e, e.startTimeUs));
    l := Grow(l, "DTEND:", FormatTime(e, e.endTimeUs));
  }

  lemma TextLinesProper(e: Event)
    requires CleanEvent(e)
    ensures ProperLines(TextLines(e))
  {
    hide When, ProperLines, Escape, Lacks, ProperPrefix;
    Literals();
    TextPrefixes();
    EscapeRoundTrip(e.title); EscapeRoundTrip(e.location); EscapeRoundTrip(e.description);
    var l := Grow([], "SUMMARY:", Escape(e.title));
    l := GrowWhen(l, e.location != "", "LOCATION:", Escape(e.location));
    l := GrowWhen(l, e.description != "", "DESCRIPTION:", Escape(e.description));
    l := GrowWhen(l, e.rrule != "", "RRULE:", e.rrule);
    l := GrowPerson(l, e.organizerEmail != "", "ORGANIZER;CN=", e.organizerName, ":mailto:", e.organizerEmail);
    l := GrowPerson(l, e.attendeeEmail != "",
                    "ATTENDEE;CN=", e.attendeeName, ";RSVP=FALSE:mailto:", e.attendeeEmail);
  }

  lemma GrowPerson(lines: seq<string>, condition: bool, prefix: string, name: string, between: string,
                   address: string) returns (more: seq<string>)
    requires ProperLines(lines) && ProperPrefix(prefix) && Lacks(between, '\r') && Lacks(address, '\r')
    ensures more == lines + When(condition, prefix + Escape(name) + between + address) && ProperLines(more)
  {
    hide Escape, When, ProperLines;
    EscapeRoundTrip(name);
    more := GrowWhen(lines, condition, prefix + Escape(name) + between, address);
  }

  lemma EventLinesProper(e: Event, domain: string, now: Moment)
    requires CleanEvent(e) && Lacks(domain, '\r')
    ensures ProperLines(EventLines(e, domain, now))
  {
    hide StartLines, TextLines, ProperLines, ProperPrefix, Lacks;
    Literals();
    TextPrefixes();
    NothingAfter("END:VEVENT");
    StartLinesProper(e, domain, now);
    TextLinesProper(e);
    ProperAppend(StartLines(e, domain, now), TextLines(e));
    var l := Grow(StartLines(e, domain, now) + TextLines(e), "END:VEVENT", "");
  }

  lemma HeadLinesProper(c: Config)
    requires CleanConfig(c)
    ensures ProperLines(HeadLines(c))
  {
    hide Escape, When, ProperLines, Lacks, ProperPrefix;
    Literals();
    FeedPrefixes();
    EscapeRoundTrip(c.calendarName);
    NothingAfter("BEGIN:VCALENDAR"); NothingAfter("VERSION:2.0");
    NothingAfter("CALSCALE:GREGORIAN"); NothingAfter("METHOD:PUBLISH");
    var l := Grow([], "BEGIN:VCALENDAR", "");
    l := Grow(l, "VERSION:2.0", "");
    l := Grow(l, "PRODID:", c.prodId);
    l := Grow(l, "CALSCALE:GREGORIAN", "");
    l := Grow(l, "METHOD:PUBLISH", "");
    l := GrowWhen(l, c.calendarName != "", "X-WR-CALNAME:", Escape(c.calendarName));
    l := GrowWhen(l, c.refreshInterval != "", "REFRESH-INTERVAL;VALUE=DURATION:", c.refreshInterval);
    l := GrowWhen(l, c.refreshInterval != "", "X-PUBLISHED-TTL:", c.refreshInterval);
  }

  lemma {:induction false} AllEventLinesProper(events: seq<Event>, domain: string, moments: seq<Moment>)
    requires |moments| == |events| && Lacks(domain, '\r') && forall e :: e in events ==> CleanEvent(e)
    ensures ProperLines(AllEventLines(events, domain, moments))
  {
    if events != [] {
      var n := |events| - 1;
      hide EventLines;
      AllEventLinesProper(events[..n], domain, moments[..n]);
      EventLinesProper(events[n], domain, moments[n]);
      ProperAppend(AllEventLines(events[..n], domain, moments[..n]), EventLines(events[n], domain, moments[n]));
    }
  }

  /** The whole calendar reads back: unfolding and splitting the generated document gives
      exactly the lines emitted, in order, and every physical line is at most 75 octets. */
  lemma CalendarReadsBack(events: seq<Event>, c: Config, moments: seq<Moment>)
    requires |moments| == |events| && CleanConfig(c) && forall e :: e in events ==> CleanEvent(e)
    ensures var text := FoldedLines(SplitLines(RawLines(CalendarLines(events, c, moments))));
      && ReadDocument(text) == CalendarLines(events, c, moments)
      && forall i :: 0 <= i < |SplitLines(text)| ==> |SplitLines(text)[i]| <= MAX_OCTETS
  {
    hide HeadLines, AllEventLines, ProperLines, Unfold, SplitLines, FoldedLines, RawLines;
    HeadLinesProper(c);
    AllEventLinesProper(events, c.uidDomain, moments);
    var lines := HeadLines(c) + AllEventLines(events, c.uidDomain, moments);
    ProperAppend(HeadLines(c), AllEventLines(events, c.uidDomain, moments));
    NothingAfter("END:VCALENDAR");
    lines := Grow(lines, "END:VCALENDAR", "");
    ReadsBack(CalendarLines(events, c, moments));
  }

  /** The same for any list of proper lines. */
  lemma ReadsBack(lines: seq<string>)
    requires ProperLines(lines)
    ensures var text := FoldedLines(SplitLines(RawLines(lines)));
      && ReadDocument(text) == lines
      && forall i :: 0 <= i < |SplitLines(text)| ==> |SplitLines(text)[i]| <= MAX_OCTETS
  {
    hide Unfold, SplitLines, FoldedLines, RawLines;
    SplitRaw(lines);
    UnfoldLines(lines);
    SplitFolded(lines);
  }
}
