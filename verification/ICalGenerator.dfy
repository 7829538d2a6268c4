/** Writing the calendar: the methods that emit the lines of each event and of the whole
    document, then fold it. What they write is said in terms of what a reader of the result
    finds for each event. */
module ICalGenerator {
  import opened Text
  import opened ICal
  import opened ICalDocument
  import opened ICalReader

  lemma {:induction false} RawAppend(lines: seq<string>, line: string)
    ensures RawLines(lines + [line]) == RawLines(lines) + line + Eol()
  {
    hide Eol;
    if lines == [] {
      assert ([line])[1..] == [];
      NothingAfter(line + Eol());
      assert [] + [line] == [line];
      assert "" + line == line;
    } else {
      assert (lines + [line])[1..] == lines[1..] + [line];
      RawAppend(lines[1..], line);
      Assoc4(lines[0] + Eol(), RawLines(lines[1..]), line, Eol());
    }
  }

  method PutLine(oss: string, line: string, ghost before: string, ghost lines: seq<string>) returns (r: string)
    requires oss == before + RawLines(lines)
    ensures r == before + RawLines(lines + [line])
  {
    hide Eol, RawLines;
    RawAppend(lines, line);
    Assoc4(before, RawLines(lines), line, Eol());
    r := oss + line + Eol();
  }

  method PutWhen(oss: string, condition: bool, line: string, ghost before: string, ghost lines: seq<string>)
    returns (r: string)
    requires oss == before + RawLines(lines)
    ensures r == before + RawLines(lines + When(condition, line))
  {
    if condition {
      r := PutLine(oss, line, before, lines);
    } else {
      r := oss;
      assert lines + [] == lines;
    }
  }

  method EmitStart(e: Event, oss: string, domain: string, now: Moment) returns (r: string)
    ensures r == oss + RawLines(StartLines(e, domain, now))
  {
    hide RawLines, When, Eol, FormatTime, ResolveUid, FormatUtcDateTime;
    ghost var lines: seq<string> := [];
    assert oss + RawLines([]) == oss by { EmptyRaw(oss); }
    r := PutLine(oss, "BEGIN:VEVENT", oss, lines);
    lines := lines + ["BEGIN:VEVENT"];
    var uid := "UID:" + ResolveUid(e.uid, domain, now);
    r := PutLine(r, uid, oss, lines);
    lines := lines + [uid];
    var stamp := "DTSTAMP:" + FormatUtcDateTime(now.stampUs);
    r := PutLine(r, stamp, oss, lines);
    lines := lines + [stamp];
    var sequence := "SEQUENCE:" + (if e.sequence == "" then "0" else e.sequence);
    r := PutLine(r, sequence, oss, lines);
    lines := lines + [sequence];
    r := PutWhen(r, e.status != "", "STATUS:" + e.status, oss, lines);
    lines := lines + When(e.status != "", "STATUS:" + e.status);
    var start := "DTSTART:" + FormatTime(e, e.startTimeUs);
    r := PutLine(r, start, oss, lines);
    lines := lines + [start];
    var end := "DTEND:" + FormatTime(e, e.endTimeUs);
    r := PutLine(r, end, oss, lines);
  }

  method EmitText(e: Event, oss: string) returns (r: string)
    ensures r == oss + RawLines(TextLines(e))
  {
    hide RawLines, When, Eol, Escape;
    ghost var lines: seq<string> := [];
    assert oss + RawLines([]) == oss by { EmptyRaw(oss); }
    var title := EscapeICalText(e.title);
    r := PutLine(oss, "SUMMARY:" + title, oss, lines);
    lines := lines + ["SUMMARY:" + title];
    var location := EscapeICalText(e.location);
    r := PutWhen(r, e.location != "", "LOCATION:" + location, oss, lines);
    lines := lines + When(e.location != "", "LOCATION:" + location);
    var description := EscapeICalText(e.description);
    r := PutWhen(r, e.description != "", "DESCRIPTION:" + description, oss, lines);
    lines := lines + When(e.description != "", "DESCRIPTION:" + description);
    r := PutWhen(r, e.rrule != "", "RRULE:" + e.rrule, oss, lines);
    lines := lines + When(e.rrule != "", "RRULE:" + e.rrule);
    var organizer := EscapeICalText(e.organizerName);
    organizer := "ORGANIZER;CN=" + organizer + ":mailto:" + e.organizerEmail;
    r := PutWhen(r, e.organizerEmail != "", organizer, oss, lines);
    lines := lines + When(e.organizerEmail != "", organizer);
    var attendee := EscapeICalText(e.attendeeName);
    attendee := "ATTENDEE;CN=" + attendee + ";RSVP=FALSE:mailto:" + e.attendeeEmail;
    r := PutWhen(r, e.attendeeEmail != "", attendee, oss, lines);
  }

  method EmitVEvent(e: Event, oss: string, domain: string, now: Moment) returns (r: string)
    ensures r == oss + RawLines(EventLines(e, domain, now))
  {
    hide RawLines, StartLines, TextLines;
    r := EmitStart(e, oss, domain, now);
    r := EmitText(e, r);
    RawConcat(StartLines(e, domain, now), TextLines(e));
    Assoc(oss, RawLines(StartLines(e, domain, now)), RawLines(TextLines(e)));
    r := PutLine(r, "END:VEVENT", oss, StartLines(e, domain, now) + TextLines(e));
  }

  lemma EmptyRaw(oss: string)
    ensures oss + RawLines([]) == oss
  {
  }

  lemma {:induction false} RawConcat(a: seq<string>, b: seq<string>)
    ensures RawLines(a + b) == RawLines(a) + RawLines(b)
  {
    hide Eol;
    if a == [] {
      assert a + b == b;
      assert "" + RawLines(b) == RawLines(b);
    } else {
      assert (a + b)[1..] == a[1..] + b;
      RawConcat(a[1..], b);
      Assoc(a[0] + Eol(), RawLines(a[1..]), RawLines(b));
    }
  }

  method EmitHead(c: Config) returns (r: string)
    ensures r == RawLines(HeadLines(c))
  {
    hide RawLines, When, Eol, Escape;
    ghost var lines: seq<string> := [];
    assert "" + RawLines([]) == "" by { EmptyRaw(""); }
    r := PutLine("", "BEGIN:VCALENDAR", "", lines);
    lines := lines + ["BEGIN:VCALENDAR"];
    r := PutLine(r, "VERSION:2.0", "", lines);
    lines := lines + ["VERSION:2.0"];
    r := PutLine(r, "PRODID:" + c.prodId, "", lines);
    lines := lines + ["PRODID:" + c.prodId];
    r := PutLine(r, "CALSCALE:GREGORIAN", "", lines);
    lines := lines + ["CALSCALE:GREGORIAN"];
    r := PutLine(r, "METHOD:PUBLISH", "", lines);
    lines := lines + ["METHOD:PUBLISH"];
    var name := EscapeICalText(c.calendarName);
    r := PutWhen(r, c.calendarName != "", "X-WR-CALNAME:" + name, "", lines);
    lines := lines + When(c.calendarName != "", "X-WR-CALNAME:" + name);
    var refresh := "REFRESH-INTERVAL;VALUE=DURATION:" + c.refreshInterval;
    r := PutWhen(r, c.refreshInterval != "", refresh, "", lines);
    lines := lines + When(c.refreshInterval != "", refresh);
    r := PutWhen(r, c.refreshInterval != "", "X-PUBLISHED-TTL:" + c.refreshInterval, "", lines);
    lines := lines + When(c.refreshInterval != "", "X-PUBLISHED-TTL:" + c.refreshInterval);
    assert "" + RawLines(lines) == RawLines(lines);
  }

  method GenerateImpl(events: seq<Event>, c: Config, moments: seq<Moment>) returns (folded: string)
    requires |moments| == |events|
    ensures folded == FoldedLines(SplitLines(RawLines(CalendarLines(events, c, moments))))
    ensures CleanConfig(c) && (forall e :: e in events ==> CleanEvent(e)) ==>
      && ReadDocument(folded) == CalendarLines(events, c, moments)
      && ReadsAs(ReadDocument(folded), events, c, moments)
      && forall i :: 0 <= i < |SplitLines(folded)| ==> |SplitLines(folded)[i]| <= MAX_OCTETS
  {
    hide ReadsAs, RawLines, Eol, HeadLines, EventLines, SplitLines, FoldedLines, ReadDocument, CleanConfig, CleanEvent;
    var oss := EmitHead(c);
    ghost var lines := HeadLines(c);
    assert HeadLines(c) + [] == HeadLines(c);
    for i := 0 to |events|
      invariant lines == HeadLines(c) + AllEventLines(events[..i], c.uidDomain, moments[..i])
      invariant oss == RawLines(lines)
    {
      oss := EmitVEvent(events[i], oss, c.uidDomain, moments[i]);
      RawConcat(lines, EventLines(events[i], c.uidDomain, moments[i]));
      assert events[..i + 1][..i] == events[..i] && moments[..i + 1][..i] == moments[..i];
      lines := lines + EventLines(events[i], c.uidDomain, moments[i]);
    }
    assert events[..|events|] == events && moments[..|events|] == moments;
    assert "" + RawLines(lines) == RawLines(lines);
    oss := PutLine(oss, "END:VCALENDAR", "", lines);
    assert oss == RawLines(CalendarLines(events, c, moments));
    folded := FoldAll(oss);
    if CleanConfig(c) && forall e :: e in events ==> CleanEvent(e) {
      CalendarReadsBack(events, c, moments);
      CalendarDescribed(events, c, moments);
    }
  }
}
