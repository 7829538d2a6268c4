/** Local time under the POSIX rules that `IanaToPosixTz` lists: a fixed offset west of
    UTC, and for most zones daylight saving from the second Sunday of March to the first
    Sunday of November, changing at 02:00 local time. Instants are seconds since 1970. */
module TimeZone {
  import opened Wrappers
  import opened Calendar

  datatype Zone = Zone(westHours: int, hasDst: bool)

  /** The table; other names are handed to the host's own zone data. */
  function ListedZone(iana: string): (z: Option<Zone>)
    ensures z.Some? ==> Listed(z.value)
  {
    if iana in ["America/Los_Angeles", "US/Pacific"] then Some(Zone(8, true))
    else if iana in ["America/Denver", "US/Mountain"] then Some(Zone(7, true))
    else if iana in ["America/Chicago", "US/Central"] then Some(Zone(6, true))
    else if iana in ["America/New_York", "US/Eastern"] then Some(Zone(5, true))
    else if iana == "America/Phoenix" then Some(Zone(7, false))
    else if iana == "America/Anchorage" then Some(Zone(9, true))
    else if iana == "Pacific/Honolulu" then Some(Zone(10, false))
    else if iana in ["UTC", "Etc/UTC"] then Some(Zone(0, false))
    else None
  }

  predicate Listed(z: Zone) { 0 <= z.westHours <= 10 }

  /** Thirteen names have zones. Going east from Los Angeles each one's standard time is an
      hour ahead, going west an hour behind; UTC is eight hours ahead. The US names are the
      same zones, and daylight time is kept everywhere but in Phoenix, Honolulu and UTC. */
  lemma ZonesApart(iana: string)
    ensures ListedZone(iana).Some? <==>
      iana in {"America/Los_Angeles", "America/Denver", "America/Chicago", "America/New_York", "America/Phoenix",
               "America/Anchorage", "Pacific/Honolulu", "US/Pacific", "US/Mountain", "US/Central", "US/Eastern",
               "UTC", "Etc/UTC"}
    ensures ListedZone(iana).Some? ==>
      (ListedZone(iana).value.hasDst <==> iana !in {"America/Phoenix", "Pacific/Honolulu", "UTC", "Etc/UTC"})
  {
  }

  /** Hours that clocks in a zone are behind UTC outside daylight time. */
  function Behind(iana: string): int {
    if ListedZone(iana).Some? then ListedZone(iana).value.westHours else 0
  }

  lemma HoursApart()
    ensures Behind("America/Los_Angeles") == 8
    ensures Behind("America/Denver") == Behind("America/Los_Angeles") - 1
    ensures Behind("America/Chicago") == Behind("America/Denver") - 1
    ensures Behind("America/New_York") == Behind("America/Chicago") - 1
  {
  }

  lemma HoursWest()
    ensures Behind("UTC") == Behind("Etc/UTC") == 0
    ensures Behind("America/Anchorage") == Behind("America/Los_Angeles") + 1
    ensures Behind("Pacific/Honolulu") == Behind("America/Anchorage") + 1
    ensures Behind("America/Phoenix") == Behind("America/Denver")
  {
  }

  lemma SameZones()
    ensures ListedZone("US/Pacific") == ListedZone("America/Los_Angeles")
    ensures ListedZone("US/Mountain") == ListedZone("America/Denver")
    ensures ListedZone("US/Central") == ListedZone("America/Chicago")
    ensures ListedZone("US/Eastern") == ListedZone("America/New_York")
  {
  }

  const DAY: int := 86400
  const HOUR: int := 3600

  /** 1970-01-01 was a Thursday; Sunday is 0. */
  function Weekday(n: int): int { (n + 4) % 7 }

  function SundayFrom(n: int): (s: int)
    ensures Weekday(s) == 0 && n <= s < n + 7
  {
    n + (3 - n) % 7
  }

  /** The day numbers of M3.2.0 and M11.1.0. */
  function SpringDay(y: int): int { SundayFrom(DaysFromCivil(Date(y, 3, 1))) + 7 }
  function AutumnDay(y: int): int { SundayFrom(DaysFromCivil(Date(y, 11, 1))) }

  /** 02:00 standard time in spring, 02:00 daylight time in autumn, in UTC seconds. */
  function DstStart(z: Zone, y: int): int { SpringDay(y) * DAY + 2 * HOUR + z.westHours * HOUR }
  function DstEnd(z: Zone, y: int): int { AutumnDay(y) * DAY + 2 * HOUR + (z.westHours - 1) * HOUR }

  predicate IsDst(z: Zone, t: int) {
    z.hasDst && DstStart(z, YearOf(t / DAY)) <= t < DstEnd(z, YearOf(t / DAY))
  }

  /** What a wall clock shows at instant t, as seconds on a calendar without zones. */
  function Wall(z: Zone, t: int): int {
    t - z.westHours * HOUR + if IsDst(z, t) then HOUR else 0
  }

  // ---- where the clock changes ----

  /** The rules name the second Sunday of March and the first Sunday of November. */
  lemma ChangeDays(y: int)
    ensures var spring := CivilFromDays(SpringDay(y)); var autumn := CivilFromDays(AutumnDay(y));
      && spring.year == y && spring.month == 3 && 8 <= spring.day <= 14 && Weekday(SpringDay(y)) == 0
      && autumn.year == y && autumn.month == 11 && 1 <= autumn.day <= 7 && Weekday(AutumnDay(y)) == 0
  {
    hide CivilFromDays, DaysFromCivil, SundayFrom, YearOf, Weekday;
    WeekLater(SundayFrom(DaysFromCivil(Date(y, 3, 1))));
    DayOfMonth(y, 3, SpringDay(y) - DaysFromCivil(Date(y, 3, 1)) + 1);
    DayOfMonth(y, 11, AutumnDay(y) - DaysFromCivil(Date(y, 11, 1)) + 1);
  }

  /** The clock goes from 02:00 to 03:00 on the spring day and from 02:00 back to 01:00 on
      the autumn day, in every zone that keeps daylight time. */
  lemma ChangesAtTwo(z: Zone, y: int)
    requires Listed(z) && z.hasDst
    ensures Wall(z, DstStart(z, y) - 1) == SpringDay(y) * DAY + 2 * HOUR - 1
    ensures Wall(z, DstStart(z, y)) == SpringDay(y) * DAY + 3 * HOUR
    ensures Wall(z, DstEnd(z, y) - 1) == AutumnDay(y) * DAY + 2 * HOUR - 1
    ensures Wall(z, DstEnd(z, y)) == AutumnDay(y) * DAY + HOUR
  {
    hide IsDst, DstStart, DstEnd, SpringDay, AutumnDay;
    DstBounds(z, y);
    StartWall(z, y);
  }

  lemma DstBounds(z: Zone, y: int)
    requires Listed(z) && z.hasDst
    ensures !IsDst(z, DstStart(z, y) - 1) && IsDst(z, DstStart(z, y))
    ensures IsDst(z, DstEnd(z, y) - 1) && !IsDst(z, DstEnd(z, y))
  {
    hide DstStart, DstEnd, YearStart, YearOf;
    ChangesInsideYear(z, y);
    var start, end := DstStart(z, y), DstEnd(z, y);
    SameYear(start - 1, start, y);
    SameYear(end - 1, end, y);
  }

  lemma WeekLater(n: int)
    ensures Weekday(n + 7) == Weekday(n)
  {
  }

  lemma DayOfMonth(y: int, m: int, day: int)
    requires 1 <= m <= 12 && 1 <= day <= 28
    ensures CivilFromDays(DaysFromCivil(Date(y, m, 1)) + day - 1) == Date(y, m, day)
  {
    MonthHasDays(y, m);
    assert DaysFromCivil(Date(y, m, day)) == DaysFromCivil(Date(y, m, 1)) + day - 1;
    hide CivilFromDays, YearStart, MonthLength, DaysBeforeMonth, IsLeap, YearOf, DaysFromCivil;
    CivilRoundTrip(Date(y, m, day));
  }

  /** Both changes fall well inside their year, spring before autumn. */
  lemma ChangesInsideYear(z: Zone, y: int)
    requires Listed(z)
    ensures YearStart(y) * DAY + 50 * DAY <= DstStart(z, y)
    ensures DstStart(z, y) + 200 * DAY <= DstEnd(z, y)
    ensures DstEnd(z, y) + 20 * DAY <= YearStart(y + 1) * DAY
  {
    YearLength(y);
  }

  /** An hour in which daylight saving starts contains the spring change. */
  lemma SpringWithin(z: Zone, t: int, u: int)
    requires Listed(z) && t <= u <= t + HOUR && !IsDst(z, t) && IsDst(z, u)
    ensures t < DstStart(z, YearOf(u / DAY)) <= u
  {
    hide DstStart, DstEnd, YearStart, YearOf;
    ChangesInsideYear(z, YearOf(u / DAY));
    SameYear(t, u, YearOf(u / DAY));
  }

  /** An hour in which daylight saving ends contains the autumn change. */
  lemma AutumnWithin(z: Zone, t: int, u: int)
    requires Listed(z) && t <= u <= t + HOUR && IsDst(z, t) && !IsDst(z, u)
    ensures t < DstEnd(z, YearOf(t / DAY)) <= u
  {
    hide DstStart, DstEnd, YearStart, YearOf;
    ChangesInsideYear(z, YearOf(t / DAY));
    SameYear(t, u, YearOf(t / DAY));
  }

  /** Two instants within an hour, one of them well inside year y, both lie in year y. */
  lemma SameYear(t: int, u: int, y: int)
    requires t <= u <= t + HOUR
    requires (YearStart(y) + 50) * DAY <= t <= (YearStart(y + 1) - 20) * DAY
          || (YearStart(y) + 50) * DAY <= u <= (YearStart(y + 1) - 20) * DAY
    ensures YearOf(t / DAY) == y && YearOf(u / DAY) == y
  {
    hide YearStart, YearOf;
    assert YearStart(y) <= t / DAY < YearStart(y + 1);
    assert YearStart(y) <= u / DAY < YearStart(y + 1);
    YearUnique(t / DAY, y);
    YearUnique(u / DAY, y);
  }

  // ---- mktime ----

  /** What mktime may answer, with tm_isdst = -1, for a requested wall time: the instant
      under the standard or under the daylight offset; one that really shows the
      requested time whenever either does. In the spring gap neither does, and in the
      autumn repeat both do: the choice is left open. */
  predicate MktimeAnswers(z: Zone, wall: int, r: int) {
    var standard := wall + z.westHours * HOUR;
    var daylight := standard - HOUR;
    && (r == standard || (z.hasDst && r == daylight))
    && (Wall(z, standard) == wall || (z.hasDst && Wall(z, daylight) == wall) ==> Wall(z, r) == wall)
  }

  /** In the gap and only there no instant shows the requested time, and every answer
      shows a time of the same day, an hour off. */
  lemma AnswerShows(z: Zone, wall: int, r: int)
    requires Listed(z) && MktimeAnswers(z, wall, r)
    ensures Wall(z, r) == wall || 2 * HOUR <= wall % DAY < 3 * HOUR
    ensures Wall(z, r) / DAY == wall / DAY
  {
    hide DstStart, DstEnd, YearStart, YearOf, IsDst, SpringDay;
    var standard := wall + z.westHours * HOUR;
    var daylight := standard - HOUR;
    assert z.hasDst || !IsDst(z, standard) by { NoDst(z, standard); }
    if Wall(z, r) != wall {
      SpringWithin(z, daylight, standard);
      var y := YearOf(standard / DAY);
      StartWall(z, y);
      OnDay(wall, SpringDay(y), 2 * HOUR);
      OnDay(wall + HOUR, SpringDay(y), 3 * HOUR);
      OnDay(wall - HOUR, SpringDay(y), HOUR);
    }
  }

  /** A wall time within an hour from a time of day is on that day. */
  lemma OnDay(wall: int, day: int, from: int)
    requires 0 <= from <= 23 * HOUR && day * DAY + from <= wall < day * DAY + from + HOUR
    ensures wall / DAY == day && from <= wall % DAY < from + HOUR
  {
  }

  lemma NoDst(z: Zone, t: int)
    ensures IsDst(z, t) ==> z.hasDst
  {
  }

  lemma StartWall(z: Zone, y: int)
    ensures DstStart(z, y) - z.westHours * HOUR == SpringDay(y) * DAY + 2 * HOUR
    ensures DstEnd(z, y) - z.westHours * HOUR == AutumnDay(y) * DAY + HOUR
  {
  }

  /** Away from the repeated hour, at most one instant shows a given wall time. */
  lemma ShownOnce(z: Zone, r: int, q: int)
    requires Listed(z) && Wall(z, r) == Wall(z, q)
    requires !(HOUR <= Wall(z, r) % DAY < 2 * HOUR)
    ensures r == q
  {
    hide DstStart, DstEnd, YearStart, YearOf, IsDst;
    if r < q { RepeatedHour(z, r, q); }
    if q < r { RepeatedHour(z, q, r); }
  }

  lemma RepeatedHour(z: Zone, r: int, q: int)
    requires Listed(z) && r < q && Wall(z, q) <= Wall(z, r)
    ensures q - r <= HOUR
    ensures HOUR <= Wall(z, q) % DAY < 2 * HOUR
  {
    hide DstStart, DstEnd, YearStart, YearOf, IsDst, AutumnDay;
    AutumnWithin(z, r, q);
    StartWall(z, YearOf(r / DAY));
    OnDay(Wall(z, q), AutumnDay(YearOf(r / DAY)), HOUR);
  }

  // ---- struct tm ----

  datatype Tm = Tm(year: int, mon: int, mday: int, hour: int, min: int, sec: int)

  /** Whole seconds of a count of microseconds: C++ division truncates toward zero. */
  function SecondsOf(us: int): (q: int)
    ensures us >= 0 || us % 1_000_000 == 0 ==> q == us / 1_000_000
    ensures us < 0 && us % 1_000_000 != 0 ==> q == us / 1_000_000 + 1
  {
    if us >= 0 then us / 1_000_000 else -((-us) / 1_000_000)
  }

  lemma TimeOfDay(s: int)
    ensures s == s / HOUR * HOUR + s % HOUR / 60 * 60 + s % 60
  {
    assert s % HOUR % 60 == s % 60;
  }

  lemma DayAndTime(wall: int, d: Date)
    requires 1 <= d.month <= 12 && DaysFromCivil(d) == wall / DAY
    ensures var s := wall % DAY;
      WallOf(Tm(d.year - 1900, d.month - 1, d.day, s / HOUR, s % HOUR / 60, s % 60)) == wall
  {
    hide DaysFromCivil;
    var s := wall % DAY;
    assert wall == wall / DAY * DAY + s;
    TimeOfDay(s);
    assert Date(d.year - 1900 + 1900, d.month - 1 + 1, d.day) == d;
  }

  function TmFromWall(wall: int): (tm: Tm)
    ensures 0 <= tm.mon <= 11 && WallOf(tm) == wall
    ensures 0 <= tm.hour < 24 && 0 <= tm.min < 60 && 0 <= tm.sec < 60
  {
    hide CivilFromDays, DaysFromCivil, WallOf;
    var d := CivilFromDays(wall / DAY);
    var s := wall % DAY;
    DayAndTime(wall, d);
    Tm(d.year - 1900, d.month - 1, d.day, s / HOUR, s % HOUR / 60, s % 60)
  }

  function WallOf(tm: Tm): int
    requires 0 <= tm.mon <= 11
  {
    DaysFromCivil(Date(tm.year + 1900, tm.mon + 1, tm.mday)) * DAY
    + tm.hour * HOUR + tm.min * 60 + tm.sec
  }

  function ToLocalTm(us: int, z: Zone): (tm: Tm)
    ensures 0 <= tm.mon <= 11 && WallOf(tm) == Wall(z, SecondsOf(us))
    ensures 0 <= tm.hour < 24 && 0 <= tm.min < 60 && 0 <= tm.sec < 60
  {
    TmFromWall(Wall(z, SecondsOf(us)))
  }

  /** The host's mktime: some answer the relation allows. */
  method Mktime(tm: Tm, z: Zone) returns (r: int)
    requires 0 <= tm.mon <= 11 && Listed(z)
    ensures MktimeAnswers(z, WallOf(tm), r)
  {
    hide IsDst, WallOf;
    var wall := WallOf(tm);
    var standard := wall + z.westHours * HOUR;
    if z.hasDst && Wall(z, standard - HOUR) == wall {
      r := standard - HOUR;
    } else {
      r := standard;
    }
  }

  // ---- local midnight ----

  lemma MidnightWall(wall: int)
    ensures var tm := TmFromWall(wall);
      0 <= tm.mon <= 11 && WallOf(tm.(hour := 0, min := 0, sec := 0)) == wall / DAY * DAY
  {
  }

  /** Whatever mktime answers, local midnight shows 00:00:00 on the local date of the
      timestamp, asking again from it gives it back, and the timestamp's second lies in
      the 25 hours from it, across daylight-saving changes. */
  lemma MidnightIsMidnight(z: Zone, t: int, r: int, again: int)
    requires Listed(z)
    requires MktimeAnswers(z, Wall(z, t) / DAY * DAY, r)
    requires MktimeAnswers(z, Wall(z, r) / DAY * DAY, again)
    ensures Wall(z, r) == Wall(z, t) / DAY * DAY
    ensures r <= t < r + 25 * HOUR
    ensures again == r
    ensures Wall(z, t) % DAY == 0 ==> t == r
  {
    hide IsDst, DstStart, DstEnd, YearStart, YearOf, MktimeAnswers;
    AnswerShows(z, Wall(z, t) / DAY * DAY, r);
    AnswerShows(z, Wall(z, r) / DAY * DAY, again);
    ShownOnce(z, r, again);
    if t < r { RepeatedHour(z, t, r); }
    if Wall(z, t) % DAY == 0 { ShownOnce(z, t, r); }
  }

  /** Midnight is at or before the timestamp, except for a negative timestamp with a
      fraction of a second that truncation carries up to exactly a local midnight. */
  lemma MidnightAtOrBefore(z: Zone, us: int, r: int)
    requires Listed(z)
    requires MktimeAnswers(z, Wall(z, SecondsOf(us)) / DAY * DAY, r)
    ensures r * 1_000_000 <= us <==>
      !(us < 0 && us % 1_000_000 != 0 && Wall(z, SecondsOf(us)) % DAY == 0)
    ensures us < (r + 25 * HOUR) * 1_000_000
  {
    hide IsDst, DstStart, DstEnd, YearStart, YearOf, MktimeAnswers;
    AnswerShows(z, Wall(z, SecondsOf(us)) / DAY * DAY, r);
    assert MktimeAnswers(z, Wall(z, r) / DAY * DAY, r);
    MidnightIsMidnight(z, SecondsOf(us), r, r);
  }

  method GetMidnightUs(timestampUs: int, z: Zone) returns (midnightUs: int)
    requires Listed(z)
    ensures MktimeAnswers(z, Wall(z, SecondsOf(timestampUs)) / DAY * DAY, SecondsOf(midnightUs))
    ensures Wall(z, SecondsOf(midnightUs)) == Wall(z, SecondsOf(timestampUs)) / DAY * DAY
    ensures timestampUs >= 0 ==> midnightUs <= timestampUs < midnightUs + 25 * HOUR * 1_000_000
  {
    hide MktimeAnswers, WallOf, Wall, TmFromWall, SecondsOf;
    var localTm := ToLocalTm(timestampUs, z);
    MidnightWall(Wall(z, SecondsOf(timestampUs)));
    localTm := localTm.(hour := 0);
    localTm := localTm.(min := 0);
    localTm := localTm.(sec := 0);
    var midnightEpoch := Mktime(localTm, z);
    MidnightAtOrBefore(z, timestampUs, midnightEpoch);
    AnswerShows(z, Wall(z, SecondsOf(timestampUs)) / DAY * DAY, midnightEpoch);
    midnightUs := midnightEpoch * 1_000_000;
  }

  // ---- date tokens ----

  /** The wall time asked for a calendar date token: the token's date in UTC, with the
      year as `date::year` stores it, at a number of minutes after midnight. */
  function TokenWall(tokenUs: int, minutes: int): int {
    var d := StoredDate(tokenUs);
    DaysFromCivil(d) * DAY + minutes * 60
  }

  function LocalDateTokenUs(timestampUs: int, z: Zone): int {
    var localTm := ToLocalTm(timestampUs, z);
    DaysFromCivil(Date(Year16(localTm.year + 1900), localTm.mon + 1, localTm.mday)) * DAY_US
  }

  /** The token read back is the day the wall clock shows, if its year fits. */
  lemma TokenOfInstant(z: Zone, r: int)
    ensures var n := Wall(z, r) / DAY;
      Fits16(YearOf(n)) ==> LocalDateTokenUs(r * 1_000_000, z) == n * DAY_US
  {
    hide IsDst, DstStart, DstEnd, YearStart, YearOf, DaysFromCivil;
    assert SecondsOf(r * 1_000_000) == r;
  }

  /** Date tokens survive the trip to an instant and back, whichever way mktime resolves
      the spring gap or the autumn repeat: exactly for the tokens whose year fits. */
  lemma DateTokenRoundTrip(z: Zone, tokenUs: int, minutes: int, r: int)
    requires Listed(z) && tokenUs % DAY_US == 0 && 0 <= minutes < 1440
    requires MktimeAnswers(z, TokenWall(tokenUs, minutes), r)
    ensures LocalDateTokenUs(r * 1_000_000, z) == tokenUs <==> Fits16(YearOf(tokenUs / DAY_US))
  {
    hide IsDst, DstStart, DstEnd, YearStart, YearOf, MktimeAnswers, DaysFromCivil, LocalDateTokenUs;
    var d := StoredDate(tokenUs);
    var n := tokenUs / DAY_US;
    AnswerShows(z, TokenWall(tokenUs, minutes), r);
    assert TokenWall(tokenUs, minutes) / DAY == DaysFromCivil(d);
    assert Wall(z, r) / DAY == DaysFromCivil(d);
    StoredYear(n);
    TokenOfInstant(z, r);
  }

  /** Minutes past either end of the day move the token by whole days. */
  lemma DateTokenAnyMinute(z: Zone, tokenUs: int, minutes: int, r: int)
    requires Listed(z) && MktimeAnswers(z, TokenWall(tokenUs, minutes), r)
    ensures var n := DaysFromCivil(StoredDate(tokenUs)) + minutes / 1440;
      Fits16(YearOf(n)) ==> LocalDateTokenUs(r * 1_000_000, z) == n * DAY_US
  {
    hide IsDst, DstStart, DstEnd, YearStart, YearOf, MktimeAnswers, DaysFromCivil, LocalDateTokenUs, StoredDate, Wall;
    AnswerShows(z, TokenWall(tokenUs, minutes), r);
    WholeDays(DaysFromCivil(StoredDate(tokenUs)), minutes);
    TokenOfInstant(z, r);
  }

  lemma WholeDays(day: int, minutes: int)
    ensures (day * DAY + minutes * 60) / DAY == day + minutes / 1440
  {
    assert minutes * 60 == minutes / 1440 * DAY + minutes % 1440 * 60;
  }

  /** Division and remainder as C++ has them: toward zero. */
  function TruncDiv(a: int, b: int): (q: int)
    requires b > 0
    ensures a >= 0 ==> q == a / b
  {
    if a >= 0 then a / b else -((-a) / b)
  }

  function TruncMod(a: int, b: int): (r: int)
    requires b > 0
    ensures -b < r < b && a == TruncDiv(a, b) * b + r
  {
    a - TruncDiv(a, b) * b
  }

  lemma TokenTm(tokenUs: int, minutes: int)
    ensures var ymd := StoredDate(tokenUs);
      && 0 <= ymd.month - 1 <= 11
      && WallOf(Tm(ymd.year - 1900, ymd.month - 1, ymd.day, TruncDiv(minutes, 60), TruncMod(minutes, 60), 0))
         == TokenWall(tokenUs, minutes)
  {
    hide YearOf, CivilFromDays, DaysFromCivil, TruncDiv, TruncMod;
  }

  lemma WholeSeconds(r: int)
    ensures SecondsOf(r * 1_000_000) == r
  {
  }

  method CalendarDateWallClockToUs(dateTokenUs: int, minutesAfterMidnight: int, z: Zone) returns (us: int)
    requires Listed(z)
    ensures MktimeAnswers(z, TokenWall(dateTokenUs, minutesAfterMidnight), SecondsOf(us))
    ensures var n := DaysFromCivil(StoredDate(dateTokenUs)) + minutesAfterMidnight / 1440;
      Fits16(YearOf(n)) ==> LocalDateTokenUs(us, z) == n * DAY_US
    ensures dateTokenUs % DAY_US == 0 && 0 <= minutesAfterMidnight < 1440 ==>
      (LocalDateTokenUs(us, z) == dateTokenUs <==> Fits16(YearOf(dateTokenUs / DAY_US)))
    ensures Fits16(YearOf(dateTokenUs / DAY_US)) && !(120 <= minutesAfterMidnight % 1440 < 180) ==>
      Wall(z, SecondsOf(us)) == dateTokenUs / DAY_US * DAY + minutesAfterMidnight * 60
  {
    hide Wall, MktimeAnswers, YearOf, LocalDateTokenUs, StoredDate, WallOf, TokenWall, SecondsOf, Listed, Fits16, DaysFromCivil;
    TokenTm(dateTokenUs, minutesAfterMidnight);
    var ymd := StoredDate(dateTokenUs);
    var localTm := Tm(0, 0, 0, 0, 0, 0);
    localTm := localTm.(year := ymd.year - 1900);
    localTm := localTm.(mon := ymd.month - 1);
    localTm := localTm.(mday := ymd.day);
    localTm := localTm.(hour := TruncDiv(minutesAfterMidnight, 60));
    localTm := localTm.(min := TruncMod(minutesAfterMidnight, 60));
    localTm := localTm.(sec := 0);
    var epoch := Mktime(localTm, z);
    us := epoch * 1_000_000;
    WholeSeconds(epoch);
    DateTokenAnyMinute(z, dateTokenUs, minutesAfterMidnight, epoch);
    if dateTokenUs % DAY_US == 0 && 0 <= minutesAfterMidnight < 1440 {
      DateTokenRoundTrip(z, dateTokenUs, minutesAfterMidnight, epoch);
    }
    if Fits16(YearOf(dateTokenUs / DAY_US)) && !(120 <= minutesAfterMidnight % 1440 < 180) {
      ShowsMinutes(z, dateTokenUs, minutesAfterMidnight, epoch);
    }
  }

  /** Outside the hour in which a gap can be, the instant shows the token's day at that many
      minutes after midnight. */
  lemma ShowsMinutes(z: Zone, tokenUs: int, minutes: int, r: int)
    requires Listed(z) && MktimeAnswers(z, TokenWall(tokenUs, minutes), r)
    requires Fits16(YearOf(tokenUs / DAY_US)) && !(120 <= minutes % 1440 < 180)
    ensures Wall(z, r) == tokenUs / DAY_US * DAY + minutes * 60
  {
    TokenIsDay(tokenUs, minutes);
    hide Wall, MktimeAnswers, YearOf, StoredDate, TokenWall;
    ShowsTimeOfDay(z, TokenWall(tokenUs, minutes), tokenUs / DAY_US, minutes, r);
  }

  lemma TokenIsDay(tokenUs: int, minutes: int)
    requires Fits16(YearOf(tokenUs / DAY_US))
    ensures TokenWall(tokenUs, minutes) == tokenUs / DAY_US * DAY + minutes * 60
  {
    StoredIsDay(tokenUs);
    hide YearOf, StoredDate, DaysFromCivil;
  }

  lemma ShowsTimeOfDay(z: Zone, wall: int, day: int, minutes: int, r: int)
    requires Listed(z) && wall == day * DAY + minutes * 60 && MktimeAnswers(z, wall, r)
    requires !(120 <= minutes % 1440 < 180)
    ensures Wall(z, r) == wall
  {
    hide Wall, MktimeAnswers;
    AnswerShows(z, wall, r);
    TimeOfMinutes(day, minutes);
  }

  lemma StoredIsDay(us: int)
    requires Fits16(YearOf(us / DAY_US))
    ensures DaysFromCivil(StoredDate(us)) == us / DAY_US
  {
    hide YearOf, CivilFromDays, DaysFromCivil, Year16;
    var d := CivilFromDays(us / DAY_US);
    assert StoredDate(us) == d.(year := Year16(d.year));
    assert Year16(d.year) == d.year;
    assert StoredDate(us) == d;
  }

  lemma TimeOfMinutes(day: int, minutes: int)
    ensures (day * DAY + minutes * 60) % DAY == minutes % 1440 * 60
  {
    assert minutes * 60 == minutes / 1440 * DAY + minutes % 1440 * 60;
  }

  /** A stored date lies in the stored year, so it is the true day exactly when the year fits. */
  lemma StoredYear(n: int)
    ensures var d := CivilFromDays(n); var w := Year16(d.year);
      && Fits16(YearOf(DaysFromCivil(d.(year := w))))
      && (DaysFromCivil(d.(year := w)) == n <==> Fits16(YearOf(n)))
  {
    hide YearOf, Year16;
    var d := CivilFromDays(n);
    var w := Year16(d.year);
    YearLength(w);
    YearLength(w + 1);
    YearUnique(DaysFromCivil(d.(year := w)), w);
  }
}
