/** Proleptic Gregorian day arithmetic, as the `date` library computes it: days are
    counted from 1970-01-01, and `date::year` keeps sixteen bits of a year. */
module Calendar {

  datatype Date = Date(year: int, month: int, day: int)

  predicate IsLeap(y: int) { y % 4 == 0 && (y % 100 != 0 || y % 400 == 0) }

  /** Days from 1970-01-01 to January 1 of year y. */
  function YearStart(y: int): int {
    365 * (y - 1) + (y - 1) / 4 - (y - 1) / 100 + (y - 1) / 400 - 719162
  }

  function DaysBeforeMonth(leap: bool, m: int): int
    requires 1 <= m <= 13
  {
    [0, 31, 59, 90, 120, 151, 181, 212, 243, 273, 304, 334, 365][m - 1]
    + if leap && m > 2 then 1 else 0
  }

  function MonthLength(y: int, m: int): int
    requires 1 <= m <= 12
  {
    DaysBeforeMonth(IsLeap(y), m + 1) - DaysBeforeMonth(IsLeap(y), m)
  }

  predicate ValidDate(d: Date) {
    1 <= d.month <= 12 && 1 <= d.day <= MonthLength(d.year, d.month)
  }

  function DaysFromCivil(d: Date): int
    requires 1 <= d.month <= 12
  {
    YearStart(d.year) + DaysBeforeMonth(IsLeap(d.year), d.month) + d.day - 1
  }

  // ---- years ----

  lemma FourthYear(y: int)
    ensures y / 4 - (y - 1) / 4 == if y % 4 == 0 then 1 else 0
  {
  }

  lemma Century(y: int)
    ensures y / 100 - (y - 1) / 100 == if y % 100 == 0 then 1 else 0
  {
  }

  lemma FourthCentury(y: int)
    ensures y / 400 - (y - 1) / 400 == if y % 400 == 0 then 1 else 0
    ensures y % 400 == 0 ==> y % 100 == 0
    ensures y % 100 == 0 ==> y % 4 == 0
  {
  }

  lemma YearLength(y: int)
    ensures YearStart(y + 1) - YearStart(y) == if IsLeap(y) then 366 else 365
  {
    FourthYear(y);
    Century(y);
    FourthCentury(y);
  }

  /** A year starts within two days of its share of the 400-year cycle. */
  lemma YearStartBounds(y: int)
    ensures 146097 * (y - 1) - 700 <= 400 * (YearStart(y) + 719162) <= 146097 * (y - 1) + 396
  {
    var q := y - 1;
    assert q - 3 <= 4 * (q / 4) <= q;
    assert q - 99 <= 100 * (q / 100) <= q;
    assert q - 399 <= 400 * (q / 400) <= q;
  }

  lemma YearsAscend(y: int, z: int)
    requires y < z
    ensures YearStart(y) + 365 <= YearStart(z)
  {
    if z == y + 1 {
      YearLength(y);
    } else {
      YearStartBounds(y);
      YearStartBounds(z);
    }
  }

  /** The year that contains day n. */
  function YearOf(n: int): (y: int)
    ensures YearStart(y) <= n < YearStart(y + 1)
  {
    var guess := (n + 719162) * 400 / 146097 + 1;
    YearStartBounds(guess - 1); YearStartBounds(guess);
    YearStartBounds(guess + 1); YearStartBounds(guess + 2);
    if n < YearStart(guess) then guess - 1
    else if YearStart(guess + 1) <= n then guess + 1
    else guess
  }

  lemma YearUnique(n: int, y: int)
    requires YearStart(y) <= n < YearStart(y + 1)
    ensures YearOf(n) == y
  {
    if YearOf(n) < y { YearsAscend(YearOf(n), y); if YearOf(n) + 1 < y { YearsAscend(YearOf(n) + 1, y); } }
    if y < YearOf(n) { if y + 1 < YearOf(n) { YearsAscend(y + 1, YearOf(n)); } }
  }

  // ---- days of a year ----

  function MonthOf(leap: bool, dayOfYear: int): (m: int)
    requires 0 <= dayOfYear < DaysBeforeMonth(leap, 13)
    ensures 1 <= m <= 12
    ensures DaysBeforeMonth(leap, m) <= dayOfYear < DaysBeforeMonth(leap, m + 1)
  {
    var k := if leap then 1 else 0;
    if dayOfYear < 31 then 1 else if dayOfYear < 59 + k then 2 else if dayOfYear < 90 + k then 3
    else if dayOfYear < 120 + k then 4 else if dayOfYear < 151 + k then 5 else if dayOfYear < 181 + k then 6
    else if dayOfYear < 212 + k then 7 else if dayOfYear < 243 + k then 8 else if dayOfYear < 273 + k then 9
    else if dayOfYear < 304 + k then 10 else if dayOfYear < 334 + k then 11 else 12
  }

  function CivilFromDays(n: int): (d: Date)
    ensures ValidDate(d) && DaysFromCivil(d) == n && d.year == YearOf(n)
  {
    var y := YearOf(n);
    YearLength(y);
    var m := MonthOf(IsLeap(y), n - YearStart(y));
    Date(y, m, n - YearStart(y) - DaysBeforeMonth(IsLeap(y), m) + 1)
  }

  lemma MonthsAscend(leap: bool, m: int, k: int)
    requires 1 <= m < k <= 13
    ensures DaysBeforeMonth(leap, m) + 28 <= DaysBeforeMonth(leap, k)
  {
  }

  lemma MonthHasDays(y: int, m: int)
    requires 1 <= m <= 12
    ensures 28 <= MonthLength(y, m) <= 31
  {
  }

  /** Day numbers and valid dates correspond one to one. */
  lemma CivilRoundTrip(d: Date)
    requires ValidDate(d)
    ensures CivilFromDays(DaysFromCivil(d)) == d
  {
    var n := DaysFromCivil(d);
    var leap := IsLeap(d.year);
    YearLength(d.year);
    if d.month > 1 { MonthsAscend(leap, 1, d.month); }
    if d.month < 12 { MonthsAscend(leap, d.month + 1, 13); }
    YearUnique(n, d.year);
    var m := CivilFromDays(n).month;
    if m < d.month { if m + 1 < d.month { MonthsAscend(leap, m + 1, d.month); } }
    if d.month < m { if d.month + 1 < m { MonthsAscend(leap, d.month + 1, m); } }
  }

  // ---- the calendar, day by day ----

  /** The lengths of the months as everybody learns them. */
  function DaysIn(y: int, m: int): int {
    if m == 2 then (if y % 400 == 0 || (y % 4 == 0 && y % 100 != 0) then 29 else 28)
    else if m == 4 || m == 6 || m == 9 || m == 11 then 30
    else 31
  }

  function DayAfter(d: Date): Date {
    if d.day < DaysIn(d.year, d.month) then Date(d.year, d.month, d.day + 1)
    else if d.month < 12 then Date(d.year, d.month + 1, 1)
    else Date(d.year + 1, 1, 1)
  }

  lemma MonthsAsLearnt(y: int, m: int)
    requires 1 <= m <= 12
    ensures MonthLength(y, m) == DaysIn(y, m)
  {
  }

  /** Day zero is the first of January 1970, and each day number's successor is the next day:
      so every number is the right date, by steps in either direction. */
  lemma DaysFollow(n: int)
    ensures CivilFromDays(0) == Date(1970, 1, 1) && CivilFromDays(n + 1) == DayAfter(CivilFromDays(n))
  {
    hide CivilFromDays, DaysFromCivil, MonthLength, DaysIn, DayAfter, YearOf;
    Epoch();
    NextDayNumber(CivilFromDays(n));
    CivilRoundTrip(DayAfter(CivilFromDays(n)));
  }

  lemma NextDayNumber(d: Date)
    requires ValidDate(d)
    ensures var e := DayAfter(d); ValidDate(e) && DaysFromCivil(e) == DaysFromCivil(d) + 1
  {
    MonthsAsLearnt(d.year, d.month);
    if d.month == 12 { YearLength(d.year); }
    hide YearStart;
  }

  lemma Epoch()
    ensures CivilFromDays(0) == Date(1970, 1, 1)
  {
    var d := Date(1970, 1, 1);
    assert DaysFromCivil(d) == 0;
    CivilRoundTrip(d);
  }

  // ---- month windows ----

  const DAY_US: int := 86_400_000_000

  /** What is left of a year after it has been stored in `date::year`. */
  function Year16(y: int): (w: int)
    ensures -32768 <= w <= 32767
    ensures (w - y) % 65536 == 0
    ensures w == y <==> -32768 <= y <= 32767
  {
    (y + 32768) % 65536 - 32768
  }

  predicate Fits16(y: int) { -32768 <= y <= 32767 }

  /** First day of a month, and of the month after it, as `sys_days`. */
  function MonthStartDay(year: int, month: int): int
    requires 1 <= month <= 12
  {
    DaysFromCivil(Date(Year16(year), month, 1))
  }

  function NextMonthStartDay(year: int, month: int): int
    requires 1 <= month <= 12
  {
    if month == 12 then MonthStartDay(year + 1, 1) else MonthStartDay(year, month + 1)
  }

  function StartOfMonthUs(year: int, month: int): int
    requires 1 <= month <= 12
  {
    MonthStartDay(year, month) * DAY_US
  }

  function EndOfMonthUs(year: int, month: int): int
    requires 1 <= month <= 12
  {
    NextMonthStartDay(year, month) * DAY_US
  }

  function StoredDate(timestampUs: int): (d: Date)
    ensures 1 <= d.month <= 12
  {
    var d := CivilFromDays(timestampUs / DAY_US);
    d.(year := Year16(d.year))
  }

  function StartOfContainingMonthUs(timestampUs: int): int {
    StartOfMonthUs(StoredDate(timestampUs).year, StoredDate(timestampUs).month)
  }

  function EndOfContainingMonthUs(timestampUs: int): int {
    EndOfMonthUs(StoredDate(timestampUs).year, StoredDate(timestampUs).month)
  }

  /** The first day of a month and of the month after it, in true years. */
  lemma MonthSpan(y: int, m: int)
    requires 1 <= m <= 12
    ensures DaysFromCivil(Date(y, m, 1)) + MonthLength(y, m)
         == if m == 12 then YearStart(y + 1) else DaysFromCivil(Date(y, m + 1, 1))
    ensures YearStart(y) <= DaysFromCivil(Date(y, m, 1))
    ensures DaysFromCivil(Date(y, m, 1)) + MonthLength(y, m) <= YearStart(y + 1)
  {
    YearLength(y);
    if m > 1 { MonthsAscend(IsLeap(y), 1, m); }
    if m < 12 { MonthsAscend(IsLeap(y), m + 1, 13); }
  }

  lemma JanuaryFirst(y: int)
    ensures DaysFromCivil(Date(y, 1, 1)) == YearStart(y)
  {
  }

  /** The last month that `date::year` can follow with a next month. */
  predicate HasWindow(d: Date) { Fits16(d.year) && !(d.year == 32767 && d.month == 12) }

  /** A day of year y lies outside every window inside another year w. */
  lemma WrongYear(n: int, y: int, w: int)
    requires YearStart(y) <= n < YearStart(y + 1) && w != y
    ensures n < YearStart(w) || YearStart(w + 1) <= n
  {
    if y + 1 < w { YearsAscend(y + 1, w); }
    if w + 1 < y { YearsAscend(w + 1, y); }
  }

  lemma DayWindow(n: int)
    ensures var d := CivilFromDays(n); var w := Year16(d.year);
      (MonthStartDay(w, d.month) <= n < NextMonthStartDay(w, d.month)) <==> HasWindow(d)
  {
    hide YearStart, YearOf, DaysBeforeMonth, CivilFromDays, IsLeap, Year16;
    var d := CivilFromDays(n);
    var w := Year16(d.year);
    MonthSpan(d.year, d.month);
    MonthSpan(w, d.month);
    JanuaryFirst(w + 1);
    if w == 32767 && d.month == 12 {
      LastDecember(n, d.year);
    } else if !HasWindow(d) {
      WrongYear(n, d.year, w);
    }
  }

  /** The end of December 32767 wraps around to the first day of year -32768. */
  lemma LastDecember(n: int, y: int)
    requires YearStart(y) <= n < YearStart(y + 1)
    ensures !(MonthStartDay(32767, 12) <= n < NextMonthStartDay(32767, 12))
  {
    MonthSpan(32767, 12);
    assert NextMonthStartDay(32767, 12) == YearStart(-32768);
    YearsAscend(-32768, 32767);
  }

  /** A timestamp lies in the window of its month exactly when its year fits sixteen bits
      and the following month's year does too. */
  lemma MonthWindowContains(t: int)
    ensures (StartOfContainingMonthUs(t) <= t < EndOfContainingMonthUs(t))
        <==> HasWindow(CivilFromDays(t / DAY_US))
  {
    var d := StoredDate(t);
    DayWindow(t / DAY_US);
  }

  /** The first day of the month after d's. */
  function NextMonth(d: Date): Date {
    if d.month == 12 then Date(d.year + 1, 1, 1) else Date(d.year, d.month + 1, 1)
  }

  /** Away from the sixteen-bit edge the windows are those of the true calendar. */
  lemma WindowsAreCalendarMonths(t: int)
    requires HasWindow(CivilFromDays(t / DAY_US))
    ensures var d := CivilFromDays(t / DAY_US);
      && 1 <= NextMonth(d).month <= 12
      && StartOfContainingMonthUs(t) == DaysFromCivil(d.(day := 1)) * DAY_US
      && EndOfContainingMonthUs(t) == DaysFromCivil(NextMonth(d)) * DAY_US
  {
    hide YearStart, YearOf, DaysBeforeMonth, CivilFromDays, DaysFromCivil, Year16;
  }

  lemma FirstOfMonth(d: Date)
    requires ValidDate(d) && d.day == 1 && Fits16(d.year)
    ensures StartOfContainingMonthUs(DaysFromCivil(d) * DAY_US) == DaysFromCivil(d) * DAY_US
  {
    hide YearStart, YearOf, DaysBeforeMonth, CivilFromDays, DaysFromCivil;
    CivilRoundTrip(d);
  }

  /** A window starts on the first of the stored month and ends on the first of a month. */
  lemma WindowFirsts(t: int)
    ensures var d := StoredDate(t); var n := NextMonth(d);
      && Fits16(d.year) && 1 <= n.month <= 12
      && StartOfContainingMonthUs(t) == DaysFromCivil(Date(d.year, d.month, 1)) * DAY_US
      && EndOfContainingMonthUs(t) == DaysFromCivil(Date(Year16(n.year), n.month, 1)) * DAY_US
  {
    hide YearStart, YearOf, DaysBeforeMonth, CivilFromDays, DaysFromCivil;
  }

  /** Months tile time, for every timestamp: a window's end starts a window, December
      included; starts are fixed points; and two timestamps share a start exactly when they
      share the stored year and the month, which for years that fit is year and month. */
  lemma MonthWindowsTile(t: int, u: int)
    ensures StartOfContainingMonthUs(EndOfContainingMonthUs(t)) == EndOfContainingMonthUs(t)
    ensures StartOfContainingMonthUs(StartOfContainingMonthUs(t)) == StartOfContainingMonthUs(t)
    ensures StartOfContainingMonthUs(t) == StartOfContainingMonthUs(u) <==>
      StoredDate(t).year == StoredDate(u).year && StoredDate(t).month == StoredDate(u).month
    ensures var d, e := CivilFromDays(t / DAY_US), CivilFromDays(u / DAY_US);
      Fits16(d.year) && Fits16(e.year) ==>
        (StartOfContainingMonthUs(t) == StartOfContainingMonthUs(u) <==> d.year == e.year && d.month == e.month)
  {
    StoredIsTrue(t);
    StoredIsTrue(u);
    hide YearStart, YearOf, DaysBeforeMonth, CivilFromDays, DaysFromCivil, StartOfContainingMonthUs, EndOfContainingMonthUs,
      StoredDate, Year16;
    var d, e := StoredDate(t), StoredDate(u);
    var n := NextMonth(d);
    WindowFirsts(t);
    WindowFirsts(u);
    MonthHasDays(d.year, d.month);
    MonthHasDays(e.year, e.month);
    MonthHasDays(Year16(n.year), n.month);
    FirstOfMonth(Date(Year16(n.year), n.month, 1));
    FirstOfMonth(Date(d.year, d.month, 1));
    CivilRoundTrip(Date(d.year, d.month, 1));
    CivilRoundTrip(Date(e.year, e.month, 1));
  }

  lemma StoredIsTrue(t: int)
    ensures var d := CivilFromDays(t / DAY_US);
      StoredDate(t).month == d.month && (Fits16(d.year) ==> StoredDate(t).year == d.year)
  {
  }
}
