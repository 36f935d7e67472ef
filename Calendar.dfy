/** Proleptic Gregorian calendar arithmetic on (year, month, day), as Python's
    `datetime.date` does it: day ordinals (0001-01-01 is day 1), ISO weekdays,
    and the ISO 8601 week number used by the weekly report. */
module Calendar {

  /** A calendar date; only values satisfying ValidDate stand for real dates. */
  datatype Date = Date(year: int, month: int, day: int)

  /** A time of day at minute resolution, as written `HH:MM`. */
  datatype TimeOfDay = TimeOfDay(hour: int, minute: int)

  const MinYear := 1
  const MaxYear := 9999

  predicate IsLeapYear(y: int) {
    y % 4 == 0 && (y % 100 != 0 || y % 400 == 0)
  }

  function DaysInMonth(y: int, m: int): (n: int)
    requires 1 <= m <= 12
    ensures 28 <= n <= 31
    ensures n == 29 <==> m == 2 && IsLeapYear(y)
  {
    if m == 2 then (if IsLeapYear(y) then 29 else 28)
    else if m == 4 || m == 6 || m == 9 || m == 11 then 30
    else 31
  }

  function DaysInYear(y: int): int {
    if IsLeapYear(y) then 366 else 365
  }

  /** The dates `datetime.date` accepts: years 1 to 9999, a real month, and a
      day that exists in that month of that year. */
  predicate ValidDate(d: Date) {
    && MinYear <= d.year <= MaxYear
    && 1 <= d.month <= 12
    && 1 <= d.day <= DaysInMonth(d.year, d.month)
  }

  predicate ValidTime(t: TimeOfDay) {
    0 <= t.hour < 24 && 0 <= t.minute < 60
  }

  /** Number of days in the years before year y (counted from year 1). */
  function DaysBeforeYear(y: int): int {
    var p := y - 1;
    365 * p + p / 4 - p / 100 + p / 400
  }

  /** Number of days in the months of year y before month m. */
  function DaysBeforeMonth(y: int, m: int): (n: int)
    requires 1 <= m <= 12
    ensures 0 <= n && n + DaysInMonth(y, m) <= DaysInYear(y)
    ensures m == 1 ==> n == 0
    ensures m == 12 ==> n + DaysInMonth(y, m) == DaysInYear(y)
  {
    var leapDay := if IsLeapYear(y) then 1 else 0;
    if m == 1 then 0
    else if m == 2 then 31
    else if m == 3 then 59 + leapDay
    else if m == 4 then 90 + leapDay
    else if m == 5 then 120 + leapDay
    else if m == 6 then 151 + leapDay
    else if m == 7 then 181 + leapDay
    else if m == 8 then 212 + leapDay
    else if m == 9 then 243 + leapDay
    else if m == 10 then 273 + leapDay
    else if m == 11 then 304 + leapDay
    else 334 + leapDay
  }

  /** Position of the date within its year, 1 for January 1st. */
  function DayOfYear(d: Date): (n: int)
    requires ValidDate(d)
    ensures 1 <= n <= DaysInYear(d.year)
  {
    DaysBeforeMonth(d.year, d.month) + d.day
  }

  /** Day count from 0001-01-01 (day 1), as `date.toordinal()`. */
  function Ordinal(d: Date): int
    requires ValidDate(d)
  {
    DaysBeforeYear(d.year) + DayOfYear(d)
  }

  /** ISO weekday, 1 for Monday to 7 for Sunday, as `date.isoweekday()`
      (0001-01-01 was a Monday). */
  function IsoWeekday(d: Date): (w: int)
    requires ValidDate(d)
    ensures 1 <= w <= 7
  {
    WeekdayOfOrdinal(Ordinal(d))
  }

  function WeekdayOfOrdinal(o: int): (w: int)
    ensures 1 <= w <= 7
  {
    (o + 6) % 7 + 1
  }

  /** ISO 8601 week number: weeks start on Monday and a week belongs to the
      year that holds its Thursday, so week 1 is the week of the year's first
      Thursday. t is the position, counted in the date's own year, of the
      Thursday of the date's week; when it falls outside the year the week is
      numbered in the neighbouring year. */
  function IsoWeek(d: Date): (w: int)
    requires ValidDate(d)
    ensures 1 <= w <= 53
  {
    WeekNumber(DayOfYear(d), IsoWeekday(d), DaysInYear(d.year - 1), DaysInYear(d.year))
  }

  /** Week number of the day at position doy of a year of cur days, the day
      being weekday wd, after a year of prev days. */
  function WeekNumber(doy: int, wd: int, prev: int, cur: int): (w: int)
    requires 1 <= doy <= cur && 1 <= wd <= 7
    requires 365 <= prev <= 366 && 365 <= cur <= 366
    ensures 1 <= w <= 53
  {
    var t := doy - wd + 4;
    if t < 1 then (t + prev - 1) / 7 + 1
    else if t > cur then (t - cur - 1) / 7 + 1
    else (t - 1) / 7 + 1
  }

  /** The calendar day after d. */
  function NextDay(d: Date): Date
    requires ValidDate(d)
  {
    if d.day < DaysInMonth(d.year, d.month) then Date(d.year, d.month, d.day + 1)
    else if d.month < 12 then Date(d.year, d.month + 1, 1)
    else Date(d.year + 1, 1, 1)
  }

  lemma DaysBeforeNextYear(y: int)
    requires y >= 1
    ensures DaysBeforeYear(y + 1) == DaysBeforeYear(y) + DaysInYear(y)
  {
    var p := y - 1;
    assert y / 4 - p / 4 == (if y % 4 == 0 then 1 else 0);
    assert y / 100 - p / 100 == (if y % 100 == 0 then 1 else 0);
    assert y / 400 - p / 400 == (if y % 400 == 0 then 1 else 0);
  }

  lemma DaysBeforeNextMonth(y: int, m: int)
    requires 1 <= m < 12
    ensures DaysBeforeMonth(y, m + 1) == DaysBeforeMonth(y, m) + DaysInMonth(y, m)
  {
  }

  /** Within one year the day after d is one day further into the year; the
      day after December 31st is January 1st of the next year. */
  lemma NextDayOfYear(d: Date)
    requires ValidDate(d)
    ensures NextDay(d).year == d.year ==> DayOfYear(NextDay(d)) == DayOfYear(d) + 1
    ensures NextDay(d).year != d.year ==>
      NextDay(d) == Date(d.year + 1, 1, 1) && DayOfYear(d) == DaysInYear(d.year)
  {
    if d.day == DaysInMonth(d.year, d.month) && d.month < 12 {
      DaysBeforeNextMonth(d.year, d.month);
    }
  }

  lemma WeekdayStep(d: Date, n: Date)
    requires ValidDate(d) && ValidDate(n) && Ordinal(n) == Ordinal(d) + 1
    ensures IsoWeekday(n) == if IsoWeekday(d) == 7 then 1 else IsoWeekday(d) + 1
  {
    WeekdayOfNextOrdinal(Ordinal(d));
  }

  lemma WeekdayOfNextOrdinal(o: int)
    ensures WeekdayOfOrdinal(o + 1) == if WeekdayOfOrdinal(o) == 7 then 1 else WeekdayOfOrdinal(o) + 1
  {
  }

  lemma OrdinalNextInMonth(d: Date)
    requires ValidDate(d) && d.day < DaysInMonth(d.year, d.month)
    ensures NextDay(d) == Date(d.year, d.month, d.day + 1)
    ensures ValidDate(NextDay(d)) && Ordinal(NextDay(d)) == Ordinal(d) + 1
  {
  }

  lemma OrdinalNextMonth(d: Date)
    requires ValidDate(d) && d.day == DaysInMonth(d.year, d.month) && d.month < 12
    ensures NextDay(d) == Date(d.year, d.month + 1, 1)
    ensures ValidDate(NextDay(d)) && Ordinal(NextDay(d)) == Ordinal(d) + 1
  {
    DaysBeforeNextMonth(d.year, d.month);
  }

  lemma OrdinalNextYear(d: Date)
    requires ValidDate(d) && d.year < MaxYear && d.month == 12 && d.day == 31
    ensures NextDay(d) == Date(d.year + 1, 1, 1)
    ensures ValidDate(NextDay(d)) && Ordinal(NextDay(d)) == Ordinal(d) + 1
  {
    DaysBeforeNextYear(d.year);
    assert DayOfYear(d) == DaysInYear(d.year);
  }

  /** The day after a date is a date again (short of the last day Python can
      represent), one ordinal later and one weekday later. */
  lemma NextDayFacts(d: Date)
    requires ValidDate(d) && d != Date(MaxYear, 12, 31)
    ensures ValidDate(NextDay(d))
    ensures Ordinal(NextDay(d)) == Ordinal(d) + 1
    ensures IsoWeekday(NextDay(d)) == if IsoWeekday(d) == 7 then 1 else IsoWeekday(d) + 1
  {
    NextDayOrdinal(d);
    WeekdayOfNextOrdinal(Ordinal(d));
  }

  lemma NextDayOrdinal(d: Date)
    requires ValidDate(d) && d != Date(MaxYear, 12, 31)
    ensures ValidDate(NextDay(d))
    ensures Ordinal(NextDay(d)) == Ordinal(d) + 1
  {
    if d.day < DaysInMonth(d.year, d.month) {
      OrdinalNextInMonth(d);
    } else if d.month < 12 {
      OrdinalNextMonth(d);
    } else {
      OrdinalNextYear(d);
    }
  }

  lemma WeekNumberNextDay(doy: int, wd: int, prev: int, cur: int)
    requires 1 <= doy < cur && 1 <= wd < 7
    requires 365 <= prev <= 366 && 365 <= cur <= 366
    ensures WeekNumber(doy + 1, wd + 1, prev, cur) == WeekNumber(doy, wd, prev, cur)
  {
  }

  lemma WeekNumberNewYear(wd: int, prev: int, cur: int, next: int)
    requires 1 <= wd < 7
    requires 365 <= prev <= 366 && 365 <= cur <= 366 && 365 <= next <= 366
    ensures WeekNumber(1, wd + 1, cur, next) == WeekNumber(cur, wd, prev, cur)
  {
  }

  /** Monday to Sunday share one week number. */
  lemma SameWeekUntilSunday(d: Date)
    requires ValidDate(d) && d != Date(MaxYear, 12, 31)
    requires IsoWeekday(d) < 7
    ensures IsoWeek(NextDay(d)) == IsoWeek(d)
  {
    NextDayFacts(d);
    NextDayOfYear(d);
    var n := NextDay(d);
    var doy, wd, prev, cur := DayOfYear(d), IsoWeekday(d), DaysInYear(d.year - 1), DaysInYear(d.year);
    assert IsoWeek(d) == WeekNumber(doy, wd, prev, cur);
    assert IsoWeekday(n) == wd + 1;
    if n.year == d.year {
      assert IsoWeek(n) == WeekNumber(doy + 1, wd + 1, prev, cur);
      WeekNumberNextDay(doy, wd, prev, cur);
    } else {
      assert n.year - 1 == d.year && doy == cur;
      assert IsoWeek(n) == WeekNumber(1, wd + 1, cur, DaysInYear(n.year));
      WeekNumberNewYear(wd, prev, cur, DaysInYear(n.year));
    }
  }

  /** After a Sunday a new week starts: the number goes up by one, or starts
      again at 1 in a new ISO year. */
  lemma NewWeekAfterSunday(d: Date)
    requires ValidDate(d) && d != Date(MaxYear, 12, 31)
    requires IsoWeekday(d) == 7
    ensures IsoWeek(NextDay(d)) == IsoWeek(d) + 1 || IsoWeek(NextDay(d)) == 1
  {
    NextDayFacts(d);
    NextDayOfYear(d);
    var n := NextDay(d);
    if n.year == d.year {
      var doy, prev, cur := DayOfYear(d), DaysInYear(d.year - 1), DaysInYear(d.year);
      var w := WeekNumber(doy + 1, 1, prev, cur);
      assert w == WeekNumber(doy, 7, prev, cur) + 1 || w == 1;
    } else {
      assert WeekNumber(1, 1, DaysInYear(d.year), DaysInYear(n.year)) == 1;
    }
  }

  /** The k-th Thursday of a year lies in week k; in particular the first
      Thursday lies in week 1. */
  lemma ThursdayWeek(d: Date)
    requires ValidDate(d) && IsoWeekday(d) == 4
    ensures IsoWeek(d) == (DayOfYear(d) - 1) / 7 + 1
    ensures DayOfYear(d) <= 7 ==> IsoWeek(d) == 1
  {
  }

  lemma Ordinal2024(d: Date)
    requires ValidDate(d) && d.year == 2024
    ensures Ordinal(d) == 738885 + DayOfYear(d)
  {
    assert DaysBeforeYear(2024) == 738885;
  }

  /** Whole weeks do not change the weekday. */
  lemma WeekdayOfWeeksLater(o: int, weeks: int)
    ensures WeekdayOfOrdinal(o + 7 * weeks) == WeekdayOfOrdinal(o)
  {
  }

  /** The week number of a date of 2024 from its day of the year: 2023-12-31,
      the day before the year, was a Sunday (738885 is a multiple of 7). */
  lemma WeekOf2024(d: Date, doy: int, wd: int)
    requires ValidDate(d) && d.year == 2024 && DayOfYear(d) == doy
    requires 1 <= wd <= 7 && (doy + 6) % 7 + 1 == wd
    ensures IsoWeekday(d) == wd
    ensures IsoWeek(d) == WeekNumber(doy, wd, 365, 366)
  {
    Ordinal2024(d);
    WeekdayOfWeeksLater(doy, 105555);
    assert DaysInYear(2023) == 365 && DaysInYear(2024) == 366;
  }

  /** 2024-01-01 was a Monday: January 1st to 7th, 2024 are ISO week 1 of
      2024, weekday equal to the day of the month. */
  lemma FirstWeekOf2024(d: Date)
    requires ValidDate(d) && d.year == 2024 && d.month == 1 && d.day <= 7
    ensures IsoWeekday(d) == d.day && IsoWeek(d) == 1
  {
    assert DayOfYear(d) == d.day;
    FirstWeekResidue(d.day);
    WeekOf2024(d, d.day, d.day);
  }

  lemma FirstWeekResidue(x: int)
    requires 1 <= x <= 7
    ensures (x + 6) % 7 + 1 == x
  {
  }

  /** 2024-12-30 and 2024-12-31, a Monday and a Tuesday, have their Thursday
      in 2025: they belong to week 1 of 2025. */
  lemma LastDaysOf2024(d: Date)
    requires ValidDate(d) && d.year == 2024 && d.month == 12 && d.day >= 30
    ensures IsoWeekday(d) == d.day - 29 && IsoWeek(d) == 1
  {
    assert DayOfYear(d) == 335 + d.day;
    WeekOf2024(d, 335 + d.day, d.day - 29);
  }

  lemma Ordinal2021(d: Date)
    requires ValidDate(d) && d.year == 2021
    ensures Ordinal(d) == 737790 + DayOfYear(d)
  {
    assert DaysBeforeYear(2021) == 737790;
  }

  /** 2021-01-01 was a Friday whose Thursday falls in 2020: it belongs to
      week 53 of 2020. */
  lemma NewYear2021()
    ensures IsoWeekday(Date(2021, 1, 1)) == 5 && IsoWeek(Date(2021, 1, 1)) == 53
  {
    var jan1 := Date(2021, 1, 1);
    Ordinal2021(jan1);
    WeekdayOfWeeksLater(5, 105398);
    assert IsoWeekday(jan1) == WeekdayOfOrdinal(5 + 7 * 105398) == 5;
    assert DaysInYear(2020) == 366 && DaysInYear(2021) == 365;
  }
}
