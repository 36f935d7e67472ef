/** One diary row as `log_activity` builds it (main.py:8-17): the date of the
    start, the label, start and end written `HH:MM`, and the duration. The
    duration is Python's `(end - start).seconds / 60`: the `seconds` part of a
    normalised `timedelta` drops both the days and the microseconds, so it is
    the elapsed whole seconds taken modulo one day. Durations are kept here as
    that exact whole number of seconds; the minutes are that number over 60. */
module Entries {
  import opened Calendar
  import opened TextFormats

  const SecondsPerDay := 86400
  const MicrosPerSecond := 1000000

  /** A `datetime.datetime` without time zone. */
  datatype DateTime = DateTime(date: Date, hour: int, minute: int, second: int, microsecond: int)

  predicate ValidDateTime(t: DateTime) {
    && ValidDate(t.date)
    && 0 <= t.hour < 24 && 0 <= t.minute < 60 && 0 <= t.second < 60
    && 0 <= t.microsecond < MicrosPerSecond
  }

  /** The instant as microseconds since the start of day 0 of the ordinal count. */
  function Micros(t: DateTime): int
    requires ValidDateTime(t)
  {
    ((Ordinal(t.date) * 24 + t.hour) * 3600 + t.minute * 60 + t.second) * MicrosPerSecond + t.microsecond
  }

  /** The `seconds` attribute of a `timedelta` of the given microseconds:
      normalisation keeps whole days apart and a microsecond part in
      [0, 10^6), so it is the whole seconds, rounded down, modulo a day.
      Dafny's `/` and `%` with a positive divisor round towards minus
      infinity, as that normalisation does. */
  function SecondsField(elapsed: int): (r: int)
    ensures 0 <= r < SecondsPerDay
  {
    (elapsed / MicrosPerSecond) % SecondsPerDay
  }

  /** `(end - start).seconds`. */
  function DurationSeconds(start: DateTime, end: DateTime): (r: int)
    requires ValidDateTime(start) && ValidDateTime(end)
    ensures 0 <= r < SecondsPerDay
  {
    SecondsField(Micros(end) - Micros(start))
  }

  /** A stored row. `durationSeconds` stands for the column
      `Duration (min)`, whose value is `durationSeconds / 60`. */
  datatype Row = Row(date: Date, activity: string, startTime: string, endTime: string, durationSeconds: int)

  /** What every row the diary writes satisfies. */
  predicate ValidRow(r: Row) {
    ValidDate(r.date) && 0 <= r.durationSeconds < SecondsPerDay
  }

  /** The value in the `Duration (min)` column. */
  function DurationMinutes(r: Row): real {
    r.durationSeconds as real / 60.0
  }

  /** The row `log_activity` builds from a label and two timestamps. */
  function MakeEntry(activity: string, start: DateTime, end: DateTime): (e: Row)
    requires ValidDateTime(start) && ValidDateTime(end)
    ensures ValidRow(e)
    ensures 0.0 <= DurationMinutes(e) < 1440.0
    ensures e.date == start.date && e.activity == activity
    ensures ParseTime(e.startTime) == Some(TimeOfDay(start.hour, start.minute))
    ensures ParseTime(e.endTime) == Some(TimeOfDay(end.hour, end.minute))
    ensures e.startTime == FormatTime(start.hour, start.minute) && e.endTime == FormatTime(end.hour, end.minute)
    ensures e.durationSeconds == DurationSeconds(start, end)
  {
    ParseFormatTime(start.hour, start.minute);
    ParseFormatTime(end.hour, end.minute);
    Row(start.date, activity, FormatTime(start.hour, start.minute),
        FormatTime(end.hour, end.minute), DurationSeconds(start, end))
  }

  /** When the end is at or after the start and less than a day later, the
      duration is the elapsed time in whole seconds, rounded down. */
  lemma ElapsedWithinDay(e: int)
    requires 0 <= e < SecondsPerDay * MicrosPerSecond
    ensures SecondsField(e) * MicrosPerSecond <= e < (SecondsField(e) + 1) * MicrosPerSecond
  {
    var q := e / MicrosPerSecond;
    assert e == q * MicrosPerSecond + e % MicrosPerSecond;
    assert 0 <= q < SecondsPerDay;
    assert SecondsField(e) == q;
  }

  /** A whole number of seconds below a day is its own seconds field. */
  lemma WholeSeconds(n: int)
    requires 0 <= n < SecondsPerDay
    ensures SecondsField(n * MicrosPerSecond) == n
  {
    assert (n * MicrosPerSecond) / MicrosPerSecond == n;
  }

  /** When the end is earlier than the start by a whole number of seconds,
      less than a day, the duration wraps round to a day minus that gap
      instead of being refused. */
  lemma WrappedWithinDay(g: int)
    requires g % MicrosPerSecond == 0 && 0 < g < SecondsPerDay * MicrosPerSecond
    ensures SecondsField(-g) == SecondsPerDay - g / MicrosPerSecond
  {
    var q := g / MicrosPerSecond;
    assert g == q * MicrosPerSecond;
    assert -g == (-q) * MicrosPerSecond;
    assert (-g) / MicrosPerSecond == -q;
    assert 0 < q < SecondsPerDay;
    assert -q + SecondsPerDay == (-q) % SecondsPerDay + 0;
  }

  /** Days between the two timestamps do not count: whole days added to the
      elapsed time leave the duration as it was. */
  lemma WholeDaysVanish(e: int, days: int)
    ensures SecondsField(e + days * SecondsPerDay * MicrosPerSecond) == SecondsField(e)
  {
    var q := e / MicrosPerSecond;
    assert e == q * MicrosPerSecond + e % MicrosPerSecond;
    assert (e + days * SecondsPerDay * MicrosPerSecond) / MicrosPerSecond == q + days * SecondsPerDay;
  }

  /** Two times on one date, as retroactive logging builds them: the duration
      is end minus start in minutes when the end is not earlier, and a day
      minus the gap when it is. */
  lemma SameDateDuration(d: Date, start: TimeOfDay, end: TimeOfDay)
    requires ValidDate(d) && ValidTime(start) && ValidTime(end)
    ensures var s, e := start.hour * 60 + start.minute, end.hour * 60 + end.minute;
      DurationSeconds(DateTime(d, start.hour, start.minute, 0, 0), DateTime(d, end.hour, end.minute, 0, 0))
        == if s <= e then 60 * (e - s) else 60 * (1440 - (s - e))
  {
    var a, b := DateTime(d, start.hour, start.minute, 0, 0), DateTime(d, end.hour, end.minute, 0, 0);
    var s, e := start.hour * 60 + start.minute, end.hour * 60 + end.minute;
    assert Micros(b) - Micros(a) == (e - s) * 60 * MicrosPerSecond;
    if s <= e {
      WholeSeconds((e - s) * 60);
    } else {
      var g := (s - e) * 60 * MicrosPerSecond;
      assert g % MicrosPerSecond == 0 && g / MicrosPerSecond == (s - e) * 60;
      WrappedWithinDay(g);
      assert Micros(b) - Micros(a) == -g;
    }
  }
}
