/** The text forms the diary reads and writes: Python's `strptime` for the
    formats `%Y-%m-%d` and `%H:%M`, and `strftime`/`isoformat` for writing
    them back with zero padding. */
module TextFormats {
  import opened Calendar

  datatype Option<T> = None | Some(value: T)

  predicate IsDigit(c: char) {
    '0' <= c <= '9'
  }

  function DigitValue(c: char): (n: int)
    requires IsDigit(c)
    ensures 0 <= n <= 9
  {
    c as int - '0' as int
  }

  function DigitChar(n: int): (c: char)
    requires 0 <= n <= 9
    ensures IsDigit(c) && DigitValue(c) == n
  {
    ('0' as int + n) as char
  }

  /** Two decimal digits, zero-padded, as `%02d`. */
  function Pad2(n: int): (s: string)
    requires 0 <= n <= 99
  {
    [DigitChar(n / 10), DigitChar(n % 10)]
  }

  /** Four decimal digits, zero-padded, as `%04d`. */
  function Pad4(n: int): (s: string)
    requires 0 <= n <= 9999
  {
    Pad2(n / 100) + Pad2(n % 100)
  }

  /** `%Y` in `strptime`: exactly four digits. */
  function YearField(t: string): (r: Option<int>)
    ensures r.Some? ==> 0 <= r.value <= 9999
  {
    if |t| == 4 && IsDigit(t[0]) && IsDigit(t[1]) && IsDigit(t[2]) && IsDigit(t[3]) then
      Some(1000 * DigitValue(t[0]) + 100 * DigitValue(t[1]) + 10 * DigitValue(t[2]) + DigitValue(t[3]))
    else None
  }

  /** `%m` in `strptime`: `1[0-2]`, `0[1-9]` or `[1-9]`. */
  function MonthField(t: string): (r: Option<int>)
    ensures r.Some? ==> 1 <= r.value <= 12
  {
    if |t| == 1 && '1' <= t[0] <= '9' then Some(DigitValue(t[0]))
    else if |t| == 2 && t[0] == '0' && '1' <= t[1] <= '9' then Some(DigitValue(t[1]))
    else if |t| == 2 && t[0] == '1' && '0' <= t[1] <= '2' then Some(10 + DigitValue(t[1]))
    else None
  }

  /** `%d` in `strptime`: `3[01]`, `[12][0-9]`, `0[1-9]`, `[1-9]` or a space
      followed by `[1-9]`. */
  function DayField(t: string): (r: Option<int>)
    ensures r.Some? ==> 1 <= r.value <= 31
  {
    if |t| == 1 && '1' <= t[0] <= '9' then Some(DigitValue(t[0]))
    else if |t| == 2 && (t[0] == '0' || t[0] == ' ') && '1' <= t[1] <= '9' then Some(DigitValue(t[1]))
    else if |t| == 2 && (t[0] == '1' || t[0] == '2') && IsDigit(t[1]) then
      Some(10 * DigitValue(t[0]) + DigitValue(t[1]))
    else if |t| == 2 && t[0] == '3' && (t[1] == '0' || t[1] == '1') then Some(30 + DigitValue(t[1]))
    else None
  }

  /** `%H` in `strptime`: `2[0-3]`, `[0-1][0-9]` or one digit. */
  function HourField(t: string): (r: Option<int>)
    ensures r.Some? ==> 0 <= r.value <= 23
  {
    if |t| == 1 && IsDigit(t[0]) then Some(DigitValue(t[0]))
    else if |t| == 2 && (t[0] == '0' || t[0] == '1') && IsDigit(t[1]) then
      Some(10 * DigitValue(t[0]) + DigitValue(t[1]))
    else if |t| == 2 && t[0] == '2' && '0' <= t[1] <= '3' then Some(20 + DigitValue(t[1]))
    else None
  }

  /** `%M` in `strptime`: `[0-5][0-9]` or one digit. */
  function MinuteField(t: string): (r: Option<int>)
    ensures r.Some? ==> 0 <= r.value <= 59
  {
    if |t| == 1 && IsDigit(t[0]) then Some(DigitValue(t[0]))
    else if |t| == 2 && '0' <= t[0] <= '5' && IsDigit(t[1]) then
      Some(10 * DigitValue(t[0]) + DigitValue(t[1]))
    else None
  }

  /** The date the three fields denote, if they are fields at all and the day
      exists in that month; year 0 is refused as `datetime.date` refuses it. */
  function DateOfFields(y: string, m: string, d: string): (r: Option<Date>)
    ensures r.Some? ==> ValidDate(r.value)
  {
    match (YearField(y), MonthField(m), DayField(d))
    case (Some(year), Some(month), Some(day)) =>
      if MinYear <= year && day <= DaysInMonth(year, month) then Some(Date(year, month, day))
      else None
    case _ => None
  }

  /** `datetime.strptime(s, "%Y-%m-%d").date()`; None where it raises
      `ValueError`. The whole text must match: the month field is ended by
      the second `-`, which stands at index 6 or 7 because the month has one
      or two digits. */
  function ParseDate(s: string): (r: Option<Date>)
    ensures r.Some? ==> ValidDate(r.value)
  {
    if |s| < 5 || s[4] != '-' then None
    else
      var rest := s[5..];
      if |rest| >= 2 && rest[1] == '-' then DateOfFields(s[..4], rest[..1], rest[2..])
      else if |rest| >= 3 && rest[2] == '-' then DateOfFields(s[..4], rest[..2], rest[3..])
      else None
  }

  /** `datetime.strptime(s, "%H:%M").time()`; None where it raises
      `ValueError`. */
  function ParseTime(s: string): (r: Option<TimeOfDay>)
    ensures r.Some? ==> ValidTime(r.value)
  {
    var colon := if |s| >= 2 && s[1] == ':' then 1 else if |s| >= 3 && s[2] == ':' then 2 else 0;
    if colon == 0 then None
    else
      match (HourField(s[..colon]), MinuteField(s[colon + 1..]))
      case (Some(h), Some(m)) => Some(TimeOfDay(h, m))
      case _ => None
  }

  /** `date.isoformat()`: `YYYY-MM-DD`. */
  function FormatDate(d: Date): (s: string)
    requires ValidDate(d)
  {
    Pad4(d.year) + "-" + Pad2(d.month) + "-" + Pad2(d.day)
  }

  /** `strftime('%H:%M')` of a time of day. */
  function FormatTime(hour: int, minute: int): (s: string)
    requires 0 <= hour < 24 && 0 <= minute < 60
  {
    Pad2(hour) + ":" + Pad2(minute)
  }

  lemma Pad2Digits(n: int)
    requires 0 <= n <= 99
    ensures |Pad2(n)| == 2 && IsDigit(Pad2(n)[0]) && IsDigit(Pad2(n)[1])
    ensures 10 * DigitValue(Pad2(n)[0]) + DigitValue(Pad2(n)[1]) == n
  {
  }

  lemma Pad4Year(n: int)
    requires 0 <= n <= 9999
    ensures YearField(Pad4(n)) == Some(n)
  {
    var hi, lo := Pad2(n / 100), Pad2(n % 100);
    Pad2Digits(n / 100);
    Pad2Digits(n % 100);
    var p := Pad4(n);
    assert p[0] == hi[0] && p[1] == hi[1] && p[2] == lo[0] && p[3] == lo[1];
    assert 100 * (n / 100) + n % 100 == n;
  }

  lemma MonthFieldPad2(m: int)
    requires 1 <= m <= 12
    ensures MonthField(Pad2(m)) == Some(m)
  {
    Pad2Digits(m);
  }

  lemma DayFieldPad2(d: int)
    requires 1 <= d <= 31
    ensures DayField(Pad2(d)) == Some(d)
  {
    Pad2Digits(d);
  }

  /** Reading back a written date gives the same date. */
  lemma {:induction false} ParseFormatDate(d: Date)
    requires ValidDate(d)
    ensures ParseDate(FormatDate(d)) == Some(d)
  {
    var s := FormatDate(d);
    var y, m, dd := Pad4(d.year), Pad2(d.month), Pad2(d.day);
    Pad2Digits(d.month);
    Pad2Digits(d.day);
    assert |y| == 4;
    var rest := s[5..];
    assert s[4] == '-' && rest == m + "-" + dd;
    assert rest[1] != '-' && rest[2] == '-';
    assert s[..4] == y && rest[..2] == m && rest[3..] == dd;
    Pad4Year(d.year);
    MonthFieldPad2(d.month);
    DayFieldPad2(d.day);
  }

  /** Reading back a written time gives the same hour and minute. */
  lemma {:induction false} ParseFormatTime(hour: int, minute: int)
    requires 0 <= hour < 24 && 0 <= minute < 60
    ensures ParseTime(FormatTime(hour, minute)) == Some(TimeOfDay(hour, minute))
  {
    var s := FormatTime(hour, minute);
    var h, m := Pad2(hour), Pad2(minute);
    assert s == h + ":" + m;
    Pad2Digits(hour);
    Pad2Digits(minute);
    assert s[1] != ':' && s[2] == ':';
    assert s[..2] == h && s[3..] == m;
    assert HourField(h) == Some(hour);
    assert MinuteField(m) == Some(minute);
  }

  /** Typical malformed texts the prompts refuse: an impossible month and
      day, an impossible hour and minute, year 0 and hour 24. */
  lemma ParseRefusals()
    ensures ParseDate("2024-13-40") == None
    ensures ParseTime("25:61") == None
    ensures ParseDate("0000-01-01") == None
    ensures ParseTime("24:00") == None
  {
    assert "2024-13-40"[5..][..2] == "13";
    assert "25:61"[..2] == "25";
    assert "0000-01-01"[..4] == "0000";
    assert "24:00"[..2] == "24";
  }

  /** February 29th is a date in a leap year only. */
  lemma LeapDayExamples()
    ensures ParseDate("2023-02-29") == None
    ensures ParseDate("2024-02-29") == Some(Date(2024, 2, 29))
  {
    var plain, leap := "2023-02-29", "2024-02-29";
    assert plain[..4] == "2023" && plain[5..][..2] == "02" && plain[5..][3..] == "29";
    assert leap[..4] == "2024" && leap[5..][..2] == "02" && leap[5..][3..] == "29";
  }

  /** Fields without zero padding are read. */
  lemma UnpaddedExamples()
    ensures ParseDate("2024-1-5") == Some(Date(2024, 1, 5))
    ensures ParseTime("9:05") == Some(TimeOfDay(9, 5))
  {
    var short := "2024-1-5";
    assert short[..4] == "2024" && short[5..][..1] == "1" && short[5..][2..] == "5";
    var t := "9:05";
    assert t[..1] == "9" && t[2..] == "05";
  }
}
