/** The write path: `log_activity` (main.py:8-25) and the validation and
    logging of `log_past_activity` (main.py:38-67). Prompts become
    parameters; today's date, which the source reads from the clock, is a
    parameter too. */
module Logger {
  import opened Calendar
  import opened TextFormats
  import opened Entries
  import opened DiaryStore

  /** What a retroactive logging attempt comes to: the row written, or the
      message shown when the date or a time does not parse. */
  datatype PastOutcome = Logged(entry: Row) | InvalidDate | InvalidTime

  /** The date a retroactive entry is for: today when the text is empty. */
  function EntryDate(dateText: string, today: Date): Option<Date> {
    if dateText == "" then Some(today) else ParseDate(dateText)
  }

  /** The outcome of `log_past_activity` for the typed texts: the date is
      checked first, then both times, and only when all three parse is a row
      built, from the two times on that one date. */
  function PastEntry(activity: string, dateText: string, startText: string, endText: string, today: Date): (r: PastOutcome)
    requires ValidDate(today)
    ensures r.InvalidDate? <==> EntryDate(dateText, today).None?
    ensures r.InvalidTime? <==>
      EntryDate(dateText, today).Some? && (ParseTime(startText).None? || ParseTime(endText).None?)
    ensures r.Logged? ==>
      var d, s, e := EntryDate(dateText, today).value, ParseTime(startText).value, ParseTime(endText).value;
      var sm, em := s.hour * 60 + s.minute, e.hour * 60 + e.minute;
      && r.entry.date == d && r.entry.activity == activity && ValidRow(r.entry)
      && r.entry.startTime == FormatTime(s.hour, s.minute)
      && r.entry.endTime == FormatTime(e.hour, e.minute)
      && r.entry.durationSeconds == (if sm <= em then 60 * (em - sm) else 60 * (1440 - (sm - em)))
  {
    match EntryDate(dateText, today)
    case None => InvalidDate
    case Some(d) =>
      match (ParseTime(startText), ParseTime(endText))
      case (Some(s), Some(e)) =>
        SameDateDuration(d, s, e);
        Logged(MakeEntry(activity, DateTime(d, s.hour, s.minute, 0, 0), DateTime(d, e.hour, e.minute, 0, 0)))
      case _ => InvalidTime
  }

  /** `log_activity`: build the row and append it. The row is returned; it
      holds the label and duration the source reports back. */
  method LogActivity(file: DiaryFile, activity: string, start: DateTime, end: DateTime) returns (entry: Row)
    requires file.Valid() && ValidDateTime(start) && ValidDateTime(end)
    modifies file
    ensures entry == MakeEntry(activity, start, end)
    ensures file.Valid() && file.fileExists
    ensures file.lines == AppendedLines(old(file.fileExists), old(file.lines), entry)
  {
    entry := MakeEntry(activity, start, end);
    file.Append(entry);
  }

  /** `log_past_activity`: nothing is written unless the date and both
      times parse; then exactly one row is appended. */
  method LogPastActivity(file: DiaryFile, activity: string, dateText: string, startText: string,
                         endText: string, today: Date) returns (outcome: PastOutcome)
    requires file.Valid() && ValidDate(today)
    modifies file
    ensures outcome == PastEntry(activity, dateText, startText, endText, today)
    ensures file.Valid()
    ensures outcome.Logged? ==>
      file.fileExists && file.lines == AppendedLines(old(file.fileExists), old(file.lines), outcome.entry)
    ensures !outcome.Logged? ==> file.fileExists == old(file.fileExists) && file.lines == old(file.lines)
  {
    var date: Date;
    if dateText == "" {
      date := today;
    } else {
      var parsed := ParseDate(dateText);
      if parsed.None? {
        return InvalidDate;
      }
      date := parsed.value;
    }
    var startTime, endTime := ParseTime(startText), ParseTime(endText);
    if startTime.None? || endTime.None? {
      return InvalidTime;
    }
    var start := DateTime(date, startTime.value.hour, startTime.value.minute, 0, 0);
    var end := DateTime(date, endTime.value.hour, endTime.value.minute, 0, 0);
    var entry := LogActivity(file, activity, start, end);
    outcome := Logged(entry);
  }

  /** Typical malformed texts leave the file as it was: a month 13 with
      day 40 is an invalid date, an hour 25 with minute 61 an invalid time. */
  lemma RefusedDate(activity: string, startText: string, endText: string, today: Date)
    requires ValidDate(today)
    ensures PastEntry(activity, "2024-13-40", startText, endText, today) == InvalidDate
  {
    ParseRefusals();
  }

  lemma RefusedTime(activity: string, today: Date)
    requires ValidDate(today)
    ensures PastEntry(activity, "", "25:61", "10:00", today) == InvalidTime
    ensures PastEntry(activity, "", "09:00", "25:61", today) == InvalidTime
  {
    ParseRefusals();
  }

  /** An entry from 23:30 to 00:15 on one date is stored as 45 minutes:
      the source wraps round midnight instead of refusing it. */
  lemma AcrossMidnight(activity: string, today: Date)
    requires ValidDate(today)
    ensures PastEntry(activity, "", "23:30", "00:15", today).Logged?
    ensures PastEntry(activity, "", "23:30", "00:15", today).entry.durationSeconds == 45 * 60
  {
    ParseFormatTime(23, 30);
    ParseFormatTime(0, 15);
    assert FormatTime(23, 30) == "23:30" && FormatTime(0, 15) == "00:15";
  }
}
