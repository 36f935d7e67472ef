# TimeDiary, modelled in Dafny

TimeDiary is a small command-line diary of activities (`main.py`).

- An entry is logged in one of two ways: live, which is start, Enter, stop; or retroactively, by typing a date and two `HH:MM` times.
- Each entry is appended as one row to `time_diary.csv`, with the columns `Date`, `Activity`, `Start Time`, `End Time` and `Duration (min)`.
- The header line is written when the file did not exist before the append.
- A report loads every row, groups it by a period bucket and by activity label, and sums the durations. The bucket is the date, the ISO 8601 week number or the month number.

This project models that data path and proves its properties:

- `Calendar`: proleptic Gregorian arithmetic as `datetime.date` does it. It covers day ordinals, ISO weekdays, and the ISO week number of ISO 8601:2004 section 4.1.4. Weeks start on Monday, and week 1 holds the year's first Thursday.
- `TextFormats`: `strptime` with `%Y-%m-%d` and `%H:%M`, including unpadded fields and full-match rules, `strftime('%H:%M')`, and `date.isoformat()`.
- `Entries`: the row that `log_activity` builds. The duration is `timedelta.seconds`, meaning whole elapsed seconds modulo one day. It is kept as an exact integer number of seconds, and the minutes column is that number over 60.
- `DiaryStore`: the file as an object (class `DiaryFile`) with an exists flag and a sequence of lines. `Append` is the `to_csv(mode='a', header=not file_exists)` call, and `Load` is what `read_csv` yields.
- `Logger`: `log_activity` and the validation branch of `log_past_activity`, as methods on a `DiaryFile`.
- `Reports`: `generate_report`. It covers the load outcomes, the group-by-sum, its total, and its independence of row order.

Three behaviours of the code are modelled as written:

- An end time earlier than the start time is not refused. The duration wraps round midnight.
- A file holding only the header gives no report (`None`), not an empty report.
- An empty activity label is accepted when logging. Reading the file back treats it differently, as "## Left out" says.

## Model

| member | source | states |
|---|---|---|
| Calendar.DaysInMonth | main.py:49 | a month has 28 to 31 days, and 29 exactly for February of a leap year, the day range `strptime` accepts |
| Calendar.IsoWeek | main.py:86 | the ISO week number of a date always lies in 1..53 |
| Calendar.NextDayFacts | main.py:86 | the next day is a valid date, one ordinal later and one ISO weekday later (Sunday is followed by Monday) |
| Calendar.SameWeekUntilSunday | main.py:86 | a day other than Sunday has the same ISO week number as the day after it, across a year boundary too |
| Calendar.NewWeekAfterSunday | main.py:86 | after a Sunday the ISO week number goes up by one or starts again at 1 |
| Calendar.ThursdayWeek | main.py:86 | a Thursday lies in week (day of year − 1) / 7 + 1, so the year's first Thursday lies in week 1 |
| Calendar.FirstWeekOf2024 | main.py:86 | 2024-01-01 to 2024-01-07 are weekdays 1 to 7 of ISO week 1 |
| Calendar.LastDaysOf2024 | main.py:86 | 2024-12-30 and 2024-12-31 are a Monday and a Tuesday in ISO week 1, the week 1 of 2025 |
| Calendar.NewYear2021 | main.py:86 | 2021-01-01 is a Friday in ISO week 53, the week 53 of 2020 |
| TextFormats.ParseDate | main.py:49 | a date that parses is a real calendar date: year 1..9999, month 1..12, a day that exists in that month of that year |
| TextFormats.ParseTime | main.py:56-57 | a time that parses has hour 0..23 and minute 0..59 |
| TextFormats.ParseFormatDate | main.py:49 | `strptime(date_str, "%Y-%m-%d")` accepts every valid date written zero-padded as `YYYY-MM-DD` and gives that date |
| TextFormats.ParseFormatTime | main.py:14-15 | reading back a time written by `strftime('%H:%M')` gives the same hour and minute |
| TextFormats.ParseRefusals | main.py:48-60 | month 13 with day 40, year 0, hour 25 with minute 61, and hour 24 are all refused |
| TextFormats.LeapDayExamples | main.py:49 | February 29th is refused in 2023 and accepted in 2024 |
| TextFormats.UnpaddedExamples | main.py:49 | `2024-1-5` and `9:05` are read as 2024-01-05 and 09:05 |
| Entries.SecondsField | main.py:10 | `timedelta.seconds` of any elapsed time lies in [0, 86400) |
| Entries.DurationSeconds | main.py:10 | the duration of any two timestamps lies in [0, 86400) seconds, that is [0, 1440) minutes |
| Entries.ElapsedWithinDay | main.py:10 | for an end not earlier than the start and less than a day later, the duration is the elapsed time in whole seconds, rounded down |
| Entries.WholeSeconds | main.py:10 | a whole number of seconds below a day is its own duration |
| Entries.WrappedWithinDay | main.py:10 | an end earlier than the start by g whole seconds gives a day minus g |
| Entries.WholeDaysVanish | main.py:10 | whole days between the timestamps do not change the duration |
| Entries.SameDateDuration | main.py:10 | two times on one date give end − start minutes when the end is not earlier, and 1440 − (start − end) when it is |
| Entries.MakeEntry | main.py:10-17 | the row takes the start's date and the label unchanged; start and end are the zero-padded `HH:MM` texts of the timestamps and read back as their hour and minute; the duration is `(end - start).seconds` and lies in [0, 1440) minutes |
| DiaryStore.AppendedLines | main.py:19-24 | an append keeps the earlier lines, adds the header exactly when the file did not exist, and ends with the new row |
| DiaryStore.LoadLines | main.py:73-74 | a missing file is `FileNotFoundError`; the rows load exactly when the file exists and starts with the header, and they are then the lines after it |
| DiaryStore.AppendThenLoad | main.py:19-24 | after an append to a missing or readable file, the rows read back are the earlier rows followed by the new one |
| DiaryStore.AppendToEmptyFile | main.py:22-24 | a file that exists but holds no bytes never gets a header: after an append it no longer reads |
| DiaryStore.HeaderOnce | main.py:19-24 | n appends to a missing file give exactly one header, first, then the n rows in call order, and read back as those rows |
| DiaryStore.DiaryFile.Append | main.py:22-24 | the file exists afterwards and its lines are the appended lines of its old state |
| DiaryStore.DiaryFile.Load | main.py:73-74 | not found exactly when the file does not exist; every loaded row is one the diary writes |
| Logger.LogActivity | main.py:8-24 | the row built from the label and the two timestamps is appended, and the file afterwards exists and holds the appended lines |
| Logger.PastEntry | main.py:44-67 | an invalid date exactly when the date text is neither empty nor a valid date; an invalid time exactly when the date is good and either time fails; otherwise a row on that date (today when the text is empty) with the label, both times and the wrapped duration of the two times |
| Logger.LogPastActivity | main.py:38-67 | the outcome is the one above; the file is unchanged unless a row is logged, and then exactly that row is appended |
| Logger.RefusedDate | main.py:48-52 | `2024-13-40` is an invalid date, whatever the times |
| Logger.RefusedTime | main.py:55-60 | `25:61` as start or as end time is an invalid time |
| Logger.AcrossMidnight | main.py:10 | 23:30 to 00:15 on one date is logged as 45 minutes |
| Reports.BucketOf | main.py:83-90 | the daily bucket is the date itself, the weekly bucket a week number in 1..53, the monthly bucket the date's month, in 1..12 |
| Reports.GroupBy | main.py:84 | `groupby(...).sum()` has an entry for exactly the keys that occur, each holding the sum of exactly the durations with that key |
| Reports.OccursAt | main.py:84 | a key occurs among the items exactly when some item carries it |
| Reports.AggregateEntries | main.py:83-90 | one entry per (bucket, activity) pair that occurs among the rows, holding the summed durations of exactly the rows with that pair |
| Reports.GenerateReport | main.py:71-93 | no activity data exactly when the file is missing; no data exactly when the file holds only the header; a failure exactly when the read raises; otherwise a non-empty report, and it is the aggregate of exactly the loaded rows for the chosen period |
| Reports.GroupByTotal | main.py:84 | the grouped sums add up to the total of all durations |
| Reports.GroupByPermutation | main.py:84 | reordering the items does not change the grouped sums |
| Reports.AggregateTotal | main.py:83-90 | the report's entries add up to the sum of all row durations |
| Reports.AggregatePermutation | main.py:83-90 | the report does not depend on the order of the rows |
| Reports.ReportAddsUp | main.py:71-93 | a produced report adds up to the total duration of the rows in the file |
| Reports.SharedKey | main.py:83-90 | two rows with one key give one entry holding both durations |
| Reports.DistinctKeys | main.py:83-90 | two rows with different keys give two entries |
| Reports.DailyExample | main.py:83-84 | reading 09:00–09:30 and 10:00–10:15 on 2024-01-01 gives one daily entry of 45 minutes |
| Reports.WeeklyExample | main.py:85-87 | rows of one label on 2024-01-01 and 2024-01-05 merge into one entry of week 1 |
| Reports.WeeksOfDifferentYearsMerge | main.py:85-87 | 2024-01-01 and 2024-12-30, in week 1 of different ISO years, share one weekly entry |
| Reports.MonthlyBuckets | main.py:88-90 | rows of different months never share a monthly entry; rows of one month number share it whatever their years |
| Reports.FirstLogReport | main.py:19-24 | the first row logged into a missing file reads back alone and reports its own duration under its own key |

## Left out

- The menu loop and all prompting and printing (main.py:111-141, and the `print` calls elsewhere) are interactive input and output. The prompted texts are parameters of `Logger.PastEntry` and `Logger.LogPastActivity`, and the messages are the constructors of `PastOutcome` and `ReportOutcome`.
- `start_activity` (main.py:29-34) reads the clock and waits for Enter. It amounts to `Logger.LogActivity` with the two timestamps as parameters, and so does today's date in retroactive logging.
- `visualize_report` (main.py:97-107) draws a chart with matplotlib, a foreign library.
- CSV text serialisation is a pandas matter. The file is a sequence of lines, each the header or one row, and a row's `Date` is kept as a date. This leaves out fields holding commas or quotes, and how pandas re-parses labels and numbers.
- Durations are exact integer seconds rather than floating-point minutes, so rounding in the float `/ 60` and in the float sums is not modelled. `Entries.DurationMinutes` is the exact quotient.
- `strptime` accepts any Unicode decimal digit where `\d` is written. The model accepts ASCII digits only.
- A `time_period` other than daily, weekly and monthly leaves `report` unbound at main.py:92. The period is a three-valued datatype instead.
- Python raises `OverflowError` for dates past 9999-12-31. The calendar lemmas about the next day exclude that last date.
- Reports.GenerateReport: an unreadable file (no bytes, or a first line that is not the header) is one outcome, `ReportFailed`, without the exception's type.
- Reports.AggregateEntries: does not model labels that `read_csv` reads as missing. By default these are an empty field and the texts `NA`, `NaN`, `nan`, `None`, `null`, `N/A` and `<NA>`, and `groupby` drops rows with such labels. The model keeps every label as text, so this lemma, `Reports.AggregateTotal` and `Reports.ReportAddsUp` describe the program only for files whose labels are all ordinary texts.
- Reports.GenerateReport: does not model dates outside the range of a pandas `Timestamp`, which runs from 1677-09-21 to 2262-04-11. For such dates `parse_dates` leaves the `Date` column as text, and `.dt` at main.py:86 and main.py:89 then raises; how pandas converts such a file also depends on its version. The model gives a report for every year from 1 to 9999, where the program fails for the weekly and monthly periods.
- The order of the report is not modelled: `groupby` returns entries sorted by bucket, then by activity. The model's report is a map from key to total, which has no order.
