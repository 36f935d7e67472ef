/** The diary file `time_diary.csv` (main.py:19-24, 73). An append writes the
    header line only when the file did not exist before the call, however
    many lines it then held; reading with pandas takes the first line as the
    header and every later line as a row. */
module DiaryStore {
  import opened Entries

  /** A line of the file: the column header
      `Date,Activity,Start Time,End Time,Duration (min)` or one row. */
  datatype Line = HeaderLine | RecordLine(row: Row)

  /** What `pd.read_csv('time_diary.csv', parse_dates=['Date'])` yields:
      `FileNotFoundError`; an exception generate_report does not catch
      (a file of no bytes raises `EmptyDataError`, and a first line that is
      not the header gives no `Date` column, so `parse_dates` raises); or the
      rows. */
  datatype LoadResult = NotFound | Unreadable | Loaded(rows: seq<Row>)

  /** Lines laid down by appends only: the header nowhere but first, and
      every row one the diary can write. */
  predicate Shaped(lines: seq<Line>) {
    && (forall i :: 0 < i < |lines| ==> lines[i].RecordLine?)
    && (forall i :: 0 <= i < |lines| && lines[i].RecordLine? ==> ValidRow(lines[i].row))
  }

  function Records(rows: seq<Row>): (ls: seq<Line>)
    ensures |ls| == |rows|
    ensures forall i :: 0 <= i < |rows| ==> ls[i] == RecordLine(rows[i])
  {
    seq(|rows|, i requires 0 <= i < |rows| => RecordLine(rows[i]))
  }

  /** The rows of lines that are all records. */
  function RowsOf(lines: seq<Line>): (rows: seq<Row>)
    requires forall i :: 0 <= i < |lines| ==> lines[i].RecordLine?
    ensures Records(rows) == lines
  {
    var rows := seq(|lines|, i requires 0 <= i < |lines| => lines[i].row);
    assert Records(rows) == lines;
    rows
  }

  /** The file after one `to_csv(mode='a', header=not file_exists)`: what
      was there, the header if the file did not exist, then the new row. */
  function AppendedLines(fileExists: bool, lines: seq<Line>, row: Row): (r: seq<Line>)
    ensures |r| == |lines| + (if fileExists then 1 else 2)
    ensures r[..|lines|] == lines && r[|r| - 1] == RecordLine(row)
    ensures !fileExists ==> r[|lines|] == HeaderLine
  {
    lines + (if fileExists then [] else [HeaderLine]) + [RecordLine(row)]
  }

  /** The file after appending each of rows in turn. */
  function AppendAll(fileExists: bool, lines: seq<Line>, rows: seq<Row>): seq<Line>
    decreases |rows|
  {
    if rows == [] then lines
    else AppendAll(true, AppendedLines(fileExists, lines, rows[0]), rows[1..])
  }

  /** How pandas reads the file. */
  function LoadLines(fileExists: bool, lines: seq<Line>): (r: LoadResult)
    requires Shaped(lines)
    ensures r.NotFound? <==> !fileExists
    ensures r.Loaded? <==> fileExists && |lines| > 0 && lines[0] == HeaderLine
    ensures r.Loaded? ==> |r.rows| == |lines| - 1 && [HeaderLine] + Records(r.rows) == lines
    ensures r.Loaded? ==> forall i :: 0 <= i < |r.rows| ==> ValidRow(r.rows[i])
  {
    if !fileExists then NotFound
    else if lines == [] || lines[0] != HeaderLine then Unreadable
    else
      var rows := RowsOf(lines[1..]);
      assert [HeaderLine] + Records(rows) == lines;
      assert forall i :: 0 <= i < |rows| ==> lines[i + 1].row == rows[i];
      Loaded(rows)
  }

  /** An append to a file that exists and reads, or does not exist, reads
      back as the earlier rows followed by the new one. */
  lemma {:induction false} AppendThenLoad(fileExists: bool, lines: seq<Line>, row: Row)
    requires Shaped(lines) && (!fileExists ==> lines == []) && ValidRow(row)
    requires !LoadLines(fileExists, lines).Unreadable?
    ensures Shaped(AppendedLines(fileExists, lines, row))
    ensures var before := if fileExists then LoadLines(fileExists, lines).rows else [];
      LoadLines(true, AppendedLines(fileExists, lines, row)) == Loaded(before + [row])
  {
    var after := AppendedLines(fileExists, lines, row);
    var before := if fileExists then LoadLines(fileExists, lines).rows else [];
    assert after == [HeaderLine] + Records(before + [row]);
  }

  /** Where the file exists but holds no bytes, the header is never written:
      the first row becomes the header line and the file no longer reads. */
  lemma AppendToEmptyFile(row: Row)
    requires ValidRow(row)
    ensures Shaped(AppendedLines(true, [], row))
    ensures LoadLines(true, AppendedLines(true, [], row)) == Unreadable
  {
  }

  /** Appending rows one call at a time to a file that does not exist writes
      exactly one header, first, then the rows in call order; the file then
      reads back as exactly those rows. */
  lemma {:induction false} HeaderOnce(rows: seq<Row>)
    requires |rows| > 0 && forall i :: 0 <= i < |rows| ==> ValidRow(rows[i])
    ensures AppendAll(false, [], rows) == [HeaderLine] + Records(rows)
    ensures LoadLines(true, AppendAll(false, [], rows)) == Loaded(rows)
  {
    assert AppendedLines(false, [], rows[0]) == [HeaderLine, RecordLine(rows[0])];
    AppendAllToExisting([HeaderLine, RecordLine(rows[0])], rows[1..]);
    assert [HeaderLine, RecordLine(rows[0])] + Records(rows[1..]) == [HeaderLine] + Records(rows);
  }

  lemma {:induction false} AppendAllToExisting(lines: seq<Line>, rows: seq<Row>)
    ensures AppendAll(true, lines, rows) == lines + Records(rows)
    decreases |rows|
  {
    if rows != [] {
      AppendAllToExisting(lines + [RecordLine(rows[0])], rows[1..]);
      assert lines + [RecordLine(rows[0])] + Records(rows[1..]) == lines + Records(rows);
    } else {
      assert Records(rows) == [];
    }
  }

  /** The file as an object: whether it exists, and its lines. */
  class DiaryFile {
    var fileExists: bool
    var lines: seq<Line>

    predicate Valid()
      reads this
    {
      (!fileExists ==> lines == []) && Shaped(lines)
    }

    /** No file yet. */
    constructor Missing()
      ensures Valid() && !fileExists && lines == []
    {
      fileExists := false;
      lines := [];
    }

    /** A file already on disk with the given lines. */
    constructor Found(content: seq<Line>)
      requires Shaped(content)
      ensures Valid() && fileExists && lines == content
    {
      fileExists := true;
      lines := content;
    }

    /** `df.to_csv('time_diary.csv', mode='a', header=not file_exists)`. */
    method Append(row: Row)
      requires Valid() && ValidRow(row)
      modifies this
      ensures Valid() && fileExists
      ensures lines == AppendedLines(old(fileExists), old(lines), row)
    {
      var existed := fileExists;
      if !existed {
        lines := lines + [HeaderLine];
      }
      lines := lines + [RecordLine(row)];
      fileExists := true;
    }

    /** The rows read back, or why there are none. */
    function Load(): (r: LoadResult)
      reads this
      requires Valid()
      ensures r.NotFound? <==> !fileExists
      ensures r.Loaded? ==> forall i :: 0 <= i < |r.rows| ==> ValidRow(r.rows[i])
    {
      LoadLines(fileExists, lines)
    }
  }
}
