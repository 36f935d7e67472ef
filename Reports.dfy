/** The read path: `generate_report` (main.py:71-93). It loads every row,
    keys each by a bucket of its date and by its label, and sums the
    durations of each key: `df.groupby([bucket, 'Activity'])['Duration (min)'].sum()`.
    Sums are kept in seconds; the minutes the source prints are a sum over 60. */
module Reports {
  import opened Calendar
  import opened Entries
  import opened DiaryStore

  /** The three report periods the menu offers. */
  datatype Period = Daily | Weekly | Monthly

  /** A report bucket: the date itself, the ISO week number alone, or the
      month number alone; week and month carry no year. */
  datatype Bucket = OnDate(date: Date) | InWeek(week: int) | InMonth(month: int)

  /** A group of the report: a bucket and an activity label. */
  datatype Key = Key(bucket: Bucket, activity: string)

  /** What `generate_report` returns, with the message it prints: no file
      ("No activity data found"), a file with no rows ("No data in CSV
      file."), an exception it lets escape, or the summed report. */
  datatype ReportOutcome = NoActivityData | NoDataInFile | ReportFailed | Totals(totals: map<Key, int>)

  function BucketOf(p: Period, d: Date): (b: Bucket)
    requires ValidDate(d)
    ensures p == Daily ==> b.OnDate? && b.date == d
    ensures p == Weekly ==> b.InWeek? && 1 <= b.week <= 53
    ensures p == Monthly ==> b.InMonth? && b.month == d.month && 1 <= b.month <= 12
  {
    match p
    case Daily => OnDate(d)
    case Weekly => InWeek(IsoWeek(d))
    case Monthly => InMonth(d.month)
  }

  function KeyOf(p: Period, r: Row): Key
    requires ValidRow(r)
  {
    Key(BucketOf(p, r.date), r.activity)
  }

  predicate AllValid(rows: seq<Row>) {
    forall i :: 0 <= i < |rows| ==> ValidRow(rows[i])
  }

  /** Sum of the durations of the rows. */
  function Durations(rows: seq<Row>): int
    decreases |rows|
  {
    if rows == [] then 0 else Durations(rows[..|rows| - 1]) + rows[|rows| - 1].durationSeconds
  }

  /** One row as the grouping sees it: its key and its duration. */
  datatype Item = Item(key: Key, seconds: int)

  /** The rows with their key column added, as `df['Week'] = ...` does. */
  function Keyed(p: Period, rows: seq<Row>): (items: seq<Item>)
    requires AllValid(rows)
    ensures |items| == |rows|
    ensures forall i :: 0 <= i < |rows| ==> items[i] == Item(KeyOf(p, rows[i]), rows[i].durationSeconds)
  {
    seq(|rows|, i requires 0 <= i < |rows| => Item(KeyOf(p, rows[i]), rows[i].durationSeconds))
  }

  /** Sum of all durations. */
  function Total(items: seq<Item>): int
    decreases |items|
  {
    if items == [] then 0 else Total(items[..|items| - 1]) + items[|items| - 1].seconds
  }

  /** Whether some item carries key k. */
  predicate Occurs(items: seq<Item>, k: Key)
    decreases |items|
  {
    items != [] && (Occurs(items[..|items| - 1], k) || items[|items| - 1].key == k)
  }

  /** A key occurs exactly when some item carries it. */
  lemma {:induction false} OccursAt(items: seq<Item>, k: Key)
    ensures Occurs(items, k) <==> exists i :: 0 <= i < |items| && items[i].key == k
    decreases |items|
  {
    if items != [] {
      var init := items[..|items| - 1];
      OccursAt(init, k);
      if Occurs(init, k) {
        var i :| 0 <= i < |init| && init[i].key == k;
        assert items[i].key == k;
      }
      if exists i :: 0 <= i < |items| && items[i].key == k {
        var i :| 0 <= i < |items| && items[i].key == k;
        if i < |init| {
          assert init[i].key == k;
        }
      }
    }
  }

  /** Sum of the durations of exactly the items with key k: the reference
      meaning of one report entry. */
  function SumFor(items: seq<Item>, k: Key): int
    decreases |items|
  {
    if items == [] then 0
    else
      var last := items[|items| - 1];
      SumFor(items[..|items| - 1], k) + (if last.key == k then last.seconds else 0)
  }

  /** A key no item carries sums to nothing. */
  lemma {:induction false} SumForAbsent(items: seq<Item>, k: Key)
    requires !Occurs(items, k)
    ensures SumFor(items, k) == 0
    decreases |items|
  {
    if items != [] {
      SumForAbsent(items[..|items| - 1], k);
    }
  }

  /** `groupby(key).sum()`, item by item: each item adds its duration to its
      key's entry, creating the entry on the key's first item. The result has
      one entry per key that occurs, holding that key's sum. */
  function GroupBy(items: seq<Item>): (m: map<Key, int>)
    ensures forall k :: k in m <==> Occurs(items, k)
    ensures forall k :: k in m ==> m[k] == SumFor(items, k)
    decreases |items|
  {
    if items == [] then map[]
    else
      var m := GroupBy(items[..|items| - 1]);
      var last := items[|items| - 1];
      if last.key in m then m[last.key := m[last.key] + last.seconds]
      else
        SumForAbsent(items[..|items| - 1], last.key);
        m[last.key := last.seconds]
  }

  /** The report of one period: the rows keyed, then grouped. */
  function Aggregate(p: Period, rows: seq<Row>): map<Key, int>
    requires AllValid(rows)
  {
    GroupBy(Keyed(p, rows))
  }

  /** The report has one entry per (bucket, activity) pair that occurs among
      the rows, holding the summed durations of exactly the rows with that
      pair. */
  lemma AggregateEntries(p: Period, rows: seq<Row>)
    requires AllValid(rows)
    ensures forall k :: k in Aggregate(p, rows) <==> exists i :: 0 <= i < |rows| && KeyOf(p, rows[i]) == k
    ensures forall k :: k in Aggregate(p, rows) ==> Aggregate(p, rows)[k] == SumFor(Keyed(p, rows), k)
  {
    var items, m := Keyed(p, rows), Aggregate(p, rows);
    forall k | k in m ensures exists i :: 0 <= i < |rows| && KeyOf(p, rows[i]) == k {
      OccursAt(items, k);
      var i :| 0 <= i < |items| && items[i].key == k;
    }
    forall k | exists i :: 0 <= i < |rows| && KeyOf(p, rows[i]) == k ensures k in m {
      var i :| 0 <= i < |rows| && KeyOf(p, rows[i]) == k;
      assert items[i].key == k;
      OccursAt(items, k);
    }
  }

  /** `generate_report(time_period)`. */
  function GenerateReport(file: DiaryFile, p: Period): (r: ReportOutcome)
    reads file
    requires file.Valid()
    ensures r.NoActivityData? <==> !file.fileExists
    ensures r.NoDataInFile? <==> file.fileExists && file.lines == [HeaderLine]
    ensures r.ReportFailed? <==> file.Load().Unreadable?
    ensures r.Totals? ==> file.Load().Loaded? && |file.Load().rows| > 0 && |r.totals| > 0
    ensures r.Totals? ==> r.totals == Aggregate(p, file.Load().rows)
  {
    match file.Load()
    case NotFound => NoActivityData
    case Unreadable => ReportFailed
    case Loaded(rows) =>
      if rows == [] then NoDataInFile
      else
        var m := Aggregate(p, rows);
        OccursAt(Keyed(p, rows), Keyed(p, rows)[0].key);
        Totals(m)
  }

  // Sums over the entries of a report.

  ghost function SumOver(m: map<Key, int>, ks: set<Key>): int
    requires ks <= m.Keys
    decreases ks
  {
    if ks == {} then 0 else var k :| k in ks; m[k] + SumOver(m, ks - {k})
  }

  /** Sum of all entries of a report. */
  ghost function MapTotal(m: map<Key, int>): int {
    SumOver(m, m.Keys)
  }

  /** Any entry may be taken out of a sum first. */
  lemma {:induction false} SumOverPick(m: map<Key, int>, ks: set<Key>, k: Key)
    requires ks <= m.Keys && k in ks
    ensures SumOver(m, ks) == m[k] + SumOver(m, ks - {k})
    decreases ks
  {
    var j :| j in ks && SumOver(m, ks) == m[j] + SumOver(m, ks - {j});
    if j != k {
      SumOverPick(m, ks - {j}, k);
      SumOverPick(m, ks - {k}, j);
      assert ks - {j} - {k} == ks - {k} - {j};
    }
  }

  /** A sum only depends on the entries it adds up. */
  lemma {:induction false} SumOverAgree(m1: map<Key, int>, m2: map<Key, int>, ks: set<Key>)
    requires ks <= m1.Keys && ks <= m2.Keys
    requires forall k :: k in ks ==> m1[k] == m2[k]
    ensures SumOver(m1, ks) == SumOver(m2, ks)
    decreases ks
  {
    if ks != {} {
      var k :| k in ks;
      SumOverPick(m1, ks, k);
      SumOverPick(m2, ks, k);
      SumOverAgree(m1, m2, ks - {k});
    }
  }

  /** The grouped sums add up to the total of all durations: grouping loses
      and duplicates nothing. */
  lemma {:induction false} GroupByTotal(items: seq<Item>)
    ensures MapTotal(GroupBy(items)) == Total(items)
    decreases |items|
  {
    if items != [] {
      var init := items[..|items| - 1];
      var k := items[|items| - 1].key;
      var m, a := GroupBy(init), GroupBy(items);
      GroupByTotal(init);
      if k in m {
        assert a.Keys == m.Keys;
        SumOverPick(a, a.Keys, k);
        SumOverPick(m, m.Keys, k);
        SumOverAgree(a, m, m.Keys - {k});
      } else {
        assert a.Keys - {k} == m.Keys;
        SumOverPick(a, a.Keys, k);
        SumOverAgree(a, m, m.Keys);
      }
    }
  }

  lemma {:induction false} SumForConcat(a: seq<Item>, b: seq<Item>, k: Key)
    ensures SumFor(a + b, k) == SumFor(a, k) + SumFor(b, k)
    decreases |b|
  {
    if b == [] {
      assert a + b == a;
    } else {
      assert (a + b)[..|a + b| - 1] == a + b[..|b| - 1];
      SumForConcat(a, b[..|b| - 1], k);
    }
  }

  /** A sum by key does not depend on the order of the items. */
  lemma {:induction false} SumForPermutation(s: seq<Item>, t: seq<Item>, k: Key)
    requires multiset(s) == multiset(t)
    ensures SumFor(s, k) == SumFor(t, k)
    decreases |s|
  {
    if s == [] {
      assert |t| == |multiset(t)| == 0;
    } else {
      var j := RemoveLast(s, t);
      var init, x, before, after := s[..|s| - 1], s[|s| - 1], t[..j], t[j + 1..];
      assert s == init + [x] && t == before + [x] + after;
      SumForPermutation(init, before + after, k);
      SumForConcat(before, after, k);
      SumForConcat(before, [x], k);
      SumForConcat(before + [x], after, k);
      assert SumFor([x], k) == SumFor(s, k) - SumFor(init, k) by {
        assert [x][..0] == [];
      }
    }
  }

  /** Keys present among items depend only on which items there are. */
  lemma KeyOccursPermutation(s: seq<Item>, t: seq<Item>, k: Key)
    requires multiset(s) == multiset(t) && Occurs(s, k)
    ensures Occurs(t, k)
  {
    OccursAt(s, k);
    OccursAt(t, k);
    var i :| 0 <= i < |s| && s[i].key == k;
    assert s[i] in multiset(s);
    var j :| 0 <= j < |t| && t[j] == s[i];
  }

  /** Reordering the items before grouping gives the same sums. */
  lemma {:induction false} GroupByPermutation(s: seq<Item>, t: seq<Item>)
    requires multiset(s) == multiset(t)
    ensures GroupBy(s) == GroupBy(t)
  {
    var ms, mt := GroupBy(s), GroupBy(t);
    forall k | k in ms ensures k in mt {
      KeyOccursPermutation(s, t, k);
    }
    forall k | k in mt ensures k in ms {
      KeyOccursPermutation(t, s, k);
    }
    forall k | k in ms ensures ms[k] == mt[k] {
      SumForPermutation(s, t, k);
    }
    assert ms.Keys == mt.Keys;
  }

  lemma {:induction false} TotalKeyed(p: Period, rows: seq<Row>)
    requires AllValid(rows)
    ensures Total(Keyed(p, rows)) == Durations(rows)
    decreases |rows|
  {
    if rows != [] {
      var init := rows[..|rows| - 1];
      assert AllValid(init);
      assert Keyed(p, rows)[..|rows| - 1] == Keyed(p, init);
      TotalKeyed(p, init);
    }
  }

  /** Each row mapped through f. */
  function MapRows(f: Row -> Item, rows: seq<Row>): (items: seq<Item>)
    ensures |items| == |rows| && forall i :: 0 <= i < |rows| ==> items[i] == f(rows[i])
  {
    seq(|rows|, i requires 0 <= i < |rows| => f(rows[i]))
  }

  lemma MapRowsConcat(f: Row -> Item, a: seq<Row>, b: seq<Row>)
    ensures MapRows(f, a + b) == MapRows(f, a) + MapRows(f, b)
  {
    assert forall i :: 0 <= i < |a + b| ==> (a + b)[i] == if i < |a| then a[i] else b[i - |a|];
  }

  /** Taking the last element of s out of t, wherever it sits there, leaves
      two sequences that are again permutations of each other. */
  lemma RemoveLast<T>(s: seq<T>, t: seq<T>) returns (j: int)
    requires |s| > 0 && multiset(s) == multiset(t)
    ensures 0 <= j < |t| && t[j] == s[|s| - 1]
    ensures t == t[..j] + [t[j]] + t[j + 1..]
    ensures multiset(s[..|s| - 1]) == multiset(t[..j] + t[j + 1..])
  {
    var x := s[|s| - 1];
    assert s == s[..|s| - 1] + [x];
    assert x in multiset(t);
    j :| 0 <= j < |t| && t[j] == x;
    SplitAt(t, j);
    var init, rest := s[..|s| - 1], t[..j] + t[j + 1..];
    assert multiset(s) == multiset(init) + multiset{x};
    assert multiset(init) == multiset(s) - multiset{x};
    assert multiset(rest) == multiset(t) - multiset{x};
  }

  lemma SplitAt<T>(t: seq<T>, j: int)
    requires 0 <= j < |t|
    ensures t == t[..j] + [t[j]] + t[j + 1..]
    ensures multiset(t) == multiset(t[..j] + t[j + 1..]) + multiset{t[j]}
  {
    assert t == t[..j] + [t[j]] + t[j + 1..];
    assert multiset(t[..j] + t[j + 1..]) == multiset(t[..j]) + multiset(t[j + 1..]);
  }

  /** Mapping rows one by one commutes with reordering them. */
  lemma {:induction false} MapRowsPermutation(f: Row -> Item, s: seq<Row>, t: seq<Row>)
    requires multiset(s) == multiset(t)
    ensures multiset(MapRows(f, s)) == multiset(MapRows(f, t))
    decreases |s|
  {
    if s == [] {
      assert |t| == |multiset(t)| == 0;
    } else {
      var j := RemoveLast(s, t);
      var init, x, before, after := s[..|s| - 1], s[|s| - 1], t[..j], t[j + 1..];
      MapRowsPermutation(f, init, before + after);
      assert s == init + [x];
      MapRowsConcat(f, init, [x]);
      MapRowsConcat(f, before, after);
      MapRowsConcat(f, before + [x], after);
      MapRowsConcat(f, before, [x]);
      assert MapRows(f, [x]) == [f(x)];
      calc {
        multiset(MapRows(f, s));
        multiset(MapRows(f, init)) + multiset{f(x)};
        multiset(MapRows(f, before + after)) + multiset{f(x)};
        multiset(MapRows(f, before)) + multiset(MapRows(f, after)) + multiset{f(x)};
        multiset(MapRows(f, before) + [f(x)] + MapRows(f, after));
        multiset(MapRows(f, t));
      }
    }
  }

  /** Keying reorders with the rows. */
  lemma KeyedPermutation(p: Period, s: seq<Row>, t: seq<Row>)
    requires AllValid(s) && AllValid(t) && multiset(s) == multiset(t)
    ensures multiset(Keyed(p, s)) == multiset(Keyed(p, t))
  {
    var f := (r: Row) => if ValidRow(r) then Item(KeyOf(p, r), r.durationSeconds) else Item(Key(OnDate(r.date), r.activity), 0);
    assert Keyed(p, s) == MapRows(f, s);
    assert Keyed(p, t) == MapRows(f, t);
    MapRowsPermutation(f, s, t);
  }

  /** The report's entries add up to the total of all durations. */
  lemma AggregateTotal(p: Period, rows: seq<Row>)
    requires AllValid(rows)
    ensures MapTotal(Aggregate(p, rows)) == Durations(rows)
  {
    GroupByTotal(Keyed(p, rows));
    TotalKeyed(p, rows);
  }

  /** Shuffling the rows before aggregating gives the same report. */
  lemma AggregatePermutation(p: Period, s: seq<Row>, t: seq<Row>)
    requires AllValid(s) && AllValid(t) && multiset(s) == multiset(t)
    ensures Aggregate(p, s) == Aggregate(p, t)
  {
    KeyedPermutation(p, s, t);
    GroupByPermutation(Keyed(p, s), Keyed(p, t));
  }

  /** A report that is produced adds up to the total duration of the rows
      the file holds. */
  lemma ReportAddsUp(file: DiaryFile, p: Period)
    requires file.Valid() && GenerateReport(file, p).Totals?
    ensures MapTotal(GenerateReport(file, p).totals) == Durations(file.Load().rows)
  {
    AggregateTotal(p, file.Load().rows);
  }

  // Examples of the three periods.

  lemma SingleItem(x: Item)
    ensures GroupBy([x]) == map[x.key := x.seconds]
  {
    assert [x][..0] == [];
    assert GroupBy([x]) == map[][x.key := 0 + x.seconds];
  }

  lemma TwoItemsOneKey(k: Key, a: int, b: int)
    ensures GroupBy([Item(k, a), Item(k, b)]) == map[k := a + b]
  {
    SingleItem(Item(k, a));
    assert [Item(k, a), Item(k, b)][..1] == [Item(k, a)];
  }

  lemma TwoItemsTwoKeys(k1: Key, a: int, k2: Key, b: int)
    requires k1 != k2
    ensures GroupBy([Item(k1, a), Item(k2, b)]) == map[k1 := a, k2 := b]
  {
    SingleItem(Item(k1, a));
    assert [Item(k1, a), Item(k2, b)][..1] == [Item(k1, a)];
  }

  lemma SingleRow(p: Period, r: Row)
    requires ValidRow(r)
    ensures Aggregate(p, [r]) == map[KeyOf(p, r) := r.durationSeconds]
  {
    SingleItem(Item(KeyOf(p, r), r.durationSeconds));
    assert Keyed(p, [r]) == [Item(KeyOf(p, r), r.durationSeconds)];
  }

  /** Two rows are keyed one by one. */
  lemma KeyedTwo(p: Period, r1: Row, r2: Row)
    requires ValidRow(r1) && ValidRow(r2)
    ensures Aggregate(p, [r1, r2])
      == GroupBy([Item(KeyOf(p, r1), r1.durationSeconds), Item(KeyOf(p, r2), r2.durationSeconds)])
  {
    var items := Keyed(p, [r1, r2]);
    assert items == [Item(KeyOf(p, r1), r1.durationSeconds), Item(KeyOf(p, r2), r2.durationSeconds)];
  }

  /** Two rows with one key make one entry holding the sum of both. */
  lemma SharedKey(p: Period, r1: Row, r2: Row, k: Key)
    requires ValidRow(r1) && ValidRow(r2) && KeyOf(p, r1) == k && KeyOf(p, r2) == k
    ensures Aggregate(p, [r1, r2]) == map[k := r1.durationSeconds + r2.durationSeconds]
  {
    KeyedTwo(p, r1, r2);
    TwoItemsOneKey(k, r1.durationSeconds, r2.durationSeconds);
  }

  /** Two rows with different keys make two entries holding one duration each. */
  lemma DistinctKeys(p: Period, r1: Row, r2: Row, k1: Key, k2: Key)
    requires ValidRow(r1) && ValidRow(r2) && KeyOf(p, r1) == k1 && KeyOf(p, r2) == k2 && k1 != k2
    ensures Aggregate(p, [r1, r2]) == map[k1 := r1.durationSeconds, k2 := r2.durationSeconds]
  {
    KeyedTwo(p, r1, r2);
    TwoItemsTwoKeys(k1, r1.durationSeconds, k2, r2.durationSeconds);
  }

  /** The first seven days of 2024 and its last two lie in an ISO week 1. */
  lemma WeekOneKey(r: Row)
    requires ValidRow(r) && r.date.year == 2024
    requires (r.date.month == 1 && r.date.day <= 7) || (r.date.month == 12 && r.date.day >= 30)
    ensures KeyOf(Weekly, r) == Key(InWeek(1), r.activity)
  {
    if r.date.month == 1 {
      FirstWeekOf2024(r.date);
    } else {
      LastDaysOf2024(r.date);
    }
  }

  /** Reading from 09:00 to 09:30 and from 10:00 to 10:15 on 2024-01-01
      gives one daily entry of 45 minutes. */
  lemma DailyExample()
    ensures var d := Date(2024, 1, 1);
      var r1 := MakeEntry("Read", DateTime(d, 9, 0, 0, 0), DateTime(d, 9, 30, 0, 0));
      var r2 := MakeEntry("Read", DateTime(d, 10, 0, 0, 0), DateTime(d, 10, 15, 0, 0));
      Aggregate(Daily, [r1, r2]) == map[Key(OnDate(d), "Read") := 45 * 60]
  {
    var d := Date(2024, 1, 1);
    SameDateDuration(d, TimeOfDay(9, 0), TimeOfDay(9, 30));
    SameDateDuration(d, TimeOfDay(10, 0), TimeOfDay(10, 15));
    var r1 := MakeEntry("Read", DateTime(d, 9, 0, 0, 0), DateTime(d, 9, 30, 0, 0));
    var r2 := MakeEntry("Read", DateTime(d, 10, 0, 0, 0), DateTime(d, 10, 15, 0, 0));
    SharedKey(Daily, r1, r2, Key(OnDate(d), "Read"));
  }

  /** 2024-01-01 (a Monday) and 2024-01-05 (a Friday) lie in ISO week 1: one
      label on those two days makes a single weekly entry. */
  lemma WeeklyExample(r1: Row, r2: Row)
    requires ValidRow(r1) && ValidRow(r2) && r1.activity == r2.activity
    requires r1.date == Date(2024, 1, 1) && r2.date == Date(2024, 1, 5)
    ensures Aggregate(Weekly, [r1, r2]) == map[Key(InWeek(1), r1.activity) := r1.durationSeconds + r2.durationSeconds]
  {
    WeekOneKey(r1);
    WeekOneKey(r2);
    SharedKey(Weekly, r1, r2, Key(InWeek(1), r1.activity));
  }

  /** Week numbers carry no year: 2024-01-01 and 2024-12-30, which ISO 8601
      places in week 1 of 2024 and of 2025, share a weekly entry. */
  lemma WeeksOfDifferentYearsMerge(r1: Row, r2: Row)
    requires ValidRow(r1) && ValidRow(r2) && r1.activity == r2.activity
    requires r1.date == Date(2024, 1, 1) && r2.date == Date(2024, 12, 30)
    ensures Aggregate(Weekly, [r1, r2]) == map[Key(InWeek(1), r1.activity) := r1.durationSeconds + r2.durationSeconds]
  {
    WeekOneKey(r1);
    WeekOneKey(r2);
    SharedKey(Weekly, r1, r2, Key(InWeek(1), r1.activity));
  }

  /** Rows of different months never share a monthly entry; rows of one
      month number share it whatever their years. */
  lemma MonthlyBuckets(r1: Row, r2: Row)
    requires ValidRow(r1) && ValidRow(r2) && r1.activity == r2.activity
    ensures r1.date.month != r2.date.month ==>
      Aggregate(Monthly, [r1, r2]) == map[Key(InMonth(r1.date.month), r1.activity) := r1.durationSeconds,
                                          Key(InMonth(r2.date.month), r2.activity) := r2.durationSeconds]
    ensures r1.date.month == r2.date.month ==>
      Aggregate(Monthly, [r1, r2]) == map[Key(InMonth(r1.date.month), r1.activity) := r1.durationSeconds + r2.durationSeconds]
  {
    var k1, k2 := Key(InMonth(r1.date.month), r1.activity), Key(InMonth(r2.date.month), r2.activity);
    if k1 == k2 {
      SharedKey(Monthly, r1, r2, k1);
    } else {
      DistinctKeys(Monthly, r1, r2, k1, k2);
    }
  }

  /** The first activity logged into a missing file makes a report of one
      entry, its own duration under its own key. */
  lemma FirstLogReport(p: Period, row: Row)
    requires ValidRow(row)
    ensures var lines := AppendedLines(false, [], row);
      Shaped(lines) && LoadLines(true, lines) == Loaded([row])
      && Aggregate(p, [row]) == map[KeyOf(p, row) := row.durationSeconds]
  {
    AppendThenLoad(false, [], row);
    SingleRow(p, row);
  }
}
