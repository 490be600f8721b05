/**
 The weekday trend query of the forecasting notebook. Records are first
 collapsed to one total per date (`SELECT date, sum(sales) ... GROUP BY
 date`); each daily total is keyed by its year and by a Sunday-first weekday
 index computed from `date_format(date, 'E')` through a CASE expression;
 then the daily totals are averaged per `(year, weekday)`, ordered by year,
 then weekday.
 */
module WeekdayTrends {
  import opened Wrappers
  import opened Calendar
  import opened GroupBy
  import opened Sales

  /** The CASE over the day name. It has no ELSE branch, so any other text is
      NULL; a value it yields is the Sunday-first index of the day it names. */
  function CaseWeekday(name: string): (r: Option<int>)
    ensures r.Some? ==> 0 <= r.value <= 6 && Abbreviation(NameOfDayNumber(r.value)) == name
  {
    if name == "Sun" then Some(0)
    else if name == "Mon" then Some(1)
    else if name == "Tue" then Some(2)
    else if name == "Wed" then Some(3)
    else if name == "Thu" then Some(4)
    else if name == "Fri" then Some(5)
    else if name == "Sat" then Some(6)
    else None
  }

  /** SQL `v % 7`: NULL stays NULL, and the remainder takes the sign of the
      dividend. Sign, size and congruence pin the remainder down. */
  function SqlModSeven(v: Option<int>): (r: Option<int>)
    ensures r.Some? <==> v.Some?
    ensures v.Some? ==> -7 < r.value < 7 && (r.value - v.value) % 7 == 0
    ensures v.Some? && v.value >= 0 ==> r.value >= 0
    ensures v.Some? && v.value <= 0 ==> r.value <= 0
  {
    match v
    case None => None
    case Some(x) => Some(if x >= 0 then x % 7 else -((-x) % 7))
  }

  /** The CASE starts the week at Sunday with 0 and counts one up per day, so
      it agrees with the day count modulo 7. */
  lemma CaseWeekdayOfDayNumber(k: int)
    ensures CaseWeekday(Abbreviation(NameOfDayNumber(k))) == Some(k % 7)
  {
  }

  /** The `weekday` column, `CASE date_format(date, 'E') ... END % 7`: never
      NULL for a date, and equal to the date's Sunday-first position in the week. */
  function WeekdayColumn(d: ValidDate): (w: Option<int>)
    ensures w == Some(DayNumber(d) % 7)
    ensures 0 <= w.value <= 6
  {
    CaseWeekdayOfDayNumber(DayNumber(d));
    SqlModSeven(CaseWeekday(FormatE(d)))
  }

  /** The weekday index of a date by day count: 0 for Sunday through 6 for
      Saturday. The queries below group by it. */
  function Weekday(d: ValidDate): int {
    DayNumber(d) % 7
  }

  /** The CASE table, name by name. */
  lemma CaseWeekdayNames()
    ensures CaseWeekday("Sun") == Some(0) && CaseWeekday("Mon") == Some(1)
    ensures CaseWeekday("Tue") == Some(2) && CaseWeekday("Wed") == Some(3)
    ensures CaseWeekday("Thu") == Some(4) && CaseWeekday("Fri") == Some(5)
    ensures CaseWeekday("Sat") == Some(6)
  {
  }

  /** Spellings other than the seven abbreviations fall through the CASE to NULL. */
  lemma CaseWeekdayOtherSpellings()
    ensures CaseWeekday("Sunday") == None && CaseWeekday("sun") == None
  {
    assert "Sunday"[3] == 'd';
    assert "sun"[0] == 's';
  }

  /** The CASE maps Sunday to 0 and each following day to the next index, modulo 7. */
  lemma CaseWeekdayTable(n: DayName)
    ensures CaseWeekday(Abbreviation(Sun)) == Some(0)
    ensures CaseWeekday(Abbreviation(n)).Some?
    ensures CaseWeekday(Abbreviation(Following(n)))
         == Some((CaseWeekday(Abbreviation(n)).value + 1) % 7)
  {
  }

  /** The CASE yields NULL exactly for text that is no day abbreviation. */
  lemma CaseWeekdayNull(s: string)
    ensures CaseWeekday(s) == None <==> forall n :: Abbreviation(n) != s
  {
    forall n ensures CaseWeekday(Abbreviation(n)).Some? {
      CaseWeekdayTable(n);
    }
    if CaseWeekday(s) != None {
      assert s == Abbreviation(Sun) || s == Abbreviation(Mon) || s == Abbreviation(Tue)
          || s == Abbreviation(Wed) || s == Abbreviation(Thu) || s == Abbreviation(Fri)
          || s == Abbreviation(Sat);
    }
  }

  /** The trailing `% 7` leaves every value the CASE produces unchanged. */
  lemma ModSevenKeepsCase(s: string)
    ensures CaseWeekday(s).Some? ==> 0 <= CaseWeekday(s).value <= 6
    ensures SqlModSeven(CaseWeekday(s)) == CaseWeekday(s)
  {
  }

  /** The day after a date has the next weekday index, wrapping from 6 to 0. */
  lemma WeekdayOfNextDay(d: ValidDate)
    ensures Weekday(NextDay(d)) == (Weekday(d) + 1) % 7
  {
    NextDayNumber(d);
    ModSevenShift(DayNumber(d), 1);
  }

  lemma ModSevenShift(n: int, k: int)
    ensures (n + k) % 7 == (n % 7 + k) % 7
  {
  }

  lemma ModSevenSmall(k: int)
    requires 0 <= k < 7
    ensures k % 7 == k
  {
  }

  lemma ModSevenCarry(a: int, n: int, k: int)
    requires a == n + k
    ensures a % 7 == (n % 7 + k) % 7
  {
  }

  /** `k` days later, the weekday index has advanced by `k`, modulo 7. */
  lemma WeekdayAdvance(d: ValidDate, k: nat)
    ensures Weekday(Advance(d, k)) == (Weekday(d) + k) % 7
  {
    AdvanceDayNumber(d, k);
    ModSevenCarry(DayNumber(Advance(d, k)), DayNumber(d), k);
  }

  /** Seven consecutive dates starting on a Sunday get indices 0, 1, ..., 6. */
  lemma WeekFromSunday(d: ValidDate, k: nat)
    requires Weekday(d) == 0 && k < 7
    ensures Weekday(Advance(d, k)) == k
  {
    WeekdayAdvance(d, k);
    ModSevenSmall(k);
  }

  // ---- Stage 1: one total per date ----

  /** A row of the inner query: a date and its total sales over all stores and items. */
  datatype DayTotal = DayTotal(date: ValidDate, sales: int)

  function DateKey(r: Record): Key {
    [r.date.year, r.date.month, r.date.day]
  }

  function DayRows(rows: seq<Row>): (days: seq<DayTotal>)
    requires forall i :: 0 <= i < |rows| ==>
               |rows[i].key| == 3 && IsValid(Date(rows[i].key[0], rows[i].key[1], rows[i].key[2]))
    ensures |days| == |rows|
    ensures forall i :: 0 <= i < |rows| ==>
              days[i] == DayTotal(Date(rows[i].key[0], rows[i].key[1], rows[i].key[2]), rows[i].sum)
  {
    if |rows| == 0 then []
    else [DayTotal(Date(rows[0].key[0], rows[0].key[1], rows[0].key[2]), rows[0].sum)] + DayRows(rows[1..])
  }

  lemma DateShape(f: seq<Record>)
    ensures forall i :: 0 <= i < |GroupSum(Entries(f, DateKey))| ==>
              var k := GroupSum(Entries(f, DateKey))[i].key;
              |k| == 3 && IsValid(Date(k[0], k[1], k[2]))
  {
    forall i | 0 <= i < |GroupSum(Entries(f, DateKey))|
      ensures var k := GroupSum(Entries(f, DateKey))[i].key;
              |k| == 3 && IsValid(Date(k[0], k[1], k[2]))
    {
      var r := GroupedRowOrigin(f, DateKey, i);
    }
  }

  /** The inner query: total sales per date of the filtered records. It has no
      ORDER BY, so only distinct dates are promised, not an order. */
  function DailyTotals(recs: seq<Record>): (days: seq<DayTotal>)
    ensures forall i, j :: 0 <= i < j < |days| ==> days[i].date != days[j].date
  {
    var rows := GroupSum(Entries(FilterYears(recs), DateKey));
    DateShape(FilterYears(recs));
    DayRowsDistinct(rows);
    DayRows(rows)
  }

  lemma DayRowsDistinct(rows: seq<Row>)
    requires Ascending(rows)
    requires forall i :: 0 <= i < |rows| ==>
               |rows[i].key| == 3 && IsValid(Date(rows[i].key[0], rows[i].key[1], rows[i].key[2]))
    ensures forall i, j :: 0 <= i < j < |rows| ==> DayRows(rows)[i].date != DayRows(rows)[j].date
  {
    forall i, j | 0 <= i < j < |rows|
      ensures DayRows(rows)[i].date != DayRows(rows)[j].date
    {
      var a, b := rows[i].key, rows[j].key;
      assert a == [a[0], a[1], a[2]] && b == [b[0], b[1], b[2]];
      LessIrreflexive(a);
    }
  }

  /** The daily totals hold exactly the dates of the filtered records ... */
  lemma DailyDates(recs: seq<Record>, days: seq<DayTotal>)
    requires days == DailyTotals(recs)
    ensures (set t | t in days :: t.date) == (set r | r in FilterYears(recs) :: r.date)
  {
    var f := FilterYears(recs);
    var rows := GroupSum(Entries(f, DateKey));
    DateShape(f);
    assert days == DayRows(rows);
    forall i | 0 <= i < |days|
      ensures days[i].date in (set r | r in f :: r.date)
    {
      var r := GroupedRowOrigin(f, DateKey, i);
      assert days[i].date == r.date;
    }
    forall r | r in f
      ensures r.date in (set t | t in days :: t.date)
    {
      var i := GroupedRowFor(f, DateKey, r);
      assert days[i].date == r.date;
      assert days[i] in days;
    }
  }

  /** ... each with the total sales of that date's records (several records of
      one date contribute a single daily total). */
  lemma DailyValues(recs: seq<Record>, days: seq<DayTotal>)
    requires days == DailyTotals(recs)
    ensures forall i :: 0 <= i < |days| ==> days[i].sales == SalesWhere(FilterYears(recs), OnDate(days[i].date))
  {
    var f := FilterYears(recs);
    var rows := GroupSum(Entries(f, DateKey));
    DateShape(f);
    assert days == DayRows(rows);
    forall i | 0 <= i < |days|
      ensures days[i].sales == SalesWhere(f, OnDate(days[i].date))
    {
      DateRowValue(f, i);
    }
  }

  lemma DateRowValue(f: seq<Record>, i: nat)
    requires i < |GroupSum(Entries(f, DateKey))|
    ensures var row := GroupSum(Entries(f, DateKey))[i];
            |row.key| == 3 && row.sum == SalesWhere(f, OnDate(Date(row.key[0], row.key[1], row.key[2])))
  {
    var k := GroupSum(Entries(f, DateKey))[i].key;
    var r := GroupedRowOrigin(f, DateKey, i);
    GroupedRowSum(f, DateKey, i);
    assert k == [k[0], k[1], k[2]];
    SalesWhereCongruent(f, KeyIs(DateKey, k), OnDate(Date(k[0], k[1], k[2])));
  }

  // ---- Stage 2: average of the daily totals per (year, weekday) ----

  /** A row of the weekday trend: `(year, weekday, sales)`, the sales being a mean. */
  datatype WeekdayRow = WeekdayRow(year: int, weekday: int, sales: real)

  function BucketKey(t: DayTotal): Key {
    [t.date.year, Weekday(t.date)]
  }

  function BucketEntries(days: seq<DayTotal>): (es: seq<Entry>)
    ensures |es| == |days|
    ensures forall i :: 0 <= i < |days| ==> es[i] == Entry(BucketKey(days[i]), days[i].sales)
  {
    if |days| == 0 then [] else [Entry(BucketKey(days[0]), days[0].sales)] + BucketEntries(days[1..])
  }

  /** The daily totals whose date lies in year `y` on weekday `w`, in order. */
  function InBucket(days: seq<DayTotal>, y: int, w: int): seq<DayTotal> {
    if |days| == 0 then []
    else (if days[0].date.year == y && Weekday(days[0].date) == w then [days[0]] else [])
         + InBucket(days[1..], y, w)
  }

  /** Sum of the daily totals. */
  function DaysTotal(days: seq<DayTotal>): int {
    if |days| == 0 then 0 else days[0].sales + DaysTotal(days[1..])
  }

  lemma {:induction false} BucketSums(days: seq<DayTotal>, y: int, w: int)
    ensures KeySum(BucketEntries(days), [y, w]) == DaysTotal(InBucket(days, y, w))
    ensures KeyCount(BucketEntries(days), [y, w]) == |InBucket(days, y, w)|
    decreases |days|
  {
    if |days| > 0 {
      assert BucketEntries(days)[1..] == BucketEntries(days[1..]);
      BucketSums(days[1..], y, w);
      var head := if days[0].date.year == y && Weekday(days[0].date) == w then [days[0]] else [];
      assert InBucket(days, y, w) == head + InBucket(days[1..], y, w);
      DaysTotalConcat(head, InBucket(days[1..], y, w));
    }
  }

  lemma {:induction false} DaysTotalConcat(a: seq<DayTotal>, b: seq<DayTotal>)
    ensures DaysTotal(a + b) == DaysTotal(a) + DaysTotal(b)
    decreases |a|
  {
    if |a| == 0 {
      assert a + b == b;
    } else {
      assert (a + b)[1..] == a[1..] + b;
      DaysTotalConcat(a[1..], b);
    }
  }

  lemma BucketKeys(days: seq<DayTotal>)
    ensures EntryKeys(BucketEntries(days)) == set t | t in days :: BucketKey(t)
  {
    var es := BucketEntries(days);
    forall k | k in EntryKeys(es)
      ensures k in set t | t in days :: BucketKey(t)
    {
      var e :| e in es && e.key == k;
      var i :| 0 <= i < |es| && es[i] == e;
      assert days[i] in days;
    }
    forall t | t in days
      ensures BucketKey(t) in EntryKeys(es)
    {
      var i :| 0 <= i < |days| && days[i] == t;
      assert es[i] in es;
    }
  }

  /** Every grouped bucket has a `(year, weekday)` key with the weekday in
      0..6 and at least one daily total. */
  lemma BucketShape(days: seq<DayTotal>)
    ensures forall i :: 0 <= i < |GroupSum(BucketEntries(days))| ==>
              var row := GroupSum(BucketEntries(days))[i];
              |row.key| == 2 && 0 <= row.key[1] <= 6 && row.count >= 1
  {
    var es := BucketEntries(days);
    var rows := GroupSum(es);
    GroupSumRows(es);
    BucketKeys(days);
    forall i | 0 <= i < |rows|
      ensures |rows[i].key| == 2 && 0 <= rows[i].key[1] <= 6 && rows[i].count >= 1
    {
      var t :| t in days && BucketKey(t) == rows[i].key;
    }
  }

  /** `AVG` over a non-empty group, given the group's sum and size. */
  function Mean(sum: int, count: int): real
    requires count >= 1
  {
    sum as real / count as real
  }

  /** The mean times the group's size is the group's sum. */
  lemma MeanTimesCount(sum: int, count: int)
    requires count >= 1
    ensures Mean(sum, count) * count as real == sum as real
  {
  }

  function WeekdayRows(rows: seq<Row>): (ws: seq<WeekdayRow>)
    requires forall i :: 0 <= i < |rows| ==> |rows[i].key| == 2 && rows[i].count >= 1
    ensures |ws| == |rows|
    ensures forall i :: 0 <= i < |rows| ==>
              ws[i] == WeekdayRow(rows[i].key[0], rows[i].key[1], Mean(rows[i].sum, rows[i].count))
  {
    if |rows| == 0 then []
    else [WeekdayRow(rows[0].key[0], rows[0].key[1], Mean(rows[0].sum, rows[0].count))]
         + WeekdayRows(rows[1..])
  }

  /** The `i`-th bucket row holds the sum and the number of its bucket's daily totals. */
  lemma BucketRow(days: seq<DayTotal>, i: nat)
    requires i < |GroupSum(BucketEntries(days))|
    ensures var row := GroupSum(BucketEntries(days))[i];
      |row.key| == 2
      && row.sum == DaysTotal(InBucket(days, row.key[0], row.key[1]))
      && row.count == |InBucket(days, row.key[0], row.key[1])|
  {
    var es := BucketEntries(days);
    var rows := GroupSum(es);
    var t := BucketRowOrigin(days, i);
    GroupSumContents(es);
    AtRow(rows, i);
    var k := rows[i].key;
    assert k == [k[0], k[1]];
    BucketSums(days, k[0], k[1]);
  }

  /** Strictly ordered by year, then weekday, as `ORDER BY year, weekday` leaves
      grouped rows. */
  predicate BucketsAscending(ws: seq<WeekdayRow>) {
    forall i, j :: 0 <= i < j < |ws| ==>
      ws[i].year < ws[j].year || (ws[i].year == ws[j].year && ws[i].weekday < ws[j].weekday)
  }

  /** Every weekday index lies in 0..6. */
  predicate WeekdaysInRange(ws: seq<WeekdayRow>) {
    forall i :: 0 <= i < |ws| ==> 0 <= ws[i].weekday <= 6
  }

  /** Ascending two-column keys with a weekday in 0..6 give ordered rows with
      weekdays in range. */
  lemma WeekdayRowsAscending(rows: seq<Row>)
    requires Ascending(rows)
    requires forall i :: 0 <= i < |rows| ==>
               |rows[i].key| == 2 && 0 <= rows[i].key[1] <= 6 && rows[i].count >= 1
    ensures BucketsAscending(WeekdayRows(rows))
    ensures WeekdaysInRange(WeekdayRows(rows))
  {
    forall i, j | 0 <= i < j < |rows|
      ensures var ws := WeekdayRows(rows);
              ws[i].year < ws[j].year || (ws[i].year == ws[j].year && ws[i].weekday < ws[j].weekday)
    {
      LessPair(rows[i].key, rows[j].key);
    }
  }

  /** The outer query: mean daily total per `(year, weekday)`, strictly ordered
      by year, then weekday, with every weekday in 0..6. */
  function BucketMeans(days: seq<DayTotal>): (ws: seq<WeekdayRow>)
    ensures BucketsAscending(ws)
    ensures WeekdaysInRange(ws)
  {
    BucketShape(days);
    WeekdayRowsAscending(GroupSum(BucketEntries(days)));
    WeekdayRows(GroupSum(BucketEntries(days)))
  }

  /** Each bucket row's `(year, weekday)` is the bucket of some daily total. */
  lemma BucketRowOrigin(days: seq<DayTotal>, i: nat) returns (t: DayTotal)
    requires i < |GroupSum(BucketEntries(days))|
    ensures t in days && BucketKey(t) == GroupSum(BucketEntries(days))[i].key
  {
    var es := BucketEntries(days);
    var rows := GroupSum(es);
    GroupSumContents(es);
    BucketKeys(days);
    assert rows[i] in rows;
    assert rows[i].key in RowKeys(rows);
    t :| t in days && BucketKey(t) == rows[i].key;
  }

  /** Each daily total's bucket has a row. */
  lemma BucketRowFor(days: seq<DayTotal>, t: DayTotal) returns (i: nat)
    requires t in days
    ensures i < |GroupSum(BucketEntries(days))| && GroupSum(BucketEntries(days))[i].key == BucketKey(t)
  {
    var es := BucketEntries(days);
    var rows := GroupSum(es);
    GroupSumContents(es);
    BucketKeys(days);
    assert BucketKey(t) in RowKeys(rows);
    var row :| row in rows && row.key == BucketKey(t);
    i :| 0 <= i < |rows| && rows[i] == row;
  }

  /** The row keys are exactly the buckets of the daily totals, once each. */
  lemma BucketMeansKeys(days: seq<DayTotal>, ws: seq<WeekdayRow>)
    requires ws == BucketMeans(days)
    ensures (set row | row in ws :: (row.year, row.weekday))
         == (set t | t in days :: WeekBucket(t.date))
    ensures forall i, j :: 0 <= i < j < |ws| ==>
              (ws[i].year, ws[i].weekday) != (ws[j].year, ws[j].weekday)
  {
    BucketMeansKeySet(days);
    assert BucketsAscending(ws);
  }

  lemma BucketMeansKeySet(days: seq<DayTotal>)
    ensures (set row | row in BucketMeans(days) :: (row.year, row.weekday))
         == (set t | t in days :: WeekBucket(t.date))
  {
    var ws := BucketMeans(days);
    forall i | 0 <= i < |ws|
      ensures (ws[i].year, ws[i].weekday) in (set t | t in days :: WeekBucket(t.date))
    {
      var t := BucketMeansRowOrigin(days, i);
    }
    forall t | t in days
      ensures WeekBucket(t.date) in (set row | row in ws :: (row.year, row.weekday))
    {
      var i := BucketMeansRowFor(days, t);
      assert ws[i] in ws;
    }
  }

  lemma BucketMeansRowOrigin(days: seq<DayTotal>, i: nat) returns (t: DayTotal)
    requires i < |BucketMeans(days)|
    ensures t in days && WeekBucket(t.date) == (BucketMeans(days)[i].year, BucketMeans(days)[i].weekday)
  {
    BucketShape(days);
    assert BucketMeans(days) == WeekdayRows(GroupSum(BucketEntries(days)));
    t := BucketRowOrigin(days, i);
  }

  lemma BucketMeansRowFor(days: seq<DayTotal>, t: DayTotal) returns (i: nat)
    requires t in days
    ensures i < |BucketMeans(days)|
    ensures (BucketMeans(days)[i].year, BucketMeans(days)[i].weekday) == WeekBucket(t.date)
  {
    BucketShape(days);
    assert BucketMeans(days) == WeekdayRows(GroupSum(BucketEntries(days)));
    i := BucketRowFor(days, t);
  }

  lemma BucketMeansValue(days: seq<DayTotal>, ws: seq<WeekdayRow>, i: nat)
    requires ws == BucketMeans(days) && i < |ws|
    ensures var b := InBucket(days, ws[i].year, ws[i].weekday);
            |b| >= 1 && ws[i].sales == Mean(DaysTotal(b), |b|)
  {
    var rows := GroupSum(BucketEntries(days));
    BucketShape(days);
    assert ws == WeekdayRows(rows);
    BucketRow(days, i);
  }

  /** The weekday trend query: strictly ordered by year, then weekday, with
      every weekday in 0..6. */
  function WeekdayTrend(recs: seq<Record>): (ws: seq<WeekdayRow>)
    ensures BucketsAscending(ws)
    ensures WeekdaysInRange(ws)
  {
    BucketMeans(DailyTotals(recs))
  }

  /** The `(year, weekday)` bucket of a date. */
  function WeekBucket(d: ValidDate): (int, int) {
    (d.year, Weekday(d))
  }

  /** Daily totals and records with the same dates fall into the same buckets. */
  lemma SameDatesSameBuckets(days: seq<DayTotal>, f: seq<Record>)
    requires (set t | t in days :: t.date) == (set r | r in f :: r.date)
    ensures (set t | t in days :: WeekBucket(t.date)) == (set r | r in f :: WeekBucket(r.date))
  {
    var inDays: set<ValidDate> := set t | t in days :: t.date;
    var inRecs: set<ValidDate> := set r | r in f :: r.date;
    assert inDays == inRecs;
    forall t | t in days
      ensures WeekBucket(t.date) in (set r | r in f :: WeekBucket(r.date))
    {
      assert t.date in inDays;
      var r :| r in f && r.date == t.date;
    }
    forall r | r in f
      ensures WeekBucket(r.date) in (set t | t in days :: WeekBucket(t.date))
    {
      assert r.date in inRecs;
      var t :| t in days && t.date == r.date;
    }
  }

  /** There is exactly one weekday row per `(year, weekday)` that some filtered
      record falls on. */
  lemma WeekdayBuckets(recs: seq<Record>)
    ensures (set row | row in WeekdayTrend(recs) :: (row.year, row.weekday))
         == (set r | r in FilterYears(recs) :: WeekBucket(r.date))
    ensures var ws := WeekdayTrend(recs);
            forall i, j :: 0 <= i < j < |ws| ==>
              (ws[i].year, ws[i].weekday) != (ws[j].year, ws[j].weekday)
  {
    var days := DailyTotals(recs);
    BucketMeansKeys(days, WeekdayTrend(recs));
    DailyDates(recs, days);
    SameDatesSameBuckets(days, FilterYears(recs));
  }

  /** Each weekday row is the mean of the daily totals in its bucket (the
      totals of dates, not of records), and there is at least one such date. */
  lemma WeekdayMeans(recs: seq<Record>)
    ensures var ws := WeekdayTrend(recs);
            forall i :: 0 <= i < |ws| ==>
              var b := InBucket(DailyTotals(recs), ws[i].year, ws[i].weekday);
              |b| >= 1 && ws[i].sales == Mean(DaysTotal(b), |b|)
  {
    var ws := WeekdayTrend(recs);
    forall i | 0 <= i < |ws|
      ensures var b := InBucket(DailyTotals(recs), ws[i].year, ws[i].weekday);
              |b| >= 1 && ws[i].sales == Mean(DaysTotal(b), |b|)
    {
      BucketMeansValue(DailyTotals(recs), ws, i);
    }
  }

  /** Two records of one Sunday, sales 4 and 6, collapse to one daily total of 10 ... */
  lemma DailyExample()
    ensures DailyTotals([Record(Date(2013, 1, 6), 1, 1, 4), Record(Date(2013, 1, 6), 2, 1, 6)])
         == [DayTotal(Date(2013, 1, 6), 10)]
  {
    var recs := [Record(Date(2013, 1, 6), 1, 1, 4), Record(Date(2013, 1, 6), 2, 1, 6)];
    assert FilterYears(recs[1..]) == recs[1..];
    assert FilterYears(recs) == recs;
    var k := [2013, 1, 6];
    var es := Entries(recs, DateKey);
    assert es == [Entry(k, 4), Entry(k, 6)];
    assert GroupSum(es[1..]) == [Row(k, 6, 1)];
    assert GroupSum(es) == [Row(k, 10, 2)];
  }

  /** ... so the Sunday bucket's mean is 10, not the mean 5 of the raw values. */
  lemma DailyCollapseExample()
    ensures WeekdayTrend([Record(Date(2013, 1, 6), 1, 1, 4), Record(Date(2013, 1, 6), 2, 1, 6)])
         == [WeekdayRow(2013, 0, 10.0)]
  {
    DailyExample();
    KnownSunday();
    var days := [DayTotal(Date(2013, 1, 6), 10)];
    assert BucketEntries(days) == [Entry([2013, 0], 10)];
    assert GroupSum(BucketEntries(days)) == [Row([2013, 0], 10, 1)];
  }
}
