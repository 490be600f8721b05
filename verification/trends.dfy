/**
 The yearly and monthly trend queries of the forecasting notebook:
 `SELECT year(date), sum(sales) FROM train GROUP BY year(date) ORDER BY year`
 and its `(year, month)` counterpart, over the year-filtered records.
 */
module Trends {
  import opened Calendar
  import opened GroupBy
  import opened Sales

  /** A row of the yearly trend: `(year, sales)`. */
  datatype YearRow = YearRow(year: int, sales: int)

  /** A row of the monthly trend: `(year, month, sales)`. */
  datatype MonthRow = MonthRow(year: int, month: int, sales: int)

  function YearKey(r: Record): Key {
    [r.date.year]
  }

  function MonthKey(r: Record): Key {
    [r.date.year, r.date.month]
  }

  function YearRows(rows: seq<Row>): (ys: seq<YearRow>)
    requires forall i :: 0 <= i < |rows| ==> |rows[i].key| == 1
    ensures |ys| == |rows|
    ensures forall i :: 0 <= i < |rows| ==> ys[i] == YearRow(rows[i].key[0], rows[i].sum)
  {
    if |rows| == 0 then [] else [YearRow(rows[0].key[0], rows[0].sum)] + YearRows(rows[1..])
  }

  function MonthRows(rows: seq<Row>): (ms: seq<MonthRow>)
    requires forall i :: 0 <= i < |rows| ==> |rows[i].key| == 2
    ensures |ms| == |rows|
    ensures forall i :: 0 <= i < |rows| ==> ms[i] == MonthRow(rows[i].key[0], rows[i].key[1], rows[i].sum)
  {
    if |rows| == 0 then [] else [MonthRow(rows[0].key[0], rows[0].key[1], rows[0].sum)] + MonthRows(rows[1..])
  }

  /** Sum of the `sales` column of the yearly trend. */
  function YearTotal(ys: seq<YearRow>): int {
    if |ys| == 0 then 0 else ys[0].sales + YearTotal(ys[1..])
  }

  /** Sum of the `sales` column over the monthly rows of year `y`. */
  function MonthTotal(ms: seq<MonthRow>, y: int): int {
    if |ms| == 0 then 0 else (if ms[0].year == y then ms[0].sales else 0) + MonthTotal(ms[1..], y)
  }

  lemma YearShape(f: seq<Record>)
    ensures forall i :: 0 <= i < |GroupSum(Entries(f, YearKey))| ==>
              |GroupSum(Entries(f, YearKey))[i].key| == 1
  {
    forall i | 0 <= i < |GroupSum(Entries(f, YearKey))|
      ensures |GroupSum(Entries(f, YearKey))[i].key| == 1
    {
      var r := GroupedRowOrigin(f, YearKey, i);
    }
  }

  lemma MonthShape(f: seq<Record>)
    ensures forall i :: 0 <= i < |GroupSum(Entries(f, MonthKey))| ==>
              |GroupSum(Entries(f, MonthKey))[i].key| == 2
  {
    forall i | 0 <= i < |GroupSum(Entries(f, MonthKey))|
      ensures |GroupSum(Entries(f, MonthKey))[i].key| == 2
    {
      var r := GroupedRowOrigin(f, MonthKey, i);
    }
  }

  /** Years strictly ascending, as `ORDER BY year` over grouped rows leaves them. */
  predicate YearsAscending(ys: seq<YearRow>) {
    forall i, j :: 0 <= i < j < |ys| ==> ys[i].year < ys[j].year
  }

  /** Strictly ordered by year, then month. */
  predicate MonthsAscending(ms: seq<MonthRow>) {
    forall i, j :: 0 <= i < j < |ms| ==>
      ms[i].year < ms[j].year || (ms[i].year == ms[j].year && ms[i].month < ms[j].month)
  }

  /** Ascending one-column keys give strictly ascending years. */
  lemma YearRowsAscending(rows: seq<Row>)
    requires Ascending(rows)
    requires forall i :: 0 <= i < |rows| ==> |rows[i].key| == 1
    ensures YearsAscending(YearRows(rows))
  {
    forall i, j | 0 <= i < j < |rows|
      ensures YearRows(rows)[i].year < YearRows(rows)[j].year
    {
      LessSingle(rows[i].key, rows[j].key);
    }
  }

  /** Ascending two-column keys give rows ordered by year, then month. */
  lemma MonthRowsAscending(rows: seq<Row>)
    requires Ascending(rows)
    requires forall i :: 0 <= i < |rows| ==> |rows[i].key| == 2
    ensures MonthsAscending(MonthRows(rows))
  {
    forall i, j | 0 <= i < j < |rows|
      ensures var ms := MonthRows(rows);
              ms[i].year < ms[j].year || (ms[i].year == ms[j].year && ms[i].month < ms[j].month)
    {
      LessPair(rows[i].key, rows[j].key);
    }
  }

  /** The yearly trend query; its rows come out in strictly ascending year order. */
  function YearlySales(recs: seq<Record>): (ys: seq<YearRow>)
    ensures YearsAscending(ys)
  {
    YearShape(FilterYears(recs));
    YearRowsAscending(GroupSum(Entries(FilterYears(recs), YearKey)));
    YearRows(GroupSum(Entries(FilterYears(recs), YearKey)))
  }

  /** The monthly trend query; its rows come out strictly ordered by year, then month. */
  function MonthlySales(recs: seq<Record>): (ms: seq<MonthRow>)
    ensures MonthsAscending(ms)
  {
    MonthShape(FilterYears(recs));
    MonthRowsAscending(GroupSum(Entries(FilterYears(recs), MonthKey)));
    MonthRows(GroupSum(Entries(FilterYears(recs), MonthKey)))
  }

  /** There is exactly one yearly row per year that occurs in the filtered input. */
  lemma YearlyYears(recs: seq<Record>, ys: seq<YearRow>)
    requires ys == YearlySales(recs)
    ensures (set row | row in ys :: row.year) == (set r | r in FilterYears(recs) :: r.date.year)
    ensures forall i, j :: 0 <= i < j < |ys| ==> ys[i].year != ys[j].year
  {
    var f := FilterYears(recs);
    YearShape(f);
    forall i | 0 <= i < |ys|
      ensures ys[i].year in (set r | r in f :: r.date.year)
    {
      var r := GroupedRowOrigin(f, YearKey, i);
    }
    forall r | r in f
      ensures r.date.year in (set row | row in ys :: row.year)
    {
      var i := GroupedRowFor(f, YearKey, r);
      assert ys[i] in ys;
    }
  }

  /** Each yearly row holds the total sales of that year's filtered records. */
  lemma YearlyValues(recs: seq<Record>, ys: seq<YearRow>)
    requires ys == YearlySales(recs)
    ensures forall i :: 0 <= i < |ys| ==>
              ys[i].sales == SalesWhere(FilterYears(recs), InYear(ys[i].year))
  {
    var f := FilterYears(recs);
    var rows := GroupSum(Entries(f, YearKey));
    YearShape(f);
    assert ys == YearRows(rows);
    forall i | 0 <= i < |ys|
      ensures ys[i].sales == SalesWhere(f, InYear(ys[i].year))
    {
      YearRowValue(f, i);
    }
  }

  lemma YearRowValue(f: seq<Record>, i: nat)
    requires i < |GroupSum(Entries(f, YearKey))|
    ensures var row := GroupSum(Entries(f, YearKey))[i];
            |row.key| == 1 && row.sum == SalesWhere(f, InYear(row.key[0]))
  {
    var k := GroupSum(Entries(f, YearKey))[i].key;
    var r := GroupedRowOrigin(f, YearKey, i);
    GroupedRowSum(f, YearKey, i);
    assert k == [k[0]];
    SalesWhereCongruent(f, KeyIs(YearKey, k), InYear(k[0]));
  }

  lemma {:induction false} YearTotalIsRowTotal(rows: seq<Row>)
    requires forall i :: 0 <= i < |rows| ==> |rows[i].key| == 1
    ensures YearTotal(YearRows(rows)) == RowPrefixSum(rows, [])
    decreases |rows|
  {
    if |rows| > 0 {
      assert YearRows(rows)[1..] == YearRows(rows[1..]);
      YearTotalIsRowTotal(rows[1..]);
    }
  }

  /** Conservation: the yearly rows add up to the total sales of the filtered input. */
  lemma YearlyConservation(recs: seq<Record>)
    ensures YearTotal(YearlySales(recs)) == SalesWhere(FilterYears(recs), AllRecords())
  {
    var f := FilterYears(recs);
    YearShape(f);
    YearTotalIsRowTotal(GroupSum(Entries(f, YearKey)));
    GroupSumPrefixSum(Entries(f, YearKey), []);
    EntriesPrefixSum(f, YearKey, []);
    SalesWhereCongruent(f, KeyStartsWith(YearKey, []), AllRecords());
  }

  /** There is exactly one monthly row per `(year, month)` that occurs in the
      filtered input, and every month lies in 1..12. */
  lemma MonthlyMonths(recs: seq<Record>, ms: seq<MonthRow>)
    requires ms == MonthlySales(recs)
    ensures (set row | row in ms :: (row.year, row.month))
         == (set r | r in FilterYears(recs) :: (r.date.year, r.date.month))
    ensures forall i, j :: 0 <= i < j < |ms| ==>
              (ms[i].year, ms[i].month) != (ms[j].year, ms[j].month)
    ensures forall i :: 0 <= i < |ms| ==> 1 <= ms[i].month <= 12
  {
    var f := FilterYears(recs);
    MonthShape(f);
    forall i | 0 <= i < |ms|
      ensures (ms[i].year, ms[i].month) in (set r | r in f :: (r.date.year, r.date.month))
      ensures 1 <= ms[i].month <= 12
    {
      var r := GroupedRowOrigin(f, MonthKey, i);
    }
    forall r | r in f
      ensures (r.date.year, r.date.month) in (set row | row in ms :: (row.year, row.month))
    {
      var i := GroupedRowFor(f, MonthKey, r);
      assert ms[i] in ms;
    }
  }

  /** Each monthly row holds the total sales of that month's filtered records. */
  lemma MonthlyValues(recs: seq<Record>, ms: seq<MonthRow>)
    requires ms == MonthlySales(recs)
    ensures forall i :: 0 <= i < |ms| ==>
              ms[i].sales == SalesWhere(FilterYears(recs),
                                        InMonth(ms[i].year, ms[i].month))
  {
    var f := FilterYears(recs);
    var rows := GroupSum(Entries(f, MonthKey));
    MonthShape(f);
    assert ms == MonthRows(rows);
    forall i | 0 <= i < |ms|
      ensures ms[i].sales == SalesWhere(f, InMonth(ms[i].year, ms[i].month))
    {
      MonthRowValue(f, i);
    }
  }

  lemma MonthRowValue(f: seq<Record>, i: nat)
    requires i < |GroupSum(Entries(f, MonthKey))|
    ensures var row := GroupSum(Entries(f, MonthKey))[i];
            |row.key| == 2 && row.sum == SalesWhere(f, InMonth(row.key[0], row.key[1]))
  {
    var k := GroupSum(Entries(f, MonthKey))[i].key;
    var r := GroupedRowOrigin(f, MonthKey, i);
    GroupedRowSum(f, MonthKey, i);
    assert k == [k[0], k[1]];
    SalesWhereCongruent(f, KeyIs(MonthKey, k), InMonth(k[0], k[1]));
  }

  lemma {:induction false} MonthTotalIsPrefixTotal(rows: seq<Row>, y: int)
    requires forall i :: 0 <= i < |rows| ==> |rows[i].key| == 2
    ensures MonthTotal(MonthRows(rows), y) == RowPrefixSum(rows, [y])
    decreases |rows|
  {
    if |rows| > 0 {
      assert MonthRows(rows)[1..] == MonthRows(rows[1..]);
      assert HasPrefix(rows[0].key, [y]) <==> rows[0].key[0] == y;
      MonthTotalIsPrefixTotal(rows[1..], y);
    }
  }

  /** A year's monthly rows add up to that year's sales. */
  lemma MonthsAddUpToYear(recs: seq<Record>, y: int)
    ensures MonthTotal(MonthlySales(recs), y)
         == SalesWhere(FilterYears(recs), InYear(y))
  {
    var f := FilterYears(recs);
    var es := Entries(f, MonthKey);
    MonthShape(f);
    MonthTotalIsPrefixTotal(GroupSum(es), y);
    GroupSumPrefixSum(es, [y]);
    EntriesPrefixSum(f, MonthKey, [y]);
    forall r | r in f
      ensures HasPrefix(MonthKey(r), [y]) == (r.date.year == y)
    {
      assert MonthKey(r)[..1] == [r.date.year];
    }
    SalesWhereCongruent(f, KeyStartsWith(MonthKey, [y]), InYear(y));
  }

  /** The monthly rows of each year in the yearly trend add up to that year's value. */
  lemma MonthlyMatchesYearly(recs: seq<Record>, ys: seq<YearRow>, ms: seq<MonthRow>)
    requires ys == YearlySales(recs) && ms == MonthlySales(recs)
    ensures forall i :: 0 <= i < |ys| ==> MonthTotal(ms, ys[i].year) == ys[i].sales
  {
    YearlyValues(recs, ys);
    forall i | 0 <= i < |ys|
      ensures MonthTotal(ms, ys[i].year) == ys[i].sales
    {
      MonthsAddUpToYear(recs, ys[i].year);
    }
  }

  /** Two 2013 records with sales 5 and 3 and one 2012 record give the single
      row `(2013, 8)`: the 2012 record is filtered out on load. */
  lemma YearlyExample()
    ensures YearlySales([Record(Date(2013, 1, 1), 1, 1, 5), Record(Date(2012, 12, 31), 1, 1, 100),
                         Record(Date(2013, 6, 1), 2, 7, 3)])
         == [YearRow(2013, 8)]
  {
    var a, b := Record(Date(2013, 1, 1), 1, 1, 5), Record(Date(2013, 6, 1), 2, 7, 3);
    ExampleFilter(a, Record(Date(2012, 12, 31), 1, 1, 100), b);
    var es := Entries([a, b], YearKey);
    assert es == [Entry([2013], 5), Entry([2013], 3)];
    assert GroupSum(es[1..]) == [Row([2013], 3, 1)];
    assert GroupSum(es) == [Row([2013], 8, 2)];
  }

  lemma ExampleFilter(a: Record, r: Record, b: Record)
    requires InYears(a) && !InYears(r) && InYears(b)
    ensures FilterYears([a, r, b]) == [a, b]
  {
    assert [a, r, b][1..] == [r, b];
    assert [r, b][1..] == [b];
    assert FilterYears([b]) == [b];
  }
}
