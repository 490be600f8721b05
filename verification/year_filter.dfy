/**
 How the load-time year filter shapes all three trend queries: records
 outside 2013..2017 never reach any of them, and filtering the input
 beforehand changes nothing.
 */
module YearFilter {
  import opened Sales
  import opened Trends
  import opened WeekdayTrends

  /** The filter passes exactly the in-range records of a concatenation. */
  lemma FilterDropsOutOfRange(a: seq<Record>, r: Record, b: seq<Record>)
    requires !InYears(r)
    ensures FilterYears(a + [r] + b) == FilterYears(a + b)
  {
    FilterYearsConcat(a + [r], b);
    FilterYearsConcat(a, [r]);
    FilterYearsConcat(a, b);
    assert FilterYears([r]) == [];
    assert FilterYears(a) + [] == FilterYears(a);
  }

  /** A record dated outside 2013..2017 affects none of the trends. */
  lemma OutOfRangeIgnored(a: seq<Record>, r: Record, b: seq<Record>)
    requires !InYears(r)
    ensures YearlySales(a + [r] + b) == YearlySales(a + b)
    ensures MonthlySales(a + [r] + b) == MonthlySales(a + b)
    ensures WeekdayTrend(a + [r] + b) == WeekdayTrend(a + b)
  {
    FilterDropsOutOfRange(a, r, b);
  }

  /** Running the trends over already-filtered records gives the same rows. */
  lemma PrefilteredInput(recs: seq<Record>)
    ensures YearlySales(FilterYears(recs)) == YearlySales(recs)
    ensures MonthlySales(FilterYears(recs)) == MonthlySales(recs)
    ensures WeekdayTrend(FilterYears(recs)) == WeekdayTrend(recs)
  {
    FilterYearsIdempotent(recs);
  }
}
