# Fine-grained demand forecasting: trend queries and user-scoped names

This project models two small, pure pieces of the Databricks demand-forecasting
notebooks in Dafny and proves what they promise.

- **The exploratory trend queries** of `01_fine_grained_forcasting.py`. The
  input is the training table as typed `(date, store, item, sales)` records.
  Only records dated 2013..2017 are loaded. Three SQL queries then run over
  them:
  - the yearly sum of sales;
  - the monthly sum of sales per `(year, month)`;
  - the weekday trend. It first sums the sales of each date. It then averages
    those daily totals per `(year, weekday)`. The weekday index comes from
    `date_format(date, 'E')` through a CASE that maps `Sun`..`Sat` to 0..6,
    followed by `% 7`.
- **The user-scoped names** of `00_config.py`:
  - the SQL-safe user name: the local part of the e-mail address with every
    non-word character replaced by `_`;
  - the per-user database name, `fine_grain_forecast_<user>`;
  - the per-user scratch path: the base location without `dbfs:`, then
    `data/<email>/`.

Layout, one module per file:

- `wrappers.dfy` (`Wrappers`): `Option`, used for SQL NULL.
- `calendar.dfy` (`Calendar`): proleptic Gregorian dates.
  - The day count treats 0001-01-01, a Monday, as day 1.
  - Day names come from the day count; `FormatE` is `date_format(d, 'E')`.
  - `ValidDate` is a subset type, because a DATE column can only hold real dates.
- `group_by.dfy` (`GroupBy`): one generic `GROUP BY key ... ORDER BY key` with
  SUM and COUNT.
  - A key lists the grouping columns in `ORDER BY` order, so lexicographic key
    order is the order the queries ask for.
  - `GroupSum` folds `Insert` over the entries into strictly ascending rows.
  - `KeySum`, `KeyCount` and `PrefixSum` are the reference sums the rows are
    checked against.
- `sales.dfy` (`Sales`): the record type, the year filter, and `SalesWhere`.
  `SalesWhere` is the reference total over the records a selector picks.
- `trends.dfy` (`Trends`): the yearly and monthly queries.
- `weekday_trend.dfy` (`WeekdayTrends`): the CASE column and the two-stage
  weekday query.
  - `DailyTotals` is the inner `GROUP BY date`.
  - `BucketMeans` is the outer average per `(year, weekday)`.
  - `WeekdayTrend` composes the two stages.
  - Buckets are keyed by `Weekday`, the day count modulo 7.
    The contract of `WeekdayColumn` shows that this equals the CASE column on
    every date.
- `year_filter.dfy` (`YearFilter`): how the load filter acts on all three
  queries.
- `user_config.dfy` (`UserConfig`): the naming functions. The e-mail address is
  an input.

The monthly query groups by `month(date), year(date)` but orders by year, then
month. Grouping does not depend on the column order, so the model keys it as
`[year, month]`.

The weekday CASE has no ELSE branch. A day name it does not list therefore
yields NULL, not an error, and the model keeps that behaviour
(`WeekdayTrends.CaseWeekday` returns `None`). For a real date this cannot
happen: `WeekdayColumn` is never NULL.

## Model

| member | source | states |
|---|---|---|
| Sales.FilterYears | 01_fine_grained_forcasting.py:38 | every record kept is an input record whose year lies in 2013..2017 |
| Sales.FilterYearsBag | 01_fine_grained_forcasting.py:38 | as a bag, the filter keeps each in-range record as often as it occurs and drops every other record |
| Sales.FilterYearsIdempotent | 01_fine_grained_forcasting.py:38 | filtering already-filtered records changes nothing |
| YearFilter.OutOfRangeIgnored | 01_fine_grained_forcasting.py:38 | inserting a record dated outside 2013..2017 anywhere in the input leaves the yearly, monthly and weekday results unchanged |
| YearFilter.PrefilteredInput | 01_fine_grained_forcasting.py:38 | running the three queries on pre-filtered input gives the same rows |
| GroupBy.LessTransitive | 01_fine_grained_forcasting.py:63-64 | the lexicographic key order is transitive |
| GroupBy.LessTotal | 01_fine_grained_forcasting.py:63-64 | any two distinct keys are ordered one way or the other |
| GroupBy.LessPair | 01_fine_grained_forcasting.py:83-84 | on two-column keys the order is by first column, then second |
| GroupBy.Insert | 01_fine_grained_forcasting.py:59-64 | adding one entry keeps rows strictly ascending, adds its key to the key set, and raises only that key's sum by the value and its count by one |
| GroupBy.GroupSum | 01_fine_grained_forcasting.py:59-64 | the grouped rows come out in strictly ascending key order, so no key appears twice, as `GROUP BY ... ORDER BY` requires; `GroupSumContents` states which keys appear and what each row holds |
| GroupBy.GroupSumContents | 01_fine_grained_forcasting.py:59-64 | the grouped rows have exactly the entries' keys, and each key's row holds that key's total and number of entries |
| GroupBy.GroupSumRows | 01_fine_grained_forcasting.py:59-64 | every grouped row has a key that occurs in the input, the sum of that key's values, and a count of at least one |
| GroupBy.GroupSumPrefixSum | 01_fine_grained_forcasting.py:78-84 | the rows whose key starts with a given prefix add up to the input total for that prefix |
| Trends.YearlySales | 01_fine_grained_forcasting.py:59-64 | the yearly rows come out strictly ascending by year, as `ORDER BY year` requires; `YearlyYears`, `YearlyValues` and `YearlyConservation` state which years appear and what each row holds |
| Trends.YearlyYears | 01_fine_grained_forcasting.py:59-64 | the row years are exactly the years of the filtered input, and no two rows share a year |
| Trends.YearlyValues | 01_fine_grained_forcasting.py:59-64 | each yearly row's value is the total sales of that year's filtered records |
| Trends.YearlyConservation | 01_fine_grained_forcasting.py:59-64 | the yearly values add up to the total sales of the filtered input |
| Trends.YearlyExample | 01_fine_grained_forcasting.py:38-64 | 2013 records with sales 5 and 3, plus a 2012 record, give the single row (2013, 8) |
| Trends.MonthlySales | 01_fine_grained_forcasting.py:78-84 | the monthly rows come out strictly ordered by year, then month, as `ORDER BY year, month` requires; `MonthlyMonths` and `MonthlyValues` state which months appear and what each row holds |
| Trends.MonthlyMonths | 01_fine_grained_forcasting.py:78-84 | the row (year, month) pairs are exactly those of the filtered input, no two rows share a pair, and every month lies in 1..12 |
| Trends.MonthlyValues | 01_fine_grained_forcasting.py:78-84 | each monthly row's value is the total sales of that month's filtered records |
| Trends.MonthsAddUpToYear | 01_fine_grained_forcasting.py:78-84 | a year's monthly values add up to the total sales of that year |
| Trends.MonthlyMatchesYearly | 01_fine_grained_forcasting.py:59-84 | for each row of the yearly result, the monthly values of that year add up to its value |
| Calendar.DaysInMonth | 01_fine_grained_forcasting.py:98 | months have 28 to 31 days, and 29 exactly for February of a leap year |
| Calendar.NextDayNumber | 01_fine_grained_forcasting.py:98 | consecutive calendar days have consecutive day numbers, across month and year ends |
| Calendar.AdvanceDayNumber | 01_fine_grained_forcasting.py:98 | the date k days later has a day number exactly k higher |
| Calendar.DayNameOf | 01_fine_grained_forcasting.py:98 | the proleptic Gregorian day of the week, counted from the Monday 0001-01-01; `NextDayName` and `KnownSunday` pin it down from one known Sunday, one day at a time |
| Calendar.NextDayName | 01_fine_grained_forcasting.py:108-114 | the day after a date falls on the following weekday name |
| Calendar.AbbreviationInjective | 01_fine_grained_forcasting.py:108-114 | distinct weekdays print distinct `E` abbreviations |
| Calendar.FormatE | 01_fine_grained_forcasting.py:108-114 | `date_format(d, 'E')` is three letters, and it is the abbreviation of the date's day of the week and of no other day |
| Calendar.KnownSunday | 01_fine_grained_forcasting.py:108 | 2013-01-06 is a Sunday, printed `Sun`, and 2013-01-07 is a Monday |
| WeekdayTrends.CaseWeekday | 01_fine_grained_forcasting.py:107-115 | a value the CASE yields lies in 0..6 and is the Sunday-first index of the day whose abbreviation was given |
| WeekdayTrends.CaseWeekdayNames | 01_fine_grained_forcasting.py:107-115 | the CASE maps Sun to 0, Mon to 1, and so on up to Sat to 6 |
| WeekdayTrends.CaseWeekdayOtherSpellings | 01_fine_grained_forcasting.py:107-115 | with no ELSE branch, other spellings such as `Sunday` and `sun` give NULL; `CaseWeekdayNull` states this for all text |
| WeekdayTrends.CaseWeekdayTable | 01_fine_grained_forcasting.py:107-115 | every day abbreviation gets a value, and the following day gets the next index modulo 7 |
| WeekdayTrends.CaseWeekdayNull | 01_fine_grained_forcasting.py:107-115 | the CASE yields NULL exactly for text that is no day abbreviation |
| WeekdayTrends.SqlModSeven | 01_fine_grained_forcasting.py:116 | SQL `% 7` keeps NULL, and otherwise yields the value congruent to the input modulo 7 that lies strictly between -7 and 7 and has the sign of the dividend |
| WeekdayTrends.ModSevenKeepsCase | 01_fine_grained_forcasting.py:116 | every value the CASE produces lies in 0..6, so the trailing `% 7` leaves it unchanged |
| WeekdayTrends.CaseWeekdayOfDayNumber | 01_fine_grained_forcasting.py:106-116 | the CASE applied to a day count's name yields that count modulo 7 |
| WeekdayTrends.WeekdayColumn | 01_fine_grained_forcasting.py:106-116 | the weekday column is never NULL for a date, lies in 0..6, and equals the day count modulo 7, the index the buckets use |
| WeekdayTrends.WeekdayOfNextDay | 01_fine_grained_forcasting.py:106-116 | the next day's weekday index is one higher, wrapping from 6 to 0 |
| WeekdayTrends.WeekdayAdvance | 01_fine_grained_forcasting.py:106-116 | k days later the weekday index has advanced by k, modulo 7 |
| WeekdayTrends.WeekFromSunday | 01_fine_grained_forcasting.py:106-116 | seven consecutive dates starting on a Sunday get indices 0 through 6 |
| WeekdayTrends.DailyTotals | 01_fine_grained_forcasting.py:119-124 | the inner query holds each date at most once; `DailyDates` and `DailyValues` state which dates appear and what each total is |
| WeekdayTrends.DailyDates | 01_fine_grained_forcasting.py:119-124 | the inner query holds exactly the dates of the filtered records |
| WeekdayTrends.DailyValues | 01_fine_grained_forcasting.py:119-124 | each daily total is the total sales of that date's filtered records |
| WeekdayTrends.DailyExample | 01_fine_grained_forcasting.py:119-124 | two records of one date with sales 4 and 6 collapse to one daily total of 10 |
| WeekdayTrends.BucketSums | 01_fine_grained_forcasting.py:117-125 | the grouped sum and count of a (year, weekday) key are the total and number of daily totals in that bucket |
| WeekdayTrends.MeanTimesCount | 01_fine_grained_forcasting.py:117 | `Mean(s, c)` times `c` is `s`, so a bucket's mean times its number of dates is its total |
| WeekdayTrends.BucketMeans | 01_fine_grained_forcasting.py:117-126 | the averaged rows come out strictly ordered by year, then weekday, with every weekday in 0..6; `BucketMeansKeys` and `BucketMeansValue` state which buckets appear and what each mean is |
| WeekdayTrends.BucketMeansKeys | 01_fine_grained_forcasting.py:125 | the row keys are exactly the (year, weekday) buckets of the daily totals, and no two rows share a bucket |
| WeekdayTrends.BucketMeansValue | 01_fine_grained_forcasting.py:117-125 | each averaged row is the mean of its bucket's daily totals, and the bucket is non-empty |
| WeekdayTrends.WeekdayTrend | 01_fine_grained_forcasting.py:104-126 | the weekday rows come out strictly ordered by year, then weekday, with every weekday in 0..6 |
| WeekdayTrends.WeekdayBuckets | 01_fine_grained_forcasting.py:104-125 | the row keys are exactly the (year, weekday) buckets the filtered records fall on, and no two rows share a bucket |
| WeekdayTrends.WeekdayMeans | 01_fine_grained_forcasting.py:117-125 | each weekday row's value is the mean of the daily totals of the dates in its bucket, and there is at least one such date |
| WeekdayTrends.DailyCollapseExample | 01_fine_grained_forcasting.py:104-126 | two records of Sunday 2013-01-06 with sales 4 and 6 give the single row (2013, 0, 10.0), not a mean of 5 |
| UserConfig.LocalPart | 00_config.py:37 | the local part is a prefix of the address without `@`, followed in the address by `@` unless it is the whole address |
| UserConfig.LocalPartUnique | 00_config.py:37 | those properties determine the local part: it is the longest `@`-free prefix |
| UserConfig.LocalPartOfAddress | 00_config.py:37 | the local part of `user@domain` is `user` |
| UserConfig.Sanitize | 00_config.py:37 | sanitising keeps the length, keeps each word character in place, turns every other character into `_`, and leaves only word characters |
| UserConfig.SanitizeFixedPoints | 00_config.py:37 | sanitising leaves a text unchanged exactly when the text consists of word characters only |
| UserConfig.SanitizeIdempotent | 00_config.py:37 | sanitising an already-sanitised name returns it unchanged |
| UserConfig.UsernameSqlCompatible | 00_config.py:37 | the SQL user name is as long as the local part; each word character of the local part stays in place and every other character becomes `_` |
| UserConfig.DatabaseName | 00_config.py:47 | the database name starts with `fine_grain_forecast_` and consists of word characters only; `DatabaseNameOfAddress` states its full value for every address |
| UserConfig.DatabaseNameOfAddress | 00_config.py:37-47 | for every user part without `@` and any domain, the database name of `user@domain`, and of `user` alone, is `fine_grain_forecast_` followed by the sanitised user part |
| UserConfig.DatabaseNameOfPlainUser | 00_config.py:37-47 | for a local part made of word characters, the database name is the prefix followed by that local part |
| UserConfig.DatabaseNameCollision | 00_config.py:37-47 | the distinct addresses `a.b@x` and `a_b@y` get the same database name |
| UserConfig.StripScheme | 00_config.py:42 | removing `dbfs:` never lengthens the text and shortens it by a multiple of the scheme's length |
| UserConfig.StripSchemeUnchanged | 00_config.py:42 | the removal leaves a text unchanged exactly when `dbfs:` does not occur in it |
| UserConfig.StripLeadingScheme | 00_config.py:42 | a leading `dbfs:` is dropped |
| UserConfig.StripSchemeSinglePass | 00_config.py:42 | the removal makes one pass: `dbdbfs:fs:` becomes `dbfs:` |
| UserConfig.StripSchemeThenPlain | 00_config.py:2-42 | `dbfs:` followed by text without `:` becomes that text |
| UserConfig.TmpDataPath | 00_config.py:42 | the scratch path always ends with `/` |
| UserConfig.TmpDataPathOfBase | 00_config.py:2-42 | with the notebook's base location the path is `/tmp/demand_forecast/data/<email>/` |
| UserConfig.TmpDataPathInjective | 00_config.py:42 | the path keeps the whole address, so distinct addresses get distinct paths |

## Left out

- Spark I/O is not modelled: the CSV read with its schema, the temporary view and `display` (01_fine_grained_forcasting.py:24-48). The model starts from a typed `seq<Record>`.
- NULL fields are not modelled. The schema allows NULL in every column; the model's records always hold a date and a sales figure.
- The broken query `date_format(date,  )` (01_fine_grained_forcasting.py:131) is not modelled. It has no defined result.
- The commented-out `TRUNC` query (01_fine_grained_forcasting.py:86-91) is not modelled. It never runs.
- The `prophet` install (01_fine_grained_forcasting.py:8) is left out. No forecasting code exists in the notebooks.
- Workspace plumbing in `00_config.py` is left out: the existence check and notebook chaining (19-27), reading the user name from the notebook context (32), the `DROP`/`CREATE`/`USE DATABASE` statements (53-55), and `mkdir` (60). The e-mail address is a parameter.
- `_get_data.py` is not part of this model. It only performs downloads and file moves.
- WeekdayTrends.WeekdayMeans: the mean is exact (`real`). Spark's `avg` returns a DOUBLE, so no rounding is modelled.
- GroupBy.GroupSumRows: sums are unbounded integers. Spark sums the INT column into a BIGINT, and overflow is not modelled.
- WeekdayTrends.DailyTotals: the inner daily query has no `ORDER BY`, so the model states no order for the daily totals; only the outer results are ordered.
- UserConfig.Sanitize: the word class is ASCII `[A-Za-z0-9_]`. Python's `\W` on a `str` is Unicode-aware and keeps non-ASCII letters and digits, which this model turns into `_`.
- WeekdayTrends.WeekdayColumn: the `E` pattern is modelled for the English locale only (`Sun` .. `Sat`). Under another locale the CASE would yield NULL, as `CaseWeekdayNull` shows.
