/**
 The proleptic Gregorian calendar that Spark 3 uses for its DATE type:
 the date functions `year`, `month` and `date_format(date, 'E')` the
 notebooks rely on, and a day count from which the day of the week follows.
 */
module Calendar {

  /** A year-month-day triple; only the `ValidDate` ones are dates. */
  datatype Date = Date(year: int, month: int, day: int)

  /** Gregorian leap-year rule, applied to every year (proleptically). */
  predicate IsLeapYear(y: int) {
    y % 4 == 0 && (y % 100 != 0 || y % 400 == 0)
  }

  function DaysInMonth(y: int, m: int): (n: int)
    requires 1 <= m <= 12
    ensures 28 <= n <= 31
    ensures n == 29 <==> m == 2 && IsLeapYear(y)
  {
    if m == 2 then (if IsLeapYear(y) then 29 else 28)
    else if m == 4 || m == 6 || m == 9 || m == 11 then 30
    else 31
  }

  predicate IsValid(d: Date) {
    1 <= d.month <= 12 && 1 <= d.day <= DaysInMonth(d.year, d.month)
  }

  /** A value of a Spark DATE column: always a real calendar day. */
  type ValidDate = d: Date | IsValid(d) witness Date(2013, 1, 1)

  function YearLength(y: int): int {
    if IsLeapYear(y) then 366 else 365
  }

  /** Days in all years before `y`, counting from year 1. */
  function DaysBeforeYear(y: int): int {
    var p := y - 1;
    365 * p + p / 4 - p / 100 + p / 400
  }

  /** Days in the months of year `y` before month `m`. */
  function DaysBeforeMonth(y: int, m: int): int
    requires 1 <= m <= 12
  {
    var leap := if IsLeapYear(y) then 1 else 0;
    if m == 1 then 0
    else if m == 2 then 31
    else if m == 3 then 59 + leap
    else if m == 4 then 90 + leap
    else if m == 5 then 120 + leap
    else if m == 6 then 151 + leap
    else if m == 7 then 181 + leap
    else if m == 8 then 212 + leap
    else if m == 9 then 243 + leap
    else if m == 10 then 273 + leap
    else if m == 11 then 304 + leap
    else 334 + leap
  }

  /** Day number of a date, with 0001-01-01 (a Monday) as day 1. */
  function DayNumber(d: ValidDate): int {
    DaysBeforeYear(d.year) + DaysBeforeMonth(d.year, d.month) + d.day
  }

  /** The calendar day after `d`. */
  function NextDay(d: ValidDate): (n: ValidDate)
    ensures n.year == d.year || (n.year == d.year + 1 && n.month == 1 && n.day == 1)
  {
    if d.day < DaysInMonth(d.year, d.month) then Date(d.year, d.month, d.day + 1)
    else if d.month < 12 then Date(d.year, d.month + 1, 1)
    else Date(d.year + 1, 1, 1)
  }

  /** Whole multiples of `n` gained between `y - 1` and `y`. */
  lemma MultipleStep(y: int, n: int)
    requires n == 4 || n == 100 || n == 400
    ensures y / n - (y - 1) / n == if y % n == 0 then 1 else 0
  {
  }

  /** `DaysBeforeYear` advances by the length of each year. */
  lemma DaysBeforeNextYear(y: int)
    ensures DaysBeforeYear(y + 1) == DaysBeforeYear(y) + YearLength(y)
  {
    MultipleStep(y, 4);
    MultipleStep(y, 100);
    MultipleStep(y, 400);
    if y % 100 == 0 {
      assert y % 4 == 0;
    }
    if y % 400 == 0 {
      assert y % 100 == 0;
    }
  }

  /** `DaysBeforeMonth` advances by the length of each month, and a full
      year of months is the year's length. */
  lemma DaysBeforeNextMonth(y: int, m: int)
    requires 1 <= m <= 12
    ensures m < 12 ==> DaysBeforeMonth(y, m + 1) == DaysBeforeMonth(y, m) + DaysInMonth(y, m)
    ensures m == 12 ==> DaysBeforeMonth(y, m) + DaysInMonth(y, m) == YearLength(y)
  {
  }

  /** Consecutive calendar days have consecutive day numbers. */
  lemma NextDayNumber(d: ValidDate)
    ensures DayNumber(NextDay(d)) == DayNumber(d) + 1
  {
    DaysBeforeNextMonth(d.year, d.month);
    if d.day == DaysInMonth(d.year, d.month) && d.month == 12 {
      DaysBeforeNextYear(d.year);
    }
  }

  /** The date `k` days after `d`. */
  function Advance(d: ValidDate, k: nat): ValidDate
    decreases k
  {
    if k == 0 then d else NextDay(Advance(d, k - 1))
  }

  /** Advancing by `k` days adds `k` to the day number. */
  lemma {:induction false} AdvanceDayNumber(d: ValidDate, k: nat)
    ensures DayNumber(Advance(d, k)) == DayNumber(d) + k
    decreases k
  {
    if k > 0 {
      AdvanceDayNumber(d, k - 1);
      NextDayNumber(Advance(d, k - 1));
    }
  }

  /** Day names in the order of the week, starting on Sunday. */
  datatype DayName = Sun | Mon | Tue | Wed | Thu | Fri | Sat

  /** The day of the week of `d`; day 1 of the count is a Monday. */
  function DayNameOf(d: ValidDate): DayName {
    NameOfDayNumber(DayNumber(d))
  }

  /** The day of the week of day number `k`. */
  function NameOfDayNumber(k: int): DayName {
    var r := k % 7;
    if r == 0 then Sun
    else if r == 1 then Mon
    else if r == 2 then Tue
    else if r == 3 then Wed
    else if r == 4 then Thu
    else if r == 5 then Fri
    else Sat
  }

  /** The day following `n` in the week. */
  function Following(n: DayName): DayName {
    match n
    case Sun => Mon
    case Mon => Tue
    case Tue => Wed
    case Wed => Thu
    case Thu => Fri
    case Fri => Sat
    case Sat => Sun
  }

  /** The English three-letter abbreviation, as the `E` date pattern prints it. */
  function Abbreviation(n: DayName): (s: string)
    ensures |s| == 3
  {
    match n
    case Sun => "Sun"
    case Mon => "Mon"
    case Tue => "Tue"
    case Wed => "Wed"
    case Thu => "Thu"
    case Fri => "Fri"
    case Sat => "Sat"
  }

  /** `date_format(d, 'E')`: three letters that name the date's day of the
      week and no other day. */
  function FormatE(d: ValidDate): (e: string)
    ensures |e| == 3
    ensures forall n :: Abbreviation(n) == e <==> n == DayNameOf(d)
  {
    assert forall n :: Abbreviation(n) == Abbreviation(DayNameOf(d)) <==> n == DayNameOf(d) by {
      forall n
        ensures Abbreviation(n) == Abbreviation(DayNameOf(d)) <==> n == DayNameOf(d)
      {
        AbbreviationInjective(n, DayNameOf(d));
      }
    }
    Abbreviation(DayNameOf(d))
  }

  /** Distinct days print distinct abbreviations. */
  lemma AbbreviationInjective(a: DayName, b: DayName)
    ensures Abbreviation(a) == Abbreviation(b) <==> a == b
  {
    if a != b {
      assert Abbreviation(a)[0] != Abbreviation(b)[0] || Abbreviation(a)[1] != Abbreviation(b)[1];
    }
  }

  /** The day after a date falls on the following day of the week. */
  lemma NextDayName(d: ValidDate)
    ensures DayNameOf(NextDay(d)) == Following(DayNameOf(d))
  {
    NextDayNumber(d);
    NextNameOfDayNumber(DayNumber(d));
  }

  lemma NextNameOfDayNumber(k: int)
    ensures NameOfDayNumber(k + 1) == Following(NameOfDayNumber(k))
  {
    assert (k + 1) % 7 == (if k % 7 == 6 then 0 else k % 7 + 1);
  }

  /** 2013-01-06 is a Sunday and 2013-01-07 a Monday. */
  lemma KnownSunday()
    ensures DayNameOf(Date(2013, 1, 6)) == Sun
    ensures DayNameOf(Date(2013, 1, 7)) == Mon
    ensures FormatE(Date(2013, 1, 6)) == "Sun"
  {
  }
}
