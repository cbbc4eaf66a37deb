/**
  Civil dates as Python's `datetime.date` has them, and the date helpers of
  src/shiden/dates.py.  A date is also known by its proleptic Gregorian ordinal
  (1 January of year 1 is day 1), which is what adding days works on.
 */
module Calendar {

  const MIN_YEAR := 1
  const MAX_YEAR := 9999

  datatype Date = Date(year: int, month: int, day: int)

  /** The source raises OverflowError or ValueError when a date leaves the years 1 to 9999. */
  datatype Result<+T> = Ok(value: T) | OutOfRange

  const FIRST := Date(MIN_YEAR, 1, 1)
  const LAST := Date(MAX_YEAR, 12, 31)
  const LAST_DAY := 3652059

  predicate IsLeap(year: int) { year % 4 == 0 && (year % 100 != 0 || year % 400 == 0) }

  function DaysInMonth(year: int, month: int): (n: int)
    requires 1 <= month <= 12
    ensures 28 <= n <= 31
  {
    if month == 2 then if IsLeap(year) then 29 else 28
    else if month == 4 || month == 6 || month == 9 || month == 11 then 30 else 31
  }

  predicate Valid(d: Date) {
    MIN_YEAR <= d.year <= MAX_YEAR && 1 <= d.month <= 12 && 1 <= d.day <= DaysInMonth(d.year, d.month)
  }

  function DaysBeforeYear(year: int): int {
    var y := year - 1;
    365 * y + y / 4 - y / 100 + y / 400
  }

  function DaysBeforeMonth(year: int, month: int): int
    requires 1 <= month <= 12
    decreases month
  {
    if month == 1 then 0 else DaysBeforeMonth(year, month - 1) + DaysInMonth(year, month - 1)
  }

  function Ordinal(d: Date): int
    requires Valid(d)
  {
    DaysBeforeYear(d.year) + DaysBeforeMonth(d.year, d.month) + d.day
  }

  /** Adding one day. */
  function Next(d: Date): Date
    requires Valid(d)
  {
    if d.day < DaysInMonth(d.year, d.month) then d.(day := d.day + 1)
    else if d.month < 12 then Date(d.year, d.month + 1, 1)
    else Date(d.year + 1, 1, 1)
  }

  /** Taking one day away. */
  function Previous(d: Date): Date
    requires Valid(d)
  {
    if d.day > 1 then d.(day := d.day - 1)
    else if d.month > 1 then Date(d.year, d.month - 1, DaysInMonth(d.year, d.month - 1))
    else Date(d.year - 1, 12, 31)
  }

  predicate SameMonth(a: Date, b: Date) { a.year == b.year && a.month == b.month }

  predicate Before(a: Date, b: Date) {
    a.year < b.year || (a.year == b.year && (a.month < b.month || (a.month == b.month && a.day < b.day)))
  }

  predicate AtMost(a: Date, b: Date) { a == b || Before(a, b) }

  /** YYYYMMDD, the integer key of the Silver and Gold tables. */
  function DateToId(d: Date): int { d.year * 10000 + d.month * 100 + d.day }

  // ------------------------------------------------------------- ordinals

  lemma YearLength(year: int)
    ensures DaysBeforeYear(year + 1) == DaysBeforeYear(year) + if IsLeap(year) then 366 else 365
  {
    Quotient4(year);
    Quotient100(year);
    Quotient400(year);
  }

  lemma Quotient4(y: int)
    ensures y / 4 - (y - 1) / 4 == if y % 4 == 0 then 1 else 0
  {}

  lemma Division4(y: int, q: int, r: int)
    requires y == 4 * q + r && 0 <= r < 4
    ensures y / 4 == q && y % 4 == r
  {}

  lemma Division100(y: int, q: int, r: int)
    requires y == 100 * q + r && 0 <= r < 100
    ensures y / 100 == q && y % 100 == r
  {}

  lemma Division400(y: int, q: int, r: int)
    requires y == 400 * q + r && 0 <= r < 400
    ensures y / 400 == q && y % 400 == r
  {}

  lemma Quotient100(y: int)
    ensures y / 100 - (y - 1) / 100 == if y % 100 == 0 then 1 else 0
    ensures y % 100 == 0 ==> y % 4 == 0
  {
    var q, r := y / 100, y % 100;
    if r == 0 {
      Division100(y - 1, q - 1, 99);
      Division4(y, 25 * q, 0);
    } else {
      Division100(y - 1, q, r - 1);
    }
  }

  lemma Quotient400(y: int)
    ensures y / 400 - (y - 1) / 400 == if y % 400 == 0 then 1 else 0
    ensures y % 400 == 0 ==> y % 100 == 0
  {
    var q, r := y / 400, y % 400;
    if r == 0 {
      Division400(y - 1, q - 1, 399);
      Division100(y, 4 * q, 0);
    } else {
      Division400(y - 1, q, r - 1);
    }
  }

  lemma {:induction false} YearsGrow(y: int, y': int)
    requires y <= y'
    ensures DaysBeforeYear(y) + 365 * (y' - y) <= DaysBeforeYear(y')
    decreases y' - y
  {
    if y < y' {
      YearsGrow(y, y' - 1);
      YearLength(y' - 1);
    }
  }

  lemma {:induction false} MonthsGrow(year: int, m: int, m': int)
    requires 1 <= m < m' <= 12
    ensures DaysBeforeMonth(year, m) + DaysInMonth(year, m) <= DaysBeforeMonth(year, m')
    decreases m' - m
  {
    if m + 1 < m' {
      MonthsGrow(year, m, m' - 1);
    }
  }

  lemma MonthTotals(year: int)
    ensures DaysBeforeMonth(year, 12) == if IsLeap(year) then 335 else 334
  {
    assert DaysBeforeMonth(year, 3) == 31 + DaysInMonth(year, 2);
    assert DaysBeforeMonth(year, 6) == DaysBeforeMonth(year, 3) + 92;
    assert DaysBeforeMonth(year, 9) == DaysBeforeMonth(year, 6) + 92;
    assert DaysBeforeMonth(year, 12) == DaysBeforeMonth(year, 9) + 91;
  }

  lemma DayOfYear(d: Date)
    requires Valid(d)
    ensures 1 <= Ordinal(d) - DaysBeforeYear(d.year) <= if IsLeap(d.year) then 366 else 365
  {
    MonthTotals(d.year);
    if d.month > 1 { MonthsGrow(d.year, 1, d.month); }
    if d.month < 12 { MonthsGrow(d.year, d.month, 12); }
  }

  /** Civil order is the order of the ordinals. */
  lemma OrdinalOrder(a: Date, b: Date)
    requires Valid(a) && Valid(b)
    ensures Before(a, b) <==> Ordinal(a) < Ordinal(b)
    ensures a == b <==> Ordinal(a) == Ordinal(b)
  {
    if Before(a, b) {
      OrdinalGrows(a, b);
    } else if Before(b, a) {
      OrdinalGrows(b, a);
    }
  }

  lemma OrdinalGrows(a: Date, b: Date)
    requires Valid(a) && Valid(b) && Before(a, b)
    ensures Ordinal(a) < Ordinal(b)
  {
    DayOfYear(a);
    DayOfYear(b);
    if a.year < b.year {
      YearLength(a.year);
      YearsGrow(a.year + 1, b.year);
    } else if a.month < b.month {
      MonthsGrow(a.year, a.month, b.month);
    }
  }

  lemma NextIsOneDayOn(d: Date)
    requires Valid(d) && d != LAST
    ensures Valid(Next(d)) && Ordinal(Next(d)) == Ordinal(d) + 1
  {
    if d.month == 12 {
      MonthTotals(d.year);
      YearLength(d.year);
      assert DaysInMonth(d.year, 12) == 31;
    }
  }

  lemma YearEnd(year: int)
    ensures year == 1 ==> DaysBeforeYear(year) == 0
    ensures year == MAX_YEAR + 1 ==> DaysBeforeYear(year) == LAST_DAY
  {}

  lemma RangeOfOrdinals(d: Date)
    requires Valid(d)
    ensures 1 <= Ordinal(d) <= LAST_DAY
    ensures d == FIRST ==> Ordinal(d) == 1
    ensures d == LAST ==> Ordinal(d) == LAST_DAY
  {
    DayOfYear(d);
    YearLength(d.year);
    YearEnd(1);
    YearEnd(MAX_YEAR + 1);
    YearsGrow(1, d.year);
    YearsGrow(d.year + 1, MAX_YEAR + 1);
    MonthTotals(d.year);
  }

  /** The date with a given ordinal. */
  function FromOrdinal(n: int): (d: Date)
    requires 1 <= n <= LAST_DAY
    ensures Valid(d) && Ordinal(d) == n
    decreases n
  {
    if n == 1 then RangeOfOrdinals(FIRST); FIRST
    else
      var d := FromOrdinal(n - 1);
      RangeOfOrdinals(d);
      NextIsOneDayOn(d);
      Next(d)
  }

  /** The digits of an id are the date: YYYY, MM and DD. */
  lemma IdDigits(d: Date)
    requires Valid(d)
    ensures DateToId(d) % 100 == d.day && DateToId(d) / 100 % 100 == d.month && DateToId(d) / 10000 == d.year
  {
    var id := DateToId(d);
    Division100(id, 100 * d.year + d.month, d.day);
    Division100(100 * d.year + d.month, d.year, d.month);
  }

  /** The valid dates are those of the Gregorian calendar, years 1 to 9999. */
  lemma ValidDates(year: int, month: int, day: int)
    ensures Valid(Date(year, month, day)) <==>
      && 1 <= year <= 9999 && 1 <= month <= 12 && 1 <= day <= 31
      && (month in {4, 6, 9, 11} ==> day <= 30)
      && (month == 2 ==> day <= 29 && (day == 29 ==> year % 4 == 0 && (year % 100 == 0 ==> year % 400 == 0)))
  {}

  /** `date_to_id` is an order embedding: id ranges select exactly the date ranges. */
  lemma IdOrder(a: Date, b: Date)
    requires Valid(a) && Valid(b)
    ensures DateToId(a) < DateToId(b) <==> Ordinal(a) < Ordinal(b)
    ensures DateToId(a) == DateToId(b) <==> Ordinal(a) == Ordinal(b)
  {
    OrdinalOrder(a, b);
  }

  /** The generator of src/shiden/dates.py, run to its end; stepping past the last date raises. */
  method DateRange(start: Date, end: Date) returns (r: Result<seq<Date>>)
    requires Valid(start) && Valid(end)
    ensures r.OutOfRange? <==> end == LAST
    ensures r.Ok? ==> |r.value| == if AtMost(start, end) then Ordinal(end) - Ordinal(start) + 1 else 0
    ensures r.Ok? ==> forall i :: 0 <= i < |r.value| ==> Valid(r.value[i]) && Ordinal(r.value[i]) == Ordinal(start) + i
  {
    OrdinalOrder(start, end);
    RangeOfOrdinals(end);
    var current, out := start, [];
    while AtMost(current, end)
      invariant Valid(current) && Ordinal(current) == Ordinal(start) + |out|
      invariant |out| == 0 || Ordinal(current) <= Ordinal(end) + 1
      invariant forall i :: 0 <= i < |out| ==> Valid(out[i]) && Ordinal(out[i]) == Ordinal(start) + i
      decreases Ordinal(end) - Ordinal(current)
    {
      OrdinalOrder(current, end);
      RangeOfOrdinals(current);
      out := out + [current];
      if current == LAST {
        return OutOfRange;
      }
      NextIsOneDayOn(current);
      current := Next(current);
    }
    OrdinalOrder(current, end);
    RangeOfOrdinals(current);
    r := Ok(out);
  }
}
