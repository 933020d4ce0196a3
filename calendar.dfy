/** The proleptic Gregorian calendar over integer day numbers.

    A day number counts days from 0001-01-01, which is day 0 and a Monday; days
    before it are negative. This stands in for the timestamps pandas keeps in a
    `datetime64` column. The civil date (`.dt.year`, `.dt.month`, `.dt.day`) and
    the weekday (`.dt.dayofweek`, Monday = 0) are derived from the day number
    arithmetically. */
module Calendar {

  datatype Date = Date(year: int, month: int, day: int)

  predicate IsLeapYear(y: int) {
    y % 4 == 0 && (y % 100 != 0 || y % 400 == 0)
  }

  function YearLength(y: int): int {
    if IsLeapYear(y) then 366 else 365
  }

  function MonthLength(y: int, m: int): int
    requires 1 <= m <= 12
  {
    if m == 2 then (if IsLeapYear(y) then 29 else 28)
    else if m == 4 || m == 6 || m == 9 || m == 11 then 30
    else 31
  }

  /** A date that exists in the calendar. */
  predicate IsValid(d: Date) {
    1 <= d.month <= 12 && 1 <= d.day <= MonthLength(d.year, d.month)
  }

  /** The day number of January 1 of year `y`: 365 days per year plus one per
      leap year before `y` (floor division makes this hold for every integer
      year). */
  function DaysBeforeYear(y: int): int {
    var p := y - 1;
    365 * p + p / 4 - p / 100 + p / 400
  }

  /** Days in year `y` before the first of month `m`; `m == 13` gives the whole year. */
  function DaysBeforeMonth(y: int, m: int): int
    requires 1 <= m <= 13
  {
    var leap := if IsLeapYear(y) && m > 2 then 1 else 0;
    leap +
      (if m == 1 then 0 else if m == 2 then 31 else if m == 3 then 59
       else if m == 4 then 90 else if m == 5 then 120 else if m == 6 then 151
       else if m == 7 then 181 else if m == 8 then 212 else if m == 9 then 243
       else if m == 10 then 273 else if m == 11 then 304 else if m == 12 then 334
       else 365)
  }

  function DayNumber(d: Date): int
    requires IsValid(d)
  {
    DaysBeforeYear(d.year) + DaysBeforeMonth(d.year, d.month) + d.day - 1
  }

  /** Quotient and remainder by 4, 100 and 400 are the unique ones. */
  lemma DivBy4(n: int, q: int, r: int)
    requires n == 4 * q + r && 0 <= r < 4
    ensures n / 4 == q && n % 4 == r
  {
  }

  lemma DivBy100(n: int, q: int, r: int)
    requires n == 100 * q + r && 0 <= r < 100
    ensures n / 100 == q && n % 100 == r
  {
  }

  lemma DivBy400(n: int, q: int, r: int)
    requires n == 400 * q + r && 0 <= r < 400
    ensures n / 400 == q && n % 400 == r
  {
  }

  /** Stepping from `y - 1` to `y` adds one multiple of 4 exactly when `y` is one. */
  lemma StepBy4(y: int)
    ensures y / 4 - (y - 1) / 4 == if y % 4 == 0 then 1 else 0
  {
    var q, r := (y - 1) / 4, (y - 1) % 4;
    if r == 3 {
      DivBy4(y, q + 1, 0);
    } else {
      DivBy4(y, q, r + 1);
    }
  }

  lemma StepBy100(y: int)
    ensures y / 100 - (y - 1) / 100 == if y % 100 == 0 then 1 else 0
    ensures y % 100 == 0 ==> y % 4 == 0
  {
    var q, r := (y - 1) / 100, (y - 1) % 100;
    if r == 99 {
      DivBy100(y, q + 1, 0);
      DivBy4(y, 25 * (q + 1), 0);
    } else {
      DivBy100(y, q, r + 1);
    }
  }

  lemma StepBy400(y: int)
    ensures y / 400 - (y - 1) / 400 == if y % 400 == 0 then 1 else 0
    ensures y % 400 == 0 ==> y % 100 == 0
  {
    var q, r := (y - 1) / 400, (y - 1) % 400;
    if r == 399 {
      DivBy400(y, q + 1, 0);
      DivBy100(y, 4 * (q + 1), 0);
    } else {
      DivBy400(y, q, r + 1);
    }
  }

  lemma YearStep(y: int)
    ensures DaysBeforeYear(y + 1) == DaysBeforeYear(y) + YearLength(y)
  {
    StepBy4(y);
    StepBy100(y);
    StepBy400(y);
  }

  lemma MonthStep(y: int, m: int)
    requires 1 <= m <= 12
    ensures DaysBeforeMonth(y, m + 1) == DaysBeforeMonth(y, m) + MonthLength(y, m)
  {
  }

  /** Each 400-year era has 146097 days. */
  lemma EraStart(era: int)
    ensures DaysBeforeYear(400 * era + 1) == 146097 * era
  {
    var p := 400 * era;
    assert p / 4 == 100 * era;
    assert p / 100 == 4 * era;
    assert p / 400 == era;
  }

  lemma {:induction false} DaysBeforeYearMonotone(a: int, b: int)
    requires a <= b
    ensures DaysBeforeYear(a) <= DaysBeforeYear(b)
    decreases b - a
  {
    if a < b {
      DaysBeforeYearMonotone(a, b - 1);
      YearStep(b - 1);
    }
  }

  /** The year that `r` days after January 1 of year `y` falls in, and the
      offset into that year. */
  function FindYear(y: int, r: int): (res: (int, int))
    requires r >= 0
    ensures res.0 >= y && 0 <= res.1 < YearLength(res.0)
    ensures DaysBeforeYear(res.0) + res.1 == DaysBeforeYear(y) + r
    decreases r
  {
    if r < YearLength(y) then (y, r)
    else
      YearStep(y);
      FindYear(y + 1, r - YearLength(y))
  }

  /** The month that day `r` of what remains of year `y` from month `m` on
      falls in, and the day of that month. */
  function FindMonth(y: int, m: int, r: int): (res: (int, int))
    requires 1 <= m <= 12
    requires 0 <= r < YearLength(y) - DaysBeforeMonth(y, m)
    ensures m <= res.0 <= 12 && 1 <= res.1 <= MonthLength(y, res.0)
    ensures DaysBeforeMonth(y, res.0) + res.1 - 1 == DaysBeforeMonth(y, m) + r
    decreases 12 - m
  {
    if r < MonthLength(y, m) then (m, r + 1)
    else
      MonthStep(y, m);
      FindMonth(y, m + 1, r - MonthLength(y, m))
  }

  /** The civil date of day number `n`: the year within its 400-year era,
      then the month within the year. */
  function CivilDate(n: int): (d: Date)
    ensures IsValid(d)
  {
    var era := n / 146097;
    var yr := FindYear(400 * era + 1, n % 146097);
    var md := FindMonth(yr.0, 1, yr.1);
    Date(yr.0, md.0, md.1)
  }

  /** The day number of `CivilDate(n)` is `n`. */
  lemma DayNumberOfCivilDate(n: int)
    ensures DayNumber(CivilDate(n)) == n
  {
    EraStart(n / 146097);
  }

  /** Monday = 0, ..., Sunday = 6 (pandas' `dayofweek`). */
  function Weekday(n: int): (w: int)
    ensures 0 <= w <= 6
  {
    n % 7
  }

  /** A date lies inside its own year. */
  lemma DayNumberWithinYear(d: Date)
    requires IsValid(d)
    ensures DaysBeforeYear(d.year) <= DayNumber(d) < DaysBeforeYear(d.year + 1)
  {
    YearStep(d.year);
    MonthStep(d.year, d.month);
  }

  /** Distinct valid dates have distinct day numbers. */
  lemma DayNumberInjective(a: Date, b: Date)
    requires IsValid(a) && IsValid(b)
    requires DayNumber(a) == DayNumber(b)
    ensures a == b
  {
    SameDayNumberSameYear(a, b);
    if a.month < b.month {
      DaysBeforeMonthMonotone(a.year, a.month, b.month);
    } else if b.month < a.month {
      DaysBeforeMonthMonotone(a.year, b.month, a.month);
    }
  }

  /** Dates with the same day number lie in the same year. */
  lemma SameDayNumberSameYear(a: Date, b: Date)
    requires IsValid(a) && IsValid(b)
    requires DayNumber(a) == DayNumber(b)
    ensures a.year == b.year
  {
    DayNumberWithinYear(a);
    DayNumberWithinYear(b);
    YearOfDay(a.year, b.year, DayNumber(a));
  }

  /** A day number falls in one year only. */
  lemma YearOfDay(y1: int, y2: int, n: int)
    requires DaysBeforeYear(y1) <= n < DaysBeforeYear(y1 + 1)
    requires DaysBeforeYear(y2) <= n < DaysBeforeYear(y2 + 1)
    ensures y1 == y2
  {
    if y1 < y2 {
      DaysBeforeYearMonotone(y1 + 1, y2);
    } else if y2 < y1 {
      DaysBeforeYearMonotone(y2 + 1, y1);
    }
  }

  /** A later month starts after every day of an earlier one. */
  lemma {:induction false} DaysBeforeMonthMonotone(y: int, m1: int, m2: int)
    requires 1 <= m1 < m2 <= 13
    ensures DaysBeforeMonth(y, m1) + MonthLength(y, m1) <= DaysBeforeMonth(y, m2)
    decreases m2 - m1
  {
    MonthStep(y, m1);
    if m1 + 1 < m2 {
      DaysBeforeMonthMonotone(y, m1 + 1, m2);
    }
  }

  /** `CivilDate` is the inverse of `DayNumber`. */
  lemma CivilDateOfDayNumber(d: Date)
    requires IsValid(d)
    ensures CivilDate(DayNumber(d)) == d
  {
    DayNumberOfCivilDate(DayNumber(d));
    DayNumberInjective(CivilDate(DayNumber(d)), d);
  }

  /** The calendar date after `d`. */
  function NextDate(d: Date): Date
    requires IsValid(d)
  {
    if d.day < MonthLength(d.year, d.month) then Date(d.year, d.month, d.day + 1)
    else if d.month < 12 then Date(d.year, d.month + 1, 1)
    else Date(d.year + 1, 1, 1)
  }

  /** Day number `n + 1` is the calendar day after day number `n`. */
  lemma CivilDateSuccessor(n: int)
    ensures IsValid(NextDate(CivilDate(n)))
    ensures CivilDate(n + 1) == NextDate(CivilDate(n))
  {
    DayNumberOfCivilDate(n);
    var d := CivilDate(n);
    NextDateNumber(d);
    DayNumberOfCivilDate(n + 1);
    DayNumberInjective(CivilDate(n + 1), NextDate(d));
  }

  /** The day after a valid date is valid and numbered one higher. */
  lemma NextDateNumber(d: Date)
    requires IsValid(d)
    ensures IsValid(NextDate(d))
    ensures DayNumber(NextDate(d)) == DayNumber(d) + 1
  {
    if d.day < MonthLength(d.year, d.month) {
    } else if d.month < 12 {
      MonthStep(d.year, d.month);
    } else {
      YearStep(d.year);
    }
  }

  /** 1970-01-01, the Unix epoch, was a Thursday. */
  lemma UnixEpochIsThursday()
    ensures DayNumber(Date(1970, 1, 1)) == 719162
    ensures Weekday(719162) == 3
  {
  }
}
