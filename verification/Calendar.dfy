/** Timestamps of collaboration messages: the closed-form day count, and comparison of texts. */
module Calendar {
  import opened Basics

  // ---- The closed form -------------------------------------------------------------------------------

  /** Days since 1970-01-01, for a month and day in range. Division rounds towards minus infinity,
      also for years before the common era. */
  function DaysSinceEpoch(year: int, month: int, day: int): Option<int> {
    if !(1 <= month <= 12) || !(1 <= day <= 31) then None else
      var adjusted := year - if month <= 2 then 1 else 0;
      var era := adjusted / 400;
      var yearOfEra := adjusted - era * 400;
      var monthPrime := month + if month > 2 then -3 else 9;
      var dayOfYear := (153 * monthPrime + 2) / 5 + day - 1;
      var dayOfEra := yearOfEra * 365 + yearOfEra / 4 - yearOfEra / 100 + dayOfYear;
      Some(era * 146097 + dayOfEra - 719468)
  }

  // ---- Counting days one by one --------------------------------------------------------------------

  predicate IsLeap(year: int) {
    year % 4 == 0 && (year % 100 != 0 || year % 400 == 0)
  }

  function DaysInMonth(year: int, month: int): int
    requires 1 <= month <= 12
  {
    if month == 2 then (if IsLeap(year) then 29 else 28)
    else if month == 4 || month == 6 || month == 9 || month == 11 then 30
    else 31
  }

  datatype Date = Date(year: int, month: int, day: int)

  predicate ValidDate(d: Date) {
    1 <= d.month <= 12 && 1 <= d.day <= DaysInMonth(d.year, d.month)
  }

  function NextDay(d: Date): (r: Date)
    requires ValidDate(d)
    ensures ValidDate(r)
  {
    if d.day < DaysInMonth(d.year, d.month) then Date(d.year, d.month, d.day + 1)
    else if d.month < 12 then Date(d.year, d.month + 1, 1)
    else Date(d.year + 1, 1, 1)
  }

  ghost predicate Later(a: Date, b: Date) {
    a.year > b.year || (a.year == b.year && (a.month > b.month || (a.month == b.month && a.day > b.day)))
  }

  function DaysInYear(year: int): int {
    if IsLeap(year) then 366 else 365
  }

  /** The days from the start of 1970 to the start of a year, counted year by year in either direction. */
  function YearStart(year: int): int
    decreases if year >= 1970 then year - 1970 else 1970 - year
  {
    if year == 1970 then 0
    else if year > 1970 then YearStart(year - 1) + DaysInYear(year - 1)
    else YearStart(year + 1) - DaysInYear(year)
  }

  /** The days of a year before a month, counted month by month. */
  function MonthStart(year: int, month: int): int
    requires 1 <= month <= 12
    decreases month
  {
    if month == 1 then 0 else MonthStart(year, month - 1) + DaysInMonth(year, month - 1)
  }

  function CountDays(d: Date): int
    requires 1 <= d.month <= 12
  {
    YearStart(d.year) + MonthStart(d.year, d.month) + d.day - 1
  }

  // ---- The two agree ----------------------------------------------------------------------------------

  /** The closed form for the first of March of a year. */
  function MarchFirst(year: int): int {
    365 * year + year / 4 - year / 100 + year / 400 - 719468
  }

  lemma EraForm(year: int)
    ensures var era := year / 400;
            var yearOfEra := year - era * 400;
            era * 146097 + (yearOfEra * 365 + yearOfEra / 4 - yearOfEra / 100) - 719468 == MarchFirst(year)
  {
    var era := year / 400;
    var yearOfEra := year - era * 400;
    assert yearOfEra / 4 == year / 4 - era * 100;
    assert yearOfEra / 100 == year / 100 - era * 4;
  }

  lemma StepBy4(year: int)
    ensures year / 4 - (year - 1) / 4 == if year % 4 == 0 then 1 else 0
  {
  }

  lemma StepBy100(year: int)
    ensures year / 100 - (year - 1) / 100 == if year % 100 == 0 then 1 else 0
    ensures year % 100 == 0 ==> year % 4 == 0
  {
    var q, r := year / 100, year % 100;
    assert year == 100 * q + r;
    if r == 0 {
      assert year - 1 == 100 * (q - 1) + 99;
      assert year == 4 * (25 * q);
    } else {
      assert year - 1 == 100 * q + (r - 1);
    }
  }

  lemma StepBy400(year: int)
    ensures year / 400 - (year - 1) / 400 == if year % 400 == 0 then 1 else 0
    ensures year % 400 == 0 ==> year % 100 == 0
  {
    var q, r := year / 400, year % 400;
    assert year == 400 * q + r;
    if r == 0 {
      assert year - 1 == 400 * (q - 1) + 399;
      assert year == 100 * (4 * q);
    } else {
      assert year - 1 == 400 * q + (r - 1);
    }
  }

  lemma NextMarch(year: int)
    ensures MarchFirst(year) - MarchFirst(year - 1) == DaysInYear(year)
  {
    StepBy4(year);
    StepBy100(year);
    StepBy400(year);
  }

  lemma {:induction false} YearStartClosed(year: int)
    ensures YearStart(year) == MarchFirst(year - 1) + 306
    decreases if year >= 1970 then year - 1970 else 1970 - year
  {
    if year > 1970 {
      YearStartClosed(year - 1);
      NextMarch(year - 1);
    } else if year < 1970 {
      YearStartClosed(year + 1);
      NextMarch(year);
    }
  }

  lemma MonthStarts(year: int)
    ensures MonthStart(year, 1) == 0 && MonthStart(year, 2) == 31
    ensures MonthStart(year, 3) == DaysInYear(year) - 306 && MonthStart(year, 4) == DaysInYear(year) - 275
    ensures MonthStart(year, 5) == DaysInYear(year) - 245 && MonthStart(year, 6) == DaysInYear(year) - 214
    ensures MonthStart(year, 7) == DaysInYear(year) - 184 && MonthStart(year, 8) == DaysInYear(year) - 153
    ensures MonthStart(year, 9) == DaysInYear(year) - 122 && MonthStart(year, 10) == DaysInYear(year) - 92
    ensures MonthStart(year, 11) == DaysInYear(year) - 61 && MonthStart(year, 12) == DaysInYear(year) - 31
  {
  }

  /** The closed form counts the days of the Gregorian calendar, extended to all years. */
  lemma ClosedFormCountsDays(d: Date)
    requires 1 <= d.month <= 12 && 1 <= d.day <= 31
    ensures DaysSinceEpoch(d.year, d.month, d.day) == Some(CountDays(d))
  {
    var adjusted := d.year - if d.month <= 2 then 1 else 0;
    EraForm(adjusted);
    YearStartClosed(d.year);
    NextMarch(d.year);
    MonthStarts(d.year);
  }

  /** The day count starts at 1970-01-01 and grows by one from each day to the next. */
  lemma EpochAndNextDay(d: Date)
    requires ValidDate(d)
    ensures DaysSinceEpoch(1970, 1, 1) == Some(0)
    ensures DaysSinceEpoch(d.year, d.month, d.day).Some?
    ensures DaysSinceEpoch(NextDay(d).year, NextDay(d).month, NextDay(d).day)
         == Some(DaysSinceEpoch(d.year, d.month, d.day).value + 1)
  {
    ClosedFormCountsDays(Date(1970, 1, 1));
    ClosedFormCountsDays(d);
    ClosedFormCountsDays(NextDay(d));
    NextDayCounts(d);
  }

  lemma NextDayCounts(d: Date)
    requires ValidDate(d)
    ensures CountDays(NextDay(d)) == CountDays(d) + 1
  {
    if d.day == DaysInMonth(d.year, d.month) {
      if d.month < 12 {
        assert MonthStart(d.year, d.month + 1) == MonthStart(d.year, d.month) + DaysInMonth(d.year, d.month);
      } else {
        MonthStarts(d.year);
        NextYearStart(d.year);
      }
    }
  }

  lemma NextYearStart(year: int)
    ensures YearStart(year + 1) == YearStart(year) + DaysInYear(year)
  {
    YearStartClosed(year);
    YearStartClosed(year + 1);
    NextMarch(year);
  }

  lemma {:induction false} YearsGrow(a: int, b: int)
    requires a < b
    ensures YearStart(a) + DaysInYear(a) <= YearStart(b)
    decreases b - a
  {
    NextYearStart(a);
    if a + 1 < b {
      YearsGrow(a + 1, b);
    }
  }

  lemma {:induction false} MonthsGrow(year: int, a: int, b: int)
    requires 1 <= a < b <= 12
    ensures MonthStart(year, a) + DaysInMonth(year, a) <= MonthStart(year, b)
    decreases b - a
  {
    if a + 1 < b {
      MonthsGrow(year, a, b - 1);
    }
  }

  lemma WithinYear(d: Date)
    requires ValidDate(d)
    ensures 0 <= MonthStart(d.year, d.month) + d.day - 1 < DaysInYear(d.year)
  {
    MonthStarts(d.year);
  }

  lemma LaterDaysCountMore(a: Date, b: Date)
    requires ValidDate(a) && ValidDate(b) && Later(a, b)
    ensures CountDays(a) > CountDays(b)
  {
    WithinYear(a);
    WithinYear(b);
    if a.year > b.year {
      YearsGrow(b.year, a.year);
    } else if a.month > b.month {
      MonthsGrow(a.year, b.month, a.month);
    }
  }

  /** Later dates have larger day counts, and conversely. */
  lemma DayCountOrdersDates(a: Date, b: Date)
    requires ValidDate(a) && ValidDate(b)
    ensures CountDays(a) > CountDays(b) <==> Later(a, b)
  {
    if Later(a, b) {
      LaterDaysCountMore(a, b);
    } else if Later(b, a) {
      LaterDaysCountMore(b, a);
    }
  }
}
