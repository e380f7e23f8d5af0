/**
 * The calendar arithmetic of a JavaScript `Date` in local time: the Gregorian
 * month lengths, the overflow rules of `new Date(year, month, day)`, the day of
 * the week, and the helpers of src/js/dates.js built on them.
 * Months are numbered from 0 (January) as in JavaScript.
 */
module JsDates {

  /** A point in local time: calendar date plus milliseconds since midnight. */
  datatype Date = Date(year: int, month: int, day: int, msOfDay: int)

  const MsPerDay := 86400000

  predicate IsLeapYear(y: int)
  {
    y % 4 == 0 && (y % 100 != 0 || y % 400 == 0)
  }

  function DaysInMonth(y: int, m: int): int
    requires 0 <= m < 12
  {
    if m == 1 then (if IsLeapYear(y) then 29 else 28)
    else if m == 3 || m == 5 || m == 8 || m == 10 then 30
    else 31
  }

  predicate ValidDate(d: Date)
  {
    && 0 <= d.month < 12
    && 1 <= d.day <= DaysInMonth(d.year, d.month)
    && 0 <= d.msOfDay < MsPerDay
  }

  /** The month after (y, m). */
  function NextMonth(y: int, m: int): (r: (int, int))
    requires 0 <= m < 12
    ensures 0 <= r.1 < 12
  {
    if m == 11 then (y + 1, 0) else (y, m + 1)
  }

  /** The month before (y, m). */
  function PrevMonth(y: int, m: int): (r: (int, int))
    requires 0 <= m < 12
    ensures 0 <= r.1 < 12
  {
    if m == 0 then (y - 1, 11) else (y, m - 1)
  }

  // ---------------------------------------------------------------------
  // Day numbers: an independent count of days, used to state what the
  // overflow rules of the Date constructor compute.

  /** Days in the years before `y` of the proleptic Gregorian calendar (year 1 starts at 0). */
  function DaysBeforeYear(y: int): int
  {
    var p := y - 1;
    365 * p + p / 4 - p / 100 + p / 400
  }

  /** Days in the months of year `y` before month `m`. */
  function DaysBeforeMonth(y: int, m: int): int
    requires 0 <= m <= 12
  {
    if m == 0 then 0 else DaysBeforeMonth(y, m - 1) + DaysInMonth(y, m - 1)
  }

  /** Day 1 is Monday, January 1st of year 1. */
  function DayNumber(d: Date): int
    requires 0 <= d.month < 12
  {
    DaysBeforeYear(d.year) + DaysBeforeMonth(d.year, d.month) + d.day
  }

  /** `date.getDay()`: 0 is Sunday, 6 is Saturday. */
  function Weekday(d: Date): (w: int)
    requires 0 <= d.month < 12
    ensures 0 <= w < 7
  {
    DayNumber(d) % 7
  }

  /** How many multiples of 4, 100 and 400 the year `y` adds to the counts in `DaysBeforeYear`. */
  lemma MultiplesStep(y: int)
    ensures y / 4 - (y - 1) / 4 == if y % 4 == 0 then 1 else 0
    ensures y / 100 - (y - 1) / 100 == if y % 100 == 0 then 1 else 0
    ensures y / 400 - (y - 1) / 400 == if y % 400 == 0 then 1 else 0
  {
  }

  /** The running month totals of a year, February holding the leap day. */
  lemma MonthTotals(y: int)
    ensures var f := if IsLeapYear(y) then 1 else 0;
      DaysBeforeMonth(y, 12) == 365 + f && DaysBeforeMonth(y, 11) == 334 + f
  {
    var f := if IsLeapYear(y) then 1 else 0;
    assert DaysBeforeMonth(y, 1) == 31;
    assert DaysBeforeMonth(y, 2) == 59 + f;
    assert DaysBeforeMonth(y, 3) == 90 + f;
    assert DaysBeforeMonth(y, 4) == 120 + f;
    assert DaysBeforeMonth(y, 5) == 151 + f;
    assert DaysBeforeMonth(y, 6) == 181 + f;
    assert DaysBeforeMonth(y, 7) == 212 + f;
    assert DaysBeforeMonth(y, 8) == 243 + f;
    assert DaysBeforeMonth(y, 9) == 273 + f;
    assert DaysBeforeMonth(y, 10) == 304 + f;
    assert DaysBeforeMonth(y, 11) == 334 + f;
  }

  lemma Mod400Divides(y: int)
    requires y % 400 == 0
    ensures y % 100 == 0 && y % 4 == 0
  {
    var q := y / 400;
    assert y == 100 * (4 * q);
    assert y == 4 * (100 * q);
  }

  lemma Mod100Divides(y: int)
    requires y % 100 == 0
    ensures y % 4 == 0
  {
    var q := y / 100;
    assert y == 4 * (25 * q);
  }

  /** The year `y` adds one day to `DaysBeforeYear` exactly when it is a leap year. */
  lemma LeapDayCount(y: int)
    ensures (y / 4 - (y - 1) / 4) - (y / 100 - (y - 1) / 100) + (y / 400 - (y - 1) / 400)
      == if IsLeapYear(y) then 1 else 0
  {
    MultiplesStep(y);
    if y % 400 == 0 {
      Mod400Divides(y);
    } else if y % 100 == 0 {
      Mod100Divides(y);
    }
  }

  /** A year has 365 days, 366 in a leap year, by both counts. */
  lemma YearLength(y: int)
    ensures DaysBeforeMonth(y, 12) == if IsLeapYear(y) then 366 else 365
    ensures DaysBeforeYear(y + 1) - DaysBeforeYear(y) == DaysBeforeMonth(y, 12)
  {
    MonthTotals(y);
    LeapDayCount(y);
    assert DaysBeforeYear(y + 1) - DaysBeforeYear(y)
      == 365 + (y / 4 - (y - 1) / 4) - (y / 100 - (y - 1) / 100) + (y / 400 - (y - 1) / 400);
  }

  /** The first of the next month is `DaysInMonth` days after the first of this one. */
  lemma NextMonthDayNumber(y: int, m: int)
    requires 0 <= m < 12
    ensures var (ny, nm) := NextMonth(y, m);
      DayNumber(Date(ny, nm, 1, 0)) == DayNumber(Date(y, m, 1, 0)) + DaysInMonth(y, m)
  {
    if m == 11 {
      YearLength(y);
      MonthTotals(y);
    }
  }

  // ---------------------------------------------------------------------
  // The Date constructor.

  /** `new Date(y, ...)` reads a year argument from 0 to 99 as 1900 to 1999. */
  function FullYear(y: int): (r: int)
    ensures 0 <= y <= 99 ==> r == 1900 + y
    ensures !(0 <= y <= 99) ==> r == y
  {
    if 0 <= y <= 99 then 1900 + y else y
  }

  /** Day `d` (at least 1) counted from the first of month (y, m), carried into later months. */
  function CarryForward(y: int, m: int, d: int): (r: Date)
    requires 0 <= m < 12 && d >= 1
    ensures ValidDate(r) && r.msOfDay == 0
    decreases d
  {
    if d <= DaysInMonth(y, m) then Date(y, m, d, 0)
    else
      var (ny, nm) := NextMonth(y, m);
      CarryForward(ny, nm, d - DaysInMonth(y, m))
  }

  /** Carrying forward lands `d - 1` days after the first of the month. */
  lemma {:induction false} CarryForwardDayNumber(y: int, m: int, d: int)
    requires 0 <= m < 12 && d >= 1
    ensures DayNumber(CarryForward(y, m, d)) == DayNumber(Date(y, m, 1, 0)) + d - 1
    decreases d
  {
    if d > DaysInMonth(y, m) {
      var (ny, nm) := NextMonth(y, m);
      NextMonthDayNumber(y, m);
      CarryForwardDayNumber(ny, nm, d - DaysInMonth(y, m));
    }
  }

  /** Day `d` (at most 0) counted from the first of month (y, m), borrowed from earlier months. */
  function BorrowBackward(y: int, m: int, d: int): (r: Date)
    requires 0 <= m < 12 && d <= 0
    ensures ValidDate(r) && r.msOfDay == 0
    decreases -d
  {
    var (py, pm) := PrevMonth(y, m);
    var d' := d + DaysInMonth(py, pm);
    if d' >= 1 then Date(py, pm, d', 0) else BorrowBackward(py, pm, d')
  }

  /** Borrowing backward lands `1 - d` days before the first of the month. */
  lemma {:induction false} BorrowBackwardDayNumber(y: int, m: int, d: int)
    requires 0 <= m < 12 && d <= 0
    ensures DayNumber(BorrowBackward(y, m, d)) == DayNumber(Date(y, m, 1, 0)) + d - 1
    decreases -d
  {
    var (py, pm) := PrevMonth(y, m);
    NextMonthDayNumber(py, pm);
    assert NextMonth(py, pm) == (y, m);
    var d' := d + DaysInMonth(py, pm);
    if d' < 1 {
      BorrowBackwardDayNumber(py, pm, d');
    }
  }

  /**
   * `new Date(y, m, d)`: midnight of day `d` counted from the first of month
   * `m` of year `FullYear(y)`, with months and days overflowing into the
   * neighbouring years and months.
   */
  function MakeDate(y: int, m: int, d: int): (r: Date)
    ensures ValidDate(r) && r.msOfDay == 0
  {
    var year := FullYear(y) + m / 12;
    if d >= 1 then CarryForward(year, m % 12, d) else BorrowBackward(year, m % 12, d)
  }

  /**
   * Where `new Date(y, m, d)` lands: `d - 1` days after the first of month
   * `m % 12` of year `FullYear(y) + m / 12` (before it when `d` is below 1).
   */
  lemma MakeDateDayNumber(y: int, m: int, d: int)
    ensures DayNumber(MakeDate(y, m, d)) == DayNumber(Date(FullYear(y) + m / 12, m % 12, 1, 0)) + d - 1
  {
    if d >= 1 {
      CarryForwardDayNumber(FullYear(y) + m / 12, m % 12, d);
    } else {
      BorrowBackwardDayNumber(FullYear(y) + m / 12, m % 12, d);
    }
  }

  /** Two valid dates with the same day number are the same calendar day. */
  lemma {:induction false} DayNumberInjective(a: Date, b: Date)
    requires ValidDate(a) && ValidDate(b) && DayNumber(a) == DayNumber(b)
    ensures a.year == b.year && a.month == b.month && a.day == b.day
  {
    DaysBeforeMonthBounds(a.year, a.month);
    DaysBeforeMonthBounds(b.year, b.month);
    DaysBeforeMonthGrows(a.year, 0, a.month);
    DaysBeforeMonthGrows(b.year, 0, b.month);
    if a.year < b.year {
      YearsApart(a.year, b.year);
      assert false;
    } else if b.year < a.year {
      YearsApart(b.year, a.year);
      assert false;
    }
    if a.month < b.month {
      DaysBeforeMonthGrows(a.year, a.month + 1, b.month);
      assert false;
    } else if b.month < a.month {
      DaysBeforeMonthGrows(a.year, b.month + 1, a.month);
      assert false;
    }
  }

  lemma {:induction false} DaysBeforeMonthBounds(y: int, m: int)
    requires 0 <= m < 12
    ensures DaysBeforeMonth(y, m) + DaysInMonth(y, m) <= DaysBeforeMonth(y, 12)
  {
    DaysBeforeMonthGrows(y, m + 1, 12);
  }

  lemma {:induction false} DaysBeforeMonthGrows(y: int, i: int, j: int)
    requires 0 <= i <= j <= 12
    ensures DaysBeforeMonth(y, i) <= DaysBeforeMonth(y, j)
    decreases j - i
  {
    if i < j {
      DaysBeforeMonthGrows(y, i, j - 1);
    }
  }

  /** A later year starts after every day of an earlier one. */
  lemma {:induction false} YearsApart(a: int, b: int)
    requires a < b
    ensures DaysBeforeYear(a) + DaysBeforeMonth(a, 12) <= DaysBeforeYear(b)
    decreases b - a
  {
    YearLength(a);
    if a + 1 < b {
      YearsApart(a + 1, b);
      YearLength(a + 1);
    }
  }

  // ---------------------------------------------------------------------
  // src/js/dates.js

  /** `getFirstDayOfMonth(date)`. */
  function GetFirstDayOfMonth(date: Date): (r: Date)
    requires ValidDate(date)
    ensures ValidDate(r) && r.year == FullYear(date.year) && r.month == date.month && r.day == 1
  {
    MakeDate(date.year, date.month, 1)
  }

  /** `getLastDayOfMonth(date)`: day 0 of the next month. */
  function GetLastDayOfMonth(date: Date): (r: Date)
    requires ValidDate(date)
    ensures ValidDate(r) && r.year == FullYear(date.year) && r.month == date.month
    ensures r.day == DaysInMonth(r.year, r.month)
    ensures 28 <= r.day <= 31
    ensures r.month == 1 ==> (r.day == 29 <==> IsLeapYear(r.year))
  {
    var r := MakeDate(date.year, date.month + 1, 0);
    DayZeroOfNextMonth(date.year, date.month);
    DaysInMonthRange(r.year, r.month);
    r
  }

  /** `new Date(y, m + 1, 0)` is the last day of month `m` of year `FullYear(y)`. */
  lemma DayZeroOfNextMonth(y: int, m: int)
    requires 0 <= m < 12
    ensures var r := MakeDate(y, m + 1, 0);
      r.year == FullYear(y) && r.month == m && r.day == DaysInMonth(r.year, m)
  {
    MakeDateDayNumber(y, m + 1, 0);
    LastDayIsDayZeroOfNext(FullYear(y), m, MakeDate(y, m + 1, 0));
  }

  lemma DaysInMonthRange(y: int, m: int)
    requires 0 <= m < 12
    ensures 28 <= DaysInMonth(y, m) <= 31
    ensures m == 1 ==> (DaysInMonth(y, m) == 29 <==> IsLeapYear(y))
  {
  }

  lemma LastDayIsDayZeroOfNext(y: int, m: int, r: Date)
    requires 0 <= m < 12 && ValidDate(r)
    requires DayNumber(r) == DayNumber(Date(y + (m + 1) / 12, (m + 1) % 12, 1, 0)) - 1
    ensures r.year == y && r.month == m && r.day == DaysInMonth(y, m)
  {
    NextMonthDayNumber(y, m);
    var last := Date(y, m, DaysInMonth(y, m), 0);
    DayNumberInjective(r, last);
  }

  /** `isSameDay(a, b)`: same year, month and day of the month. */
  predicate IsSameDay(a: Date, b: Date)
  {
    a.day == b.day && a.month == b.month && a.year == b.year
  }

  /** Two valid dates are the same day exactly when only their time of day may differ. */
  lemma IsSameDayIgnoresTime(a: Date, b: Date)
    ensures IsSameDay(a, b) <==> a.(msOfDay := 0) == b.(msOfDay := 0)
  {
  }

  lemma IsSameDayEquivalence(a: Date, b: Date, c: Date)
    ensures IsSameDay(a, a)
    ensures IsSameDay(a, b) ==> IsSameDay(b, a)
    ensures IsSameDay(a, b) && IsSameDay(b, c) ==> IsSameDay(a, c)
  {
  }
}
