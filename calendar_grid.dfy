/**
 * The month grid `updateCalendarDays` builds (src/stores/calendar.js), as a
 * function on values: the leading days of the previous month, every day of the
 * displayed month, then the trailing days of the next month, each with the
 * events of the day. The lemmas state its shape: whole weeks starting on a
 * Sunday, the days of the month numbered 1 to n, and at most one "today".
 *
 * `year` and `month` are `currentDate.getFullYear()` and `getMonth()`; the
 * grid's dates are built with `new Date(year, month + k, day)`, so a year from
 * 0 to 99 is read as 1900 to 1999, as the Date constructor does.
 */
module CalendarGrid {
  import opened JsDates
  import opened CalendarEvents

  /** One entry of `calendarDays`. */
  datatype CalendarDay = CalendarDay(
    day: int,
    currentMonth: bool,
    date: Date,
    hasEvents: bool,
    events: seq<Event>,
    isToday: bool)

  /** The record pushed for a day: `hasEvents` is `events.length > 0`. */
  function MakeDay(day: int, currentMonth: bool, date: Date, events: seq<Event>, isToday: bool): CalendarDay
  {
    CalendarDay(day, currentMonth, date, |events| > 0, events, isToday)
  }

  /** `firstDay.getDay()`: the number of leading days. */
  function FirstWeekday(year: int, month: int): int
  {
    Weekday(MakeDate(year, month, 1))
  }

  /** `new Date(year, month, 0).getDate()`. */
  function PrevMonthLastDay(year: int, month: int): int
  {
    MakeDate(year, month, 0).day
  }

  /** `lastDay.getDate()` with `lastDay = new Date(year, month + 1, 0)`. */
  function MonthLength(year: int, month: int): int
  {
    MakeDate(year, month + 1, 0).day
  }

  /** `6 - lastDay.getDay()`: the number of trailing days. */
  function TrailingCount(year: int, month: int): int
  {
    6 - Weekday(MakeDate(year, month + 1, 0))
  }

  /** The `k`-th leading day (from 0): day `prevMonthLastDay - i` for `i = firstDayOfWeek - 1 - k`. */
  function LeadingDay(year: int, month: int, cands: seq<Entry>, k: int): CalendarDay
  {
    var dayNum := PrevMonthLastDay(year, month) - (FirstWeekday(year, month) - 1 - k);
    var date := MakeDate(year, month - 1, dayNum);
    MakeDay(dayNum, false, date, DayEvents(cands, DayKey(date)), false)
  }

  /** Day `i` (from 1) of the displayed month. */
  function MonthDay(year: int, month: int, cands: seq<Entry>, today: Date, i: int): CalendarDay
  {
    var date := MakeDate(year, month, i);
    MakeDay(i, true, date, DayEvents(cands, DayKey(date)), IsSameDay(date, today))
  }

  /** Day `i` (from 1) of the next month. */
  function TrailingDay(year: int, month: int, cands: seq<Entry>, i: int): CalendarDay
  {
    var date := MakeDate(year, month + 1, i);
    MakeDay(i, false, date, DayEvents(cands, DayKey(date)), false)
  }

  function LeadingDays(year: int, month: int, cands: seq<Entry>): seq<CalendarDay>
  {
    seq(FirstWeekday(year, month), k => LeadingDay(year, month, cands, k))
  }

  function MonthDays(year: int, month: int, cands: seq<Entry>, today: Date): seq<CalendarDay>
  {
    seq(MonthLength(year, month), k => MonthDay(year, month, cands, today, k + 1))
  }

  function TrailingDays(year: int, month: int, cands: seq<Entry>): seq<CalendarDay>
  {
    seq(if TrailingCount(year, month) >= 0 then TrailingCount(year, month) else 0,
      k => TrailingDay(year, month, cands, k + 1))
  }

  /** `calendarDays` after `updateCalendarDays` for month (`year`, `month`). */
  function Grid(year: int, month: int, today: Date, entries: seq<Entry>): seq<CalendarDay>
  {
    var cands := Candidates(entries, year, month);
    LeadingDays(year, month, cands) + MonthDays(year, month, cands, today) + TrailingDays(year, month, cands)
  }

  lemma LeadingDaysAt(year: int, month: int, cands: seq<Entry>, k: int)
    requires 0 <= k < FirstWeekday(year, month)
    ensures LeadingDays(year, month, cands)[k] == LeadingDay(year, month, cands, k)
  {
  }

  lemma MonthDaysAt(year: int, month: int, cands: seq<Entry>, today: Date, i: int)
    requires 1 <= i <= MonthLength(year, month)
    ensures MonthDays(year, month, cands, today)[i - 1] == MonthDay(year, month, cands, today, i)
  {
  }

  lemma TrailingDaysAt(year: int, month: int, cands: seq<Entry>, i: int)
    requires 1 <= i <= TrailingCount(year, month)
    ensures TrailingDays(year, month, cands)[i - 1] == TrailingDay(year, month, cands, i)
  {
  }

  // ---------------------------------------------------------------------
  // Where the Date constructor lands

  /** Day `d` of month `m` of year `y`, when it exists, is exactly where `MakeDate` lands. */
  lemma LandsOn(r: Date, y: int, m: int, d: int)
    requires ValidDate(r) && r.msOfDay == 0
    requires 0 <= m < 12 && 1 <= d <= DaysInMonth(y, m)
    requires DayNumber(r) == DayNumber(Date(y, m, 1, 0)) + d - 1
    ensures r == Date(y, m, d, 0)
  {
    DayNumberInjective(r, Date(y, m, d, 0));
  }

  lemma DayOfMonth(year: int, month: int, i: int)
    requires 0 <= month < 12 && 1 <= i <= DaysInMonth(FullYear(year), month)
    ensures MakeDate(year, month, i) == Date(FullYear(year), month, i, 0)
  {
    var r := MakeDate(year, month, i);
    MakeDateDayNumber(year, month, i);
    assert month / 12 == 0 && month % 12 == month;
    assert DayNumber(r) == DayNumber(Date(FullYear(year), month, 1, 0)) + i - 1;
    LandsOn(r, FullYear(year), month, i);
  }

  lemma DayOfPrevMonth(year: int, month: int, d: int)
    requires 0 <= month < 12
    requires var (py, pm) := PrevMonth(FullYear(year), month); 1 <= d <= DaysInMonth(py, pm)
    ensures var (py, pm) := PrevMonth(FullYear(year), month); MakeDate(year, month - 1, d) == Date(py, pm, d, 0)
  {
    var y := FullYear(year);
    var (py, pm) := PrevMonth(y, month);
    var r := MakeDate(year, month - 1, d);
    MakeDateDayNumber(year, month - 1, d);
    assert DayNumber(r) == DayNumber(Date(y + (month - 1) / 12, (month - 1) % 12, 1, 0)) + d - 1;
    PrevMonthArithmetic(y, month);
    LandsOn(r, py, pm, d);
  }

  /** The month before, as the Date constructor's month arithmetic finds it. */
  lemma PrevMonthArithmetic(y: int, month: int)
    requires 0 <= month < 12
    ensures PrevMonth(y, month) == (y + (month - 1) / 12, (month - 1) % 12)
  {
    if month == 0 {
      assert (month - 1) / 12 == -1 && (month - 1) % 12 == 11;
    } else {
      assert (month - 1) / 12 == 0 && (month - 1) % 12 == month - 1;
    }
  }

  /** The month after, as the Date constructor's month arithmetic finds it. */
  lemma NextMonthArithmetic(y: int, month: int)
    requires 0 <= month < 12
    ensures NextMonth(y, month) == (y + (month + 1) / 12, (month + 1) % 12)
  {
    if month == 11 {
      assert (month + 1) / 12 == 1 && (month + 1) % 12 == 0;
    } else {
      assert (month + 1) / 12 == 0 && (month + 1) % 12 == month + 1;
    }
  }

  lemma DayOfNextMonth(year: int, month: int, d: int)
    requires 0 <= month < 12
    requires var (ny, nm) := NextMonth(FullYear(year), month); 1 <= d <= DaysInMonth(ny, nm)
    ensures var (ny, nm) := NextMonth(FullYear(year), month); MakeDate(year, month + 1, d) == Date(ny, nm, d, 0)
  {
    var y := FullYear(year);
    var (ny, nm) := NextMonth(y, month);
    var r := MakeDate(year, month + 1, d);
    MakeDateDayNumber(year, month + 1, d);
    assert DayNumber(r) == DayNumber(Date(y + (month + 1) / 12, (month + 1) % 12, 1, 0)) + d - 1;
    NextMonthArithmetic(y, month);
    LandsOn(r, ny, nm, d);
  }

  /** `lastDay.getDate()` is the length of the month. */
  lemma MonthLengthIsDaysInMonth(year: int, month: int)
    requires 0 <= month < 12
    ensures MonthLength(year, month) == DaysInMonth(FullYear(year), month)
    ensures MakeDate(year, month + 1, 0) == Date(FullYear(year), month, DaysInMonth(FullYear(year), month), 0)
  {
    var last := MakeDate(year, month + 1, 0);
    MakeDateDayNumber(year, month + 1, 0);
    LastDayIsDayZeroOfNext(FullYear(year), month, last);
  }

  /** `new Date(year, month, 0)` is the last day of the month before. */
  lemma PrevMonthLastDayFacts(year: int, month: int)
    requires 0 <= month < 12
    ensures var (py, pm) := PrevMonth(FullYear(year), month);
      && PrevMonthLastDay(year, month) == DaysInMonth(py, pm)
      && DayNumber(Date(py, pm, 1, 0)) + DaysInMonth(py, pm) == DayNumber(Date(FullYear(year), month, 1, 0))
  {
    var y := FullYear(year);
    var (py, pm) := PrevMonth(y, month);
    NextMonthDayNumber(py, pm);
    assert NextMonth(py, pm) == (y, month);
    var r := MakeDate(year, month, 0);
    MakeDateDayNumber(year, month, 0);
    assert month / 12 == 0 && month % 12 == month;
    assert DayNumber(r) == DayNumber(Date(y, month, 1, 0)) - 1;
    LandsOn(r, py, pm, DaysInMonth(py, pm));
  }

  // ---------------------------------------------------------------------
  // The days of each part

  /** The leading days are the last `FirstWeekday` days of the previous month, in order. */
  lemma LeadingDaysFacts(year: int, month: int, cands: seq<Entry>)
    requires 0 <= month < 12
    ensures var days := LeadingDays(year, month, cands);
      var (py, pm) := PrevMonth(FullYear(year), month);
      var w := FirstWeekday(year, month);
      forall k :: 0 <= k < |days| ==>
        && days[k].day == DaysInMonth(py, pm) - w + 1 + k
        && days[k].date == Date(py, pm, days[k].day, 0)
        && !days[k].currentMonth && !days[k].isToday
  {
    PrevMonthLastDayFacts(year, month);
    var (py, pm) := PrevMonth(FullYear(year), month);
    var w := FirstWeekday(year, month);
    forall k | 0 <= k < w
      ensures LeadingDay(year, month, cands, k).date == Date(py, pm, DaysInMonth(py, pm) - w + 1 + k, 0)
    {
      DayOfPrevMonth(year, month, DaysInMonth(py, pm) - w + 1 + k);
    }
  }

  lemma MonthDaysFacts(year: int, month: int, cands: seq<Entry>, today: Date)
    requires 0 <= month < 12
    ensures var days := MonthDays(year, month, cands, today);
      && |days| == DaysInMonth(FullYear(year), month)
      && forall k :: 0 <= k < |days| ==>
        && days[k].day == k + 1
        && days[k].date == Date(FullYear(year), month, k + 1, 0)
        && days[k].currentMonth
        && (days[k].isToday <==> IsSameDay(days[k].date, today))
  {
    MonthLengthIsDaysInMonth(year, month);
    forall i | 1 <= i <= MonthLength(year, month)
      ensures MonthDay(year, month, cands, today, i).date == Date(FullYear(year), month, i, 0)
    {
      DayOfMonth(year, month, i);
    }
  }

  lemma TrailingDaysFacts(year: int, month: int, cands: seq<Entry>)
    requires 0 <= month < 12
    ensures var days := TrailingDays(year, month, cands);
      var (ny, nm) := NextMonth(FullYear(year), month);
      forall k :: 0 <= k < |days| ==>
        && days[k].day == k + 1
        && days[k].date == Date(ny, nm, k + 1, 0)
        && !days[k].currentMonth && !days[k].isToday
  {
    var (ny, nm) := NextMonth(FullYear(year), month);
    var days := TrailingDays(year, month, cands);
    assert |days| <= 7;
    forall i | 1 <= i <= |days|
      ensures TrailingDay(year, month, cands, i).date == Date(ny, nm, i, 0)
    {
      DayOfNextMonth(year, month, i);
    }
  }

  // ---------------------------------------------------------------------
  // The whole grid

  /** The first of the displayed month, as the grid's dates see it. */
  function MonthStart(year: int, month: int): Date
  {
    Date(FullYear(year), month, 1, 0)
  }

  /** The number of trailing days, never negative. */
  lemma TrailingCountBounds(year: int, month: int)
    ensures 0 <= TrailingCount(year, month) <= 6
  {
  }

  /** The grid is its three parts, of `FirstWeekday`, `MonthLength` and `TrailingCount` days. */
  lemma GridParts(year: int, month: int, today: Date, entries: seq<Entry>)
    ensures var cands := Candidates(entries, year, month);
      var l, m, t := LeadingDays(year, month, cands), MonthDays(year, month, cands, today), TrailingDays(year, month, cands);
      && Grid(year, month, today, entries) == l + m + t
      && |l| == FirstWeekday(year, month)
      && |m| == MonthLength(year, month)
      && |t| == TrailingCount(year, month)
  {
    TrailingCountBounds(year, month);
  }

  // ---------------------------------------------------------------------
  // Facts about any run of days

  /** The dates of `days` are consecutive, the first with day number `s`. */
  predicate ConsecutiveFrom(days: seq<CalendarDay>, s: int)
  {
    forall k :: 0 <= k < |days| ==> 0 <= days[k].date.month < 12 && DayNumber(days[k].date) == s + k
  }

  lemma ConsecutiveConcat(a: seq<CalendarDay>, b: seq<CalendarDay>, s: int)
    requires ConsecutiveFrom(a, s) && ConsecutiveFrom(b, s + |a|)
    ensures ConsecutiveFrom(a + b, s)
  {
    forall k | 0 <= k < |a + b|
      ensures 0 <= (a + b)[k].date.month < 12 && DayNumber((a + b)[k].date) == s + k
    {
      if k >= |a| {
        assert (a + b)[k] == b[k - |a|];
      }
    }
  }

  lemma ConsecutiveConcat3(l: seq<CalendarDay>, m: seq<CalendarDay>, t: seq<CalendarDay>, s: int)
    requires ConsecutiveFrom(l, s) && ConsecutiveFrom(m, s + |l|) && ConsecutiveFrom(t, s + |l| + |m|)
    ensures ConsecutiveFrom(l + m + t, s)
  {
    ConsecutiveConcat(l, m, s);
    ConsecutiveConcat(l + m, t, s);
  }

  lemma {:induction false} AddMultipleOfSeven(q: int, k: int)
    ensures (7 * q + k) % 7 == k % 7
  {
  }

  /** Days that start on a Sunday fall in the column of their position. */
  lemma ConsecutiveWeekdays(days: seq<CalendarDay>, q: int)
    requires ConsecutiveFrom(days, 7 * q)
    ensures forall k :: 0 <= k < |days| ==> Weekday(days[k].date) == k % 7
  {
    forall k | 0 <= k < |days|
      ensures Weekday(days[k].date) == k % 7
    {
      AddMultipleOfSeven(q, k);
    }
  }

  /**
   * The arithmetic of the layout: `w` leading days (the weekday of the first),
   * `n` days of the month and `6 - weekday(last)` trailing days fill whole weeks.
   */
  lemma {:induction false} WeekArithmetic(start: int, n: int)
    requires 28 <= n <= 31
    ensures var w, t := start % 7, 6 - (start + n - 1) % 7;
      && (w + n + t) % 7 == 0
      && 28 <= w + n + t <= 42
  {
    var q, w := start / 7, start % 7;
    assert start == 7 * q + w;
    AddMultipleOfSeven(q, w + n - 1);
    var x := w + n - 1;
    assert 27 <= x <= 36;
    assert x == 7 * (x / 7) + x % 7;
    assert 3 <= x / 7 <= 5;
    assert w + n + 6 - x % 7 == 7 * (x / 7) + 7;
  }

  /** The days of `l + m + t` flagged `currentMonth` are exactly those of `m`. */
  lemma CurrentMonthConcat(l: seq<CalendarDay>, m: seq<CalendarDay>, t: seq<CalendarDay>)
    requires forall k :: 0 <= k < |l| ==> !l[k].currentMonth
    requires forall k :: 0 <= k < |m| ==> m[k].currentMonth
    requires forall k :: 0 <= k < |t| ==> !t[k].currentMonth
    ensures forall k :: 0 <= k < |l + m + t| ==>
      ((l + m + t)[k].currentMonth <==> |l| <= k < |l| + |m|)
    ensures forall k :: |l| <= k < |l| + |m| ==> (l + m + t)[k] == m[k - |l|]
  {
    forall k | 0 <= k < |l + m + t|
      ensures (l + m + t)[k].currentMonth <==> |l| <= k < |l| + |m|
    {
      if k < |l| {
        assert (l + m + t)[k] == l[k];
      } else if k < |l| + |m| {
        assert (l + m + t)[k] == m[k - |l|];
      } else {
        assert (l + m + t)[k] == t[k - |l| - |m|];
      }
    }
  }

  // ---------------------------------------------------------------------
  // The grid's dates

  lemma LeadingDaysPositions(year: int, month: int, cands: seq<Entry>)
    requires 0 <= month < 12
    ensures var l := LeadingDays(year, month, cands);
      ConsecutiveFrom(l, DayNumber(MonthStart(year, month)) - |l|)
  {
    var (py, pm) := PrevMonth(FullYear(year), month);
    PrevMonthLastDayFacts(year, month);
    LeadingDaysFacts(year, month, cands);
  }

  lemma MonthDaysPositions(year: int, month: int, cands: seq<Entry>, today: Date)
    requires 0 <= month < 12
    ensures ConsecutiveFrom(MonthDays(year, month, cands, today), DayNumber(MonthStart(year, month)))
  {
    MonthDaysFacts(year, month, cands, today);
  }

  lemma TrailingDaysPositions(year: int, month: int, cands: seq<Entry>)
    requires 0 <= month < 12
    ensures ConsecutiveFrom(TrailingDays(year, month, cands),
      DayNumber(MonthStart(year, month)) + MonthLength(year, month))
  {
    MonthLengthIsDaysInMonth(year, month);
    NextMonthDayNumber(FullYear(year), month);
    TrailingDaysFacts(year, month, cands);
  }

  /** The month's first falls in column `FirstWeekday`. */
  lemma FirstWeekdayOfStart(year: int, month: int)
    requires 0 <= month < 12
    ensures FirstWeekday(year, month) == DayNumber(MonthStart(year, month)) % 7
  {
    DayOfMonth(year, month, 1);
  }

  /** The grid's dates are consecutive days, and the month's first falls in column `FirstWeekday`. */
  lemma GridDayNumbers(year: int, month: int, today: Date, entries: seq<Entry>)
    requires 0 <= month < 12
    ensures FirstWeekday(year, month) == Weekday(MonthStart(year, month))
    ensures ConsecutiveFrom(Grid(year, month, today, entries),
      DayNumber(MonthStart(year, month)) - FirstWeekday(year, month))
  {
    var cands := Candidates(entries, year, month);
    var l, m, t := LeadingDays(year, month, cands), MonthDays(year, month, cands, today), TrailingDays(year, month, cands);
    var start := DayNumber(MonthStart(year, month));
    GridParts(year, month, today, entries);
    FirstWeekdayOfStart(year, month);
    LeadingDaysPositions(year, month, cands);
    MonthDaysPositions(year, month, cands, today);
    TrailingDaysPositions(year, month, cands);
    ConsecutiveConcat3(l, m, t, start - |l|);
  }

  /** Column `k % 7` of the grid is weekday `k % 7`: every row runs from Sunday to Saturday. */
  lemma GridWeekdays(year: int, month: int, today: Date, entries: seq<Entry>)
    requires 0 <= month < 12
    ensures var g := Grid(year, month, today, entries);
      forall k :: 0 <= k < |g| ==> 0 <= g[k].date.month < 12 && Weekday(g[k].date) == k % 7
  {
    var start := DayNumber(MonthStart(year, month));
    GridDayNumbers(year, month, today, entries);
    FirstWeekdayOfStart(year, month);
    assert start - start % 7 == 7 * (start / 7);
    ConsecutiveWeekdays(Grid(year, month, today, entries), start / 7);
  }

  /** The grid is whole weeks: four, five or six of them. */
  lemma GridShape(year: int, month: int, today: Date, entries: seq<Entry>)
    requires 0 <= month < 12
    ensures var g := Grid(year, month, today, entries);
      && |g| == FirstWeekday(year, month) + DaysInMonth(FullYear(year), month) + TrailingCount(year, month)
      && |g| % 7 == 0
      && 28 <= |g| <= 42
  {
    var n := MonthLength(year, month);
    var start := DayNumber(MonthStart(year, month));
    GridParts(year, month, today, entries);
    FirstWeekdayOfStart(year, month);
    MonthLengthIsDaysInMonth(year, month);
    var last := MakeDate(year, month + 1, 0);
    assert DayNumber(last) == start + n - 1;
    assert TrailingCount(year, month) == 6 - (start + n - 1) % 7;
    WeekArithmetic(start, n);
  }

  /** `calendarDays.filter((d) => d.currentMonth).length`. */
  function CountCurrentMonth(days: seq<CalendarDay>): nat
  {
    if days == [] then 0
    else CountCurrentMonth(days[..|days| - 1]) + (if days[|days| - 1].currentMonth then 1 else 0)
  }

  lemma {:induction false} CountCurrentMonthRange(days: seq<CalendarDay>, lo: int, hi: int)
    requires 0 <= lo <= hi <= |days|
    requires forall k :: 0 <= k < |days| ==> (days[k].currentMonth <==> lo <= k < hi)
    ensures CountCurrentMonth(days) == hi - lo
  {
    if days != [] {
      var init := days[..|days| - 1];
      assert forall k :: 0 <= k < |init| ==> init[k] == days[k];
      if hi == |days| && lo < hi {
        CountCurrentMonthRange(init, lo, hi - 1);
      } else if hi == |days| {
        CountCurrentMonthRange(init, |init|, |init|);
      } else {
        CountCurrentMonthRange(init, lo, hi);
      }
    }
  }

  /** Exactly the days after the leading ones, `DaysInMonth` of them, are marked `currentMonth`. */
  lemma GridCurrentMonth(year: int, month: int, today: Date, entries: seq<Entry>)
    requires 0 <= month < 12
    ensures var g := Grid(year, month, today, entries);
      var w, n := FirstWeekday(year, month), DaysInMonth(FullYear(year), month);
      && (forall k :: 0 <= k < |g| ==> (g[k].currentMonth <==> w <= k < w + n))
      && CountCurrentMonth(g) == n
  {
    var cands := Candidates(entries, year, month);
    var l, m, t := LeadingDays(year, month, cands), MonthDays(year, month, cands, today), TrailingDays(year, month, cands);
    GridParts(year, month, today, entries);
    LeadingDaysFacts(year, month, cands);
    MonthDaysFacts(year, month, cands, today);
    TrailingDaysFacts(year, month, cands);
    CurrentMonthConcat(l, m, t);
    CountCurrentMonthRange(l + m + t, |l|, |l| + |m|);
  }

  /** The current-month days are numbered 1 to `DaysInMonth` in order, and today is marked among them. */
  lemma GridMonthDays(year: int, month: int, today: Date, entries: seq<Entry>)
    requires 0 <= month < 12
    ensures var g := Grid(year, month, today, entries);
      var w, n := FirstWeekday(year, month), DaysInMonth(FullYear(year), month);
      && w + n <= |g|
      && (forall k :: w <= k < w + n ==>
            g[k].day == k - w + 1 && g[k].date == Date(FullYear(year), month, k - w + 1, 0)
            && (g[k].isToday <==> IsSameDay(g[k].date, today)))
  {
    var g := Grid(year, month, today, entries);
    var cands := Candidates(entries, year, month);
    var l, m, t := LeadingDays(year, month, cands), MonthDays(year, month, cands, today), TrailingDays(year, month, cands);
    GridParts(year, month, today, entries);
    MonthDaysFacts(year, month, cands, today);
    forall k | |l| <= k < |l| + |m|
      ensures g[k] == m[k - |l|]
    {
      MiddleIndex(l, m, t, k);
    }
  }

  lemma MiddleIndex(l: seq<CalendarDay>, m: seq<CalendarDay>, t: seq<CalendarDay>, k: int)
    requires |l| <= k < |l| + |m|
    ensures (l + m + t)[k] == m[k - |l|]
  {
  }

  /** Only a day of the displayed month can be marked today. */
  lemma GridTodayInMonth(year: int, month: int, today: Date, entries: seq<Entry>)
    requires 0 <= month < 12
    ensures var g := Grid(year, month, today, entries);
      forall k :: 0 <= k < |g| && g[k].isToday ==> g[k].currentMonth
  {
    var g := Grid(year, month, today, entries);
    var cands := Candidates(entries, year, month);
    var l, m, t := LeadingDays(year, month, cands), MonthDays(year, month, cands, today), TrailingDays(year, month, cands);
    GridParts(year, month, today, entries);
    LeadingDaysFacts(year, month, cands);
    MonthDaysFacts(year, month, cands, today);
    TrailingDaysFacts(year, month, cands);
    forall k | 0 <= k < |g|
      ensures g[k].isToday ==> g[k].currentMonth
    {
      if k < |l| {
        assert g[k] == l[k];
      } else if k < |l| + |m| {
        MiddleIndex(l, m, t, k);
      } else {
        assert g[k] == t[k - |l| - |m|];
      }
    }
  }

  /** `today` lies in the displayed month, as the grid's dates read the year. */
  predicate TodayInMonth(year: int, month: int, today: Date)
    requires 0 <= month < 12
  {
    today.year == FullYear(year) && today.month == month && 1 <= today.day <= DaysInMonth(FullYear(year), month)
  }

  /** At most one day is marked today, and one is exactly when today lies in the displayed month. */
  lemma GridToday(year: int, month: int, today: Date, entries: seq<Entry>)
    requires 0 <= month < 12
    ensures var g := Grid(year, month, today, entries);
      forall k1, k2 :: 0 <= k1 < |g| && 0 <= k2 < |g| && g[k1].isToday && g[k2].isToday ==> k1 == k2
    ensures var g := Grid(year, month, today, entries);
      (exists k :: 0 <= k < |g| && g[k].isToday) <==> TodayInMonth(year, month, today)
  {
    var g := Grid(year, month, today, entries);
    var w, n := FirstWeekday(year, month), DaysInMonth(FullYear(year), month);
    GridTodayInMonth(year, month, today, entries);
    GridCurrentMonth(year, month, today, entries);
    GridMonthDays(year, month, today, entries);
    forall k | 0 <= k < |g| && g[k].isToday
      ensures k == w + today.day - 1 && TodayInMonth(year, month, today)
    {
      assert w <= k < w + n;
    }
    if TodayInMonth(year, month, today) {
      var k := w + today.day - 1;
      assert g[k].isToday;
    }
  }

  /** A grid entry is the record of its date: the events keyed by that date, and `hasEvents` when there are any. */
  predicate RecordOf(cands: seq<Entry>, d: CalendarDay)
  {
    && ValidDate(d.date) && d.date.msOfDay == 0
    && d.events == DayEvents(cands, DayKey(d.date))
    && (d.hasEvents <==> |d.events| > 0)
  }

  lemma RecordsConcat(cands: seq<Entry>, l: seq<CalendarDay>, m: seq<CalendarDay>, t: seq<CalendarDay>)
    requires forall k :: 0 <= k < |l| ==> RecordOf(cands, l[k])
    requires forall k :: 0 <= k < |m| ==> RecordOf(cands, m[k])
    requires forall k :: 0 <= k < |t| ==> RecordOf(cands, t[k])
    ensures forall k :: 0 <= k < |l + m + t| ==> RecordOf(cands, (l + m + t)[k])
  {
    forall k | 0 <= k < |l + m + t|
      ensures RecordOf(cands, (l + m + t)[k])
    {
      if k < |l| {
        assert (l + m + t)[k] == l[k];
      } else if k < |l| + |m| {
        MiddleIndex(l, m, t, k);
      } else {
        assert (l + m + t)[k] == t[k - |l| - |m|];
      }
    }
  }

  /**
   * Every day of the grid, of whichever month, carries the events the
   * month's candidate entries put on its date.
   */
  lemma GridEvents(year: int, month: int, today: Date, entries: seq<Entry>)
    ensures var g := Grid(year, month, today, entries);
      forall k :: 0 <= k < |g| ==> RecordOf(Candidates(entries, year, month), g[k])
  {
    var cands := Candidates(entries, year, month);
    var l, m, t := LeadingDays(year, month, cands), MonthDays(year, month, cands, today), TrailingDays(year, month, cands);
    GridParts(year, month, today, entries);
    PartRecords(year, month, cands, today);
    RecordsConcat(cands, l, m, t);
  }

  lemma MakeDayRecord(cands: seq<Entry>, day: int, current: bool, date: Date, isToday: bool)
    requires ValidDate(date) && date.msOfDay == 0
    ensures RecordOf(cands, MakeDay(day, current, date, DayEvents(cands, DayKey(date)), isToday))
  {
  }

  lemma PartRecords(year: int, month: int, cands: seq<Entry>, today: Date)
    ensures var l := LeadingDays(year, month, cands);
      forall k :: 0 <= k < |l| ==> RecordOf(cands, l[k])
    ensures var m := MonthDays(year, month, cands, today);
      forall k :: 0 <= k < |m| ==> RecordOf(cands, m[k])
    ensures var t := TrailingDays(year, month, cands);
      forall k :: 0 <= k < |t| ==> RecordOf(cands, t[k])
  {
    LeadingRecords(year, month, cands);
    MonthRecords(year, month, cands, today);
    TrailingRecords(year, month, cands);
  }

  lemma LeadingRecords(year: int, month: int, cands: seq<Entry>)
    ensures var l := LeadingDays(year, month, cands);
      forall k :: 0 <= k < |l| ==> RecordOf(cands, l[k])
  {
    var l := LeadingDays(year, month, cands);
    forall k | 0 <= k < |l|
      ensures RecordOf(cands, l[k])
    {
      var dayNum := PrevMonthLastDay(year, month) - (FirstWeekday(year, month) - 1 - k);
      MakeDayRecord(cands, dayNum, false, MakeDate(year, month - 1, dayNum), false);
    }
  }

  lemma MonthRecords(year: int, month: int, cands: seq<Entry>, today: Date)
    ensures var m := MonthDays(year, month, cands, today);
      forall k :: 0 <= k < |m| ==> RecordOf(cands, m[k])
  {
    var m := MonthDays(year, month, cands, today);
    forall k | 0 <= k < |m|
      ensures RecordOf(cands, m[k])
    {
      var date := MakeDate(year, month, k + 1);
      MakeDayRecord(cands, k + 1, true, date, IsSameDay(date, today));
    }
  }

  lemma TrailingRecords(year: int, month: int, cands: seq<Entry>)
    ensures var t := TrailingDays(year, month, cands);
      forall k :: 0 <= k < |t| ==> RecordOf(cands, t[k])
  {
    var t := TrailingDays(year, month, cands);
    forall k | 0 <= k < |t|
      ensures RecordOf(cands, t[k])
    {
      MakeDayRecord(cands, k + 1, false, MakeDate(year, month + 1, k + 1), false);
    }
  }

  /**
   * For a year the Date constructor takes as written, the filter to candidate
   * entries loses nothing on the days of the month: each shows every event of
   * every entry on that date.
   */
  lemma GridMonthEvents(year: int, month: int, today: Date, entries: seq<Entry>)
    requires 0 <= month < 12 && year >= 100
    ensures var g := Grid(year, month, today, entries);
      forall k :: 0 <= k < |g| && g[k].currentMonth ==>
        ValidDate(g[k].date) && g[k].events == DayEvents(entries, DayKey(g[k].date))
  {
    var g := Grid(year, month, today, entries);
    var w, n := FirstWeekday(year, month), DaysInMonth(FullYear(year), month);
    GridEvents(year, month, today, entries);
    GridCurrentMonth(year, month, today, entries);
    GridMonthDays(year, month, today, entries);
    forall k | 0 <= k < |g| && g[k].currentMonth
      ensures ValidDate(g[k].date) && g[k].events == DayEvents(entries, DayKey(g[k].date))
    {
      assert w <= k < w + n;
      CandidatesKeepMonthDays(entries, g[k].date);
    }
  }

  lemma February2025Start()
    ensures DayNumber(MonthStart(2025, 1)) == 739283
  {
    assert FullYear(2025) == 2025;
    assert DaysBeforeYear(2025) == 739251 by {
      assert 2024 / 4 == 506 && 2024 / 100 == 20 && 2024 / 400 == 5;
    }
    assert DaysBeforeMonth(2025, 1) == 31 by {
      assert DaysBeforeMonth(2025, 0) == 0;
    }
  }

  /** February 2025 starts on a Saturday, so its grid has six leading days. */
  lemma February2025Weekday(year: int, month: int)
    requires year == 2025 && month == 1
    ensures FirstWeekday(year, month) == 6
    ensures DaysInMonth(FullYear(year), month) == 28
  {
    FirstWeekdayOfStart(year, month);
    February2025Start();
    assert 739283 % 7 == 6;
    assert FullYear(year) == 2025 && !IsLeapYear(2025);
  }

  lemma FiveWeeks(x: int)
    requires 34 <= x <= 40 && x % 7 == 0
    ensures x == 35
  {
    assert x == 7 * (x / 7);
  }

  /** The February 2025 grid: 6 leading days, 28 days of the month and one trailing day. */
  lemma February2025Example(year: int, month: int, today: Date, entries: seq<Entry>)
    requires year == 2025 && month == 1
    ensures |Grid(year, month, today, entries)| == 35
    ensures CountCurrentMonth(Grid(year, month, today, entries)) == 28
    ensures Grid(year, month, today, entries)[6].day == 1 && Grid(year, month, today, entries)[6].currentMonth
  {
    February2025Weekday(year, month);
    GridShape(year, month, today, entries);
    var len := |Grid(year, month, today, entries)|;
    FiveWeeks(len);
    GridCurrentMonth(year, month, today, entries);
    GridMonthDays(year, month, today, entries);
  }
}
