/**
 * The calendar store (src/stores/calendar.js): `updateCalendarDays`, which
 * fills `calendarDays` in three counting loops; the debit and credit totals,
 * which fold the display amounts of the current month's events; and month
 * navigation over `currentDate`, `calendarVersion` and `calendarDays`.
 *
 * The awaited fetches of the events store are left out: navigation takes the
 * entries the events store would hold (`monthlyEvents`) and "today" as
 * parameters, and runs sequentially.
 */
module CalendarStore {
  import opened Wrappers
  import opened JsDates
  import opened CalendarEvents
  import opened CalendarGrid

  /**
   * `updateCalendarDays` without its inputs' plumbing: the candidate filter,
   * then the three loops that push the leading days, the days of the month
   * and the trailing days.
   */
  method BuildCalendarDays(year: int, month: int, today: Date, entries: seq<Entry>) returns (days: seq<CalendarDay>)
    ensures days == Grid(year, month, today, entries)
  {
    var cands := Candidates(entries, year, month);
    var leading := PushLeadingDays(year, month, cands);
    var current := PushMonthDays(year, month, cands, today);
    var trailing := PushTrailingDays(year, month, cands);
    days := leading + current + trailing;
  }

  /** The first loop: `i` from `firstDayOfWeek - 1` down to 0, day `prevMonthLastDay - i` of the month before. */
  method PushLeadingDays(year: int, month: int, cands: seq<Entry>) returns (days: seq<CalendarDay>)
    ensures days == LeadingDays(year, month, cands)
  {
    var firstDayOfWeek := FirstWeekday(year, month);
    var prevMonthLastDay := PrevMonthLastDay(year, month);
    ghost var l := LeadingDays(year, month, cands);
    assert |l| == firstDayOfWeek;
    days := [];
    var i := firstDayOfWeek - 1;
    while i >= 0
      invariant -1 <= i < firstDayOfWeek
      invariant days == l[..firstDayOfWeek - 1 - i]
      decreases i + 1
    {
      var dayNum := prevMonthLastDay - i;
      var date := MakeDate(year, month - 1, dayNum);
      var events := CollectDayEvents(cands, date);
      ghost var k := firstDayOfWeek - 1 - i;
      LeadingDaysAt(year, month, cands, k);
      LeadingDayIs(year, month, cands, k, dayNum, date, events);
      PrefixStep(l, days, k, MakeDay(dayNum, false, date, events, false));
      days := days + [MakeDay(dayNum, false, date, events, false)];
      i := i - 1;
    }
    assert l[..|l|] == l;
  }

  /** One loop step: pushing the next element of `s` onto its prefix gives the longer prefix. */
  lemma PrefixStep(s: seq<CalendarDay>, days: seq<CalendarDay>, k: int, x: CalendarDay)
    requires 0 <= k < |s| && days == s[..k] && s[k] == x
    ensures days + [x] == s[..k + 1]
  {
  }

  lemma LeadingDayIs(year: int, month: int, cands: seq<Entry>, k: int, dayNum: int, date: Date, events: seq<Event>)
    requires dayNum == PrevMonthLastDay(year, month) - (FirstWeekday(year, month) - 1 - k)
    requires date == MakeDate(year, month - 1, dayNum)
    requires events == DayEvents(cands, DayKey(date))
    ensures LeadingDay(year, month, cands, k) == MakeDay(dayNum, false, date, events, false)
  {
  }

  /** The second loop: days `1..lastDay.getDate()`, flagged today on a Y/M/D match. */
  method PushMonthDays(year: int, month: int, cands: seq<Entry>, today: Date) returns (days: seq<CalendarDay>)
    ensures days == MonthDays(year, month, cands, today)
  {
    var lastDay := MakeDate(year, month + 1, 0);
    ghost var m := MonthDays(year, month, cands, today);
    assert |m| == lastDay.day;
    days := [];
    var i := 1;
    while i <= lastDay.day
      invariant 1 <= i <= lastDay.day + 1
      invariant days == m[..i - 1]
    {
      // `day.setHours(0, 0, 0, 0)`: the constructed date is already at midnight.
      var date := MakeDate(year, month, i);
      var events := CollectDayEvents(cands, date);
      MonthDaysAt(year, month, cands, today, i);
      MonthDayIs(year, month, cands, today, i, date, events);
      PrefixStep(m, days, i - 1, MakeDay(i, true, date, events, IsSameDay(date, today)));
      days := days + [MakeDay(i, true, date, events, IsSameDay(date, today))];
      i := i + 1;
    }
    assert m[..|m|] == m;
  }

  lemma MonthDayIs(year: int, month: int, cands: seq<Entry>, today: Date, i: int, date: Date, events: seq<Event>)
    requires date == MakeDate(year, month, i)
    requires events == DayEvents(cands, DayKey(date))
    ensures MonthDay(year, month, cands, today, i) == MakeDay(i, true, date, events, IsSameDay(date, today))
  {
  }

  /** The third loop: days `1..6 - lastDay.getDay()` of the month after. */
  method PushTrailingDays(year: int, month: int, cands: seq<Entry>) returns (days: seq<CalendarDay>)
    ensures days == TrailingDays(year, month, cands)
  {
    var daysToAdd := 6 - Weekday(MakeDate(year, month + 1, 0));
    ghost var t := TrailingDays(year, month, cands);
    assert |t| == daysToAdd;
    days := [];
    var i := 1;
    while i <= daysToAdd
      invariant 1 <= i <= daysToAdd + 1
      invariant days == t[..i - 1]
    {
      var date := MakeDate(year, month + 1, i);
      var events := CollectDayEvents(cands, date);
      TrailingDaysAt(year, month, cands, i);
      TrailingDayIs(year, month, cands, i, date, events);
      PrefixStep(t, days, i - 1, MakeDay(i, false, date, events, false));
      days := days + [MakeDay(i, false, date, events, false)];
      i := i + 1;
    }
    assert t[..|t|] == t;
  }

  lemma TrailingDayIs(year: int, month: int, cands: seq<Entry>, i: int, date: Date, events: seq<Event>)
    requires date == MakeDate(year, month + 1, i)
    requires events == DayEvents(cands, DayKey(date))
    ensures TrailingDay(year, month, cands, i) == MakeDay(i, false, date, events, false)
  {
  }

  // ---------------------------------------------------------------------
  // Totals

  /**
   * The amounts the total getters add for one day: for each event of type
   * `kind`, the loan rule of `getEventDisplayAmount` applied to the event record.
   */
  function EventsTotal(events: seq<Event>, kind: string): int
  {
    if events == [] then 0
    else
      var last := events[|events| - 1];
      EventsTotal(events[..|events| - 1], kind) + (if last.kind == kind then DisplayAmount(last) else 0)
  }

  /**
   * `calendarDaysDebitTotal` (`kind` "DEBIT") and `calendarDaysCreditTotal`
   * (`kind` "CREDIT"): the sum over the days with `currentMonth` and events.
   */
  function KindTotal(days: seq<CalendarDay>, kind: string): int
  {
    if days == [] then 0
    else
      var last := days[|days| - 1];
      KindTotal(days[..|days| - 1], kind)
      + (if |last.events| > 0 && last.currentMonth then EventsTotal(last.events, kind) else 0)
  }

  /** The plain sum of the `amount` fields of the events of type `kind`. */
  function AmountTotal(events: seq<Event>, kind: string): int
  {
    if events == [] then 0
    else
      var last := events[|events| - 1];
      AmountTotal(events[..|events| - 1], kind) + (if last.kind == kind then last.amount else 0)
  }

  /** The nested `forEach` loops of the total getters. */
  method SumDayEvents(days: seq<CalendarDay>, kind: string) returns (total: int)
    ensures total == KindTotal(days, kind)
  {
    total := 0;
    var i := 0;
    while i < |days|
      invariant 0 <= i <= |days|
      invariant total == KindTotal(days[..i], kind)
    {
      var day := days[i];
      assert days[..i + 1][..i] == days[..i];
      if |day.events| > 0 && day.currentMonth {
        var j := 0;
        var dayTotal := 0;
        while j < |day.events|
          invariant 0 <= j <= |day.events|
          invariant dayTotal == EventsTotal(day.events[..j], kind)
        {
          var event := day.events[j];
          assert day.events[..j + 1][..j] == day.events[..j];
          if event.kind == kind {
            dayTotal := dayTotal + DisplayAmount(event);
          }
          j := j + 1;
        }
        assert day.events[..j] == day.events;
        total := total + dayTotal;
      }
      i := i + 1;
    }
    assert days[..i] == days;
  }

  lemma {:induction false} EventsTotalAppend(a: seq<Event>, b: seq<Event>, kind: string)
    ensures EventsTotal(a + b, kind) == EventsTotal(a, kind) + EventsTotal(b, kind)
    decreases |b|
  {
    if b == [] {
      assert a + b == a;
    } else {
      assert (a + b)[..|a + b| - 1] == a + b[..|b| - 1];
      EventsTotalAppend(a, b[..|b| - 1], kind);
    }
  }

  /** The totals add up day by day: the total of two runs of days is the sum of their totals. */
  lemma {:induction false} KindTotalAppend(a: seq<CalendarDay>, b: seq<CalendarDay>, kind: string)
    ensures KindTotal(a + b, kind) == KindTotal(a, kind) + KindTotal(b, kind)
    decreases |b|
  {
    if b == [] {
      assert a + b == a;
    } else {
      assert (a + b)[..|a + b| - 1] == a + b[..|b| - 1];
      KindTotalAppend(a, b[..|b| - 1], kind);
    }
  }

  /** Days outside the displayed month add nothing, whatever events they carry. */
  lemma {:induction false} KindTotalNoCurrentMonth(days: seq<CalendarDay>, kind: string)
    requires forall k :: 0 <= k < |days| ==> !days[k].currentMonth
    ensures KindTotal(days, kind) == 0
  {
    if days != [] {
      var init := days[..|days| - 1];
      assert forall k :: 0 <= k < |init| ==> init[k] == days[k];
      KindTotalNoCurrentMonth(init, kind);
    }
  }

  /** On a built grid, the totals come from the days of the displayed month alone. */
  lemma GridTotals(year: int, month: int, today: Date, entries: seq<Entry>, kind: string)
    requires 0 <= month < 12
    ensures KindTotal(Grid(year, month, today, entries), kind)
      == KindTotal(MonthDays(year, month, Candidates(entries, year, month), today), kind)
  {
    var cands := Candidates(entries, year, month);
    var l, m, t := LeadingDays(year, month, cands), MonthDays(year, month, cands, today), TrailingDays(year, month, cands);
    GridParts(year, month, today, entries);
    LeadingDaysFacts(year, month, cands);
    TrailingDaysFacts(year, month, cands);
    KindTotalNoCurrentMonth(l, kind);
    KindTotalNoCurrentMonth(t, kind);
    KindTotalAppend(l, m, kind);
    KindTotalAppend(l + m, t, kind);
  }

  /**
   * Re-applying the loan rule to a list whose events all show their own
   * amount changes nothing: such a total is the plain sum of amounts.
   */
  lemma {:induction false} EventsTotalOfShownAmounts(events: seq<Event>, kind: string)
    requires forall k :: 0 <= k < |events| ==> DisplayAmount(events[k]) == events[k].amount
    ensures EventsTotal(events, kind) == AmountTotal(events, kind)
  {
    if events != [] {
      var init := events[..|events| - 1];
      assert forall k :: 0 <= k < |init| ==> init[k] == events[k];
      EventsTotalOfShownAmounts(init, kind);
    }
  }

  /**
   * Every event pushed onto a day is the display record of one of the
   * candidate entries' events, so it shows its own amount.
   */
  lemma {:induction false} DayEventsAreRecords(cands: seq<Entry>, key: string)
    ensures forall x :: x in DayEvents(cands, key) ==>
      (exists j :: 0 <= j < |cands| && x == ToDayEvent(cands[j].event))
    ensures forall x :: x in DayEvents(cands, key) ==> DisplayAmount(x) == x.amount
  {
    if cands != [] {
      var init, last := cands[..|cands| - 1], cands[|cands| - 1];
      DayEventsAreRecords(init, key);
      assert forall j :: 0 <= j < |init| ==> init[j] == cands[j];
      if last.occurrences.Some? {
        OccurrenceEventsMatch(OccurrenceDates(last), last.event, key);
      }
      assert DayEvents(cands, key) == DayEvents(init, key) + EntryEvents(last, key);
      forall x | x in DayEvents(cands, key)
        ensures exists j :: 0 <= j < |cands| && x == ToDayEvent(cands[j].event)
      {
        if x !in DayEvents(init, key) {
          assert x == ToDayEvent(cands[|cands| - 1].event);
        }
      }
    }
  }

  /**
   * The totals re-apply the loan rule to the pushed records, which carry no
   * monthly payment or escrow: a day's total is the plain sum of the display
   * amounts its events were given when they were pushed.
   */
  lemma DayTotalIsDisplayedAmounts(cands: seq<Entry>, key: string, kind: string)
    ensures EventsTotal(DayEvents(cands, key), kind) == AmountTotal(DayEvents(cands, key), kind)
  {
    var events := DayEvents(cands, key);
    DayEventsAreRecords(cands, key);
    forall k | 0 <= k < |events|
      ensures DisplayAmount(events[k]) == events[k].amount
    {
      assert events[k] in events;
    }
    EventsTotalOfShownAmounts(events, kind);
  }

  /** A day record with just the fields the totals read. */
  function TotalsDay(currentMonth: bool, events: seq<Event>): CalendarDay
  {
    CalendarDay(1, currentMonth, Date(2025, 0, 1, 0), |events| > 0, events, false)
  }

  function Plain(kind: string, amount: int, category: string): Event
  {
    Event(0, "", amount, kind, category, None, None, None)
  }

  /** A grid with no days totals 0. */
  lemma TotalsOfNoDays()
    ensures KindTotal([], "DEBIT") == 0 && KindTotal([], "CREDIT") == 0
  {
  }

  /** One current-month day with a debit of 100 and a credit of 50: the debit total is 100. */
  lemma DebitTotalExample()
    ensures KindTotal([TotalsDay(true, [Plain("DEBIT", 100, "GROCERY"), Plain("CREDIT", 50, "")])], "DEBIT") == 100
  {
    var events := [Plain("DEBIT", 100, "GROCERY"), Plain("CREDIT", 50, "")];
    assert events[..1] == [events[0]] && events[..1][..0] == [];
    assert EventsTotal(events, "DEBIT") == 100;
    var days := [TotalsDay(true, events)];
    assert days[..0] == [];
  }

  /** One current-month day with a credit of 200 and a debit of 50: the credit total is 200. */
  lemma CreditTotalExample()
    ensures KindTotal([TotalsDay(true, [Plain("CREDIT", 200, "PRIMARY_INCOME"), Plain("DEBIT", 50, "")])], "CREDIT") == 200
  {
    var events := [Plain("CREDIT", 200, "PRIMARY_INCOME"), Plain("DEBIT", 50, "")];
    assert events[..1] == [events[0]] && events[..1][..0] == [];
    assert EventsTotal(events, "CREDIT") == 200;
    var days := [TotalsDay(true, events)];
    assert days[..0] == [];
  }

  /** A credit of 300 on one day and a debit of 100 on another: the net flow is 200. */
  lemma NetFlowExample()
    ensures var days := [TotalsDay(true, [Plain("CREDIT", 300, "")]), TotalsDay(true, [Plain("DEBIT", 100, "")])];
      KindTotal(days, "CREDIT") - KindTotal(days, "DEBIT") == 200
  {
    var credit, debit := [Plain("CREDIT", 300, "")], [Plain("DEBIT", 100, "")];
    assert credit[..0] == [] && debit[..0] == [];
    var days := [TotalsDay(true, credit), TotalsDay(true, debit)];
    assert days[..1] == [days[0]] && days[..1][..0] == [];
  }

  /** A debit on a day outside the displayed month is not counted. */
  lemma OtherMonthNotCountedExample()
    ensures KindTotal([TotalsDay(false, [Plain("DEBIT", 100, "GROCERY")])], "DEBIT") == 0
  {
    var days := [TotalsDay(false, [Plain("DEBIT", 100, "GROCERY")])];
    assert days[..0] == [];
  }

  // ---------------------------------------------------------------------
  // Navigation

  /** Moving forward a month and back lands on the first of the month started from. */
  lemma NextThenPreviousMonth(d: Date)
    requires ValidDate(d) && d.year >= 100
    ensures var n := MakeDate(d.year, d.month + 1, 1);
      MakeDate(n.year, n.month - 1, 1) == Date(d.year, d.month, 1, 0)
  {
    var (ny, nm) := NextMonth(d.year, d.month);
    DayOfNextMonth(d.year, d.month, 1);
    var n := MakeDate(d.year, d.month + 1, 1);
    assert n == Date(ny, nm, 1, 0);
    DayOfPrevMonth(ny, nm, 1);
    assert PrevMonth(ny, nm) == (d.year, d.month);
  }

  /** Moving back a month and forward lands on the first of the month started from. */
  lemma PreviousThenNextMonth(d: Date)
    requires ValidDate(d) && d.year >= 101
    ensures var p := MakeDate(d.year, d.month - 1, 1);
      MakeDate(p.year, p.month + 1, 1) == Date(d.year, d.month, 1, 0)
  {
    var (py, pm) := PrevMonth(d.year, d.month);
    DayOfPrevMonth(d.year, d.month, 1);
    var p := MakeDate(d.year, d.month - 1, 1);
    assert p == Date(py, pm, 1, 0);
    DayOfNextMonth(py, pm, 1);
    assert NextMonth(py, pm) == (d.year, d.month);
  }

  /**
   * Going back from January of the year 100 reaches December of the year 99,
   * and going forward from there builds `new Date(99, 12, 1)`, which the Date
   * constructor reads as January 2000.
   */
  lemma Year99NavigationExample(d: Date)
    requires d == Date(100, 0, 1, 0)
    ensures var p := MakeDate(d.year, d.month - 1, 1);
      p == Date(99, 11, 1, 0) && MakeDate(p.year, p.month + 1, 1) == Date(2000, 0, 1, 0)
  {
    DayOfPrevMonth(d.year, d.month, 1);
    var p := MakeDate(d.year, d.month - 1, 1);
    assert p == Date(99, 11, 1, 0);
    DayOfNextMonth(p.year, p.month, 1);
  }

  /** The store's date, version and days. */
  class Calendar {
    var currentDate: Date
    var calendarVersion: int
    var calendarDays: seq<CalendarDay>

    /** `currentDate` holds a real calendar day and the version never goes below 0. */
    predicate Valid()
      reads this
    {
      ValidDate(currentDate) && calendarVersion >= 0
    }

    /** The initial state, with `new Date()` passed in as `now`. */
    constructor(now: Date)
      requires ValidDate(now)
      ensures Valid()
      ensures currentDate == now && calendarVersion == 0 && calendarDays == []
    {
      currentDate := now;
      calendarVersion := 0;
      calendarDays := [];
    }

    /** `updateCalendarDays()`, with the events store's entries and today's date passed in. */
    method UpdateCalendarDays(today: Date, entries: seq<Entry>)
      requires Valid()
      modifies this
      ensures Valid()
      ensures calendarDays == Grid(currentDate.year, currentDate.month, today, entries)
      ensures currentDate == old(currentDate) && calendarVersion == old(calendarVersion)
    {
      calendarDays := BuildCalendarDays(currentDate.year, currentDate.month, today, entries);
    }

    /** `previousMonth()`: the first of the month before, one version later, rebuilt. */
    method PreviousMonth(today: Date, entries: seq<Entry>)
      requires Valid()
      modifies this
      ensures Valid()
      ensures var (py, pm) := PrevMonth(FullYear(old(currentDate).year), old(currentDate).month);
        currentDate == Date(py, pm, 1, 0)
      ensures calendarVersion == old(calendarVersion) + 1
      ensures calendarDays == Grid(currentDate.year, currentDate.month, today, entries)
    {
      DayOfPrevMonth(currentDate.year, currentDate.month, 1);
      currentDate := MakeDate(currentDate.year, currentDate.month - 1, 1);
      calendarVersion := calendarVersion + 1;
      UpdateCalendarDays(today, entries);
    }

    /** `nextMonth()`: the first of the month after, one version later, rebuilt. */
    method NextMonth(today: Date, entries: seq<Entry>)
      requires Valid()
      modifies this
      ensures Valid()
      ensures var (ny, nm) := JsDates.NextMonth(FullYear(old(currentDate).year), old(currentDate).month);
        currentDate == Date(ny, nm, 1, 0)
      ensures calendarVersion == old(calendarVersion) + 1
      ensures calendarDays == Grid(currentDate.year, currentDate.month, today, entries)
    {
      DayOfNextMonth(currentDate.year, currentDate.month, 1);
      currentDate := MakeDate(currentDate.year, currentDate.month + 1, 1);
      calendarVersion := calendarVersion + 1;
      UpdateCalendarDays(today, entries);
    }

    /**
     * `setCalendarToDate(year, month, day = 1)`: `new Date(year, month, day)`,
     * one version later, rebuilt. The clock reading and the events come first
     * so that `day` can keep its default.
     */
    method SetCalendarToDate(today: Date, entries: seq<Entry>, year: int, month: int, day: int := 1)
      requires Valid()
      modifies this
      ensures Valid()
      ensures currentDate == MakeDate(year, month, day)
      ensures calendarVersion == old(calendarVersion) + 1
      ensures calendarDays == Grid(currentDate.year, currentDate.month, today, entries)
    {
      currentDate := MakeDate(year, month, day);
      calendarVersion := calendarVersion + 1;
      UpdateCalendarDays(today, entries);
    }

    /** `resetCalendar()`, with `new Date()` passed in as `now`. */
    method ResetCalendar(now: Date)
      requires ValidDate(now)
      modifies this
      ensures Valid()
      ensures currentDate == now && calendarDays == [] && calendarVersion == 0
    {
      currentDate := now;
      calendarDays := [];
      calendarVersion := 0;
    }

    /** `calendarDaysDebitTotal`. */
    method CalendarDaysDebitTotal() returns (total: int)
      ensures total == KindTotal(calendarDays, "DEBIT")
    {
      total := SumDayEvents(calendarDays, "DEBIT");
    }

    /** `calendarDaysCreditTotal`. */
    method CalendarDaysCreditTotal() returns (total: int)
      ensures total == KindTotal(calendarDays, "CREDIT")
    {
      total := SumDayEvents(calendarDays, "CREDIT");
    }

    /** `netFlow`: the credit total less the debit total. */
    method NetFlow() returns (flow: int)
      ensures flow == KindTotal(calendarDays, "CREDIT") - KindTotal(calendarDays, "DEBIT")
    {
      var credit := CalendarDaysCreditTotal();
      var debit := CalendarDaysDebitTotal();
      flow := credit - debit;
    }

    /** `savings`: the net flow times zero, so always 0. */
    method Savings() returns (savings: int)
      ensures savings == 0
    {
      var credit := CalendarDaysCreditTotal();
      var debit := CalendarDaysDebitTotal();
      savings := (credit - debit) * 0;
    }
  }
}
