/**
 * How the calendar store (src/stores/calendar.js) attaches events to days:
 * the display-amount rule for loans, the choice of occurrence dates, the
 * filter that keeps the entries occurring in the displayed month, the
 * `YYYY-MM-DD` key of a day, and the events a day receives.
 *
 * An occurrence date is a string; amounts are integers (cents).
 */
module CalendarEvents {
  import opened Wrappers
  import opened JsStrings
  import opened JsDates
  import Constants

  /** A recurring event; a missing `start_date`, `monthly_payment` or `escrow` is `None`. */
  datatype Event = Event(
    id: int,
    name: string,
    amount: int,
    kind: string,
    category: string,
    startDate: Option<string>,
    monthlyPayment: Option<int>,
    escrow: Option<int>)

  /** An `{event, occurrences}` pair; `None` when `occurrences` is missing or not an array. */
  datatype Entry = Entry(event: Event, occurrences: Option<seq<string>>)

  /** The loan categories as the calendar store lists them. */
  const CalendarLoanCategories: seq<string> := ["MORTGAGE", "GENERIC_LOAN", "AUTO_LOAN"]

  /** `x && x > 0` for an optional number. */
  predicate Positive(x: Option<int>)
  {
    x.Some? && x.value > 0
  }

  /** The calendar's list of loan categories is the constants store's. */
  lemma CalendarLoanCategoriesAgree(c: string)
    ensures c in CalendarLoanCategories <==> Constants.IsLoanCategory(c)
  {
    Constants.IsLoanCategoryExactly(c);
  }

  // ---------------------------------------------------------------------
  // Display amount

  /**
   * `getEventDisplayAmount(event)`: a loan with a positive monthly payment
   * shows that payment, plus the escrow for a mortgage with a positive
   * escrow; every other event shows its amount.
   */
  function DisplayAmount(e: Event): (r: int)
    ensures !(e.category in CalendarLoanCategories && Positive(e.monthlyPayment)) ==> r == e.amount
    ensures e.category in CalendarLoanCategories && Positive(e.monthlyPayment) ==>
      r >= e.monthlyPayment.value
      && (r == e.monthlyPayment.value <==> !(e.category == "MORTGAGE" && Positive(e.escrow)))
    ensures e.category == "MORTGAGE" && Positive(e.monthlyPayment) && Positive(e.escrow) ==>
      r == e.monthlyPayment.value + e.escrow.value
  {
    if e.category in CalendarLoanCategories && Positive(e.monthlyPayment) then
      if e.category == "MORTGAGE" && Positive(e.escrow) then e.monthlyPayment.value + e.escrow.value
      else e.monthlyPayment.value
    else e.amount
  }

  /**
   * The record pushed onto a day: the event's fields with `amount` replaced by
   * the display amount. It has no `monthly_payment` or `escrow` field.
   */
  function ToDayEvent(e: Event): (r: Event)
    ensures r.amount == DisplayAmount(e) && DisplayAmount(r) == DisplayAmount(e)
    ensures r.id == e.id && r.name == e.name && r.kind == e.kind
    ensures r.category == e.category && r.startDate == e.startDate
  {
    e.(amount := DisplayAmount(e), monthlyPayment := None, escrow := None)
  }

  lemma DisplayAmountExamples()
    ensures DisplayAmount(Event(1, "Home", 1800, "DEBIT", "MORTGAGE", None, Some(1500), Some(300))) == 1800
    ensures DisplayAmount(Event(2, "Car", 5000, "DEBIT", "AUTO_LOAN", None, Some(350), None)) == 350
    ensures DisplayAmount(Event(3, "Food", 75, "DEBIT", "GROCERY", None, None, None)) == 75
  {
  }

  // ---------------------------------------------------------------------
  // Occurrence dates

  /**
   * The occurrence dates of an entry: its occurrences when it has a non-empty
   * list, else `[start_date].filter(Boolean)`.
   */
  function OccurrenceDates(entry: Entry): (dates: seq<string>)
    ensures entry.occurrences.Some? && entry.occurrences.value != [] ==> dates == entry.occurrences.value
    ensures !(entry.occurrences.Some? && entry.occurrences.value != []) ==>
      (dates == [] <==> !TruthyString(entry.event.startDate))
  {
    if entry.occurrences.Some? && |entry.occurrences.value| > 0 then entry.occurrences.value
    else if TruthyString(entry.event.startDate) then [entry.event.startDate.value]
    else []
  }

  /** The date part of an occurrence string: everything before the first `T`. */
  function DatePart(s: string): (r: string)
    ensures 'T' !in s ==> r == s
    ensures 'T' in s ==> r == Split(s, 'T')[0] && |r| < |s|
  {
    TakeUntil(s, 'T')
  }

  /**
   * The month test of the candidate filter: the date part split at `-`,
   * mapped through `Number`, has the year `year` and the 1-based month
   * `month + 1`.
   */
  predicate InTargetMonth(s: string, year: int, month: int)
  {
    var parts := Split(DatePart(s), '-');
    && ToNumber(parts[0]) == Some(year)
    && |parts| >= 2
    && ToNumber(parts[1]).Some?
    && ToNumber(parts[1]).value - 1 == month
  }

  /** `occurrenceDates.some(...)`: some date lies in the target month. */
  function AnyInTargetMonth(dates: seq<string>, year: int, month: int): (b: bool)
    ensures b <==> exists i :: 0 <= i < |dates| && InTargetMonth(dates[i], year, month)
  {
    if dates == [] then false
    else
      assert forall i :: 1 <= i < |dates| ==> dates[i] == dates[1..][i - 1];
      InTargetMonth(dates[0], year, month) || AnyInTargetMonth(dates[1..], year, month)
  }

  predicate IsCandidate(entry: Entry, year: int, month: int)
  {
    AnyInTargetMonth(OccurrenceDates(entry), year, month)
  }

  /** `currentMonthEvents`: the entries with an occurrence in the target month, in order. */
  function Candidates(entries: seq<Entry>, year: int, month: int): (r: seq<Entry>)
    ensures |r| <= |entries|
    ensures forall e :: e in r <==> e in entries && IsCandidate(e, year, month)
  {
    if entries == [] then []
    else
      var init := entries[..|entries| - 1];
      var last := entries[|entries| - 1];
      assert entries == init + [last];
      Candidates(init, year, month) + (if IsCandidate(last, year, month) then [last] else [])
  }

  /** A single entry is kept exactly when it is a candidate. */
  lemma CandidatesSingleton(entry: Entry, year: int, month: int)
    ensures Candidates([entry], year, month) == if IsCandidate(entry, year, month) then [entry] else []
  {
    assert [entry][..0] == [];
  }

  lemma CandidatesSnoc(init: seq<Entry>, last: Entry, year: int, month: int)
    ensures Candidates(init + [last], year, month)
      == Candidates(init, year, month) + (if IsCandidate(last, year, month) then [last] else [])
  {
    var s := init + [last];
    assert s[..|s| - 1] == init;
  }

  /** The filter keeps the order of the store: it distributes over concatenation. */
  lemma {:induction false} CandidatesAppend(a: seq<Entry>, b: seq<Entry>, year: int, month: int)
    ensures Candidates(a + b, year, month) == Candidates(a, year, month) + Candidates(b, year, month)
    decreases |b|
  {
    if b == [] {
      assert a + b == a;
    } else {
      var init, last := b[..|b| - 1], b[|b| - 1];
      assert a + b == (a + init) + [last];
      assert b == init + [last];
      CandidatesAppend(a, init, year, month);
      CandidatesSnoc(a + init, last, year, month);
      CandidatesSnoc(init, last, year, month);
      AppendAssoc(Candidates(a, year, month), Candidates(init, year, month),
        if IsCandidate(last, year, month) then [last] else []);
    }
  }

  // ---------------------------------------------------------------------
  // Day keys

  /** A day's `YYYY-MM-DD` key: the year, then the month and day padded to two digits. */
  function DayKey(d: Date): string
    requires ValidDate(d)
  {
    IntToString(d.year) + "-" + Pad2(d.month + 1) + "-" + Pad2(d.day)
  }

  /** A day's key is made of digits and dashes only. */
  lemma DayKeyChars(d: Date)
    requires ValidDate(d)
    ensures forall i :: 0 <= i < |DayKey(d)| ==> DayKey(d)[i] == '-' || IsDigit(DayKey(d)[i])
    ensures 'T' !in DayKey(d)
  {
    var y, m, dd := IntToString(d.year), Pad2(d.month + 1), Pad2(d.day);
    assert forall i :: 0 <= i < |y| ==> y[i] == '-' || IsDigit(y[i]) by {
      if d.year < 0 {
        assert forall i :: 1 <= i < |y| ==> y[i] == NatToString(-d.year)[i - 1];
      }
    }
    assert forall i :: 0 <= i < |m| ==> IsDigit(m[i]);
    assert forall i :: 0 <= i < |dd| ==> IsDigit(dd[i]);
  }

  /** A day of a year from 0 on splits at `-` into its year, month and day. */
  lemma DayKeyParts(d: Date)
    requires ValidDate(d) && d.year >= 0
    ensures Split(DayKey(d), '-') == [NatToString(d.year), Pad2(d.month + 1), Pad2(d.day)]
  {
    var y, m, dd := NatToString(d.year), Pad2(d.month + 1), Pad2(d.day);
    assert '-' !in y && '-' !in m && '-' !in dd by {
      assert forall i :: 0 <= i < |y| ==> IsDigit(y[i]);
      assert forall i :: 0 <= i < |m| ==> IsDigit(m[i]);
      assert forall i :: 0 <= i < |dd| ==> IsDigit(dd[i]);
    }
    assert DayKey(d) == y + ['-'] + m + ['-'] + dd;
    SplitThree(y, m, dd, '-');
  }

  /** The key of a day (of a year from 0 on) passes the month test for that day's month. */
  lemma DayKeyInTargetMonth(d: Date)
    requires ValidDate(d) && d.year >= 0
    ensures DatePart(DayKey(d)) == DayKey(d)
    ensures InTargetMonth(DayKey(d), d.year, d.month)
  {
    DayKeyChars(d);
    DayKeyParts(d);
    ToNumberOfNatToString(d.year);
  }

  /** Different days of years from 0 on have different keys. */
  lemma DayKeyInjective(a: Date, b: Date)
    requires ValidDate(a) && ValidDate(b) && a.year >= 0 && b.year >= 0
    requires DayKey(a) == DayKey(b)
    ensures IsSameDay(a, b)
  {
    DayKeyParts(a);
    DayKeyParts(b);
    ToNumberOfNatToString(a.year);
    ToNumberOfNatToString(b.year);
    assert ToNumber(Pad2(a.day)) == ToNumber(Pad2(b.day));
    assert ToNumber(Pad2(a.month + 1)) == ToNumber(Pad2(b.month + 1));
  }

  // ---------------------------------------------------------------------
  // Events of a day

  /** One `ToDayEvent(e)` per date whose date part is `key`, in order. */
  function OccurrenceEvents(dates: seq<string>, e: Event, key: string): seq<Event>
  {
    if dates == [] then []
    else
      OccurrenceEvents(dates[..|dates| - 1], e, key)
      + (if DatePart(dates[|dates| - 1]) == key then [ToDayEvent(e)] else [])
  }

  /** How many of `dates` have the date part `key`. */
  function CountMatches(dates: seq<string>, key: string): (n: nat)
    ensures n <= |dates|
  {
    if dates == [] then 0
    else (if DatePart(dates[0]) == key then 1 else 0) + CountMatches(dates[1..], key)
  }

  lemma {:induction false} CountMatchesSnoc(dates: seq<string>, d: string, key: string)
    ensures CountMatches(dates + [d], key) == CountMatches(dates, key) + (if DatePart(d) == key then 1 else 0)
  {
    if dates == [] {
      assert dates + [d] == [d];
      assert [d][1..] == [];
    } else {
      assert (dates + [d])[0] == dates[0];
      assert (dates + [d])[1..] == dates[1..] + [d];
      CountMatchesSnoc(dates[1..], d, key);
    }
  }

  /** One event per matching date. */
  lemma {:induction false} OccurrenceEventsCount(dates: seq<string>, e: Event, key: string)
    ensures |OccurrenceEvents(dates, e, key)| == CountMatches(dates, key)
  {
    if dates != [] {
      var init, last := dates[..|dates| - 1], dates[|dates| - 1];
      OccurrenceEventsCount(init, e, key);
      assert dates == init + [last];
      CountMatchesSnoc(init, last, key);
    }
  }

  /** Every event of the list is the display record of `e`, and there is one exactly when some date matches. */
  lemma {:induction false} OccurrenceEventsMatch(dates: seq<string>, e: Event, key: string)
    ensures |OccurrenceEvents(dates, e, key)| <= |dates|
    ensures forall x :: x in OccurrenceEvents(dates, e, key) ==> x == ToDayEvent(e)
    ensures OccurrenceEvents(dates, e, key) == [] <==> forall i :: 0 <= i < |dates| ==> DatePart(dates[i]) != key
  {
    if dates != [] {
      var init := dates[..|dates| - 1];
      assert forall i :: 0 <= i < |init| ==> dates[i] == init[i];
      OccurrenceEventsMatch(init, e, key);
    }
  }

  /**
   * The events one entry puts on the day with key `key`: none when its
   * `occurrences` is missing or not an array, else one per matching occurrence
   * date (an empty array falls back to the start date).
   */
  function EntryEvents(entry: Entry, key: string): seq<Event>
  {
    if entry.occurrences.None? then []
    else OccurrenceEvents(OccurrenceDates(entry), entry.event, key)
  }

  /** The lists `f(x)` of the elements of `s`, concatenated in order. */
  function Concat<T, U>(s: seq<T>, f: T -> seq<U>): seq<U>
  {
    if s == [] then [] else Concat(s[..|s| - 1], f) + f(s[|s| - 1])
  }

  lemma {:induction false} ConcatAppend<T, U>(a: seq<T>, b: seq<T>, f: T -> seq<U>)
    ensures Concat(a + b, f) == Concat(a, f) + Concat(b, f)
    decreases |b|
  {
    if b == [] {
      assert a + b == a;
    } else {
      var init, last := b[..|b| - 1], b[|b| - 1];
      assert (a + b)[..|a + b| - 1] == a + init && (a + b)[|a + b| - 1] == last;
      ConcatAppend(a, init, f);
    }
  }

  /** The `events` array of the day with key `key`, built from the candidate entries. */
  function DayEvents(cands: seq<Entry>, key: string): seq<Event>
  {
    Concat(cands, e => EntryEvents(e, key))
  }

  /** A day's events are those of all candidates but the last, then those of the last. */
  lemma DayEventsSnoc(init: seq<Entry>, last: Entry, key: string)
    ensures DayEvents(init + [last], key) == DayEvents(init, key) + EntryEvents(last, key)
  {
    var s := init + [last];
    assert s[..|s| - 1] == init && s[|s| - 1] == last;
  }

  /** A day has no events exactly when no candidate entry puts one on it. */
  lemma {:induction false} DayEventsEmpty(cands: seq<Entry>, key: string)
    ensures DayEvents(cands, key) == [] <==> forall j :: 0 <= j < |cands| ==> EntryEvents(cands[j], key) == []
  {
    if cands != [] {
      var init, last := cands[..|cands| - 1], cands[|cands| - 1];
      assert cands == init + [last];
      DayEventsSnoc(init, last, key);
      DayEventsEmpty(init, key);
      assert forall j :: 0 <= j < |init| ==> cands[j] == init[j];
    }
  }

  lemma DayEventsAppend(a: seq<Entry>, b: seq<Entry>, key: string)
    ensures DayEvents(a + b, key) == DayEvents(a, key) + DayEvents(b, key)
  {
    ConcatAppend(a, b, e => EntryEvents(e, key));
  }

  /** An entry that puts an event on a day of its own month passes the candidate filter. */
  lemma MatchImpliesCandidate(entry: Entry, d: Date)
    requires ValidDate(d) && d.year >= 0
    requires EntryEvents(entry, DayKey(d)) != []
    ensures IsCandidate(entry, d.year, d.month)
  {
    var dates := OccurrenceDates(entry);
    OccurrenceEventsMatch(dates, entry.event, DayKey(d));
    var i :| 0 <= i < |dates| && DatePart(dates[i]) == DayKey(d);
    DayKeyInTargetMonth(d);
    assert InTargetMonth(dates[i], d.year, d.month);
  }

  /**
   * On a day of the target month the candidate filter loses nothing: the day
   * gets the same events as if every entry were considered.
   */
  lemma {:induction false} CandidatesKeepMonthDays(entries: seq<Entry>, d: Date)
    requires ValidDate(d) && d.year >= 0
    ensures DayEvents(Candidates(entries, d.year, d.month), DayKey(d)) == DayEvents(entries, DayKey(d))
  {
    if entries != [] {
      var init := entries[..|entries| - 1];
      var last := entries[|entries| - 1];
      CandidatesKeepMonthDays(init, d);
      var kept := if IsCandidate(last, d.year, d.month) then [last] else [];
      DayEventsAppend(Candidates(init, d.year, d.month), kept, DayKey(d));
      if !IsCandidate(last, d.year, d.month) {
        if EntryEvents(last, DayKey(d)) != [] {
          MatchImpliesCandidate(last, d);
        }
      } else {
        assert DayEvents([last], DayKey(d)) == EntryEvents(last, DayKey(d)) by {
          assert [last][..0] == [];
        }
      }
    }
  }

  /**
   * An entry whose `occurrences` is missing passes the filter through its start
   * date, yet puts no event on any day.
   */
  lemma MissingOccurrencesOnlyFilter(entry: Entry, year: int, month: int, key: string)
    requires entry.occurrences.None?
    ensures IsCandidate(entry, year, month) <==>
      TruthyString(entry.event.startDate) && InTargetMonth(entry.event.startDate.value, year, month)
    ensures EntryEvents(entry, key) == []
  {
  }

  /** An entry with an empty `occurrences` array falls back to its start date on the day too. */
  lemma EmptyOccurrencesFallBack(entry: Entry, key: string)
    requires entry.occurrences == Some([])
    requires TruthyString(entry.event.startDate)
    ensures EntryEvents(entry, key) ==
      if DatePart(entry.event.startDate.value) == key then [ToDayEvent(entry.event)] else []
  {
    var ds := OccurrenceDates(entry);
    assert ds == [entry.event.startDate.value];
    assert ds[..0] == [];
    assert OccurrenceEvents(ds, entry.event, key) ==
      OccurrenceEvents(ds[..0], entry.event, key)
      + (if DatePart(ds[0]) == key then [ToDayEvent(entry.event)] else []);
  }

  /**
   * The inner loop of `updateCalendarDays` for one entry: skip an entry
   * without an occurrence array, else push the display record once per
   * occurrence date whose date part is the day's key.
   */
  method CollectEntryEvents(entry: Entry, key: string) returns (events: seq<Event>)
    ensures events == EntryEvents(entry, key)
  {
    events := [];
    if entry.occurrences.None? {
      return;
    }
    var dates := OccurrenceDates(entry);
    var j := 0;
    while j < |dates|
      invariant 0 <= j <= |dates|
      invariant events == OccurrenceEvents(dates[..j], entry.event, key)
    {
      assert dates[..j + 1][..j] == dates[..j];
      if DatePart(dates[j]) == key {
        events := events + [ToDayEvent(entry.event)];
      }
      j := j + 1;
    }
    assert dates[..j] == dates;
  }

  /** The loops of `updateCalendarDays` that fill the `events` array of day `d`. */
  method CollectDayEvents(cands: seq<Entry>, d: Date) returns (events: seq<Event>)
    requires ValidDate(d)
    ensures events == DayEvents(cands, DayKey(d))
  {
    var key := DayKey(d);
    events := [];
    var i := 0;
    while i < |cands|
      invariant 0 <= i <= |cands|
      invariant events == DayEvents(cands[..i], key)
    {
      var more := CollectEntryEvents(cands[i], key);
      assert cands[..i + 1][..i] == cands[..i];
      assert DayEvents(cands[..i + 1], key) == DayEvents(cands[..i], key) + more;
      events := events + more;
      i := i + 1;
    }
    assert cands[..i] == cands;
  }
}
