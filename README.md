# Budgeteer calendar core in Dafny

This project models the client-side logic of the Budgeteer budgeting app (a
Vue/Pinia front end). Five pieces are modelled:

- **The calendar store** (`src/stores/calendar.js`).
  - `updateCalendarDays` builds a Sunday-aligned month grid. It holds the
    leading days of the previous month, every day of the displayed month and
    the trailing days of the next month.
  - Each day carries the events whose occurrence date matches the day's
    `YYYY-MM-DD` key, with the loan/escrow display amount.
  - The debit and credit totals fold those amounts over the current month's
    days. `netFlow` and `savings` are derived from them.
  - Month navigation updates `currentDate`, `calendarVersion` and
    `calendarDays`.
- **The constants store's lookups** (`src/stores/constants.js`): loan
  categories, category colours and icons, the three-stage brand icon and
  colour matcher, category icons, and the list of years.
- **The scenario store** (`src/stores/scenarios.js`): its getters and its
  selection and reset actions. `fetchScenarios` is modelled with its HTTP
  request replaced by the request's outcome.
- **Date helpers** (`src/js/dates.js`): `getFirstDayOfMonth`,
  `getLastDayOfMonth` and `isSameDay`. They rest on a model of
  `new Date(y, m, d)`: years 0 to 99 read as 1900 to 1999, and months and
  days overflow into neighbouring months and years. The calendar works in
  the proleptic Gregorian calendar, with weekday 0 = Sunday.
- **Amount presentation** (`src/js/utils.js`): `currencyFormat` and
  `useAmountColorClass`. Amounts are whole numbers of cents.

Modules:

- `Wrappers`: `Option`, standing for `null`/`undefined`.
- `JsStrings`: the string built-ins the source uses (`split`, `includes`,
  `trim`, `toLowerCase`, `padStart`, `Number`).
- `JsDates`: the `Date` arithmetic and `src/js/dates.js`.
- `Utils`: `src/js/utils.js`.
- `Constants` and `ConstantsExamples`: `src/stores/constants.js`.
- `Scenarios`: `src/stores/scenarios.js`.
- `CalendarEvents`: attaching events to days.
- `CalendarGrid`: the grid as a function of the month, and its shape.
- `CalendarStore`: the loops that build the grid, the totals and the
  `Calendar` class.

The stores' state-changing parts are classes: `CalendarStore.Calendar` and
`Scenarios.ScenarioStore`. The loops of `updateCalendarDays`, the total
getters and the brand matcher are methods. Each of them is proved equal to a
pure function (`Grid`, `KindTotal`, `BrandLookup`), and the lemmas
state what those functions guarantee.

The day-level attachment loop skips an entry only when its `occurrences` is
missing or not an array (src/stores/calendar.js:173). An empty array gets
through that test and falls back to `[start_date]`
(src/stores/calendar.js:175-178), and the model does the same.

## Model

| member | source | states |
|---|---|---|
| CalendarEvents.DisplayAmount | src/stores/calendar.js:20-34 | A loan (MORTGAGE, GENERIC_LOAN, AUTO_LOAN) with a positive monthly payment shows at least that payment. It shows exactly the payment unless it is a MORTGAGE with a positive escrow, which shows payment plus escrow. Every other event shows its `amount`. |
| CalendarEvents.CalendarLoanCategoriesAgree | src/stores/calendar.js:22 | The calendar's loan list holds exactly the categories for which `isLoanCategory` is true. |
| CalendarEvents.DisplayAmountExamples | src/tests/stores/calendar.spec.js:31-56 | Mortgage 1500 + escrow 300 shows 1800; auto loan with payment 350 shows 350; grocery 75 shows 75. |
| CalendarEvents.ToDayEvent | src/stores/calendar.js:206-220 | The pushed record has the display amount as its `amount`. It keeps the event's id, name, type, category and start date, and re-applying the loan rule to it gives the same amount. |
| CalendarEvents.OccurrenceDates | src/stores/calendar.js:146-152 | A non-empty occurrence list is used as it is. Otherwise the dates are empty exactly when `start_date` is missing or empty. |
| CalendarEvents.DatePart | src/stores/calendar.js:155-159 | A string without `T` is its own date part. Otherwise the date part is the first piece of `split('T')`, strictly shorter than the string. |
| CalendarEvents.AnyInTargetMonth | src/stores/calendar.js:154-163 | True exactly when some occurrence date has the target year and 1-based month `month + 1`. |
| CalendarEvents.Candidates | src/stores/calendar.js:146-164 | The filter keeps exactly the entries with an occurrence in the target month, and is never longer than its input. |
| CalendarEvents.CandidatesSingleton | src/stores/calendar.js:146-164 | A single entry is kept exactly when it has an occurrence in the target month. |
| CalendarEvents.CandidatesAppend | src/stores/calendar.js:146-164 | The filter keeps the store's order and duplicates: filtering two runs of entries gives the two filtered runs, concatenated. |
| CalendarEvents.DayKeyChars | src/stores/calendar.js:187 | A day's key is made of digits and dashes, so it has no `T`. |
| CalendarEvents.DayKeyParts | src/stores/calendar.js:187 | The key of a day from year 0 on splits at `-` into the year, the two-digit month and the two-digit day. |
| CalendarEvents.DayKeyInTargetMonth | src/stores/calendar.js:155-162 | A day's key is its own date part, and it passes the month test for that day's year and month. |
| CalendarEvents.DayKeyInjective | src/stores/calendar.js:187-189 | Two days (years from 0 on) with equal keys are the same day. |
| CalendarEvents.OccurrenceEventsMatch | src/stores/calendar.js:180-222 | Every event pushed for an entry is that entry's display record, and there are no more events than dates. None is pushed exactly when no date part equals the key. |
| CalendarEvents.OccurrenceEventsCount | src/stores/calendar.js:180-222 | One record is pushed per occurrence whose date part equals the key, so a date listed twice is counted twice. |
| CalendarEvents.CountMatches | src/stores/calendar.js:180-222 | The number of matching occurrences is at most the number of occurrences. |
| CalendarEvents.DayEventsEmpty | src/stores/calendar.js:172-229 | A day has no events exactly when no candidate entry puts one on it. |
| CalendarEvents.DayEventsAppend | src/stores/calendar.js:172-223 | The events from two runs of entries are the events of the first run followed by those of the second. |
| CalendarEvents.MatchImpliesCandidate | src/stores/calendar.js:146-164 | An entry that puts an event on a day passes the candidate filter for that day's month. |
| CalendarEvents.CandidatesKeepMonthDays | src/stores/calendar.js:146-164 | On a day of the target month, filtering to candidates first yields the same events as scanning every entry. |
| CalendarEvents.MissingOccurrencesOnlyFilter | src/stores/calendar.js:173 | An entry without an occurrence array is a candidate exactly when its start date is in the month, yet it puts no event on any day. |
| CalendarEvents.EmptyOccurrencesFallBack | src/stores/calendar.js:175-178 | An entry with an empty occurrence array puts its display record on the day whose key is its start date's date part, and nothing elsewhere. |
| CalendarEvents.CollectEntryEvents | src/stores/calendar.js:172-222 | The loop over one entry's occurrences returns exactly that entry's events for the day. |
| CalendarEvents.CollectDayEvents | src/stores/calendar.js:170-223 | The nested loops return exactly the day's events from all candidates, in order. |
| CalendarGrid.DayOfMonth | src/stores/calendar.js:237 | `new Date(year, month, i)` for a day `i` of the month is that calendar day at midnight. |
| CalendarGrid.DayOfPrevMonth | src/stores/calendar.js:169 | `new Date(year, month - 1, d)` is day `d` of the previous month, across a January/December year change. |
| CalendarGrid.DayOfNextMonth | src/stores/calendar.js:312 | `new Date(year, month + 1, d)` is day `d` of the next month, across a December/January year change. |
| CalendarGrid.MonthLengthIsDaysInMonth | src/stores/calendar.js:139 | `lastDay.getDate()` is the Gregorian length of the month, and `lastDay` is the month's last day. |
| CalendarGrid.PrevMonthLastDayFacts | src/stores/calendar.js:144 | `new Date(year, month, 0).getDate()` is the previous month's length, and that month ends the day before the 1st. |
| CalendarGrid.LeadingDaysFacts | src/stores/calendar.js:166-233 | The leading days are the last `firstDayOfWeek` days of the previous month, numbered consecutively up to its last day, none marked current month or today. |
| CalendarGrid.MonthDaysFacts | src/stores/calendar.js:235-305 | There are exactly as many month days as the month has days, numbered 1 to n with their own dates, all current month. A day is today exactly when it is the same day as `today`. |
| CalendarGrid.TrailingDaysFacts | src/stores/calendar.js:307-376 | The trailing days are days 1, 2, … of the next month, none marked current month or today. |
| CalendarGrid.TrailingCountBounds | src/stores/calendar.js:308-309 | `6 - lastDay.getDay()` is between 0 and 6. |
| CalendarGrid.GridParts | src/stores/calendar.js:134-379 | The grid is the leading, month and trailing parts, of `firstDayOfWeek`, `lastDay.getDate()` and `daysToAdd` days. |
| CalendarGrid.FirstWeekdayOfStart | src/stores/calendar.js:143 | `firstDay.getDay()` is the weekday of the month's first day. |
| CalendarGrid.GridDayNumbers | src/stores/calendar.js:134-379 | The grid's dates are consecutive days, starting `firstDayOfWeek` days before the 1st. |
| CalendarGrid.GridWeekdays | src/stores/calendar.js:134-379 | Position `k` of the grid falls on weekday `k % 7`: every row runs Sunday to Saturday. |
| CalendarGrid.GridShape | src/stores/calendar.js:134-379 | The grid length is leading + month length + trailing, a multiple of 7, between 28 and 42. |
| CalendarGrid.GridCurrentMonth | src/stores/calendar.js:225-305 | A day is `currentMonth` exactly when it comes after the leading days and within the month's length, so exactly n days are. |
| CalendarGrid.GridMonthDays | src/stores/calendar.js:236-305 | The current-month days are numbered 1 to n in order with their own dates, and each is today exactly when it is the same day as `today`. |
| CalendarGrid.GridTodayInMonth | src/stores/calendar.js:231 | Only a current-month day can be marked today. |
| CalendarGrid.GridToday | src/stores/calendar.js:300-303 | At most one day is marked today. One is marked exactly when today lies in the displayed month. |
| CalendarGrid.Grid | src/stores/calendar.js:134-379 | The grid of a month is its leading, month and trailing days over the month's candidates; its properties are the `Grid…` lemmas of this table. |
| CalendarGrid.GridEvents | src/stores/calendar.js:170-232 | Every grid day, in any part, carries the candidates' events for its own date, and `hasEvents` exactly when it has any. |
| CalendarGrid.GridMonthEvents | src/stores/calendar.js:146-164 | For years from 100 on, each current-month day carries the events of all entries on its date: the candidate filter loses nothing. |
| CalendarGrid.February2025Weekday | src/tests/stores/calendar.spec.js:112-122 | February 2025 starts on a Saturday and has 28 days. |
| CalendarGrid.February2025Example | src/tests/stores/calendar.spec.js:112-122 | The February 2025 grid has 35 days, 28 of them current month, and day 1 sits at position 6. |
| CalendarStore.BuildCalendarDays | src/stores/calendar.js:134-379 | The three counting loops produce exactly `Grid` for the month. |
| CalendarStore.PushLeadingDays | src/stores/calendar.js:166-233 | The loop from `firstDayOfWeek - 1` down to 0 pushes exactly the leading days. |
| CalendarStore.PushMonthDays | src/stores/calendar.js:235-305 | The loop over days 1 to `lastDay.getDate()` pushes exactly the month days. |
| CalendarStore.PushTrailingDays | src/stores/calendar.js:307-376 | The loop over days 1 to `daysToAdd` pushes exactly the trailing days. |
| CalendarStore.SumDayEvents | src/stores/calendar.js:56-116 | The nested `forEach` loops of the total getters return exactly `KindTotal`. |
| CalendarStore.KindTotal | src/stores/calendar.js:56-116 | A total sums, over the days with `currentMonth` and events, the display amounts of the events of one type; `KindTotalAppend`, `KindTotalNoCurrentMonth`, `GridTotals` and `SumDayEvents` state its properties. |
| CalendarStore.KindTotalAppend | src/stores/calendar.js:56-85 | The total over two runs of days is the sum of their totals. |
| CalendarStore.KindTotalNoCurrentMonth | src/stores/calendar.js:61 | Days outside the displayed month add nothing to the totals, whatever events they carry. |
| CalendarStore.GridTotals | src/stores/calendar.js:56-116 | On a built grid the totals come from the month days alone. |
| CalendarStore.DayEventsAreRecords | src/stores/calendar.js:206-220 | Every event on a day is the display record of some candidate's event, and it shows its own amount. |
| CalendarStore.DayTotalIsDisplayedAmounts | src/stores/calendar.js:62-78 | Re-applying the loan rule to pushed records changes nothing: a day's total is the plain sum of the amounts shown. |
| CalendarStore.TotalsOfNoDays | src/stores/calendar.js:56-59 | An empty grid has debit and credit totals of 0. |
| CalendarStore.DebitTotalExample | src/tests/stores/calendar.spec.js:64-77 | A current-month day with a 100 debit and a 50 credit has debit total 100. |
| CalendarStore.CreditTotalExample | src/tests/stores/calendar.spec.js:78-91 | A current-month day with a 200 credit and a 50 debit has credit total 200. |
| CalendarStore.NetFlowExample | src/tests/stores/calendar.spec.js:92-99 | A 300 credit and a 100 debit give a net flow of 200. |
| CalendarStore.OtherMonthNotCountedExample | src/stores/calendar.js:61 | A debit on a day outside the displayed month is not counted. |
| CalendarStore.NextThenPreviousMonth | src/stores/calendar.js:381-401 | From a year from 100 on, `nextMonth` then `previousMonth` lands on the 1st of the starting month. |
| CalendarStore.PreviousThenNextMonth | src/stores/calendar.js:381-401 | From a year from 101 on, `previousMonth` then `nextMonth` lands on the 1st of the starting month. |
| CalendarStore.Year99NavigationExample | src/stores/calendar.js:382-393 | Going back from January of year 100 reaches December 99; going forward from there builds `new Date(99, 12, 1)`, which is January 2000. |
| CalendarStore.Calendar.constructor | src/stores/calendar.js:10-14 | The store starts at "now", with version 0 and no days. |
| CalendarStore.Calendar.UpdateCalendarDays | src/stores/calendar.js:134-379 | `calendarDays` becomes the grid of the current month; date and version are unchanged. |
| CalendarStore.Calendar.PreviousMonth | src/stores/calendar.js:381-390 | The date becomes the 1st of the previous month, the version goes up by exactly 1, and the grid is rebuilt. |
| CalendarStore.Calendar.NextMonth | src/stores/calendar.js:392-401 | The date becomes the 1st of the next month, the version goes up by exactly 1, and the grid is rebuilt. |
| CalendarStore.Calendar.SetCalendarToDate | src/stores/calendar.js:422-431 | The date becomes `new Date(year, month, day)` with `day` 1 when left out, the version goes up by exactly 1, and the grid is rebuilt. |
| CalendarStore.Calendar.ResetCalendar | src/stores/calendar.js:403-407 | The date becomes "now", `calendarDays` becomes empty and the version becomes 0. |
| CalendarStore.Calendar.CalendarDaysDebitTotal | src/stores/calendar.js:56-85 | The debit total of the current days. |
| CalendarStore.Calendar.CalendarDaysCreditTotal | src/stores/calendar.js:87-116 | The credit total of the current days. |
| CalendarStore.Calendar.NetFlow | src/stores/calendar.js:48-50 | Credit total minus debit total. |
| CalendarStore.Calendar.Savings | src/stores/calendar.js:52-54 | Always 0. |
| Constants.OwnValue | src/stores/constants.js:224 | A table read finds nothing exactly when no entry has the key. Otherwise it finds the value of an entry with that key. |
| Constants.PropertyGetOwn | src/stores/constants.js:224 | For a key `Object.prototype` lacks, the property read yields only the table's own value, truthy exactly when non-empty. |
| Constants.IsLoanCategory | src/stores/constants.js:161-164 | Membership in the loan list; `IsLoanCategoryExactly` names its three members. |
| Constants.IsLoanCategoryExactly | src/stores/constants.js:162-165 | `isLoanCategory` is true exactly for MORTGAGE, AUTO_LOAN and GENERIC_LOAN. |
| Constants.UpperCaseValue | src/stores/constants.js:172 | An upper-cased key never reaches an inherited member: the read yields the table's own string or `undefined`. |
| Constants.GetCategoryColor | src/stores/constants.js:171-173 | The colour of the upper-cased category when the table has a non-empty one. Otherwise, and for a null category, the MISCELLANEOUS colour `#9e9e9e`. |
| Constants.GetCategoryIcon | src/stores/constants.js:175-177 | The icon of the upper-cased category when the table has a non-empty one. Otherwise, and for a null category, `receipt`. |
| Constants.CategoryLookupsIgnoreCase | src/stores/constants.js:171-177 | Colour and icon lookups give the same answer for a category and its lower-case form. |
| Constants.GetCategoryColorInTable | src/stores/constants.js:171-173 | Every colour returned is the fallback or a colour of the table. |
| Constants.GetBrandIconByCategory | src/stores/constants.js:249-253 | Null for a missing or empty category. Otherwise null exactly when the upper-cased category is not a key of the map; any icon returned is non-empty and is the map's value for that key. |
| Constants.OwnValueAt | src/stores/constants.js:224 | In a table without repeated keys, reading an entry's key yields that entry's value. |
| Constants.GetBrandIconByCategoryAt | src/stores/constants.js:249-253 | A category whose upper-cased form is a key of the category icon map gets exactly that key's icon. |
| Constants.StripSpecial | src/stores/constants.js:221 | What is left after `replace(/[^a-z0-9\s]/g, '')` holds only `a-z`, `0-9` and white space, and is never longer than the input. |
| Constants.StripSpecialChar | src/stores/constants.js:221 | One character is kept exactly when it is `a-z`, `0-9` or white space. |
| Constants.StripSpecialAppend | src/stores/constants.js:221 | The replacement works character by character, in order: it distributes over concatenation. |
| Constants.FirstWord | src/stores/constants.js:238-241 | The first word of `split(/\s+/)` is a prefix of the name with no white space in it, and it stops only at the end of the name or at a white-space character. |
| Constants.FirstWordUpToSpace | src/stores/constants.js:238-241 | The first word is everything before the first white-space character. |
| Constants.FirstPartialMatch | src/stores/constants.js:228-233 | Nothing is found exactly when no key contains, or is contained in, the name. Otherwise the value of the first such key in insertion order is found. |
| Constants.ScanPartialMatch | src/stores/constants.js:228-233 | The `for…of` loop with `break` returns exactly the first partial match. |
| Constants.BrandLookup | src/stores/constants.js:214-246 | The corrected matcher (see "## Findings"): null for a missing or empty name and for a name that normalises to nothing; any value found is non-empty. |
| Constants.BrandLookupAsWritten | src/stores/constants.js:214-246 | The source's matcher: null for a missing or empty name, and a falsy result becomes null, so any value returned is truthy. |
| Constants.FindBrandValue | src/stores/constants.js:214-246 | The three-stage loop (exact, first partial, first word, else null) returns exactly the corrected matcher `BrandLookup` (see "## Findings"); `BrandLookupAsWritten` is the source's. |
| Constants.GetBrandIcon | src/stores/constants.js:214-246 | The corrected matcher over the brand icon map (see "## Findings"); `BrandLookupAsWritten` is the source's. |
| Constants.GetBrandColor | src/stores/constants.js:261-293 | The corrected matcher over the brand colour map (see "## Findings"); `BrandLookupAsWritten` is the source's. |
| Constants.HasBrandIcon | src/stores/constants.js:256-258 | True when the name matches a brand or the category has an icon; `HasBrandIconCases` states it for every input. |
| Constants.HasBrandIconAsWritten | src/stores/constants.js:256-258 | `hasBrandIcon` over the source's matcher; `HasBrandIconAsWrittenAgrees` and the examples state its properties. |
| Constants.HasBrandIconAsWrittenAgrees | src/stores/constants.js:256-258 | Away from the names of "## Findings", `hasBrandIcon` as written and corrected agree. |
| Constants.HasBrandIconCases | src/stores/constants.js:256-258 | A brand icon exists exactly when the corrected matcher finds the name, or the non-empty upper-cased category is a key of the category icon map. |
| Constants.BrandTablesValuesNonEmpty | src/stores/constants.js:181-211 | Every value of the brand icon and colour maps is non-empty. |
| Constants.NameIncludesFirstWord | src/stores/constants.js:238-241 | A name includes its own first word. |
| Constants.FirstWordStageAddsNothing | src/stores/constants.js:236-243 | When the partial stage finds nothing, the first-word lookup finds nothing either. |
| Constants.BrandLookupTwoStages | src/stores/constants.js:214-246 | Every brand found is the exact-stage or the partial-stage answer. |
| Constants.BrandLookupIsTableValue | src/stores/constants.js:214-246 | Whatever the matcher returns is a non-empty value of the table. |
| Constants.BrandLookupFindsContainedKey | src/stores/constants.js:227-233 | A name that contains a key, or is contained in one, always gets a value. |
| Constants.StripSpecialKeepsNameChars | src/stores/constants.js:221 | Stripping leaves a string of allowed characters unchanged. |
| Constants.NormalizeLetters | src/stores/constants.js:218-221 | A letters-only name normalises to its lower-case form. |
| Constants.NormalizeWords | src/stores/constants.js:218-221 | A name of ASCII letters and inner spaces normalises to its lower-case form. |
| Constants.BrandLookupExactHit | src/stores/constants.js:223-224 | A letters-only name whose lower-case form is a key gets that key's value. |
| Constants.AsWrittenEmptyNameTakesFirstEntry | src/stores/constants.js:227-233 | As written, a name that normalises to "" gets the first entry's value. The corrected matcher gives null. |
| Constants.AsWrittenExactHit | src/stores/constants.js:223-224 | As written too, a letters-only name whose lower-case form is a key gets that key's value. |
| Constants.AsWrittenInheritedHit | src/stores/constants.js:224 | As written, a letters-only name whose lower-case form only `Object.prototype` has is answered by the inherited member. |
| Constants.AsWrittenFirstWordInheritedHit | src/stores/constants.js:236-245 | As written, when the exact and partial stages miss and the first word names an `Object.prototype` member, that inherited member is the answer; the corrected matcher gives null. |
| Constants.NoPartialMatchByChars | src/stores/constants.js:227-233 | The partial stage finds nothing when the name has a character no key has and every key has one the name lacks. |
| Constants.AsWrittenExactStage | src/stores/constants.js:223-224 | As written, a truthy property read of the normalised name is the answer. |
| Constants.AsWrittenAgreesOtherwise | src/stores/constants.js:214-246 | Apart from the empty normalised name and inherited keys, the as-written and corrected matchers agree. |
| Constants.GetYears | src/stores/constants.js:166-168 | `length` years (none for a negative length), the i-th being `currentYear - startOffset + i`; `startOffset` defaults to 20 and `length` to 60. Lengths of 2^32 and more, where `Array.from` throws, are not distinguished (see "## Left out"). |
| Constants.GetYearsDefaults | src/stores/constants.js:166-168 | With the defaults, sixty years from twenty before the current year to 39 after it, the current year among them. |
| ConstantsExamples.CategoryColorExampleMortgage | src/tests/stores/constants.spec.js:37-40 | `getCategoryColor('mortgage')` is `#9c27b0`. |
| ConstantsExamples.BrandIconExampleSpotify | src/tests/stores/constants.spec.js:42-46 | `getBrandIcon('Spotify')` is `Spotify.png`, for the source's matcher and the corrected one. |
| ConstantsExamples.BrandIconExampleHulu | src/tests/stores/constants.spec.js:42-46 | `getBrandIcon('hulu')` is `Hulu.jpeg`, for the source's matcher and the corrected one. |
| ConstantsExamples.PrimaryIncomeIcon | src/stores/constants.js:196-204 | `getBrandIconByCategory('PRIMARY_INCOME')` is `paycheck.svg`. |
| ConstantsExamples.HasBrandIconExamples | src/tests/stores/constants.spec.js:53-57 | `hasBrandIcon('Spotify', 'ENTERTAINMENT')` and `hasBrandIcon('Random', 'PRIMARY_INCOME')` hold, for the source's matcher and the corrected one. |
| ConstantsExamples.BangsNormalizeToNothing | src/stores/constants.js:218-221 | "!!!" normalises to "". |
| ConstantsExamples.AsWrittenSpecialCharactersExample | src/stores/constants.js:227-233 | As written, "!!!" gets `Spotify.png` and `#1A2B2C`. The corrected matcher gives null for both. |
| ConstantsExamples.AsWrittenConstructorExample | src/stores/constants.js:224 | As written, "Constructor" gets the inherited `constructor` member from both brand maps, so `hasBrandIcon('Constructor', null)` holds. |
| ConstantsExamples.AsWrittenFirstWordConstructorExample | src/stores/constants.js:241 | As written, "Constructor Inc" misses the exact and partial stages and gets the inherited `constructor` through its first word, from both maps; the corrected matcher gives null and `hasBrandIcon` is false. |
| Scenarios.DefaultScenario | src/stores/scenarios.js:17-24 | Null exactly when no scenario is named "default" ignoring case (so for an empty list). Otherwise the first such scenario. |
| Scenarios.CustomScenarios | src/stores/scenarios.js:36-43 | Holds exactly the scenarios with a non-empty name other than "default" (ignoring case), never more than the list. |
| Scenarios.FindById | src/stores/scenarios.js:98 | Null exactly when no scenario has the id. Otherwise the first one that does. |
| Scenarios.IsDefaultScenario | src/stores/scenarios.js:28-34 | A current scenario exists and its name is "default" ignoring case; `AutoSelectionPrefersDefault` relates it to a fetch. |
| Scenarios.HasScenarios | src/stores/scenarios.js:45 | The list is non-empty; `AutoSelection` selects exactly when it holds. |
| Scenarios.AutoSelection | src/stores/scenarios.js:72-79 | After a fetch, a scenario is selected exactly when the list is non-empty: the default one if present, else the first. |
| Scenarios.CustomScenariosAppend | src/stores/scenarios.js:36-43 | `customScenarios` preserves order: it distributes over concatenation. |
| Scenarios.NamedScenarioIsDefaultOrCustom | src/stores/scenarios.js:17-43 | A named scenario is default-named exactly when it is not among the custom ones. |
| Scenarios.DefaultIsNotCustom | src/stores/scenarios.js:17-43 | The default scenario is never a custom one. |
| Scenarios.AutoSelectionPrefersDefault | src/stores/scenarios.js:28-34 | After a fetch, `isDefaultScenario` holds exactly when the list has a default scenario. |
| Scenarios.DefaultScenarioExample | src/tests/stores/scenarios.spec.js:30-38 | Among "Custom", "default" and "DEFAULT", the first "default" is chosen. |
| Scenarios.CustomScenariosExample | src/tests/stores/scenarios.spec.js:45-52 | "default" and "Vacation" give only "Vacation". |
| Scenarios.ScenarioStore.constructor | src/stores/scenarios.js:8-12 | Empty list, no current scenario, no profile, not loading, no error. |
| Scenarios.ScenarioStore.SetProfile | src/stores/scenarios.js:50-52 | Sets the profile and nothing else. |
| Scenarios.ScenarioStore.SelectScenario | src/stores/scenarios.js:88-95 | A null scenario leaves the selection unchanged; any other becomes current. Nothing else changes. |
| Scenarios.ScenarioStore.SelectScenarioById | src/stores/scenarios.js:97-104 | Selects the first scenario with the id; without a match nothing changes. |
| Scenarios.ScenarioStore.SelectDefaultScenario | src/stores/scenarios.js:106-113 | Selects the default scenario; without one nothing changes. |
| Scenarios.ScenarioStore.FetchScenarios | src/stores/scenarios.js:54-86 | Without a profile id nothing changes. On success the list is replaced and the auto-selection applied. On failure the error message (or its default) is recorded. Loading ends false and the profile is kept. |
| Scenarios.ScenarioStore.Reset | src/stores/scenarios.js:202-207 | Clears the list, the selection, loading and the error, and keeps the profile. |
| Scenarios.ScenarioStore.ResetForNewUser | src/stores/scenarios.js:209-212 | As `reset`, and the profile becomes null. |
| Scenarios.ScenarioStore.HasError | src/stores/scenarios.js:47 | An error is recorded; `ClearError`, `Reset` and a failed `FetchScenarios` say how it changes. |
| Scenarios.ScenarioStore.ClearError | src/stores/scenarios.js:214-216 | Clears the error and changes nothing else. |
| JsDates.Weekday | src/stores/calendar.js:143 | `getDay()` is between 0 (Sunday) and 6. |
| JsDates.MakeDate | src/js/dates.js:88 | `new Date(y, m, d)` is a real calendar day at midnight, within the range of JavaScript time values (see "## Left out"). |
| JsDates.MakeDateDayNumber | src/js/dates.js:88 | `new Date(y, m, d)` lands `d - 1` days after the 1st of month `m mod 12` of year `FullYear(y) + m div 12` (before it when `d` is below 1). |
| JsDates.FullYear | src/js/dates.js:79 | A year argument from 0 to 99 means 1900 to 1999; any other year is kept. |
| JsDates.GetFirstDayOfMonth | src/js/dates.js:78-80 | Same year (as the constructor reads it) and month, day 1. |
| JsDates.GetLastDayOfMonth | src/js/dates.js:87-89 | Same year and month, and the month's length as the day: between 28 and 31, and 29 in February exactly in a Gregorian leap year. |
| JsDates.DayZeroOfNextMonth | src/js/dates.js:88 | Day 0 of the next month is the last day of this month. |
| JsDates.DaysInMonthRange | src/js/dates.js:87-89 | Month lengths are 28 to 31; February has 29 days exactly in leap years. |
| JsDates.IsSameDay | src/js/dates.js:108-114 | Same year, month and day of the month; `IsSameDayIgnoresTime` and `IsSameDayEquivalence` state its properties. |
| JsDates.IsSameDayIgnoresTime | src/js/dates.js:108-114 | `isSameDay` holds exactly when the dates differ at most in time of day. |
| JsDates.IsSameDayEquivalence | src/js/dates.js:108-114 | `isSameDay` is reflexive, symmetric and transitive. |
| JsStrings.Pad2 | src/stores/calendar.js:187 | `String(n).padStart(2, '0')` for n below 100 is two digits that read back as n. |
| JsStrings.ToNumberOfNatToString | src/stores/calendar.js:161 | `Number(String(n))` is n. |
| JsStrings.SplitThree | src/stores/calendar.js:161 | Three dash-free pieces joined with `-` split back into the same three. |
| Utils.GroupThousands | src/js/utils.js:10-13 | The integer part is non-empty and holds only digits and commas. |
| Utils.GroupThousandsShape | src/js/utils.js:10-13 | Split at the commas, the first group has 1 to 3 digits (no leading zero unless the value is 0) and every later group has exactly 3. |
| Utils.AmountColorClass | src/js/utils.js:18-20 | `text-positive` exactly for positive amounts, `text-negative` for negative, `text-grey-6` for zero. |
| Utils.CurrencyFormat | src/js/utils.js:1-15 | The sign, `" $ "`, then the grouped magnitude with two decimals; `CurrencyFormatSign` and `CurrencyFormatRoundTrip` state what the string says. |
| Utils.CurrencyFormatSign | src/js/utils.js:1-15 | The output starts with `+ $ ` for positive amounts, `- $ ` for negative and ` $ ` for zero. |
| Utils.CurrencyFormatNegation | src/js/utils.js:4-15 | `currencyFormat(-x)` and `currencyFormat(x)` differ only in the sign character. |
| Utils.ColorClassMatchesFormat | src/js/utils.js:4-19 | The colour class and the formatted sign character always agree. |
| Utils.FormatMagnitudeRoundTrip | src/js/utils.js:8-13 | The grouped magnitude with two decimals reads back as the number of cents. |
| Utils.CurrencyFormatRoundTrip | src/js/utils.js:1-15 | The whole formatted string reads back as the amount, so no two amounts format alike. |
| Utils.CurrencyFormatExampleGrouped | src/tests/js/utils.spec.js:20-22 | 1234567.89 formats as `+ $ 1,234,567.89`. |
| Utils.CurrencyFormatExampleNegative | src/tests/js/utils.spec.js:11-14 | -999.99 formats as `- $ 999.99`. |
| Utils.CurrencyFormatExampleZero | src/tests/js/utils.spec.js:16-18 | 0 formats as ` $ 0.00`. |
| Utils.GroupedThousands | src/tests/js/utils.spec.js:6-9 | 1234 dollars group as `1,234`. |

## Left out

- Network I/O and `await` ordering are not modelled: the events store's fetches, `fetchProfileInfo`, and `createScenario`, `deleteScenario`, `updateScenario`. `fetchScenarios` receives its response as a parameter. Navigation takes the entries the events store would hold and runs sequentially, so the race between overlapping navigations is not represented.
- The clock is a parameter: "today" and `new Date()` are passed in, and `getYears` takes the current year.
- Amounts are whole numbers of cents. `parseFloat`, floating-point sums and `toLocaleString` rounding of fractions of a cent are not modelled. Values that are strings rather than numbers are not modelled either.
- `Number()` is modelled for digit strings and "" only. Every other string is treated as not a number, so signs, decimals and white space in occurrence dates are not read as JavaScript would.
- Case mapping covers ASCII letters only, and `trim`/`\s` use the ECMAScript white-space set of single UTF-16 units.
- Occurrences that are not strings (`new Date(o).toISOString()`) are not modelled, and neither are time zones: a date is a local calendar day plus a time of day.
- The events store (`monthlyEvents`, `filterEventsByDateRange`) is not part of this model; the grid receives the entries as a parameter.
- `currentMonthYear`, `fixDate`, `formatDate` and `addMonths` are not modelled: they are locale formatting or wrappers over the luxon library.
- The calendar store's `resetForNewUser` is not modelled: it calls `resetCalendar` (modelled) and the other stores' resets (the scenario store's is modelled).
- The UI and configuration (`showSuccessCheckmark`, routing, boot files, the profile and auth stores) are not modelled.
- CalendarStore.Calendar.SetCalendarToDate: takes "today" and the entries before `year`, `month` and `day`, so that `day` keeps its default of 1 as the last parameter.
- JsDates.MakeDate: the range of JavaScript time values (±8.64e15 ms, about years -271821 to 275760) is not modelled. Outside it `new Date(y, m, d)` is an Invalid Date, `getDate()` and `getDay()` give NaN, and the loops of `updateCalendarDays` build an empty grid. The model builds a valid day and a full grid there.
- Constants.GetYears: the RangeError that `Array.from({ length })` throws for a length of 2^32 or more is not modelled; the model returns the sequence.
- CalendarGrid.GridMonthEvents: states "the candidate filter loses nothing" only for years from 100 on. For years 0 to 99 the Date constructor reads the day as 1900 + year, and the day key no longer matches the month test.
- CalendarStore.NextThenPreviousMonth and CalendarStore.PreviousThenNextMonth: stated for years from 100 (resp. 101) on, because stepping back into year 99 is re-read as 1999, as CalendarStore.Year99NavigationExample shows.

## Findings

| source | as written | input that shows it | evidently intended | confidence | as-written member | corrected member |
|---|---|---|---|---|---|---|
| src/stores/constants.js:227-233 | A name made only of special characters normalises to "". Every key includes "", so the partial stage returns the first entry of the map. | `getBrandIcon('!!!')` gives `Spotify.png`; `getBrandColor('!!!')` gives `#1A2B2C` | No brand for a name with no letters or digits | not executed | ConstantsExamples.AsWrittenSpecialCharactersExample | Constants.BrandLookup |
| src/stores/constants.js:224 | The exact stage reads `brandIconMap[normalizedName]` on a plain object, so names of `Object.prototype` members answer with the inherited function. | `getBrandIcon('Constructor')` returns the `Object` constructor, and `hasBrandIcon('Constructor', null)` is true | Only the map's own entries count | not executed | ConstantsExamples.AsWrittenConstructorExample | Constants.BrandLookup |
| src/stores/constants.js:241 | The first-word stage reads `brandIconMap[firstWord]` the same way (`brandColors[firstWord]` at line 288). | `getBrandIcon('Constructor Inc')` returns the `Object` constructor | Only the map's own entries count | not executed | ConstantsExamples.AsWrittenFirstWordConstructorExample | Constants.BrandLookup |

`Constants.BrandLookupAsWritten` models the source's matcher.
The corrected matcher is `Constants.BrandLookup`, and `Constants.FindBrandValue` implements it. `GetBrandIcon`, `GetBrandColor` and `HasBrandIcon` use it.

- First row: `Constants.AsWrittenEmptyNameTakesFirstEntry` proves that the corrected matcher returns null for a name that normalises to "".
- Second row: `Constants.BrandLookupIsTableValue` proves that the corrected matcher returns only non-empty values of the map.
- Third row: `Constants.AsWrittenFirstWordInheritedHit` states the general case, and `Constants.BrandLookupIsTableValue` applies as for the second row.
- Every other name: `Constants.AsWrittenAgreesOtherwise` proves that the two matchers agree.
