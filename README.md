# Habit tracker core in Dafny

This project models the domain logic of a small browser habit tracker. In the tracker a user
keeps two lists of items, **habits** and **tasks**. Each item is **daily** or **weekly**. An
item is marked done on a day by recording that day's `YYYY-MM-DD` key in its
`completedDates`. Everything lives in one JSON document under one `localStorage` key. A month
calendar colours each day by whether all items active that day were done.

The model is split into modules that follow the source:

- `Models` (`models.dfy`) covers `src/utils/models.js`. It holds the item record, the
  frequency and type constants, item creation, and the "active" and "completed" tests. It
  also holds the date key: `formatDate`, with `String(n)` and `padStart` written out over
  `seq<char>`, and a strict `YYYY-MM-DD` parser for `parseDate`. The module is pure.
- `Storage` (`storage.dfy`) covers `src/utils/storage.js`. The class `LocalStore` holds the
  browser slot as the field `slot`. Every operation loads the document, changes it and saves
  it, exactly as the source does. The slot is absent, unreadable, or saved text whose two
  fields may be missing or falsy. A failing `setItem` is swallowed, which the constant
  `writable` captures. `ItemObject` is the live item whose `completedDates`
  `toggleCompletion` mutates in place. The document-level meaning of each operation is a
  function (`Added`, `Updated`, `Deleted`, `Toggled`), and the lemmas about it state the
  frame conditions.
- `Calendar` (`calendar.dfy`) covers the non-JSX part of `src/components/Calendar.jsx`. This
  is the three-way day status, the days in a month, and the Monday-first weekday of the first
  of the month. The class `CalendarView` holds the component's `currentDate` state, its three
  navigation handlers, and the two grid loops.
- `Gregorian` (`gregorian.dfy`) holds the proleptic Gregorian calendar that JavaScript's
  `Date` follows. It defines leap years, month lengths (section 5.7 and Appendix C of RFC
  3339), the `Date` subset type of dates that exist, and the day count since 1970-01-01 that
  weekdays come from.
- `Wrappers` (`wrappers.dfy`) holds `Option`.

A date is a `(year, month 1..12, day)` triple. The source's `type` field is called `kind`,
because `type` is a Dafny keyword. Kinds and frequencies stay strings, as the source compares
them with `===`: any kind other than `"habit"` goes to the tasks, and an unknown frequency is
never active.

`completedDates` is an array, and nothing in the code rules out duplicates in it. The model
keeps the order and proves that toggling preserves their absence
(`Storage.ToggleKeepsNoDuplicates`). Toggling a date off and on again moves the date to the
end of the array (`Storage.RemoveThenAdd`).

## Model

| member | source | states |
|---|---|---|
| Models.CreateItem | src/utils/models.js:29-37 | the new item carries exactly the given id, name, type and frequency, and no completed dates |
| Models.IsItemActiveOnDate | src/utils/models.js:45-58 | an item is active on a date if and only if its frequency is daily or weekly, whatever the date |
| Models.CreatedItemState | src/utils/models.js:29-58 | a new item is done on no date, and is active exactly when its frequency is daily or weekly |
| Models.KeyInKeys | src/utils/models.js:66-69 | the key of a date is among the keys of a list of dates if and only if the date is in the list |
| Models.CompletedOnRecordedDates | src/utils/models.js:66-69 | completion is tested through the date key only: an item whose completed dates are the keys of a list of dates is done on a date if and only if the date is in that list |
| Models.Digits | src/utils/models.js:78-79 | `String(n)` of a natural number is at least one decimal digit with no leading zero |
| Models.ValueOfDigits | src/utils/models.js:78-79 | the digits of n read back as n |
| Models.DigitsOfValue | src/utils/models.js:78-79 | a digit string without a leading zero is exactly the digits of the number it denotes |
| Models.TwoDigitsRoundTrip | src/utils/models.js:78-79 | a month or day number below 100, padded to two characters, is two digits that read back as the number |
| Models.TwoDigitsOfValue | src/utils/models.js:78-79 | every two-digit string is the padded rendering of the number it denotes |
| Models.YearTextSign | src/utils/models.js:77 | the year text starts with '-' exactly for years before 0, and the rest is the digits of the magnitude |
| Models.YearTextInjective | src/utils/models.js:77 | different years render as different year texts |
| Models.FormatDateLayout | src/utils/models.js:76-81 | a key is the year text, '-', two month digits, '-', two day digits, at fixed offsets from the end of the year |
| Models.FormatDateShape | src/utils/models.js:76-81 | for years 1000..9999 the key has 10 characters with '-' at positions 4 and 7, and its three digit fields denote the year, the 1-based month and the day |
| Models.FormatDateInjective | src/utils/models.js:76-81 | two dates have the same key if and only if they are the same date, for every year |
| Models.ParseFormatRoundTrip | src/utils/models.js:76-90 | parsing the key of a date with a four-digit year gives back that date |
| Models.FormatParseRoundTrip | src/utils/models.js:76-90 | a text that parses to a date with a four-digit year is that date's key, so keys are canonical |
| Storage.LocalStore.LoadData | src/utils/storage.js:11-28 | the loaded document is the one the slot denotes, with fail-open defaults |
| Storage.LoadFailOpen | src/utils/storage.js:11-28 | no stored text, or unreadable text, loads as two empty collections; a missing or falsy field loads as an empty collection; a present field loads as stored |
| Storage.LocalStore.SaveData | src/utils/storage.js:35-45 | the slot then holds both collections, or is unchanged when the write fails |
| Storage.LoadWritten | src/utils/storage.js:11-45 | loading what was saved gives back the saved document |
| Storage.WithSelected | src/utils/storage.js:55-62 | replacing the collection of a kind leaves the other collection as it was |
| Storage.LocalStore.AddItem | src/utils/storage.js:52-64 | it returns the loaded collection of the item's kind with the item appended, and saves the document with that collection |
| Storage.AddedAppends | src/utils/storage.js:52-64 | adding appends the item at the end of the habits for kind "habit" and of the tasks otherwise, and leaves the other collection unchanged |
| Storage.FindIndex | src/utils/storage.js:74 | the result is the first position whose id matches, or -1 exactly when no position matches |
| Storage.LocalStore.UpdateItem | src/utils/storage.js:70-86 | the slot is saved with the updated document when the id is found, and left alone otherwise |
| Storage.UpdatedMissing | src/utils/storage.js:70-86 | the update finds nothing if and only if no item of the selected collection has the id |
| Storage.UpdatedReplacesFirst | src/utils/storage.js:70-86 | an update replaces the first item with the id and nothing else: same length, every other position unchanged, other collection unchanged |
| Storage.UpdateAbsentKeepsSlot | src/utils/storage.js:75-84 | an update with an id absent from the selected collection leaves the slot exactly as it was, because nothing is saved |
| Storage.WithoutId | src/utils/storage.js:97 | filtering by id keeps exactly the items with another id |
| Storage.WithoutIdConcat | src/utils/storage.js:97 | the filter keeps the surviving items in their order, since it distributes over concatenation |
| Storage.WithoutIdAbsent | src/utils/storage.js:100 | filtering out an id that no item has changes nothing |
| Storage.LocalStore.DeleteItem | src/utils/storage.js:93-103 | the slot is saved with the id filtered out of the collection of the given kind |
| Storage.DeletedFilters | src/utils/storage.js:93-103 | deletion removes every item with the id from the selected collection, keeps the rest in order, and leaves the other collection unchanged |
| Storage.DeletedAbsent | src/utils/storage.js:93-103 | deleting an absent id gives back the same document |
| Storage.DeleteAbsentKeepsCollections | src/utils/storage.js:97-101 | after deleting an absent id, the store loads the same two collections as before |
| Storage.WithoutKey | src/utils/storage.js:116 | removing a key keeps exactly the other keys |
| Storage.WithoutKeyConcat | src/utils/storage.js:116 | removing a key keeps the other keys in their order, since it distributes over concatenation |
| Storage.WithoutKeyAbsent | src/utils/storage.js:116 | removing a key that is not there changes nothing |
| Storage.WithoutKeyAppended | src/utils/storage.js:116-119 | removing a key from a list with that key appended is removing it from the list |
| Storage.WithoutKeyNoDuplicates | src/utils/storage.js:116 | removing a key keeps a duplicate-free list duplicate-free |
| Storage.LocalStore.ToggleCompletion | src/utils/storage.js:110-123 | the passed item's dates are toggled in place, whether or not the store finds it, and the slot is what updating with the changed item gives |
| Storage.ToggleFlips | src/utils/storage.js:110-120 | toggling flips whether the date's key is recorded and leaves every other key as it was |
| Storage.ToggleTwiceSameMembers | src/utils/storage.js:114-120 | toggling the same date twice restores which keys are recorded |
| Storage.AddThenRemove | src/utils/storage.js:114-120 | toggling a date on and then off restores the exact list |
| Storage.RemoveThenAdd | src/utils/storage.js:114-120 | toggling a recorded date off and then on keeps the other keys in order and moves the date to the end |
| Storage.ToggleKeepsNoDuplicates | src/utils/storage.js:114-120 | toggling keeps a duplicate-free list of completed dates duplicate-free |
| Calendar.ActiveItems | src/components/Calendar.jsx:36-37 | the active items are exactly the items active on the date |
| Calendar.CompletedItems | src/components/Calendar.jsx:43-47 | the completed items are as many as the items if and only if every item is done on the date |
| Calendar.DayStatusMeaning | src/components/Calendar.jsx:35-52 | the status is none if and only if no item of either collection is active; completed if and only if some item is active and all active items are done; incomplete if and only if an active item is not done |
| Calendar.NoneOnlyWithoutItems | src/components/Calendar.jsx:36-41 | when every item is daily or weekly, the status is none if and only if both collections are empty |
| Gregorian.DaysInMonth | src/components/Calendar.jsx:24-26 | 31 days for months 1, 3, 5, 7, 8, 10 and 12, 30 for 4, 6, 9 and 11, 29 for February of a leap year and 28 otherwise |
| Calendar.GetDaysInMonth | src/components/Calendar.jsx:24-26 | the result is in 28..31 and is the last day of the month: that day exists and the next one does not |
| Gregorian.DayOfWeek | src/components/Calendar.jsx:17 | the weekday is in 0..6 |
| Gregorian.MarchYearLength | src/components/Calendar.jsx:15-17 | a year counted from March has 366 days when the following February is a leap month and 365 otherwise |
| Gregorian.MonthLengthConsistent | src/components/Calendar.jsx:24-26 | the first of the next month is the first of this month plus the month's length in days |
| Calendar.GetFirstDayOfMonth | src/components/Calendar.jsx:14-19 | the result is in 0..6, Monday first: the weekday of the first of the month shifted so that Monday is 0 and Sunday is 6 |
| Calendar.NextMonthContinuesWeek | src/components/Calendar.jsx:14-26 | the next month's first weekday is this month's first weekday plus its number of days, modulo 7 |
| Calendar.KnownWeekdays | src/components/Calendar.jsx:14-19 | 1 January 1970 is a Thursday, 1 January 2000 a Saturday, and January 2024 starts on a Monday |
| Calendar.FirstOfMonthIndex | src/components/Calendar.jsx:75 | a month index outside 0..11 carries into the year: the result is the first of the month with that month count |
| Calendar.FirstOfMonth | src/components/Calendar.jsx:15 | the first of the month of a date keeps its year and month |
| Calendar.NextMonth | src/components/Calendar.jsx:78-80 | the next month is a first of the month, one month count later |
| Calendar.PreviousMonth | src/components/Calendar.jsx:74-76 | the previous month is a first of the month, one month count earlier |
| Calendar.NextMonthRollsOver | src/components/Calendar.jsx:78-80 | December of year Y steps forward to January of Y+1, and any other month to the next month of the same year |
| Calendar.PreviousMonthRollsOver | src/components/Calendar.jsx:74-76 | January of year Y steps back to December of Y-1, and any other month to the previous month of the same year |
| Calendar.NextPreviousInverse | src/components/Calendar.jsx:74-80 | a step forward then back, or back then forward, returns to the first of the starting month |
| Calendar.MakeFirstOfMonth | src/components/Calendar.jsx:79 | the result is a first of the month; for a year argument of 0..99 its month count is that of year 1900 + year plus the month index, and any other year carries surplus months as given |
| Calendar.GetDaysInMonthAsWritten | src/components/Calendar.jsx:24-26 | the month length as the two-digit-year Date constructor computes it is in 28..31 |
| Calendar.DaysInMonthAsWrittenDiffers | src/components/Calendar.jsx:24-26 | the month length as written differs from the intended one exactly for February of year 0, where it is 28 (February 1900) instead of 29 |
| Calendar.AsWrittenAgreesOutsideTwoDigitYears | src/components/Calendar.jsx:74-80 | outside the years 0..99 the navigation, first-weekday and month-length code as written computes the intended dates, weekdays and lengths |
| Calendar.TwoDigitYearNavigation | src/components/Calendar.jsx:74-80 | from December of year 99, which is reached from January of year 100, the code as written steps forward to January 2000 and back to November 1999 |
| Calendar.TwoDigitYearFirstWeekday | src/components/Calendar.jsx:14-19 | for December of year 99 the code as written takes the weekday of 1 December 1999, which differs from that of 1 December 99 |
| Calendar.CalendarView.constructor | src/components/Calendar.jsx:55 | the view starts at the date the clock gives |
| Calendar.CalendarView.GoToPreviousMonth | src/components/Calendar.jsx:74-76 | the current date becomes the first of the previous month |
| Calendar.CalendarView.GoToNextMonth | src/components/Calendar.jsx:78-80 | the current date becomes the first of the next month |
| Calendar.CalendarView.GoToToday | src/components/Calendar.jsx:82-84 | the current date becomes the first of today's month |
| Calendar.CalendarView.BuildDays | src/components/Calendar.jsx:59-72 | the grid has first-weekday plus days-in-month cells; the leading first-weekday cells are empty and cell first-weekday + k is day k+1 of the current month |

## Left out

- Rendering: the JSX, the CSS classes, the legend, `today` highlighting and the
  `toLocaleDateString` labels of `src/components/Calendar.jsx`. All of `src/App.jsx` and
  `src/components/HabitList.jsx` are left out too. The caller's trimmed, non-empty name check
  before `createItem` belongs to the form, so `Models.CreateItem` does not require it.
- `crypto.randomUUID` is a foreign call. The id is a parameter of `Models.CreateItem`.
- The clock is a parameter: `new Date()` in the calendar becomes the `now` and `today`
  arguments of `CalendarView`.
- JSON text is not modelled. `Storage.Stored` sees saved text only through its two fields. A
  field that is truthy but not an array (a number, an object) would make later array calls
  throw; the model treats every present field as a list of items.
- `console.error` logging is left out. It has no effect on the state.
- A `setItem` that throws is the constant `LocalStore.writable`, fixed for the life of the
  store. A quota that changes between calls is not modelled.
- JS `Date` internals are left out: time of day, time zones, `setHours`, the local-midnight
  instant `parseDate` builds, and the limit of about 275,000 years on the `Date` range. Years
  are unbounded integers.
- Models.ParseDate: a strict `YYYY-MM-DD` reader that returns None for text of another shape
  and for a day that does not exist. The JS date-string parser accepts other shapes, which
  are not modelled. For well-shaped text naming a day that does not exist, such as
  `2024-02-30`, the result depends on the engine: some give an Invalid Date, others roll over
  into the next month.
  `formatDate` does not pad the year, so the round trips are stated for four-digit years only.
- Calendar.CalendarView.BuildDays: builds each cell with the current year itself, and takes
  its count of leading empty cells from `Calendar.GetFirstDayOfMonth` and its number of day
  cells from `Calendar.GetDaysInMonth`. For a current year of 0..99 the source's lines 59, 60
  and 70 use the two-digit-year Date constructor (see Findings): cells, offset and day count
  then come from year 1900 + year. That case is modelled only by
  `Calendar.GetFirstDayOfMonthAsWritten` and `Calendar.GetDaysInMonthAsWritten`, not in the
  grid.
- Calendar.GetDaysInMonth: the corrected month length. For February of year 0 the source's
  result is 28, the length of February 1900 (`Calendar.GetDaysInMonthAsWritten`,
  `Calendar.DaysInMonthAsWrittenDiffers`); every other month of every year agrees.
- Calendar.CalendarView.GoToPreviousMonth, Calendar.CalendarView.GoToNextMonth: take the
  corrected month step. For a current year of 0..99 the source's steps are
  `Calendar.PreviousMonthAsWritten` and `Calendar.NextMonthAsWritten`.
- Calendar.GetFirstDayOfMonth: the corrected weekday. For a year of 0..99 the source's
  result is `Calendar.GetFirstDayOfMonthAsWritten`.
- Storage.LocalStore.ToggleCompletion: the item saved is a copy of the object's value. Any
  aliasing between the caller's object and objects inside a loaded document is not
  modelled. In the source, the load always builds fresh objects.
- Concurrent tabs writing the same key (last write wins) are not modelled, since no logic in
  the code handles them.

## Findings

| source | as written | input that shows it | evidently intended | confidence | as-written member | corrected member |
|---|---|---|---|---|---|---|
| src/components/Calendar.jsx:74-80 | the month steps build `new Date(year, month ± 1, 1)`, and the Date constructor reads a year of 0..99 as 1900..1999 | going back from January of year 100 shows December of year 99; going forward from there shows January 2000 instead of January 100, and going back shows November 1999 | steps of one month in the proleptic calendar that the year before and after rolls over | not executed | Calendar.TwoDigitYearNavigation | Calendar.NextPreviousInverse |
| src/components/Calendar.jsx:14-19 | the first weekday is taken from `new Date(year, month, 1)`, with the same two-digit-year reading | December of year 99: the grid is offset with the weekday of 1 December 1999 (Wednesday) instead of 1 December 99 (Tuesday) | the weekday of the first of the displayed month | not executed | Calendar.TwoDigitYearFirstWeekday | Calendar.NextMonthContinuesWeek |
| src/components/Calendar.jsx:24-26 | the month length is the last day of `new Date(year, month + 1, 0)`, with the same two-digit-year reading | February of year 0 gets 28 days, the length of February 1900, while year 0 is a leap year with 29 | the length of the displayed month | not executed | Calendar.DaysInMonthAsWrittenDiffers | Calendar.GetDaysInMonth |
