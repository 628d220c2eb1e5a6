/**
 * The logic of the month calendar (src/components/Calendar.jsx, without its JSX): the
 * status of a day, the month arithmetic, the month grid and the month navigation.
 */
module Calendar {
  import opened Wrappers
  import opened Gregorian
  import opened Models

  /** The colour class of a day: all active items done, some not done, or nothing active. */
  datatype DayStatus = Completed | Incomplete | NoneActive

  /** `items.filter(item => isItemActiveOnDate(item, date))`. */
  function ActiveItems(items: seq<Item>, date: Date): (r: seq<Item>)
    ensures |r| <= |items|
    ensures forall x :: x in r <==> x in items && IsItemActiveOnDate(x, date)
  {
    if items == [] then []
    else if IsItemActiveOnDate(items[0], date) then [items[0]] + ActiveItems(items[1..], date)
    else ActiveItems(items[1..], date)
  }

  /** `items.filter(item => isItemCompletedOnDate(item, date))`: as long as `items` exactly when all are done. */
  function CompletedItems(items: seq<Item>, date: Date): (r: seq<Item>)
    ensures |r| <= |items|
    ensures |r| == |items| <==> forall x :: x in items ==> IsItemCompletedOnDate(x, date)
  {
    if items == [] then []
    else if IsItemCompletedOnDate(items[0], date) then [items[0]] + CompletedItems(items[1..], date)
    else CompletedItems(items[1..], date)
  }

  /** The status of `date` over both collections, by comparing the lengths of the filtered lists. */
  function GetDayStatus(date: Date, habits: seq<Item>, tasks: seq<Item>): DayStatus
  {
    var allItems := habits + tasks;
    var activeItems := ActiveItems(allItems, date);
    if |activeItems| == 0 then NoneActive
    else
      var completedItems := CompletedItems(activeItems, date);
      if |completedItems| == |activeItems| then Completed else Incomplete
  }

  /**
   * What the status means: none when no item of either collection is active, completed
   * when some are and all of those are done, incomplete when an active item is not done.
   */
  lemma DayStatusMeaning(date: Date, habits: seq<Item>, tasks: seq<Item>)
    ensures GetDayStatus(date, habits, tasks) == NoneActive
        <==> forall x :: x in habits + tasks ==> !IsItemActiveOnDate(x, date)
    ensures GetDayStatus(date, habits, tasks) == Completed
        <==> (exists x :: x in habits + tasks && IsItemActiveOnDate(x, date))
             && forall x :: x in habits + tasks && IsItemActiveOnDate(x, date) ==> IsItemCompletedOnDate(x, date)
    ensures GetDayStatus(date, habits, tasks) == Incomplete
        <==> exists x :: x in habits + tasks && IsItemActiveOnDate(x, date) && !IsItemCompletedOnDate(x, date)
  {
    var active := ActiveItems(habits + tasks, date);
    if active != [] {
      assert active[0] in active;
    }
  }

  /** While every item is daily or weekly, a day shows no status exactly when there are no items at all. */
  lemma NoneOnlyWithoutItems(date: Date, habits: seq<Item>, tasks: seq<Item>)
    requires forall x :: x in habits + tasks ==> x.frequency == DAILY || x.frequency == WEEKLY
    ensures GetDayStatus(date, habits, tasks) == NoneActive <==> habits == [] && tasks == []
  {
    DayStatusMeaning(date, habits, tasks);
    if habits + tasks != [] {
      assert (habits + tasks)[0] in habits + tasks;
    }
  }

  // ---------------------------------------------------------------- months

  /** Months counted from January of year 0: consecutive months have consecutive numbers. */
  function MonthNumber(d: CalendarDate): int
  {
    d.year * 12 + d.month - 1
  }

  /**
   * The first day of month `monthIndex` (0-based, and allowed to run past 0..11) of `year`:
   * how `new Date(year, monthIndex, 1)` carries surplus months into the year.
   */
  function FirstOfMonthIndex(year: int, monthIndex: int): (r: Date)
    ensures r.day == 1 && MonthNumber(r) == year * 12 + monthIndex
  {
    CalendarDate(year + monthIndex / 12, monthIndex % 12 + 1, 1)
  }

  /** `new Date(date.getFullYear(), date.getMonth(), 1)`. */
  function FirstOfMonth(d: Date): (r: Date)
    ensures r == CalendarDate(d.year, d.month, 1)
  {
    FirstOfMonthIndex(d.year, d.month - 1)
  }

  /** The first of the month after the month of `d` (goToNextMonth). */
  function NextMonth(d: Date): (r: Date)
    ensures r.day == 1 && MonthNumber(r) == MonthNumber(d) + 1
  {
    FirstOfMonthIndex(d.year, d.month - 1 + 1)
  }

  /** The first of the month before the month of `d` (goToPreviousMonth). */
  function PreviousMonth(d: Date): (r: Date)
    ensures r.day == 1 && MonthNumber(r) == MonthNumber(d) - 1
  {
    FirstOfMonthIndex(d.year, d.month - 1 - 1)
  }

  /** Two first-of-month dates with the same month number are the same date. */
  lemma MonthNumberInjective(a: Date, b: Date)
    requires a.day == b.day && MonthNumber(a) == MonthNumber(b)
    ensures a == b
  {
  }

  /** December rolls over to January of the next year; other months stay in their year. */
  lemma NextMonthRollsOver(d: Date)
    ensures d.month == 12 ==> NextMonth(d) == CalendarDate(d.year + 1, 1, 1)
    ensures d.month < 12 ==> NextMonth(d) == CalendarDate(d.year, d.month + 1, 1)
  {
    var n := CalendarDate(if d.month == 12 then d.year + 1 else d.year, if d.month == 12 then 1 else d.month + 1, 1);
    MonthNumberInjective(NextMonth(d), n);
  }

  /** January rolls back to December of the year before; other months stay in their year. */
  lemma PreviousMonthRollsOver(d: Date)
    ensures d.month == 1 ==> PreviousMonth(d) == CalendarDate(d.year - 1, 12, 1)
    ensures d.month > 1 ==> PreviousMonth(d) == CalendarDate(d.year, d.month - 1, 1)
  {
    var p := CalendarDate(if d.month == 1 then d.year - 1 else d.year, if d.month == 1 then 12 else d.month - 1, 1);
    MonthNumberInjective(PreviousMonth(d), p);
  }

  /** A step forward and a step back, in either order, return to the first of the starting month. */
  lemma NextPreviousInverse(d: Date)
    ensures PreviousMonth(NextMonth(d)) == FirstOfMonth(d)
    ensures NextMonth(PreviousMonth(d)) == FirstOfMonth(d)
  {
    MonthNumberInjective(PreviousMonth(NextMonth(d)), FirstOfMonth(d));
    MonthNumberInjective(NextMonth(PreviousMonth(d)), FirstOfMonth(d));
  }

  // ---------------------------------------------------------------- grid arithmetic

  /** getDaysInMonth: the last day of the month of `d`, the day before the first of the next month. */
  function GetDaysInMonth(d: Date): (r: int)
    ensures 28 <= r <= 31
    ensures ValidDate(CalendarDate(d.year, d.month, r)) && !ValidDate(CalendarDate(d.year, d.month, r + 1))
  {
    DaysInMonth(d.year, d.month)
  }

  /**
   * The weekday of the first of the month in a week that starts on Monday: 0 is Monday,
   * 6 is Sunday (1 January 1970, day 0 of the count, was a Thursday, 3).
   */
  function GetFirstDayOfMonth(d: Date): (r: int)
    ensures 0 <= r <= 6
    ensures r == (DaysFromCivil(d.year, d.month, 1) + 3) % 7
  {
    var day := DayOfWeek(CalendarDate(d.year, d.month, 1));
    MondayFirst(DaysFromCivil(d.year, d.month, 1));
    if day == 0 then 6 else day - 1
  }

  /** Turning a Sunday-first weekday into a Monday-first one is a shift by one day. */
  lemma MondayFirst(n: int)
    ensures var day := (n + 4) % 7; (if day == 0 then 6 else day - 1) == (n + 3) % 7
  {
  }

  /** Moving on by `n` days moves the weekday on by `n` modulo 7. */
  lemma WeekdayAdvance(s: int, n: int, t: int)
    requires t == s + n
    ensures (t + 3) % 7 == ((s + 3) % 7 + n) % 7
  {
  }

  /**
   * The next month's grid starts on the weekday after this month's last day: its number
   * of leading empty cells is this month's cell count modulo 7.
   */
  lemma NextMonthContinuesWeek(d: Date)
    ensures GetFirstDayOfMonth(NextMonth(d)) == (GetFirstDayOfMonth(d) + GetDaysInMonth(d)) % 7
  {
    var next := NextMonth(d);
    NextMonthRollsOver(d);
    MonthLengthConsistent(d.year, d.month);
    var s := DaysFromCivil(d.year, d.month, 1);
    var t := DaysFromCivil(next.year, next.month, 1);
    var n := GetDaysInMonth(d);
    assert t == s + n;
    assert GetFirstDayOfMonth(next) == (t + 3) % 7;
    assert GetFirstDayOfMonth(d) == (s + 3) % 7;
    WeekdayAdvance(s, n, t);
  }

  /** Anchors of the day count: 1 January 1970 was a Thursday, 1 January 2000 a Saturday, 1 January 2024 a Monday. */
  lemma KnownWeekdays()
    ensures DaysFromCivil(1970, 1, 1) == 0 && DayOfWeek(CalendarDate(1970, 1, 1)) == 4
    ensures DayOfWeek(CalendarDate(2000, 1, 1)) == 6
    ensures GetFirstDayOfMonth(CalendarDate(2024, 1, 1)) == 0
  {
  }

  // ---------------------------------------------------------------- the Date constructor as written

  /** `new Date(year, ...)` reads a year argument of 0..99 as 1900..1999 (the ECMAScript Date constructor). */
  function JsYear(year: int): int
  {
    if 0 <= year <= 99 then 1900 + year else year
  }

  /** `new Date(year, monthIndex, 1)` as the Date constructor evaluates it. */
  function MakeFirstOfMonth(year: int, monthIndex: int): (r: Date)
    ensures r.day == 1
    ensures 0 <= year <= 99 ==> MonthNumber(r) == (1900 + year) * 12 + monthIndex
    ensures !(0 <= year <= 99) ==> r == FirstOfMonthIndex(year, monthIndex)
  {
    FirstOfMonthIndex(JsYear(year), monthIndex)
  }

  /** goToNextMonth as written: `new Date(getFullYear(), getMonth() + 1, 1)`. */
  function NextMonthAsWritten(d: Date): Date
  {
    MakeFirstOfMonth(d.year, d.month - 1 + 1)
  }

  /** goToPreviousMonth as written: `new Date(getFullYear(), getMonth() - 1, 1)`. */
  function PreviousMonthAsWritten(d: Date): Date
  {
    MakeFirstOfMonth(d.year, d.month - 1 - 1)
  }

  /** getFirstDayOfMonth as written: the weekday of `new Date(getFullYear(), getMonth(), 1)`. */
  function GetFirstDayOfMonthAsWritten(d: Date): int
  {
    var first := MakeFirstOfMonth(d.year, d.month - 1);
    var day := DayOfWeek(CalendarDate(first.year, first.month, 1));
    if day == 0 then 6 else day - 1
  }

  /** getDaysInMonth as written: the last day of the month of `new Date(getFullYear(), getMonth() + 1, 0)`. */
  function GetDaysInMonthAsWritten(d: Date): (r: int)
    ensures 28 <= r <= 31
  {
    DaysInMonth(JsYear(d.year), d.month)
  }

  /**
   * The two-digit-year reading changes the month length only for February of year 0: year 0
   * is a leap year and 1900 is not, while every other year y of 0..99 is a leap year exactly
   * when 1900 + y is.
   */
  lemma DaysInMonthAsWrittenDiffers(d: Date)
    ensures GetDaysInMonthAsWritten(d) != GetDaysInMonth(d) <==> d.year == 0 && d.month == 2
    ensures d.year == 0 && d.month == 2 ==> GetDaysInMonthAsWritten(d) == 28 && GetDaysInMonth(d) == 29
  {
    if 1 <= d.year <= 99 {
      assert IsLeapYear(1900 + d.year) <==> IsLeapYear(d.year);
    }
  }

  /** Outside the years 0..99 the code as written computes exactly the intended months, weekdays and month lengths. */
  lemma AsWrittenAgreesOutsideTwoDigitYears(d: Date)
    requires d.year < 0 || d.year > 99
    ensures NextMonthAsWritten(d) == NextMonth(d)
    ensures PreviousMonthAsWritten(d) == PreviousMonth(d)
    ensures GetFirstDayOfMonthAsWritten(d) == GetFirstDayOfMonth(d)
    ensures GetDaysInMonthAsWritten(d) == GetDaysInMonth(d)
  {
    assert JsYear(d.year) == d.year;
    var first := MakeFirstOfMonth(d.year, d.month - 1);
    assert first == FirstOfMonth(d) == CalendarDate(d.year, d.month, 1);
  }

  /**
   * December of year 99 is reached by going back from January of year 100, and from there
   * the code as written jumps to the twentieth century: forward to January 2000, back to
   * November 1999, where the intended steps give January 100 and November 99.
   */
  lemma TwoDigitYearNavigation()
    ensures PreviousMonthAsWritten(CalendarDate(100, 1, 1)) == CalendarDate(99, 12, 1)
    ensures NextMonthAsWritten(CalendarDate(99, 12, 1)) == CalendarDate(2000, 1, 1)
    ensures NextMonth(CalendarDate(99, 12, 1)) == CalendarDate(100, 1, 1)
    ensures PreviousMonthAsWritten(CalendarDate(99, 12, 1)) == CalendarDate(1999, 11, 1)
    ensures PreviousMonth(CalendarDate(99, 12, 1)) == CalendarDate(99, 11, 1)
  {
    assert JsYear(100) == 100 && JsYear(99) == 1999;
    assert FirstOfMonthIndex(100, -1) == CalendarDate(99, 12, 1);
    assert FirstOfMonthIndex(1999, 12) == CalendarDate(2000, 1, 1);
    assert FirstOfMonthIndex(99, 12) == CalendarDate(100, 1, 1);
    assert FirstOfMonthIndex(1999, 10) == CalendarDate(1999, 11, 1);
    assert FirstOfMonthIndex(99, 10) == CalendarDate(99, 11, 1);
  }

  /** For December of year 99 the code as written takes the first weekday from 1999. */
  lemma TwoDigitYearFirstWeekday()
    ensures GetFirstDayOfMonthAsWritten(CalendarDate(99, 12, 1)) == GetFirstDayOfMonth(CalendarDate(1999, 12, 1))
    ensures GetFirstDayOfMonthAsWritten(CalendarDate(99, 12, 1)) != GetFirstDayOfMonth(CalendarDate(99, 12, 1))
  {
    assert MakeFirstOfMonth(99, 11) == CalendarDate(1999, 12, 1);
    assert DayOfWeek(CalendarDate(1999, 12, 1)) == 3;
    assert DayOfWeek(CalendarDate(99, 12, 1)) == 2;
  }

  // ---------------------------------------------------------------- the component state

  /** The calendar component's `currentDate` state and the grid it renders. */
  class CalendarView {
    var currentDate: Date

    /** `useState(new Date())`: the clock's reading is passed in. */
    constructor (now: Date)
      ensures currentDate == now
    {
      currentDate := now;
    }

    method GoToPreviousMonth()
      modifies this
      ensures currentDate == PreviousMonth(old(currentDate))
    {
      currentDate := FirstOfMonthIndex(currentDate.year, currentDate.month - 1 - 1);
    }

    method GoToNextMonth()
      modifies this
      ensures currentDate == NextMonth(old(currentDate))
    {
      currentDate := FirstOfMonthIndex(currentDate.year, currentDate.month - 1 + 1);
    }

    method GoToToday(today: Date)
      modifies this
      ensures currentDate == FirstOfMonth(today)
    {
      currentDate := FirstOfMonthIndex(today.year, today.month - 1);
    }

    /**
     * The cells of the month grid: one empty cell per weekday before the first of the
     * month, then days 1 to the last day of the month in order.
     */
    method BuildDays() returns (days: seq<Option<Date>>)
      ensures |days| == GetFirstDayOfMonth(currentDate) + GetDaysInMonth(currentDate)
      ensures forall i :: 0 <= i < GetFirstDayOfMonth(currentDate) ==> days[i] == None
      ensures forall i :: GetFirstDayOfMonth(currentDate) <= i < |days| ==>
        days[i].Some? && days[i].value == CalendarDate(currentDate.year, currentDate.month, i - GetFirstDayOfMonth(currentDate) + 1)
    {
      var firstDay := GetFirstDayOfMonth(currentDate);
      var daysInMonth := GetDaysInMonth(currentDate);
      days := [];
      var i := 0;
      while i < firstDay
        invariant 0 <= i <= firstDay && |days| == i
        invariant forall k :: 0 <= k < i ==> days[k] == None
      {
        days := days + [None];
        i := i + 1;
      }
      var day := 1;
      while day <= daysInMonth
        invariant 1 <= day <= daysInMonth + 1
        invariant |days| == firstDay + day - 1
        invariant forall k :: 0 <= k < firstDay ==> days[k] == None
        invariant forall k :: firstDay <= k < |days| ==>
          days[k].Some? && days[k].value == CalendarDate(currentDate.year, currentDate.month, k - firstDay + 1)
      {
        var date: Date := CalendarDate(currentDate.year, currentDate.month, day);
        days := days + [Some(date)];
        day := day + 1;
      }
    }
  }
}
