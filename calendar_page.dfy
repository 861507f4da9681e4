/**
 * The personal calendar page: the number of days of the shown month, the
 * weekday it starts on, the grid of blank and numbered cells, and the
 * month arrows, which wrap December and January around without changing
 * the year. Dates are the browser's local time, `offset` ms ahead of UTC.
 */
module CalendarPage {
  import opened JsDate

  /** `new Date(year, monthIndex, date)` read back with `getDate`/`getDay` lands on day `MakeDay`. */
  lemma LocalMidnightDay(year: int, monthIndex: int, date: int, offset: int)
    ensures DayNumber(LocalInstant(year, monthIndex, date, 0, 0, 0, 0, offset), offset) == MakeDay(FullYear(year), monthIndex, date)
  {
    var n := MakeDay(FullYear(year), monthIndex, date);
    assert LocalInstant(year, monthIndex, date, 0, 0, 0, 0, offset) + offset == n * MsPerDay;
  }

  /** `getDaysInMonth(year, month)`: the date of day 0 of the following month; `month` is 0-based. */
  function DaysInShownMonth(year: int, month: int, offset: int): int {
    LocalCivil(LocalInstant(year, month + 1, 0, 0, 0, 0, 0, offset), offset).day
  }

  /** The day before the first of the next month is the last day of this month. */
  lemma DaysInShownMonthIs(year: int, month: int, offset: int)
    requires 0 <= month <= 11
    ensures DaysInShownMonth(year, month, offset) == DaysInMonth(FullYear(year), month + 1)
  {
    var y, m := FullYear(year), month + 1;
    var n := MakeDay(y, m, 0);
    LocalMidnightDay(year, m, 0, offset);
    assert LocalCivil(LocalInstant(year, m, 0, 0, 0, 0, 0, offset), offset) == CivilFromDays(n);
    DayZeroOfNext(y, m);
    LastDayOf(y, m);
    assert CivilFromDays(n) == Civil(y, m, DaysInMonth(y, m));
  }

  /** A month has 28 to 31 days, and February has 29 exactly in a leap year. */
  lemma DaysInShownMonthRange(year: int, month: int, offset: int)
    requires 0 <= month <= 11
    ensures 28 <= DaysInShownMonth(year, month, offset) <= 31
    ensures month == 1 ==> (DaysInShownMonth(year, month, offset) == 29 <==> IsLeapYear(FullYear(year)))
  {
    DaysInShownMonthIs(year, month, offset);
  }

  /** `getFirstDayOfMonth(year, month)`: the weekday of the 1st, 0 being Sunday. */
  function FirstDayOfShownMonth(year: int, month: int, offset: int): (w: int)
    ensures 0 <= w <= 6
  {
    WeekDay(DayNumber(LocalInstant(year, month, 1, 0, 0, 0, 0, offset), offset))
  }

  /** The first weekday is that of the 1st of the month, whatever the time zone. */
  lemma FirstDayIs(year: int, month: int, offset: int)
    requires 0 <= month <= 11
    ensures FirstDayOfShownMonth(year, month, offset) == WeekDay(DaysFromCivil(Civil(FullYear(year), month + 1, 1)))
  {
    LocalMidnightDay(year, month, 1, offset);
  }

  /** The arrows: 0-based months wrapping 0 and 11 into each other. */
  function PrevIndex(m: int): (p: int)
    requires 0 <= m <= 11
    ensures 0 <= p <= 11 && p == (m + 11) % 12
  {
    if m == 0 then 11 else m - 1
  }

  function NextIndex(m: int): (n: int)
    requires 0 <= m <= 11
    ensures 0 <= n <= 11 && n == (m + 1) % 12
  {
    if m == 11 then 0 else m + 1
  }

  /** Each arrow undoes the other. */
  lemma ArrowsInverse(m: int)
    requires 0 <= m <= 11
    ensures NextIndex(PrevIndex(m)) == m && PrevIndex(NextIndex(m)) == m
  {
  }

  /** `blanks`: one empty cell per weekday before the 1st. */
  function Blanks(year: int, month: int, offset: int): (b: seq<int>)
    ensures |b| == FirstDayOfShownMonth(year, month, offset)
  {
    seq(FirstDayOfShownMonth(year, month, offset), i => i)
  }

  /** `days`: the cells numbered 1..daysInMonth. */
  function Days(year: int, month: int, offset: int): (d: seq<int>)
    ensures |d| == if DaysInShownMonth(year, month, offset) < 0 then 0 else DaysInShownMonth(year, month, offset)
  {
    var n := DaysInShownMonth(year, month, offset);
    seq(if n < 0 then 0 else n, i => i + 1)
  }

  /**
   * The grid shows the 1st under its weekday, numbers every day of the
   * month once in order, and fits in six rows of seven.
   */
  lemma GridLayout(year: int, month: int, offset: int)
    requires 0 <= month <= 11
    ensures var d := Days(year, month, offset);
      |d| == DaysInMonth(FullYear(year), month + 1) &&
      (forall i :: 0 <= i < |d| ==> d[i] == i + 1) &&
      |Blanks(year, month, offset)| + |d| <= 42
  {
    DaysInShownMonthIs(year, month, offset);
  }

  /** The page's month state; the year has no setter. */
  class CalendarView {
    const currentYear: int
    var currentMonth: int

    predicate Valid()
      reads this
    {
      0 <= currentMonth <= 11
    }

    /** `useState(1)` and `useState(2026)`: February 2026. */
    constructor()
      ensures Valid() && currentYear == 2026 && currentMonth == 1
    {
      currentYear := 2026;
      currentMonth := 1;
    }

    method PrevMonth()
      requires Valid()
      modifies this
      ensures Valid() && currentMonth == PrevIndex(old(currentMonth))
    {
      currentMonth := if currentMonth == 0 then 11 else currentMonth - 1;
    }

    method NextMonth()
      requires Valid()
      modifies this
      ensures Valid() && currentMonth == NextIndex(old(currentMonth))
    {
      currentMonth := if currentMonth == 11 then 0 else currentMonth + 1;
    }

    /** `daysInMonth` of the shown month. */
    function ShownDays(offset: int): (n: int)
      requires Valid()
      reads this
      ensures 28 <= n <= 31 && n == DaysInMonth(FullYear(currentYear), currentMonth + 1)
    {
      DaysInShownMonthIs(currentYear, currentMonth, offset);
      DaysInShownMonth(currentYear, currentMonth, offset)
    }

    /** `firstDay` of the shown month. */
    function ShownFirstDay(offset: int): (w: int)
      requires Valid()
      reads this
      ensures 0 <= w <= 6 && w == WeekDay(DaysFromCivil(Civil(FullYear(currentYear), currentMonth + 1, 1)))
    {
      FirstDayIs(currentYear, currentMonth, offset);
      FirstDayOfShownMonth(currentYear, currentMonth, offset)
    }
  }
}
