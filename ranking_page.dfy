/**
 * The month selector of the ranking page: the displayed (year, month)
 * starts at the current month in KST, steps back freely and steps forward
 * until it reaches the current month again.
 */
module RankingPage {
  import opened JsDate
  import opened Badges

  datatype YearMonth = YearMonth(year: int, month: int)

  predicate ValidMonth(ym: YearMonth) { 1 <= ym.month <= 12 }

  /** Months counted from January of year 0: the order the selector walks. */
  function MonthIndex(ym: YearMonth): int { ym.year * 12 + ym.month - 1 }

  /** Two valid months with the same index are the same month. */
  lemma IndexInjective(a: YearMonth, b: YearMonth)
    requires ValidMonth(a) && ValidMonth(b) && MonthIndex(a) == MonthIndex(b)
    ensures a == b
  {
    assert a.year == MonthIndex(a) / 12 && b.year == MonthIndex(b) / 12;
  }

  /** `handlePrevMonth`: the month before, January rolling back to December. */
  function PrevOf(ym: YearMonth): (p: YearMonth)
    requires ValidMonth(ym)
    ensures ValidMonth(p) && MonthIndex(p) == MonthIndex(ym) - 1
  {
    if ym.month == 1 then YearMonth(ym.year - 1, 12) else YearMonth(ym.year, ym.month - 1)
  }

  /** `handleNextMonth`: nothing at the current month, otherwise the month after. */
  function NextOf(ym: YearMonth, current: YearMonth): (n: YearMonth)
    requires ValidMonth(ym)
    ensures ValidMonth(n)
    ensures ym == current ==> n == ym
    ensures ym != current ==> MonthIndex(n) == MonthIndex(ym) + 1
  {
    if ym == current then ym
    else if ym.month == 12 then YearMonth(ym.year + 1, 1) else YearMonth(ym.year, ym.month + 1)
  }

  /** Back from January is December of the year before; otherwise the year stays. */
  lemma PrevCases(ym: YearMonth)
    requires ValidMonth(ym)
    ensures ym.month == 1 ==> PrevOf(ym) == YearMonth(ym.year - 1, 12)
    ensures ym.month != 1 ==> PrevOf(ym) == YearMonth(ym.year, ym.month - 1)
  {
    if ym.month == 1 {
      IndexInjective(PrevOf(ym), YearMonth(ym.year - 1, 12));
    } else {
      IndexInjective(PrevOf(ym), YearMonth(ym.year, ym.month - 1));
    }
  }

  /** Forward from December is January of the year after, unless December is the current month. */
  lemma NextCases(ym: YearMonth, current: YearMonth)
    requires ValidMonth(ym) && ym != current
    ensures ym.month == 12 ==> NextOf(ym, current) == YearMonth(ym.year + 1, 1)
    ensures ym.month != 12 ==> NextOf(ym, current) == YearMonth(ym.year, ym.month + 1)
  {
    if ym.month == 12 {
      IndexInjective(NextOf(ym, current), YearMonth(ym.year + 1, 1));
    } else {
      IndexInjective(NextOf(ym, current), YearMonth(ym.year, ym.month + 1));
    }
  }

  /** Neither step carries a display at or before the current month past it. */
  lemma StepsStayBehind(ym: YearMonth, current: YearMonth)
    requires ValidMonth(ym) && ValidMonth(current) && MonthIndex(ym) <= MonthIndex(current)
    ensures MonthIndex(PrevOf(ym)) <= MonthIndex(current)
    ensures MonthIndex(NextOf(ym, current)) <= MonthIndex(current)
  {
    if ym != current && MonthIndex(ym) == MonthIndex(current) {
      IndexInjective(ym, current);
    }
  }

  /** Stepping forward after stepping back returns to where the display was. */
  lemma NextAfterPrev(ym: YearMonth, current: YearMonth)
    requires ValidMonth(ym) && ValidMonth(current) && MonthIndex(ym) <= MonthIndex(current)
    ensures NextOf(PrevOf(ym), current) == ym
  {
    var p := PrevOf(ym);
    assert p != current;
    IndexInjective(NextOf(p, current), ym);
  }

  /** The page's month state. */
  class MonthNavigator {
    /** `kstNow.getUTCFullYear()` and `kstNow.getUTCMonth() + 1`. */
    const currentYear: int
    const currentMonth: int
    var displayYear: int
    var displayMonth: int

    function Display(): YearMonth
      reads this
    {
      YearMonth(displayYear, displayMonth)
    }

    function Current(): YearMonth { YearMonth(currentYear, currentMonth) }

    /** Both months are real months and the display is not past the current one. */
    predicate Valid()
      reads this
    {
      ValidMonth(Display()) && ValidMonth(Current()) && MonthIndex(Display()) <= MonthIndex(Current())
    }

    /** The selector opens at the current KST month of `now`. */
    constructor(now: nat)
      ensures Valid()
      ensures Current() == YearMonth(LocalCivil(now, KstOffset).year, LocalCivil(now, KstOffset).month)
      ensures Display() == Current()
    {
      var kstNow := LocalCivil(now, KstOffset);
      currentYear := kstNow.year;
      currentMonth := kstNow.month;
      displayYear := kstNow.year;
      displayMonth := kstNow.month;
    }

    method HandlePrevMonth()
      requires Valid()
      modifies this
      ensures Valid()
      ensures Display() == PrevOf(old(Display()))
    {
      StepsStayBehind(Display(), Current());
      if displayMonth == 1 {
        displayMonth := 12;
        displayYear := displayYear - 1;
      } else {
        displayMonth := displayMonth - 1;
      }
    }

    method HandleNextMonth()
      requires Valid()
      modifies this
      ensures Valid()
      ensures Display() == NextOf(old(Display()), Current())
    {
      StepsStayBehind(Display(), Current());
      if displayYear == currentYear && displayMonth == currentMonth {
        return;
      }
      if displayMonth == 12 {
        displayMonth := 1;
        displayYear := displayYear + 1;
      } else {
        displayMonth := displayMonth + 1;
      }
    }

    /** The "next" button is disabled exactly when stepping forward would do nothing. */
    function IsCurrentMonth(): (b: bool)
      requires Valid()
      reads this
      ensures b <==> NextOf(Display(), Current()) == Display()
    {
      displayYear == currentYear && displayMonth == currentMonth
    }
  }
}
