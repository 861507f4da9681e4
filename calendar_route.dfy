/**
 * `/api/me/calendar?year=Y&month=M`: the distinct days of the month on
 * which the signed-in user posted. A missing or empty parameter falls back
 * to the current local year or month; the user's post instants are an input.
 */
module CalendarRoute {
  import opened Wrappers
  import opened JsText
  import opened JsDate
  import opened Sorting
  import opened MeRoute

  /* ---------------- the query ---------------- */

  /** `parseInt(param || String(fallback))`; `None` is `NaN`. */
  function QueryInt(param: Option<string>, fallback: int): Option<int> {
    ParseInt(if param.Some? && param.value != "" then param.value else IntToString(fallback))
  }

  /** A missing or empty parameter reads as the fallback. */
  lemma QueryDefault(param: Option<string>, fallback: nat)
    requires param.None? || param == Some("")
    ensures QueryInt(param, fallback) == Some(fallback)
  {
    PaddedNatParses(fallback, 0);
    assert PadStart(NatToString(fallback), 0, '0') == NatToString(fallback);
  }

  /** A decimal parameter reads as its value, whatever the fallback. */
  lemma QueryGiven(n: nat, fallback: int)
    ensures QueryInt(Some(NatToString(n)), fallback) == Some(n)
  {
    PaddedNatParses(n, 0);
    assert PadStart(NatToString(n), 0, '0') == NatToString(n);
  }

  /* ---------------- the window ---------------- */

  /** The year of the month `new Date(year, month - 1, 1)` lands in, after rolling. */
  function WindowYear(year: int, month: int): int { FullYear(year) + (month - 1) / 12 }

  /** The 1-based month `new Date(year, month - 1, 1)` lands in, after rolling. */
  function WindowMonth(year: int, month: int): (m: int)
    ensures 1 <= m <= 12
  {
    (month - 1) % 12 + 1
  }

  /** `gte: new Date(year, month - 1, 1), lte: new Date(year, month, 0, 23, 59, 59, 999)`. */
  predicate InWindow(t: int, year: int, month: int, offset: int) {
    LocalInstant(year, month - 1, 1, 0, 0, 0, 0, offset) <= t <= LocalInstant(year, month, 0, 23, 59, 59, 999, offset)
  }

  /** Day 0 of the next month is the last day of this one. */
  lemma LastDayOfWindow(year: int, month: int)
    ensures MakeDay(FullYear(year), month, 0) ==
      DaysFromCivil(Civil(WindowYear(year, month), WindowMonth(year, month), 1)) + DaysInMonth(WindowYear(year, month), WindowMonth(year, month)) - 1
  {
    var y, m := WindowYear(year, month), WindowMonth(year, month);
    NextMonthStart(y, m);
    if m == 12 {
      assert FullYear(year) + month / 12 == y + 1 && month % 12 + 1 == 1;
    } else {
      assert FullYear(year) + month / 12 == y && month % 12 + 1 == m + 1;
    }
  }

  /**
   * The window holds exactly the instants whose local date is in the month
   * the parameters roll to: months outside 1..12 move into the neighbouring
   * years and years 0..99 mean 1900..1999, as `new Date` does.
   */
  lemma WindowIff(year: int, month: int, offset: int, t: int)
    ensures InWindow(t, year, month, offset) <==>
      LocalCivil(t, offset).year == WindowYear(year, month) && LocalCivil(t, offset).month == WindowMonth(year, month)
  {
    var y, m := WindowYear(year, month), WindowMonth(year, month);
    var first := DaysFromCivil(Civil(y, m, 1));
    var len := DaysInMonth(y, m);
    assert MakeDay(FullYear(year), month - 1, 1) == first;
    LastDayOfWindow(year, month);
    var k := DayNumber(t, offset);
    assert first * MsPerDay - offset <= t <= (first + len) * MsPerDay - 1 - offset <==> first <= k < first + len;
    DaysInRange(y, m, k);
  }

  /** For a month 1..12 of a year from 100 on, the window is that very month. */
  lemma WindowOfPlainMonth(year: int, month: int)
    requires 1 <= month <= 12 && year >= 100
    ensures WindowYear(year, month) == year && WindowMonth(year, month) == month
  {
  }

  /** The posts the query returns. */
  function WindowPosts(times: seq<nat>, year: int, month: int, offset: int): (r: seq<nat>)
    ensures forall t :: t in r <==> t in times && InWindow(t, year, month, offset)
  {
    if times == [] then []
    else
      var init := WindowPosts(times[..|times| - 1], year, month, offset);
      var t := times[|times| - 1];
      assert times == times[..|times| - 1] + [t];
      if InWindow(t, year, month, offset) then init + [t] else init
  }

  /** `posts.map(p => p.createdAt.getDate())`. */
  function DaysOf(times: seq<nat>, offset: int): (r: seq<int>)
    ensures |r| == |times|
  {
    seq(|times|, i requires 0 <= i < |times| => LocalCivil(times[i], offset).day)
  }

  /** `[...new Set(...)]` of the days of the posts in the window. */
  function RunDates(times: seq<nat>, year: int, month: int, offset: int): (r: seq<int>)
    ensures NoDuplicates(r)
  {
    Dedup(DaysOf(WindowPosts(times, year, month, offset), offset))
  }

  /** A day is listed exactly when some post in the window fell on it. */
  lemma RunDatesMembers(times: seq<nat>, year: int, month: int, offset: int, d: int)
    ensures d in RunDates(times, year, month, offset) <==>
      exists t :: t in times && InWindow(t, year, month, offset) && LocalCivil(t, offset).day == d
  {
    var w := WindowPosts(times, year, month, offset);
    var ds := DaysOf(w, offset);
    assert d in RunDates(times, year, month, offset) <==> d in ds;
    if d in ds {
      var i :| 0 <= i < |ds| && ds[i] == d;
      assert w[i] in w;
    }
    if exists t :: t in times && InWindow(t, year, month, offset) && LocalCivil(t, offset).day == d {
      var t :| t in times && InWindow(t, year, month, offset) && LocalCivil(t, offset).day == d;
      var i :| 0 <= i < |w| && w[i] == t;
      assert ds[i] == d;
    }
  }

  /** Every listed day is a day of the month the window covers. */
  lemma RunDatesInMonth(times: seq<nat>, year: int, month: int, offset: int, d: int)
    requires d in RunDates(times, year, month, offset)
    ensures 1 <= d <= DaysInMonth(WindowYear(year, month), WindowMonth(year, month))
  {
    var w := WindowPosts(times, year, month, offset);
    var ds := DaysOf(w, offset);
    assert d in ds;
    var i :| 0 <= i < |ds| && ds[i] == d;
    assert w[i] in w;
    WindowIff(year, month, offset, w[i]);
  }

  datatype CalendarResponse =
    | CalendarUnauthorized
      /** `new Date(NaN, ...)` is an invalid date, which the query rejects. */
    | CalendarFailed
    | Calendar(year: int, month: int, runDates: seq<int>)

  /** GET /api/me/calendar; `times` are the signed-in user's post instants. */
  function Get(sessionUserId: Option<string>, yearParam: Option<string>, monthParam: Option<string>,
               times: seq<nat>, now: nat, offset: int): (r: CalendarResponse)
    ensures r.CalendarUnauthorized? <==> !SignedIn(sessionUserId)
    ensures r.CalendarFailed? <==> (SignedIn(sessionUserId) &&
      (QueryInt(yearParam, LocalCivil(now, offset).year).None? || QueryInt(monthParam, LocalCivil(now, offset).month).None?))
  {
    if !SignedIn(sessionUserId) then CalendarUnauthorized
    else
      var today := LocalCivil(now, offset);
      var year := QueryInt(yearParam, today.year);
      var month := QueryInt(monthParam, today.month);
      if year.None? || month.None? then CalendarFailed
      else Calendar(year.value, month.value, RunDates(times, year.value, month.value, offset))
  }

  /** Without parameters, the calendar is that of the current local month. */
  lemma GetDefaultsToToday(sessionUserId: Option<string>, times: seq<nat>, now: nat, offset: int)
    requires SignedIn(sessionUserId) && now + offset >= 0
    ensures var today := LocalCivil(now, offset);
      Get(sessionUserId, None, None, times, now, offset) == Calendar(today.year, today.month, RunDates(times, today.year, today.month, offset))
  {
    var today := LocalCivil(now, offset);
    assert today.year >= 1970;
    QueryDefault(None, today.year);
    QueryDefault(None, today.month);
  }
}
