/**
 * The proleptic Gregorian calendar behind JavaScript's `Date`: day numbers
 * count days from 1970-01-01, instants count milliseconds from
 * 1970-01-01T00:00:00Z. Local time is a fixed offset from UTC, given in
 * milliseconds (daylight saving time is not modelled).
 */
module JsDate {
  const MsPerMinute: int := 60000
  const MsPerHour: int := 3600000
  const MsPerDay: int := 86400000

  /** A calendar date; `month` runs 1..12. */
  datatype Civil = Civil(year: int, month: int, day: int)

  predicate IsLeapYear(y: int) { y % 4 == 0 && (y % 100 != 0 || y % 400 == 0) }

  function DaysInYear(y: int): int { if IsLeapYear(y) then 366 else 365 }

  function DaysInMonth(y: int, m: int): int
    requires 1 <= m <= 12
  {
    if m == 2 then (if IsLeapYear(y) then 29 else 28)
    else if m == 4 || m == 6 || m == 9 || m == 11 then 30
    else 31
  }

  predicate ValidCivil(c: Civil) {
    1 <= c.month <= 12 && 1 <= c.day <= DaysInMonth(c.year, c.month)
  }

  /** Days of year `y` before the first day of month `m`. */
  function DaysBeforeMonth(y: int, m: int): int
    requires 1 <= m <= 12
  {
    (if m == 1 then 0 else if m == 2 then 31 else if m == 3 then 59 else if m == 4 then 90
     else if m == 5 then 120 else if m == 6 then 151 else if m == 7 then 181
     else if m == 8 then 212 else if m == 9 then 243 else if m == 10 then 273
     else if m == 11 then 304 else 334)
    + (if m > 2 && IsLeapYear(y) then 1 else 0)
  }

  lemma MonthStep(y: int, m: int)
    requires 1 <= m <= 12
    ensures m < 12 ==> DaysBeforeMonth(y, m + 1) == DaysBeforeMonth(y, m) + DaysInMonth(y, m)
    ensures m == 12 ==> DaysBeforeMonth(y, m) + DaysInMonth(y, m) == DaysInYear(y)
  {
  }

  lemma {:induction false} MonthMonotone(y: int, a: int, b: int)
    requires 1 <= a <= b <= 12
    ensures DaysBeforeMonth(y, a) + (b - a) * 28 <= DaysBeforeMonth(y, b)
    decreases b - a
  {
    if a < b {
      MonthStep(y, a);
      MonthMonotone(y, a + 1, b);
    }
  }

  /** Day number of January 1 of year `y`. */
  function DaysBeforeYear(y: int): int
    decreases if y < 1970 then 1970 - y else y - 1970
  {
    if y == 1970 then 0
    else if y > 1970 then DaysBeforeYear(y - 1) + DaysInYear(y - 1)
    else DaysBeforeYear(y + 1) - DaysInYear(y)
  }

  lemma YearStep(y: int)
    ensures DaysBeforeYear(y + 1) == DaysBeforeYear(y) + DaysInYear(y)
  {
  }

  lemma {:induction false} YearMonotone(a: int, b: int)
    requires a <= b
    ensures DaysBeforeYear(a) + 365 * (b - a) <= DaysBeforeYear(b)
    decreases b - a
  {
    if a < b {
      YearStep(a);
      YearMonotone(a + 1, b);
    }
  }

  /** Day number of a date; the day may lie outside the month, as in `Date.UTC`. */
  function DaysFromCivil(c: Civil): int
    requires 1 <= c.month <= 12
  {
    DaysBeforeYear(c.year) + DaysBeforeMonth(c.year, c.month) + c.day - 1
  }

  function YearUp(n: int, y: int): (r: int)
    requires DaysBeforeYear(y) <= n
    ensures DaysBeforeYear(r) <= n < DaysBeforeYear(r + 1)
    ensures r >= y
    decreases n - DaysBeforeYear(y)
  {
    YearStep(y);
    if n < DaysBeforeYear(y + 1) then y else YearUp(n, y + 1)
  }

  function YearDown(n: int, y: int): (r: int)
    requires n < DaysBeforeYear(y + 1)
    ensures DaysBeforeYear(r) <= n < DaysBeforeYear(r + 1)
    decreases DaysBeforeYear(y + 1) - n
  {
    YearStep(y);
    if DaysBeforeYear(y) <= n then y else YearDown(n, y - 1)
  }

  /** The year that holds day number `n`. */
  function YearOf(n: int): (y: int)
    ensures DaysBeforeYear(y) <= n < DaysBeforeYear(y + 1)
    ensures n >= 0 ==> y >= 1970
  {
    if n >= 0 then YearUp(n, 1970) else YearDown(n, 1969)
  }

  lemma YearUnique(n: int, y1: int, y2: int)
    requires DaysBeforeYear(y1) <= n < DaysBeforeYear(y1 + 1)
    requires DaysBeforeYear(y2) <= n < DaysBeforeYear(y2 + 1)
    ensures y1 == y2
  {
    if y1 < y2 {
      YearMonotone(y1 + 1, y2);
    } else if y2 < y1 {
      YearMonotone(y2 + 1, y1);
    }
  }

  function MonthFrom(y: int, r: int, m: int): (k: int)
    requires 1 <= m <= 12 && DaysBeforeMonth(y, m) <= r < DaysInYear(y)
    ensures 1 <= k <= 12 && DaysBeforeMonth(y, k) <= r < DaysBeforeMonth(y, k) + DaysInMonth(y, k)
    decreases 12 - m
  {
    MonthStep(y, m);
    if m == 12 || r < DaysBeforeMonth(y, m) + DaysInMonth(y, m) then m else MonthFrom(y, r, m + 1)
  }

  lemma MonthUnique(y: int, r: int, m1: int, m2: int)
    requires 1 <= m1 <= 12 && DaysBeforeMonth(y, m1) <= r < DaysBeforeMonth(y, m1) + DaysInMonth(y, m1)
    requires 1 <= m2 <= 12 && DaysBeforeMonth(y, m2) <= r < DaysBeforeMonth(y, m2) + DaysInMonth(y, m2)
    ensures m1 == m2
  {
    if m1 < m2 {
      MonthStep(y, m1);
      MonthMonotone(y, m1 + 1, m2);
    } else if m2 < m1 {
      MonthStep(y, m2);
      MonthMonotone(y, m2 + 1, m1);
    }
  }

  /** The date of day number `n`: what `getUTCFullYear`, `getUTCMonth() + 1` and `getUTCDate` read. */
  function CivilFromDays(n: int): (c: Civil)
    ensures ValidCivil(c) && DaysFromCivil(c) == n
  {
    var y := YearOf(n);
    var r := n - DaysBeforeYear(y);
    YearStep(y);
    var m := MonthFrom(y, r, 1);
    Civil(y, m, r - DaysBeforeMonth(y, m) + 1)
  }

  /** Every valid date survives the trip to its day number and back. */
  lemma {:induction false} CivilRoundTrip(c: Civil)
    requires ValidCivil(c)
    ensures CivilFromDays(DaysFromCivil(c)) == c
  {
    var n := DaysFromCivil(c);
    var d := CivilFromDays(n);
    MonthStep(c.year, 12);
    MonthMonotone(c.year, c.month, 12);
    YearStep(c.year);
    YearUnique(n, c.year, d.year);
    MonthUnique(c.year, n - DaysBeforeYear(c.year), c.month, d.month);
  }

  /** The first day of the next month follows the last day of this one. */
  lemma NextMonthStart(y: int, m: int)
    requires 1 <= m <= 12
    ensures DaysFromCivil(NextMonthFirst(y, m)) == DaysFromCivil(Civil(y, m, 1)) + DaysInMonth(y, m)
  {
    MonthStep(y, m);
    YearStep(y);
  }

  function NextMonthFirst(y: int, m: int): Civil
    requires 1 <= m <= 12
  {
    if m == 12 then Civil(y + 1, 1, 1) else Civil(y, m + 1, 1)
  }

  /** `getUTCDay` of a day number: 0 is Sunday; 1970-01-01 was a Thursday. */
  function WeekDay(n: int): (w: int)
    ensures 0 <= w <= 6
  {
    (n + 4) % 7
  }

  /* ---------------- the JavaScript Date operations ---------------- */

  /** Years 0..99 given to `new Date(y, ...)` or `Date.UTC(y, ...)` mean 1900..1999. */
  function FullYear(y: int): int { if 0 <= y <= 99 then 1900 + y else y }

  /** MakeDay: a month index outside 0..11 rolls into the neighbouring years, a day outside the month into the neighbouring months. */
  function MakeDay(year: int, monthIndex: int, date: int): int {
    DaysFromCivil(Civil(year + monthIndex / 12, monthIndex % 12 + 1, 1)) + date - 1
  }

  /** `new Date(y, mIdx, d, h, mi, s, ms)` in a time zone `offset` ms ahead of UTC. */
  function LocalInstant(y: int, monthIndex: int, d: int, h: int, mi: int, s: int, ms: int, offset: int): int {
    MakeDay(FullYear(y), monthIndex, d) * MsPerDay + h * MsPerHour + mi * MsPerMinute + s * 1000 + ms - offset
  }

  /** The day number an instant falls on, `offset` ms ahead of UTC. */
  function DayNumber(t: int, offset: int): int { (t + offset) / MsPerDay }

  /** `getDate`, `getMonth() + 1`, `getFullYear` in a zone `offset` ms ahead of UTC. */
  function LocalCivil(t: int, offset: int): (c: Civil)
    ensures ValidCivil(c)
  {
    CivilFromDays(DayNumber(t, offset))
  }

  /** `getUTCHours` of the instant `offset` ms later. */
  function HourOf(t: int, offset: int): int { ((t + offset) / MsPerHour) % 24 }

  /**
   * The month window `[new Date(y, m - 1, 1), new Date(y, m, 0, 23, 59, 59, 999)]`
   * holds exactly the instants whose local date lies in month `m` of year `y`.
   */
  lemma {:induction false} MonthWindow(y: int, m: int, offset: int, t: int)
    requires 1 <= m <= 12 && !(0 <= y <= 99)
    ensures LocalInstant(y, m - 1, 1, 0, 0, 0, 0, offset) <= t <= LocalInstant(y, m, 0, 23, 59, 59, 999, offset)
        <==> (LocalCivil(t, offset).year == y && LocalCivil(t, offset).month == m)
  {
    var first := DaysFromCivil(Civil(y, m, 1));
    var len := DaysInMonth(y, m);
    assert MakeDay(y, m - 1, 1) == first;
    NextMonthStart(y, m);
    assert MakeDay(y, m, 0) == first + len - 1 by {
      if m == 12 {
        assert y + m / 12 == y + 1 && m % 12 + 1 == 1;
      } else {
        assert y + m / 12 == y && m % 12 + 1 == m + 1;
      }
    }
    var k := DayNumber(t, offset);
    assert LocalInstant(y, m - 1, 1, 0, 0, 0, 0, offset) == first * MsPerDay - offset;
    assert LocalInstant(y, m, 0, 23, 59, 59, 999, offset) == (first + len) * MsPerDay - 1 - offset;
    assert first * MsPerDay - offset <= t <= (first + len) * MsPerDay - 1 - offset <==> first <= k < first + len;
    DaysInRange(y, m, k);
  }

  /** A day number lies within month `m` of year `y` iff its date says so. */
  lemma DaysInRange(y: int, m: int, k: int)
    requires 1 <= m <= 12
    ensures DaysFromCivil(Civil(y, m, 1)) <= k < DaysFromCivil(Civil(y, m, 1)) + DaysInMonth(y, m)
        <==> (CivilFromDays(k).year == y && CivilFromDays(k).month == m)
  {
    var first := DaysFromCivil(Civil(y, m, 1));
    if first <= k < first + DaysInMonth(y, m) {
      var c := Civil(y, m, k - first + 1);
      assert DaysFromCivil(c) == k;
      CivilRoundTrip(c);
    }
  }

  /** Day 0 of the month after `m` is the last day of `m`. */
  lemma DayZeroOfNext(y: int, m: int)
    requires 1 <= m <= 12
    ensures MakeDay(y, m, 0) == DaysFromCivil(Civil(y, m, 1)) + DaysInMonth(y, m) - 1
  {
    NextMonthStart(y, m);
    if m == 12 {
      assert y + m / 12 == y + 1 && m % 12 + 1 == 1;
    } else {
      assert y + m / 12 == y && m % 12 + 1 == m + 1;
    }
  }

  /** The day number before the next month's first is dated the month's last day. */
  lemma LastDayOf(y: int, m: int)
    requires 1 <= m <= 12
    ensures CivilFromDays(DaysFromCivil(Civil(y, m, 1)) + DaysInMonth(y, m) - 1) == Civil(y, m, DaysInMonth(y, m))
  {
    var c := Civil(y, m, DaysInMonth(y, m));
    assert DaysFromCivil(c) == DaysFromCivil(Civil(y, m, 1)) + DaysInMonth(y, m) - 1;
    CivilRoundTrip(c);
  }
}
