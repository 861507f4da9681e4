/**
 * `/api/me`: the statistics GET derives from the signed-in user's posts
 * (distance total, time total, average pace, number of runs, day streak)
 * and the rule by which PATCH copies request fields into the user row.
 * The session, the user row and the post list are inputs; `now` is the
 * current instant and `offset` the server's fixed distance from UTC in ms.
 */
module MeRoute {
  import opened Wrappers
  import opened JsText
  import opened JsDate
  import opened Sorting
  import opened Streak

  /** A post as GET selects it: `duration` is the text the user entered, meant as "H:MM". */
  datatype PostRow = PostRow(distance: real, duration: string, createdAt: nat)

  /* ---------------- durations ---------------- */

  /** `parts[i] || "0"`: a missing or empty segment reads as "0". */
  function SegmentOrZero(parts: seq<string>, i: nat): (s: string)
    ensures s != []
  {
    if i < |parts| && parts[i] != [] then parts[i] else "0"
  }

  /** The minutes of the colon-separated segments: hours from the first, minutes from the second. */
  function MinutesOfParts(parts: seq<string>): Option<int> {
    var h := ParseInt(SegmentOrZero(parts, 0));
    var m := ParseInt(SegmentOrZero(parts, 1));
    if h.Some? && m.Some? then Some(h.value * 60 + m.value) else None
  }

  /** One post's minutes, `parseInt(h) * 60 + parseInt(m)`; `None` is `NaN`. */
  function DurationMinutes(duration: string): Option<int> {
    MinutesOfParts(Split(duration, ':'))
  }

  lemma SegmentsMinutes(parts: seq<string>, h: nat, m: nat)
    requires |parts| == 2 && parts[0] != [] && parts[1] != []
    requires ParseInt(parts[0]) == Some(h) && ParseInt(parts[1]) == Some(m)
    ensures MinutesOfParts(parts) == Some(h * 60 + m)
  {
    assert SegmentOrZero(parts, 0) == parts[0];
    assert SegmentOrZero(parts, 1) == parts[1];
  }

  /** Two numerals joined by a colon are hours and minutes. */
  lemma DurationOfNumerals(hs: string, ms: string, h: nat, m: nat)
    requires hs != [] && ms != [] && ':' !in hs && ':' !in ms
    requires ParseInt(hs) == Some(h) && ParseInt(ms) == Some(m)
    ensures DurationMinutes(hs + ":" + ms) == Some(h * 60 + m)
  {
    var parts := Split(hs + ":" + ms, ':');
    assert parts == [hs, ms] by {
      SplitJoin(hs, ms, ':');
      assert hs + ":" + ms == hs + [':'] + ms;
      assert Split(ms, ':') == [ms];
    }
    SegmentsMinutes(parts, h, m);
  }

  lemma NumeralHasNoColon(s: string)
    requires AllDigits(s)
    ensures ':' !in s
  {
    forall i | 0 <= i < |s| ensures s[i] != ':' {
      assert IsDigit(s[i]);
    }
  }

  /** "H:MM", with either side zero-padded to any width, is `h * 60 + m` minutes. */
  lemma DurationOfParts(h: nat, m: nat, wh: nat, wm: nat)
    ensures DurationMinutes(PadStart(NatToString(h), wh, '0') + ":" + PadStart(NatToString(m), wm, '0')) == Some(h * 60 + m)
  {
    var hs, ms := PadStart(NatToString(h), wh, '0'), PadStart(NatToString(m), wm, '0');
    PaddedNatDigits(h, wh);
    PaddedNatDigits(m, wm);
    NumeralHasNoColon(hs);
    NumeralHasNoColon(ms);
    PaddedNatParses(h, wh);
    PaddedNatParses(m, wm);
    DurationOfNumerals(hs, ms, h, m);
  }

  lemma ParseZero()
    ensures ParseInt("0") == Some(0)
  {
    PaddedNatParses(0, 0);
    assert NatToString(0) == "0";
  }

  /** A numeral without a colon is whole hours. */
  lemma DurationOfHours(hs: string, h: nat)
    requires hs != [] && ':' !in hs && ParseInt(hs) == Some(h)
    ensures DurationMinutes(hs) == Some(h * 60)
  {
    assert Split(hs, ':') == [hs];
    ParseZero();
    assert SegmentOrZero([hs], 0) == hs;
    assert SegmentOrZero([hs], 1) == "0";
  }

  /** A duration without a colon is whole hours, and an empty one is zero. */
  lemma DurationHoursOnly(h: nat)
    ensures DurationMinutes(NatToString(h)) == Some(h * 60)
    ensures DurationMinutes("") == Some(0)
  {
    var hs := NatToString(h);
    NumeralHasNoColon(hs);
    PaddedNatParses(h, 0);
    assert PadStart(hs, 0, '0') == hs;
    DurationOfHours(hs, h);
    ParseZero();
    assert Split("", ':') == [""];
    assert SegmentOrZero([""], 0) == "0";
    assert SegmentOrZero([""], 1) == "0";
  }

  /** An hour segment that starts with a letter is `NaN`, and so is the whole duration. */
  lemma DurationNotANumber(s: string)
    requires s != [] && 'a' <= s[0] <= 'z'
    ensures DurationMinutes(s).None?
  {
    var parts := Split(s, ':');
    var seg := SegmentOrZero(parts, 0);
    if ':' in s {
      var i := FirstIndex(s, ':');
      assert i > 0;
      assert parts[0] == s[..i];
    } else {
      assert parts == [s];
    }
    assert seg[0] == s[0];
    ParseIntLetter(seg);
  }

  /** Adding up minutes; one `NaN` makes the whole sum `NaN`. */
  function SumOptions(xs: seq<Option<int>>): Option<int> {
    if xs == [] then Some(0)
    else
      var init := SumOptions(xs[..|xs| - 1]);
      var d := xs[|xs| - 1];
      if init.Some? && d.Some? then Some(init.value + d.value) else None
  }

  /** Each post's minutes, in post order. */
  function PostMinutes(posts: seq<PostRow>): (xs: seq<Option<int>>)
    ensures |xs| == |posts|
  {
    if posts == [] then [] else PostMinutes(posts[..|posts| - 1]) + [DurationMinutes(posts[|posts| - 1].duration)]
  }

  lemma {:induction false} PostMinutesAt(posts: seq<PostRow>, i: nat)
    requires i < |posts|
    ensures PostMinutes(posts)[i] == DurationMinutes(posts[i].duration)
  {
    if i < |posts| - 1 {
      PostMinutesAt(posts[..|posts| - 1], i);
    }
  }

  /** The sum of the posts' minutes, `NaN` as soon as one post's is. */
  function SumMinutes(posts: seq<PostRow>): Option<int> {
    SumOptions(PostMinutes(posts))
  }

  /** One more post adds its minutes to the running total. */
  lemma SumMinutesStep(posts: seq<PostRow>, i: nat)
    requires i < |posts|
    ensures var t := SumMinutes(posts[..i]);
      var d := DurationMinutes(posts[i].duration);
      SumMinutes(posts[..i + 1]) == if t.Some? && d.Some? then Some(t.value + d.value) else None
  {
    var ys := PostMinutes(posts[..i]);
    assert posts[..i + 1][..i] == posts[..i];
    assert PostMinutes(posts[..i + 1]) == ys + [DurationMinutes(posts[i].duration)];
    assert (ys + [DurationMinutes(posts[i].duration)])[..i] == ys;
  }

  lemma {:induction false} SumOptionsNaN(xs: seq<Option<int>>)
    ensures SumOptions(xs).None? <==> exists i :: 0 <= i < |xs| && xs[i].None?
  {
    if xs != [] {
      var init := xs[..|xs| - 1];
      SumOptionsNaN(init);
      if exists i :: 0 <= i < |init| && init[i].None? {
        var i :| 0 <= i < |init| && init[i].None?;
        assert xs[i] == init[i];
      }
      if exists i :: 0 <= i < |xs| && xs[i].None? {
        var i :| 0 <= i < |xs| && xs[i].None?;
        if i < |init| {
          assert init[i] == xs[i];
        }
      }
    }
  }

  /** The total is `NaN` exactly when some post's duration is. */
  lemma SumMinutesNaN(posts: seq<PostRow>)
    ensures SumMinutes(posts).None? <==> exists i :: 0 <= i < |posts| && DurationMinutes(posts[i].duration).None?
  {
    var xs := PostMinutes(posts);
    SumOptionsNaN(xs);
    if exists i :: 0 <= i < |xs| && xs[i].None? {
      var i :| 0 <= i < |xs| && xs[i].None?;
      PostMinutesAt(posts, i);
    }
    if exists i :: 0 <= i < |posts| && DurationMinutes(posts[i].duration).None? {
      var i :| 0 <= i < |posts| && DurationMinutes(posts[i].duration).None?;
      PostMinutesAt(posts, i);
    }
  }

  function Total(xs: seq<int>): int {
    if xs == [] then 0 else Total(xs[..|xs| - 1]) + xs[|xs| - 1]
  }

  lemma {:induction false} SumOptionsOfSome(xs: seq<Option<int>>, minutes: seq<int>)
    requires |minutes| == |xs|
    requires forall i :: 0 <= i < |xs| ==> xs[i] == Some(minutes[i])
    ensures SumOptions(xs) == Some(Total(minutes))
  {
    if xs != [] {
      var n := |xs| - 1;
      SumOptionsOfSome(xs[..n], minutes[..n]);
    }
  }

  /** When no duration is `NaN`, the total is the sum of the posts' minutes. */
  lemma SumOfParsed(posts: seq<PostRow>, minutes: seq<int>)
    requires |minutes| == |posts|
    requires forall i :: 0 <= i < |posts| ==> DurationMinutes(posts[i].duration) == Some(minutes[i])
    ensures SumMinutes(posts) == Some(Total(minutes))
  {
    forall i | 0 <= i < |posts| ensures PostMinutes(posts)[i] == Some(minutes[i]) {
      PostMinutesAt(posts, i);
    }
    SumOptionsOfSome(PostMinutes(posts), minutes);
  }

  /** The form the run form stores, "H:MM", is read as `h * 60 + m`. */
  lemma StoredDuration(h: nat, m: nat)
    ensures DurationMinutes(NatToString(h) + ":" + PadStart(NatToString(m), 2, '0')) == Some(h * 60 + m)
  {
    DurationOfParts(h, m, 0, 2);
    assert PadStart(NatToString(h), 0, '0') == NatToString(h);
  }

  /** The loop body's parse of one duration. */
  method ParseDuration(duration: string) returns (minutes: Option<int>)
    ensures minutes == DurationMinutes(duration)
  {
    var parts := Split(duration, ':');
    var h := ParseInt(SegmentOrZero(parts, 0));
    var m := ParseInt(SegmentOrZero(parts, 1));
    minutes := if h.Some? && m.Some? then Some(h.value * 60 + m.value) else None;
  }

  /** The `for (const p of posts)` loop accumulating `totalMinutes`. */
  method TotalMinutes(posts: seq<PostRow>) returns (totalMinutes: Option<int>)
    ensures totalMinutes == SumMinutes(posts)
  {
    totalMinutes := Some(0);
    var i := 0;
    while i < |posts|
      invariant 0 <= i <= |posts|
      invariant totalMinutes == SumMinutes(posts[..i])
    {
      var minutes := ParseDuration(posts[i].duration);
      if totalMinutes.Some? && minutes.Some? {
        totalMinutes := Some(totalMinutes.value + minutes.value);
      } else {
        totalMinutes := None;
      }
      SumMinutesStep(posts, i);
      i := i + 1;
    }
    assert posts[..i] == posts;
  }

  /* ---------------- the time total ---------------- */

  /** JavaScript's `%` with a positive divisor: the remainder takes the sign of the dividend. */
  function JsRem(a: int, b: int): (r: int)
    requires b > 0
    ensures a >= 0 ==> 0 <= r < b
    ensures a < 0 ==> -b < r <= 0
  {
    if a >= 0 then a % b else -((-a) % b)
  }

  /** `String(x).padStart(2, "0")` for an integer, or `NaN`. */
  function Padded2(x: Option<int>): string {
    if x.Some? then PadStart(IntToString(x.value), 2, '0') else "NaN"
  }

  /** `totalTime`: `Math.floor(n / 60)` hours and `n % 60` minutes, each padded to two characters. */
  function TotalTime(totalMinutes: Option<int>): string {
    if totalMinutes.Some? then
      Padded2(Some(totalMinutes.value / 60)) + ":" + Padded2(Some(JsRem(totalMinutes.value, 60)))
    else
      Padded2(None) + ":" + Padded2(None)
  }

  lemma PaddedHours(n: nat)
    ensures Padded2(Some(n / 60)) == PadStart(NatToString(n / 60), 2, '0')
  {
  }

  lemma PaddedMinutes(n: nat)
    ensures Padded2(Some(JsRem(n, 60))) == PadStart(NatToString(n % 60), 2, '0')
  {
  }

  lemma TotalTimeText(n: nat)
    ensures TotalTime(Some(n)) == PadStart(NatToString(n / 60), 2, '0') + ":" + PadStart(NatToString(n % 60), 2, '0')
  {
    PaddedHours(n);
    PaddedMinutes(n);
    assert TotalTime(Some(n)) == Padded2(Some(n / 60)) + ":" + Padded2(Some(JsRem(n, 60)));
  }

  /** Reading the time total back as a duration gives the minutes again. */
  lemma TotalTimeRoundTrip(n: nat)
    ensures DurationMinutes(TotalTime(Some(n))) == Some(n)
  {
    var h, m := n / 60, n % 60;
    assert h * 60 + m == n;
    var text := PadStart(NatToString(h), 2, '0') + ":" + PadStart(NatToString(m), 2, '0');
    assert TotalTime(Some(n)) == text by { TotalTimeText(n); }
    DurationOfParts(h, m, 2, 2);
  }

  /** A number below 100 has at most two digits. */
  lemma SmallNumeral(m: nat)
    requires m < 100
    ensures |NatToString(m)| <= 2
  {
    if m >= 10 {
      assert NatToString(m) == NatToString(m / 10) + [DigitChar(m % 10)];
    }
  }

  /** A minute count below 60 padded to two characters reads back as itself. */
  lemma PaddedMinuteField(m: nat)
    requires m < 60
    ensures var ms := PadStart(NatToString(m), 2, '0');
      |ms| == 2 && AllDigits(ms) && DecimalValue(ms) == m
  {
    var ds := NatToString(m);
    SmallNumeral(m);
    var k := 2 - |ds|;
    assert PadStart(ds, 2, '0') == Repeat('0', k) + ds;
    DecimalLeadingZeros(k, ds);
    NatToStringValue(m);
  }

  /** The time total ends in a colon and two digits holding the minutes below 60. */
  lemma TotalTimeMinutesField(n: nat)
    ensures var s := TotalTime(Some(n));
      |s| >= 5 && s[|s| - 3] == ':' && AllDigits(s[|s| - 2..]) && DecimalValue(s[|s| - 2..]) == n % 60 < 60
  {
    var hs, ms := PadStart(NatToString(n / 60), 2, '0'), PadStart(NatToString(n % 60), 2, '0');
    TotalTimeText(n);
    PaddedMinuteField(n % 60);
    var s := hs + ":" + ms;
    assert |hs| >= 2;
    assert s[|s| - 2..] == ms;
    assert s[|s| - 3] == ':';
  }


  /** A `NaN` total shows as "NaN:NaN". */
  lemma TotalTimeNaN()
    ensures TotalTime(None) == "NaN:NaN"
  {
  }

  /* ---------------- the average pace ---------------- */

  /** `Math.round`: the nearest integer, halves rounded up. */
  function JsRound(x: real): (r: int)
    ensures r as real - 0.5 <= x < r as real + 0.5
  {
    (x + 0.5).Floor
  }

  /** Pace minutes and seconds per km. */
  datatype Pace = Pace(minutes: int, seconds: int)

  /** `Math.floor(pace)` and `Math.round((pace - floor) * 60)` for `pace = minutes / km`. */
  function PaceOf(totalKm: real, totalMinutes: int): (p: Pace)
    requires totalKm > 0.0
    ensures 0 <= p.seconds <= 60
    ensures p.minutes as real <= totalMinutes as real / totalKm < p.minutes as real + 1.0
  {
    var pace := totalMinutes as real / totalKm;
    var paceMin := pace.Floor;
    Pace(paceMin, JsRound((pace - paceMin as real) * 60.0))
  }

  /** `avgPace`: "-" unless both totals are positive; otherwise `m'ss"`. */
  function AvgPace(totalKm: real, totalMinutes: Option<int>): (s: string)
    ensures s == "-" <==> !(totalKm > 0.0 && totalMinutes.Some? && totalMinutes.value > 0)
  {
    if totalKm > 0.0 && totalMinutes.Some? && totalMinutes.value > 0 then
      var p := PaceOf(totalKm, totalMinutes.value);
      IntToString(p.minutes) + "'" + PadStart(IntToString(p.seconds), 2, '0') + "\""
    else "-"
  }

  /** Ten km in 62 minutes is 6'12". */
  lemma PaceExample()
    ensures PaceOf(10.0, 62) == Pace(6, 12)
  {
    assert (62 as real / 10.0) == 6.2;
    assert (6.2).Floor == 6;
    assert ((6.2 - 6.0) * 60.0 + 0.5).Floor == 12;
  }

  /** Seconds are not carried: 200 km in 1199 minutes is 5'60", not 6'00". */
  lemma PaceSixtySeconds()
    ensures PaceOf(200.0, 1199) == Pace(5, 60)
  {
    assert (1199 as real / 200.0) == 5.995;
    assert (5.995).Floor == 5;
    assert ((5.995 - 5.0) * 60.0 + 0.5).Floor == 60;
  }

  /* ---------------- the day streak ---------------- */

  /** `d.setHours(0, 0, 0, 0); d.getTime()`: local midnight of the day of `t`. */
  function LocalMidnight(t: int, offset: int): int { DayNumber(t, offset) * MsPerDay - offset }

  /** The comparator `(a, b) => b - a`: the later instant first. */
  predicate Later(a: int, b: int) { a > b }

  lemma LaterIsStrict()
    ensures StrictOrder(Later)
  {
  }

  function Midnights(posts: seq<PostRow>, offset: int): seq<int> {
    seq(|posts|, i requires 0 <= i < |posts| => LocalMidnight(posts[i].createdAt, offset))
  }

  /** `postDates`: the distinct local midnights, latest first. */
  function PostDates(posts: seq<PostRow>, offset: int): seq<int> {
    Sort(Dedup(Midnights(posts, offset)), Later)
  }

  /** The day numbers of local midnights. */
  function MidnightDays(keys: seq<int>, offset: int): (days: seq<int>)
    ensures |days| == |keys|
  {
    seq(|keys|, i requires 0 <= i < |keys| => (keys[i] + offset) / MsPerDay)
  }

  /** The streak GET reports: the run of one-day gaps over the distinct days, latest first. */
  function ProfileStreak(posts: seq<PostRow>, now: nat, offset: int): nat {
    StreakOf(MidnightDays(PostDates(posts, offset), offset), DayNumber(now, offset))
  }

  /** The post dates are exactly the local midnights of the posts. */
  lemma PostDatesMembers(posts: seq<PostRow>, offset: int)
    ensures forall j :: 0 <= j < |PostDates(posts, offset)| ==> PostDates(posts, offset)[j] in Midnights(posts, offset)
    ensures forall i :: 0 <= i < |posts| ==> Midnights(posts, offset)[i] in PostDates(posts, offset)
    ensures |PostDates(posts, offset)| <= |posts|
  {
    var ms := Midnights(posts, offset);
    var dd := Dedup(ms);
    var keys := PostDates(posts, offset);
    assert multiset(keys) == multiset(dd);
    forall j | 0 <= j < |keys| ensures keys[j] in ms {
      assert keys[j] in multiset(keys);
      assert keys[j] in multiset(dd);
    }
    forall i | 0 <= i < |posts| ensures ms[i] in keys {
      assert ms[i] in dd;
      assert ms[i] in multiset(dd);
      assert ms[i] in multiset(keys);
    }
    assert |keys| == |multiset(keys)| == |multiset(dd)| == |dd|;
  }

  /** The post dates are in strictly decreasing order. */
  lemma PostDatesDescending(posts: seq<PostRow>, offset: int)
    ensures StrictlyDescending(PostDates(posts, offset))
  {
    var dd := Dedup(Midnights(posts, offset));
    var keys := PostDates(posts, offset);
    LaterIsStrict();
    SortSorted(dd, Later);
    MultisetNoDuplicates(dd, keys);
    forall i, j | 0 <= i < j < |keys| ensures keys[i] > keys[j] {
      assert keys[i] != keys[j];
      assert !Later(keys[j], keys[i]);
    }
  }

  lemma MidnightDay(d: int, offset: int)
    ensures (d * MsPerDay - offset + offset) / MsPerDay == d
  {
  }

  /** A local midnight is the midnight of its own day number. */
  lemma MidnightOfDay(posts: seq<PostRow>, offset: int, x: int)
    requires x in Midnights(posts, offset)
    ensures x == (x + offset) / MsPerDay * MsPerDay - offset
    ensures exists i :: 0 <= i < |posts| && DayNumber(posts[i].createdAt, offset) == (x + offset) / MsPerDay
  {
    var ms := Midnights(posts, offset);
    var i :| 0 <= i < |ms| && ms[i] == x;
    var d := DayNumber(posts[i].createdAt, offset);
    MidnightDay(d, offset);
  }

  /** Each post date is the midnight of its day number. */
  lemma PostDatesMidnights(posts: seq<PostRow>, offset: int)
    ensures forall j :: 0 <= j < |PostDates(posts, offset)| ==>
      PostDates(posts, offset)[j] == MidnightDays(PostDates(posts, offset), offset)[j] * MsPerDay - offset
  {
    var keys := PostDates(posts, offset);
    PostDatesMembers(posts, offset);
    forall j | 0 <= j < |keys| ensures keys[j] == (keys[j] + offset) / MsPerDay * MsPerDay - offset {
      MidnightOfDay(posts, offset, keys[j]);
    }
    KeysAreMidnights(keys, offset);
  }

  lemma KeysAreMidnights(keys: seq<int>, offset: int)
    requires forall j :: 0 <= j < |keys| ==> keys[j] == (keys[j] + offset) / MsPerDay * MsPerDay - offset
    ensures forall j :: 0 <= j < |keys| ==> keys[j] == MidnightDays(keys, offset)[j] * MsPerDay - offset
  {
  }

  /** The day numbers are strictly decreasing too. */
  lemma PostDaysDescending(posts: seq<PostRow>, offset: int)
    ensures StrictlyDescending(MidnightDays(PostDates(posts, offset), offset))
  {
    var keys := PostDates(posts, offset);
    var days := MidnightDays(keys, offset);
    PostDatesDescending(posts, offset);
    PostDatesMidnights(posts, offset);
    forall i, j | 0 <= i < j < |days| ensures days[i] > days[j] {
      assert keys[i] > keys[j];
    }
  }

  /** The day numbers are those of the posts, each once. */
  lemma PostDaysMembers(posts: seq<PostRow>, offset: int)
    ensures forall d :: d in MidnightDays(PostDates(posts, offset), offset) <==>
      exists i :: 0 <= i < |posts| && DayNumber(posts[i].createdAt, offset) == d
  {
    var ms := Midnights(posts, offset);
    var keys := PostDates(posts, offset);
    var days := MidnightDays(keys, offset);
    PostDatesMembers(posts, offset);
    forall d ensures d in days <==> exists i :: 0 <= i < |posts| && DayNumber(posts[i].createdAt, offset) == d {
      if d in days {
        var j :| 0 <= j < |days| && days[j] == d;
        MidnightOfDay(posts, offset, keys[j]);
      }
      if exists i :: 0 <= i < |posts| && DayNumber(posts[i].createdAt, offset) == d {
        var i :| 0 <= i < |posts| && DayNumber(posts[i].createdAt, offset) == d;
        assert ms[i] in keys;
        var j :| 0 <= j < |keys| && keys[j] == ms[i];
        MidnightDay(d, offset);
        assert days[j] == d;
      }
    }
  }

  /** Some post means some post day. */
  lemma PostDatesNonEmpty(posts: seq<PostRow>, offset: int)
    ensures posts != [] ==> PostDates(posts, offset) != []
  {
    PostDatesMembers(posts, offset);
    if posts != [] {
      assert Midnights(posts, offset)[0] in PostDates(posts, offset);
    }
  }

  /** Some post falls on local day `d`. */
  predicate PostedOn(posts: seq<PostRow>, d: int, offset: int) {
    exists i :: 0 <= i < |posts| && DayNumber(posts[i].createdAt, offset) == d
  }

  /** The first day number is the day of the latest post. */
  lemma LatestPostDay(posts: seq<PostRow>, offset: int)
    requires posts != []
    ensures var days := MidnightDays(PostDates(posts, offset), offset);
      days != [] && PostedOn(posts, days[0], offset) &&
      forall i :: 0 <= i < |posts| ==> DayNumber(posts[i].createdAt, offset) <= days[0]
  {
    var days := MidnightDays(PostDates(posts, offset), offset);
    PostDatesNonEmpty(posts, offset);
    PostDaysMembers(posts, offset);
    PostDaysDescending(posts, offset);
    assert days[0] in days;
    forall i | 0 <= i < |posts| ensures DayNumber(posts[i].createdAt, offset) <= days[0] {
      var d := DayNumber(posts[i].createdAt, offset);
      assert d in days;
      var j :| 0 <= j < |days| && days[j] == d;
    }
  }

  /**
   * The streak is zero exactly when there is no post or the latest post day
   * is more than a day before today, and never more than the number of days
   * with a post.
   */
  lemma ProfileStreakZero(posts: seq<PostRow>, now: nat, offset: int)
    ensures var days := MidnightDays(PostDates(posts, offset), offset);
      var n := ProfileStreak(posts, now, offset);
      n <= |days| <= |posts| &&
      (n == 0 <==> posts == [] || DayNumber(now, offset) - days[0] > 1)
  {
    PostDatesMembers(posts, offset);
    PostDatesNonEmpty(posts, offset);
  }

  /**
   * A positive streak counts exactly the unbroken block of days with a post
   * that ends at the latest post day: each day of the block has a post and the
   * day before it has none.
   */
  lemma ProfileStreakBlock(posts: seq<PostRow>, now: nat, offset: int)
    ensures var days := MidnightDays(PostDates(posts, offset), offset);
      var n := ProfileStreak(posts, now, offset);
      n > 0 ==> (forall d :: days[0] - n < d <= days[0] ==> PostedOn(posts, d, offset)) &&
                !PostedOn(posts, days[0] - n, offset)
  {
    var days := MidnightDays(PostDates(posts, offset), offset);
    var n := ProfileStreak(posts, now, offset);
    if n > 0 {
      assert n == LeadingRun(days);
      PostDaysDescending(posts, offset);
      ConsecutiveBlock(days);
      PostDaysMembers(posts, offset);
      forall d | days[0] - n < d <= days[0] ensures PostedOn(posts, d, offset) {
        assert d in days;
      }
      assert days[0] - n !in days;
    }
  }

  /** The streak block of GET, with its `for` loop over `postDates`. */
  method StreakDays(posts: seq<PostRow>, now: nat, offset: int) returns (streakDays: nat)
    ensures streakDays == ProfileStreak(posts, now, offset)
  {
    streakDays := 0;
    var today := LocalMidnight(now, offset);
    var postDates := PostDates(posts, offset);
    PostDatesMidnights(posts, offset);
    if |postDates| > 0 {
      var diffMs := today - postDates[0];
      var diffDays := diffMs as real / MsPerDay as real;
      if diffDays <= 1.0 {
        streakDays := RunOfDates(postDates, offset);
      }
    }
  }

  /** The `for` loop: count the midnights exactly one day apart. */
  method RunOfDates(postDates: seq<int>, offset: int) returns (streakDays: nat)
    requires |postDates| >= 1
    requires forall j :: 0 <= j < |postDates| ==> postDates[j] == MidnightDays(postDates, offset)[j] * MsPerDay - offset
    ensures streakDays == LeadingRun(MidnightDays(postDates, offset))
  {
    ghost var days := MidnightDays(postDates, offset);
    streakDays := 1;
    var i := 1;
    while i < |postDates|
      invariant 1 <= i <= |postDates|
      invariant streakDays == i
      invariant forall k :: 1 <= k < i ==> days[k - 1] - days[k] == 1
    {
      var gap := (postDates[i - 1] - postDates[i]) as real / MsPerDay as real;
      if gap == 1.0 {
        streakDays := streakDays + 1;
      } else {
        LeadingRunExact(days, i);
        return;
      }
      i := i + 1;
    }
    LeadingRunExact(days, streakDays);
  }

  /* ---------------- the response ---------------- */

  function TotalKm(posts: seq<PostRow>): real {
    if posts == [] then 0.0 else TotalKm(posts[..|posts| - 1]) + posts[|posts| - 1].distance
  }

  /** `Math.round(x * 10) / 10` on exact reals. */
  function RoundTenth(x: real): (r: real)
    ensures x - 0.05 < r <= x + 0.05
  {
    JsRound(x * 10.0) as real / 10.0
  }

  datatype Stats = Stats(totalKm: real, totalTime: string, avgPace: string, totalRuns: nat, streakDays: nat)

  datatype UserProfile = UserProfile(id: string, name: Option<string>, email: Option<string>, image: Option<string>,
                                     initials: Option<string>, isOnboarded: bool, category: Option<string>)

  datatype GetResponse = Unauthorized | UserNotFound | Profile(user: UserProfile, stats: Stats)

  function Status(r: GetResponse): int {
    match r
    case Unauthorized => 401
    case UserNotFound => 404
    case Profile(_, _) => 200
  }

  /** `!session?.user?.id`: no session, no user, or an empty id. */
  predicate SignedIn(sessionUserId: Option<string>) { sessionUserId.Some? && sessionUserId.value != "" }

  /** The statistics of the response, from the user's posts. */
  function StatsOf(posts: seq<PostRow>, now: nat, offset: int): Stats {
    Stats(RoundTenth(TotalKm(posts)), TotalTime(SumMinutes(posts)), AvgPace(TotalKm(posts), SumMinutes(posts)),
          |posts|, ProfileStreak(posts, now, offset))
  }

  /**
   * GET /api/me. `user` is the row found for the session's id and `posts`
   * that user's posts.
   */
  method Get(sessionUserId: Option<string>, user: Option<UserProfile>, posts: seq<PostRow>, now: nat, offset: int)
    returns (r: GetResponse)
    ensures Status(r) == 401 <==> !SignedIn(sessionUserId)
    ensures Status(r) == 404 <==> SignedIn(sessionUserId) && user.None?
    ensures r.Profile? ==> r.user == user.value && r.stats == StatsOf(posts, now, offset)
    ensures r.Profile? ==> r.stats.totalRuns == |posts|
  {
    if !(sessionUserId.Some? && sessionUserId.value != "") {
      return Unauthorized;
    }
    if user.None? {
      return UserNotFound;
    }
    var totalKm := TotalKm(posts);
    var totalRuns := |posts|;
    var totalMinutes := TotalMinutes(posts);
    var totalTime := TotalTime(totalMinutes);
    var avgPace := AvgPace(totalKm, totalMinutes);
    var streakDays := StreakDays(posts, now, offset);
    r := Profile(user.value, Stats(RoundTenth(totalKm), totalTime, avgPace, totalRuns, streakDays));
  }

  /* ---------------- PATCH ---------------- */

  /** A parsed JSON value. */
  datatype Json = JNull | JBool(b: bool) | JNum(x: real) | JStr(s: string) | JArr(items: seq<Json>) | JObj(fields: map<string, Json>)

  /** JavaScript truthiness of a JSON value. */
  predicate Truthy(v: Json) {
    match v
    case JNull => false
    case JBool(b) => b
    case JNum(x) => x != 0.0
    case JStr(s) => s != ""
    case JArr(_) => true
    case JObj(_) => true
  }

  /** The only fields PATCH can write. */
  const PatchFields: set<string> := {"name", "initials", "isOnboarded", "category"}

  /**
   * Whether PATCH copies field `k` of the body: `k` is one of the four
   * fields and present, and truthy unless it is `isOnboarded`, which is
   * copied whenever it is not `undefined`.
   */
  predicate Copied(body: map<string, Json>, k: string) {
    k in PatchFields && k in body && (k == "isOnboarded" || Truthy(body[k]))
  }

  /** The `data` record PATCH hands to `prisma.user.update`, built one `if` at a time. */
  function PatchData(body: map<string, Json>): (data: map<string, Json>)
    ensures forall k :: k in data ==> k in PatchFields && k in body && data[k] == body[k]
    ensures forall k :: k in PatchFields && k != "isOnboarded" ==> (k in data <==> k in body && Truthy(body[k]))
    ensures "isOnboarded" in data <==> "isOnboarded" in body
    ensures forall k :: k in data <==> Copied(body, k)
  {
    var withName := if "name" in body && Truthy(body["name"]) then map["name" := body["name"]] else map[];
    var withInitials := if "initials" in body && Truthy(body["initials"]) then withName["initials" := body["initials"]] else withName;
    var withOnboarded := if "isOnboarded" in body then withInitials["isOnboarded" := body["isOnboarded"]] else withInitials;
    if "category" in body && Truthy(body["category"]) then withOnboarded["category" := body["category"]] else withOnboarded
  }

  /**
   * The column types `prisma.user.update` accepts: text for name, initials
   * and category, a boolean for `isOnboarded`. Any other value makes the
   * update throw.
   */
  predicate FieldTyped(k: string, v: Json) {
    if k == "isOnboarded" then v.JBool? else v.JStr?
  }

  predicate TypedData(data: map<string, Json>) {
    forall k :: k in data ==> FieldTyped(k, data[k])
  }

  /** `PatchRejected`: the update throws and the request fails. */
  datatype PatchResponse = PatchUnauthorized | PatchRejected | Updated(row: map<string, Json>)

  /**
   * PATCH /api/me, where `row` is the stored row. Copied fields take the
   * body's values. Every other field keeps its stored value, and no field
   * is added except a copied one.
   */
  method Patch(sessionUserId: Option<string>, body: map<string, Json>, row: map<string, Json>) returns (r: PatchResponse)
    ensures r.PatchUnauthorized? <==> !SignedIn(sessionUserId)
    ensures r.PatchRejected? <==> SignedIn(sessionUserId) && exists k :: Copied(body, k) && !FieldTyped(k, body[k])
    ensures r.Updated? ==> forall k :: k in r.row <==> k in row || Copied(body, k)
    ensures r.Updated? ==> forall k :: k in r.row ==> r.row[k] == if Copied(body, k) then body[k] else row[k]
    ensures r.Updated? ==> r.row.Keys == row.Keys + (r.row.Keys * PatchFields)
    ensures r.Updated? ==> forall k :: k in row && k !in PatchFields ==> k in r.row && r.row[k] == row[k]
    ensures r.Updated? ==> forall k :: k in PatchFields && k in body && (k == "isOnboarded" || Truthy(body[k])) ==>
      k in r.row && r.row[k] == body[k]
    ensures r.Updated? ==> forall k :: k in row && k in PatchFields && k in body && k != "isOnboarded" && !Truthy(body[k]) ==>
      k in r.row && r.row[k] == row[k]
  {
    if !(sessionUserId.Some? && sessionUserId.value != "") {
      return PatchUnauthorized;
    }
    var data := PatchData(body);
    if !TypedData(data) {
      return PatchRejected;
    }
    r := Updated(row + data);
  }
}
