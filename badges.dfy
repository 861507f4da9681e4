/**
 * The badge engine: which catalogue badges a user's activity earns, and the
 * grant step that records only those not earned before. The database is
 * reduced to what the engine reads and writes: the user's activity is an
 * input, the badge table and the user-badge table are the fields of
 * `BadgeStore`.
 */
module Badges {
  import opened Wrappers
  import opened JsText
  import opened JsDate
  import opened Sorting
  import opened Streak

  type UserId = string

  /** A post as the engine reads it: `createdAt` in ms since 1970, `likeCount` its likes. */
  datatype Post = Post(distance: real, createdAt: nat, content: Option<string>, likeCount: nat)

  /** The user row with what it includes: the category, the posts, and counts of the comments and likes the user gave. */
  datatype UserActivity = UserActivity(category: Option<string>, posts: seq<Post>, commentCount: nat, likesGiven: nat)

  datatype BadgeDef = BadgeDef(name: string, description: string, icon: string)

  datatype BadgeRow = BadgeRow(id: nat, name: string, description: string, icon: string)

  datatype Grant = Grant(userId: UserId, badgeId: nat, earnedAt: nat)

  datatype EarnedBadge = EarnedBadge(id: nat, name: string, description: string, icon: string, earnedAt: nat)

  const FirstPostName: string := "시작이 반"
  const Streak3Name: string := "꾸준함의 상징"
  const Streak7Name: string := "러닝 머신"
  const Streak28Name: string := "철인 28호"
  const Km50Name: string := "영종도 앰배서더"
  const Km100Name: string := "울트라 러너"
  const Km200Name: string := "지구 한 바퀴 꿈나무"
  const DawnName: string := "새벽 공기 수집가"
  const NightName: string := "심야의 질주"
  const WeekendName: string := "주말의 전사"
  const BestMateName: string := "베스트 메이트"
  const PopularName: string := "인기쟁이"
  const CommenterName: string := "마당발"
  const RainName: string := "폭우를 뚫고"
  const CoastGuardName: string := "해안도로 수호자"
  const HalfMasterName: string := "하프 마스터"
  const TeaTimeName: string := "티 타임 리더"
  const PacemakerName: string := "페이스 메이커"
  const FirstTodayName: string := "오늘의 주인공"
  const GrowingName: string := "성장하는 러너"

  /** The catalogue, in the order it is seeded. */
  const Definitions: seq<BadgeDef> := [
    BadgeDef(FirstPostName, "첫 번째 인증글을 작성했습니다.", "\U{1F331}"),
    BadgeDef(Streak3Name, "3일 연속으로 인증에 성공했습니다.", "\U{1F525}"),
    BadgeDef(Streak7Name, "7일 연속으로 인증에 성공했습니다.", "\U{26A1}"),
    BadgeDef(Streak28Name, "한 달(28일) 연속 인증의 대기록!", "\U{1F9BE}"),
    BadgeDef(Km50Name, "누적 거리 50km를 달성했습니다.", "\U{1F30A}"),
    BadgeDef(Km100Name, "누적 거리 100km를 달성했습니다.", "\U{1F451}"),
    BadgeDef(Km200Name, "누적 거리 200km를 돌파했습니다!", "\U{1F30D}"),
    BadgeDef(DawnName, "오전 6시 이전에 러닝을 인증했습니다.", "\U{1F305}"),
    BadgeDef(NightName, "오후 10시 이후에 열정적인 러닝을 인증했습니다.", "\U{1F31B}"),
    BadgeDef(WeekendName, "토요일과 일요일 모두 인증에 성공했습니다.", "\U{2694}\U{FE0F}"),
    BadgeDef(BestMateName, "동료들로부터 좋아요를 10번 받았습니다.", "\U{1F64C}"),
    BadgeDef(PopularName, "게시글에 좋아요가 30개 쌓였습니다.", "\U{1F496}"),
    BadgeDef(CommenterName, "다른 러너들의 글에 댓글을 20개 남겼습니다.", "\U{1F5E8}\U{FE0F}"),
    BadgeDef(RainName, "'비'가 오는 날에도 멈추지 않는 열정!", "\U{2614}"),
    BadgeDef(CoastGuardName, "10km 부문에서 5회 이상 인증했습니다.", "\U{1F6E1}\U{FE0F}"),
    BadgeDef(HalfMasterName, "5km 부문에서 10회 이상 인증했습니다.", "\U{1F3AF}"),
    BadgeDef(TeaTimeName, "Tea 부문 참여자 중 소통왕(댓글 10개)!", "\U{1F375}"),
    BadgeDef(PacemakerName, "5명 이상의 러너에게 좋아요를 보냈습니다.", "\U{1F3C3}"),
    BadgeDef(FirstTodayName, "오늘 하루 가장 먼저 인증글을 올렸습니다.", "\U{2B50}"),
    BadgeDef(GrowingName, "지난달보다 주행 거리가 늘어났습니다!", "\U{1F4C8}")
  ]

  /* ---------------- Korea Standard Time ---------------- */

  /** Korea Standard Time is UTC+9 all year. */
  const KstOffset: int := 9 * MsPerHour

  /** `getKSTHour`: the UTC hour of the instant nine hours later, i.e. the hour within the KST day. */
  function KstHour(t: int): (h: int)
    ensures 0 <= h < 24
    ensures h == ((t + KstOffset) % MsPerDay) / MsPerHour
  {
    var x := t + KstOffset;
    var q := x / MsPerDay;
    var r := x % MsPerDay;
    assert x == q * 24 * MsPerHour + r;
    assert x / MsPerHour == q * 24 + r / MsPerHour;
    HourOf(t, KstOffset)
  }

  /** The KST day number of an instant. */
  function KstDay(t: int): int { DayNumber(t, KstOffset) }

  /** `getKSTDateString`'s format: year, month and day unpadded, joined by `-`. */
  function DateKey(c: Civil): string {
    IntToString(c.year) + "-" + IntToString(c.month) + "-" + IntToString(c.day)
  }

  function KstDateKey(t: int): string { DateKey(CivilFromDays(KstDay(t))) }

  /**
   * `parseDate`: split at `-`, read each part with `Number`, and give them
   * to `Date.UTC(y, m - 1, d)`. The result is the day number (the source's
   * milliseconds divided by one day, which is exact); `None` is `NaN`.
   */
  function ParseDate(s: string): Option<int> {
    DateOfParts(Split(s, '-'))
  }

  /** `Date.UTC(y, m - 1, d)` on the `Number` values of the first three parts. */
  function DateOfParts(parts: seq<string>): Option<int>
    requires |parts| >= 1
  {
    var y := ToNumber(parts[0]);
    var m := if |parts| > 1 then ToNumber(parts[1]) else None;
    var d := if |parts| > 2 then ToNumber(parts[2]) else None;
    if y.Some? && m.Some? && d.Some? then Some(MakeDay(FullYear(y.value), m.value as int - 1, d.value)) else None
  }

  lemma SplitThree(a: string, b: string, c: string)
    requires '-' !in a && '-' !in b && '-' !in c
    ensures Split(a + "-" + b + "-" + c, '-') == [a, b, c]
  {
    assert a + "-" + b + "-" + c == a + ['-'] + (b + ['-'] + c);
    SplitJoin(a, b + ['-'] + c, '-');
    SplitJoin(b, c, '-');
  }

  lemma NoDash(s: string)
    requires AllDigits(s)
    ensures '-' !in s
  {
  }

  lemma KeyParts(c: Civil)
    requires c.year >= 0 && c.month >= 0 && c.day >= 0
    ensures Split(DateKey(c), '-') == [NatToString(c.year), NatToString(c.month), NatToString(c.day)]
  {
    var ys, ms, ds := NatToString(c.year), NatToString(c.month), NatToString(c.day);
    NoDash(ys);
    NoDash(ms);
    NoDash(ds);
    SplitThree(ys, ms, ds);
  }

  /** A date key reads back as the day it was made from. */
  lemma {:induction false} ParseDateKey(c: Civil)
    requires ValidCivil(c) && c.year >= 100
    ensures ParseDate(DateKey(c)) == Some(DaysFromCivil(c))
  {
    KeyParts(c);
    NatToNumber(c.year);
    NatToNumber(c.month);
    NatToNumber(c.day);
    PartsOfNumbers(NatToString(c.year), NatToString(c.month), NatToString(c.day), c.year, c.month, c.day);
    assert FullYear(c.year) == c.year;
    MakeDayInMonth(c.year, c.month, c.day);
  }

  lemma PartsOfNumbers(ys: string, ms: string, ds: string, y: nat, m: nat, d: nat)
    requires ToNumber(ys) == Some(y) && ToNumber(ms) == Some(m) && ToNumber(ds) == Some(d)
    ensures DateOfParts([ys, ms, ds]) == Some(MakeDay(FullYear(y), m - 1, d))
  {
    var parts := [ys, ms, ds];
    assert parts[0] == ys && parts[1] == ms && parts[2] == ds;
  }

  lemma MakeDayInMonth(y: int, m: int, d: int)
    requires 1 <= m <= 12
    ensures MakeDay(y, m - 1, d) == DaysFromCivil(Civil(y, m, d))
  {
    assert (m - 1) / 12 == 0 && (m - 1) % 12 + 1 == m;
  }

  lemma KstKeyParses(t: nat)
    ensures ParseDate(KstDateKey(t)) == Some(KstDay(t))
  {
    ParseDateKey(CivilFromDays(KstDay(t)));
  }

  /** The comparator `(a, b) => b.localeCompare(a)`: on keys made of digits and `-` it is code-unit order, reversed. */
  predicate KeyBefore(a: string, b: string) { StrLess(b, a) }

  lemma KeyBeforeIsStrict()
    ensures StrictOrder(KeyBefore)
  {
    forall a ensures !KeyBefore(a, a) { StrLessIrreflexive(a); }
    forall a, b, c | KeyBefore(a, b) && KeyBefore(b, c) ensures KeyBefore(a, c) {
      StrLessTransitive(c, b, a);
    }
  }

  function PostKeys(posts: seq<Post>): seq<string> {
    seq(|posts|, i requires 0 <= i < |posts| => KstDateKey(posts[i].createdAt))
  }

  /** `postDateStrings`: the distinct KST date keys, sorted newest-first as strings. */
  function SortedKeys(posts: seq<Post>): seq<string> {
    Sort(Dedup(PostKeys(posts)), KeyBefore)
  }

  /** The sorted keys are distinct, strictly descending as strings, and exactly the posts' keys. */
  lemma SortedKeysFacts(posts: seq<Post>)
    ensures NoDuplicates(SortedKeys(posts))
    ensures forall i, j :: 0 <= i < j < |SortedKeys(posts)| ==> StrLess(SortedKeys(posts)[j], SortedKeys(posts)[i])
    ensures forall k :: k in SortedKeys(posts) <==> k in PostKeys(posts)
    ensures |SortedKeys(posts)| <= |posts|
  {
    var d := Dedup(PostKeys(posts));
    var s := SortedKeys(posts);
    KeyBeforeIsStrict();
    SortSorted(d, KeyBefore);
    MultisetNoDuplicates(d, s);
    forall i, j | 0 <= i < j < |s| ensures StrLess(s[j], s[i]) {
      StrLessTotal(s[i], s[j]);
    }
    forall k ensures k in s <==> k in PostKeys(posts) {
      assert k in s <==> k in multiset(s);
      assert k in d <==> k in multiset(d);
      if k in d {
        var i :| 0 <= i < |d| && d[i] == k;
      }
      if k in PostKeys(posts) {
        var i :| 0 <= i < |PostKeys(posts)| && PostKeys(posts)[i] == k;
      }
    }
    assert |s| == |multiset(s)| == |multiset(d)| == |d|;
  }

  /** Every key of the walk parses. */
  lemma SortedKeysParse(posts: seq<Post>)
    ensures forall i :: 0 <= i < |SortedKeys(posts)| ==> ParseDate(SortedKeys(posts)[i]).Some?
  {
    SortedKeysDays(posts);
  }

  /** Every key of the walk parses to the KST day of one of the posts. */
  lemma SortedKeysDays(posts: seq<Post>)
    ensures forall i :: 0 <= i < |SortedKeys(posts)| ==>
      exists j :: 0 <= j < |posts| && ParseDate(SortedKeys(posts)[i]) == Some(KstDay(posts[j].createdAt))
  {
    SortedKeysFacts(posts);
    var s := SortedKeys(posts);
    forall i | 0 <= i < |s|
      ensures exists j :: 0 <= j < |posts| && ParseDate(s[i]) == Some(KstDay(posts[j].createdAt))
    {
      assert s[i] in PostKeys(posts);
      var j :| 0 <= j < |posts| && PostKeys(posts)[j] == s[i];
      KstKeyParses(posts[j].createdAt);
    }
  }

  /** The keys of at least one post are not empty. */
  lemma SortedKeysNonEmpty(posts: seq<Post>)
    requires |posts| > 0
    ensures |SortedKeys(posts)| > 0
  {
    assert PostKeys(posts)[0] in PostKeys(posts);
    SortedKeysFacts(posts);
  }

  /** The day numbers of the keys, in key order. */
  function KeyDays(keys: seq<string>): (days: seq<int>)
    requires forall i :: 0 <= i < |keys| ==> ParseDate(keys[i]).Some?
    ensures |days| == |keys| && forall i :: 0 <= i < |keys| ==> Some(days[i]) == ParseDate(keys[i])
  {
    seq(|keys|, i requires 0 <= i < |keys| => ParseDate(keys[i]).value)
  }

  /** The streak `awardBadges` computes: the walk over the keys in string order. */
  function BadgeStreak(posts: seq<Post>, now: nat): nat {
    SortedKeysParse(posts);
    StreakOf(KeyDays(SortedKeys(posts)), KstDay(now))
  }

  /**
   * The badge streak is at most the number of distinct KST dates; it is zero
   * exactly when there is no post or when the first key in string order is
   * more than a day before today.
   */
  lemma BadgeStreakBounds(posts: seq<Post>, now: nat)
    ensures BadgeStreak(posts, now) <= |SortedKeys(posts)| <= |posts|
    ensures BadgeStreak(posts, now) == 0 <==>
      posts == [] || KstDay(now) - ParseDate(SortedKeys(posts)[0]).value > 1
  {
    SortedKeysFacts(posts);
    SortedKeysParse(posts);
    if posts != [] {
      SortedKeysNonEmpty(posts);
    }
  }

  /** The streak block of `awardBadges`, proved to compute `BadgeStreak`. */
  method KstStreak(posts: seq<Post>, now: nat) returns (streakDays: nat)
    ensures streakDays == BadgeStreak(posts, now)
  {
    streakDays := 0;
    if |posts| > 0 {
      var todayKst := KstDateKey(now);
      var postDateStrings := SortedKeys(posts);
      SortedKeysParse(posts);
      KstKeyParses(now);
      SortedKeysNonEmpty(posts);
      var latestPost := ParseDate(postDateStrings[0]);
      var today := ParseDate(todayKst);
      if latestPost.Some? && today.Some? && today.value - latestPost.value <= 1 {
        streakDays := RunOfKeys(postDateStrings);
      }
    }
  }

  /** The `for` loop of the streak block: count the keys one day apart, newest first. */
  method RunOfKeys(postDateStrings: seq<string>) returns (streakDays: nat)
    requires |postDateStrings| >= 1
    requires forall i :: 0 <= i < |postDateStrings| ==> ParseDate(postDateStrings[i]).Some?
    ensures streakDays == LeadingRun(KeyDays(postDateStrings))
  {
    ghost var days := KeyDays(postDateStrings);
    streakDays := 1;
    var i := 1;
    while i < |postDateStrings|
      invariant 1 <= i <= |postDateStrings|
      invariant streakDays == i
      invariant forall k :: 1 <= k < i ==> days[k - 1] - days[k] == 1
    {
      var prev := ParseDate(postDateStrings[i - 1]);
      var cur := ParseDate(postDateStrings[i]);
      assert prev == Some(days[i - 1]) && cur == Some(days[i]);
      if prev.value - cur.value == 1 {
        streakDays := streakDays + 1;
      } else {
        LeadingRunExact(days, i);
        return;
      }
      i := i + 1;
    }
    LeadingRunExact(days, streakDays);
  }

  /** “2026-2-10” precedes “2026-2-9” as a string: at the eighth character '1' < '9'. */
  lemma TenthBeforeNinth()
    ensures StrLess("2026-2-10", "2026-2-9") && !StrLess("2026-2-9", "2026-2-10")
  {
    var a, b := "2026-2-10", "2026-2-9";
    assert a[..7] == b[..7] && a[7] == '1' && b[7] == '9';
    assert StrLess(a, b) by { StrLessFromPrefix(a, b, 7); }
    if StrLess(b, a) {
      StrLessTransitive(a, b, a);
      StrLessIrreflexive(a);
    }
  }

  lemma {:induction false} StrLessFromPrefix(a: string, b: string, k: nat)
    requires k < |a| && k < |b| && a[..k] == b[..k] && a[k] < b[k]
    ensures StrLess(a, b)
  {
    if k > 0 {
      assert a[0] == a[..k][0] == b[..k][0] == b[0];
      assert a[1..][..k - 1] == a[..k][1..];
      assert b[1..][..k - 1] == b[..k][1..];
      StrLessFromPrefix(a[1..], b[1..], k - 1);
    }
  }

  lemma DateKeysOfFebruary()
    ensures DateKey(Civil(2026, 2, 9)) == "2026-2-9"
    ensures DateKey(Civil(2026, 2, 10)) == "2026-2-10"
  {
    assert NatToString(2026) == "2026" by {
      assert NatToString(2) == "2";
      assert NatToString(20) == "20";
      assert NatToString(202) == "202";
    }
    assert NatToString(10) == "10" by { assert NatToString(1) == "1"; }
  }

  /**
   * Keys compare as strings, so “2026-2-9” sorts ahead of “2026-2-10”: a user
   * who posted on February 9 and 10 has a one-day streak on February 10,
   * because the walk meets the 9th first and its gap to the 10th is -1.
   */
  lemma LexicographicKeysBreakStreak()
    ensures Sort(["2026-2-10", "2026-2-9"], KeyBefore) == ["2026-2-9", "2026-2-10"]
    ensures ParseDate("2026-2-9") == Some(DaysFromCivil(Civil(2026, 2, 9)))
    ensures ParseDate("2026-2-10") == Some(DaysFromCivil(Civil(2026, 2, 10)))
    ensures StreakOf([DaysFromCivil(Civil(2026, 2, 9)), DaysFromCivil(Civil(2026, 2, 10))],
                     DaysFromCivil(Civil(2026, 2, 10))) == 1
  {
    SortFebruaryKeys();
    FebruaryKeysParse();
    FebruaryStreak();
  }

  lemma FebruaryKeysParse()
    ensures ParseDate("2026-2-9") == Some(DaysFromCivil(Civil(2026, 2, 9)))
    ensures ParseDate("2026-2-10") == Some(DaysFromCivil(Civil(2026, 2, 10)))
  {
    DateKeysOfFebruary();
    ParseDateKey(Civil(2026, 2, 9));
    ParseDateKey(Civil(2026, 2, 10));
  }

  lemma SortFebruaryKeys()
    ensures Sort(["2026-2-10", "2026-2-9"], KeyBefore) == ["2026-2-9", "2026-2-10"]
  {
    TenthBeforeNinth();
    var s := ["2026-2-10", "2026-2-9"];
    assert s[..1] == ["2026-2-10"];
    assert Sort(s[..1], KeyBefore) == ["2026-2-10"] by {
      assert s[..1][..0] == [];
    }
  }

  lemma FebruaryStreak()
    ensures StreakOf([DaysFromCivil(Civil(2026, 2, 9)), DaysFromCivil(Civil(2026, 2, 10))],
                     DaysFromCivil(Civil(2026, 2, 10))) == 1
  {
    var d9, d10 := DaysFromCivil(Civil(2026, 2, 9)), DaysFromCivil(Civil(2026, 2, 10));
    assert d10 == d9 + 1;
    assert LeadingRun([d9, d10]) == 1;
  }

  /* ---------------- the badge conditions ---------------- */

  function TotalKm(posts: seq<Post>): real {
    if posts == [] then 0.0 else TotalKm(posts[..|posts| - 1]) + posts[|posts| - 1].distance
  }

  function TotalLikes(posts: seq<Post>): nat {
    if posts == [] then 0 else TotalLikes(posts[..|posts| - 1]) + posts[|posts| - 1].likeCount
  }

  const RainWord: string := "비"

  predicate MentionsRain(p: Post) { p.content.Some? && Includes(p.content.value, RainWord) }

  /** What the conditions are evaluated on. */
  datatype Facts = Facts(postCount: nat, totalKm: real, kstHours: seq<int>, likesReceived: nat,
                         commentCount: nat, rainPost: bool, streakDays: nat, firstToday: bool,
                         category: Option<string>, likesGiven: nat)

  /** The statistics `awardBadges` gathers from the user row. */
  function FactsOf(u: UserActivity, streakDays: nat, firstToday: bool): (f: Facts)
    ensures |f.kstHours| == |u.posts| && forall i :: 0 <= i < |u.posts| ==> f.kstHours[i] == KstHour(u.posts[i].createdAt)
    ensures f.rainPost <==> exists i :: 0 <= i < |u.posts| && MentionsRain(u.posts[i])
  {
    Facts(|u.posts|, TotalKm(u.posts),
          seq(|u.posts|, i requires 0 <= i < |u.posts| => KstHour(u.posts[i].createdAt)),
          TotalLikes(u.posts), u.commentCount,
          exists i :: 0 <= i < |u.posts| && MentionsRain(u.posts[i]),
          streakDays, firstToday, u.category, u.likesGiven)
  }

  /** `kstHours.some(h => h < 6)` */
  predicate HasDawnHour(hours: seq<int>) { exists i :: 0 <= i < |hours| && hours[i] < 6 }

  /** `kstHours.some(h => h >= 22)` */
  predicate HasNightHour(hours: seq<int>) { exists i :: 0 <= i < |hours| && hours[i] >= 22 }

  /** The badges of the catalogue. */
  datatype Badge = FirstPost | Streak3 | Streak7 | Streak28 | Km50 | Km100 | Km200 | Dawn | Night
                 | Weekend | BestMate | Popular | Commenter | Rain | CoastGuard | HalfMaster | TeaTime
                 | Pacemaker | FirstToday | Growing

  function Name(b: Badge): string {
    match b
    case FirstPost => FirstPostName
    case Streak3 => Streak3Name
    case Streak7 => Streak7Name
    case Streak28 => Streak28Name
    case Km50 => Km50Name
    case Km100 => Km100Name
    case Km200 => Km200Name
    case Dawn => DawnName
    case Night => NightName
    case Weekend => WeekendName
    case BestMate => BestMateName
    case Popular => PopularName
    case Commenter => CommenterName
    case Rain => RainName
    case CoastGuard => CoastGuardName
    case HalfMaster => HalfMasterName
    case TeaTime => TeaTimeName
    case Pacemaker => PacemakerName
    case FirstToday => FirstTodayName
    case Growing => GrowingName
  }

  /** The catalogue, listed by badge in seeding order. */
  const Catalogue: seq<Badge> := [FirstPost, Streak3, Streak7, Streak28, Km50, Km100, Km200, Dawn, Night,
    Weekend, BestMate, Popular, Commenter, Rain, CoastGuard, HalfMaster, TeaTime, Pacemaker, FirstToday, Growing]

  /** The badge names in catalogue order. */
  const NameList: seq<string> := [FirstPostName, Streak3Name, Streak7Name, Streak28Name, Km50Name, Km100Name,
    Km200Name, DawnName, NightName, WeekendName, BestMateName, PopularName, CommenterName, RainName,
    CoastGuardName, HalfMasterName, TeaTimeName, PacemakerName, FirstTodayName, GrowingName]

  lemma NameListDistinct()
    ensures NoDuplicates(NameList)
  {
  }

  /** The position of a badge in the catalogue. */
  function Index(b: Badge): (i: nat)
    ensures i < |Catalogue| && i < |NameList| && Catalogue[i] == b && NameList[i] == Name(b)
  {
    match b
    case FirstPost => 0
    case Streak3 => 1
    case Streak7 => 2
    case Streak28 => 3
    case Km50 => 4
    case Km100 => 5
    case Km200 => 6
    case Dawn => 7
    case Night => 8
    case Weekend => 9
    case BestMate => 10
    case Popular => 11
    case Commenter => 12
    case Rain => 13
    case CoastGuard => 14
    case HalfMaster => 15
    case TeaTime => 16
    case Pacemaker => 17
    case FirstToday => 18
    case Growing => 19
  }

  /** Distinct badges have distinct names. */
  lemma NamesInjective(b: Badge, c: Badge)
    requires Name(b) == Name(c)
    ensures b == c
  {
    NameListDistinct();
    assert NameList[Index(b)] == NameList[Index(c)];
  }

  /** The seeded definitions carry the badge names in catalogue order. */
  lemma DefinitionNames()
    ensures |Definitions| == |Catalogue|
    ensures forall i :: 0 <= i < |Catalogue| ==> Definitions[i].name == Name(Catalogue[i])
  {
  }

  /** The catalogue lists every badge exactly once. */
  lemma CatalogueComplete()
    ensures NoDuplicates(Catalogue) && forall b :: b in Catalogue
  {
    forall b ensures b in Catalogue { assert Catalogue[Index(b)] == b; }
    forall i, j | 0 <= i < j < |Catalogue| ensures Catalogue[i] != Catalogue[j] {
      assert Index(Catalogue[i]) == i;
      assert Index(Catalogue[j]) == j;
    }
  }

  /** The condition under which each badge is earned. */
  predicate Criterion(b: Badge, f: Facts) {
    match b
    case FirstPost => f.postCount >= 1
    case Km50 => f.totalKm >= 50.0
    case Km100 => f.totalKm >= 100.0
    case Km200 => f.totalKm >= 200.0
    case Dawn => HasDawnHour(f.kstHours)
    case Night => HasNightHour(f.kstHours)
    case Popular => f.likesReceived >= 30
    case Commenter => f.commentCount >= 20
    case Rain => f.rainPost
    case Streak3 => f.streakDays >= 3
    case Streak7 => f.streakDays >= 7
    case Streak28 => f.streakDays >= 28
    case FirstToday => f.firstToday
    case CoastGuard => f.category == Some("10km") && f.postCount >= 5
    case HalfMaster => f.category == Some("5km") && f.postCount >= 10
    case TeaTime => f.category == Some("Tea") && f.commentCount >= 10
    case Pacemaker => f.likesGiven >= 5
    case Weekend => false
    case BestMate => false
    case Growing => false
  }

  /** The badges `awardBadges` tests, in the order it tests them. */
  const PushOrder: seq<Badge> := [FirstPost, Km50, Km100, Km200, Dawn, Night, Popular, Commenter, Rain,
    Streak3, Streak7, Streak28, FirstToday, CoastGuard, HalfMaster, TeaTime, Pacemaker]

  /** The names of the first `k` badges of `PushOrder` whose condition holds, in order. */
  function Select(k: nat, f: Facts): seq<string>
    requires k <= |PushOrder|
  {
    if k == 0 then [] else Select(k - 1, f) + (if Criterion(PushOrder[k - 1], f) then [Name(PushOrder[k - 1])] else [])
  }

  /** Where a badge stands in `PushOrder`; `|PushOrder|` for the three that are never tested. */
  function Position(b: Badge): (i: nat)
    ensures i <= |PushOrder| && (i < |PushOrder| ==> PushOrder[i] == b)
  {
    match b
    case FirstPost => 0
    case Km50 => 1
    case Km100 => 2
    case Km200 => 3
    case Dawn => 4
    case Night => 5
    case Popular => 6
    case Commenter => 7
    case Rain => 8
    case Streak3 => 9
    case Streak7 => 10
    case Streak28 => 11
    case FirstToday => 12
    case CoastGuard => 13
    case HalfMaster => 14
    case TeaTime => 15
    case Pacemaker => 16
    case Weekend => 17
    case BestMate => 17
    case Growing => 17
  }

  lemma PositionOf(i: nat)
    requires i < |PushOrder|
    ensures Position(PushOrder[i]) == i
  {
  }

  lemma {:induction false} SelectMember(k: nat, f: Facts, b: Badge)
    requires k <= |PushOrder|
    ensures Name(b) in Select(k, f) <==> Position(b) < k && Criterion(b, f)
  {
    if k > 0 {
      var p := PushOrder[k - 1];
      var init := Select(k - 1, f);
      SelectMember(k - 1, f, b);
      assert Select(k, f) == init + (if Criterion(p, f) then [Name(p)] else []);
      if b == p {
        PositionOf(k - 1);
      } else {
        if Name(b) == Name(p) { NamesInjective(b, p); }
        assert Position(b) != k - 1;
      }
    }
  }

  lemma SelectMembers(k: nat, f: Facts)
    requires k <= |PushOrder|
    ensures forall b :: Name(b) in Select(k, f) <==> Position(b) < k && Criterion(b, f)
  {
    forall b ensures Name(b) in Select(k, f) <==> Position(b) < k && Criterion(b, f) {
      SelectMember(k, f, b);
    }
  }

  lemma {:induction false} SelectDistinct(k: nat, f: Facts)
    requires k <= |PushOrder|
    ensures NoDuplicates(Select(k, f))
  {
    if k > 0 {
      var p := PushOrder[k - 1];
      var init := Select(k - 1, f);
      SelectDistinct(k - 1, f);
      SelectMember(k - 1, f, p);
      PositionOf(k - 1);
      assert Name(p) !in init;
      var tail := if Criterion(p, f) then [Name(p)] else [];
      assert Select(k, f) == init + tail;
      forall i, j | 0 <= i < j < |init + tail| ensures (init + tail)[i] != (init + tail)[j] {
        if j >= |init| {
          assert (init + tail)[j] == Name(p);
          assert (init + tail)[i] == init[i];
        }
      }
    }
  }

  /** Every selected name is the name of a badge whose condition holds. */
  lemma {:induction false} SelectedNames(k: nat, f: Facts)
    requires k <= |PushOrder|
    ensures forall n :: n in Select(k, f) ==> exists b :: Name(b) == n && Criterion(b, f)
  {
    if k > 0 {
      SelectedNames(k - 1, f);
      var p := PushOrder[k - 1];
      forall n | n in Select(k, f) ensures exists b :: Name(b) == n && Criterion(b, f) {
        if n !in Select(k - 1, f) {
          assert Name(p) == n && Criterion(p, f);
        }
      }
    }
  }

  /** The badges left out of `PushOrder` are never earned. */
  lemma CriterionInPushOrder(b: Badge, f: Facts)
    requires Criterion(b, f)
    ensures Position(b) < |PushOrder|
  {
  }

  /** A badge's name is selected exactly when its condition holds. */
  lemma EarnedNames(f: Facts)
    ensures forall b :: Name(b) in Select(|PushOrder|, f) <==> Criterion(b, f)
    ensures NoDuplicates(Select(|PushOrder|, f))
  {
    SelectMembers(|PushOrder|, f);
    SelectDistinct(|PushOrder|, f);
    forall b | Criterion(b, f) ensures Position(b) < |PushOrder| { CriterionInPushOrder(b, f); }
  }

  /** The pushes for the first post and the distance totals. */
  method DistanceBadges(f: Facts, earlier: seq<string>) returns (names: seq<string>)
    requires earlier == Select(0, f)
    ensures names == Select(4, f)
  {
    names := earlier;
    if f.postCount >= 1 { names := names + [Name(FirstPost)]; }
    assert names == Select(1, f);
    if f.totalKm >= 50.0 { names := names + [Name(Km50)]; }
    assert names == Select(2, f);
    if f.totalKm >= 100.0 { names := names + [Name(Km100)]; }
    assert names == Select(3, f);
    if f.totalKm >= 200.0 { names := names + [Name(Km200)]; }
    assert names == Select(4, f);
  }

  /** The pushes for the hour of day. */
  method HourBadges(f: Facts, earlier: seq<string>) returns (names: seq<string>)
    requires earlier == Select(4, f)
    ensures names == Select(6, f)
  {
    names := earlier;
    if HasDawnHour(f.kstHours) { names := names + [Name(Dawn)]; }
    assert names == Select(5, f);
    if HasNightHour(f.kstHours) { names := names + [Name(Night)]; }
    assert names == Select(6, f);
  }

  /** The pushes for likes, comments and rain. */
  method SocialBadges(f: Facts, earlier: seq<string>) returns (names: seq<string>)
    requires earlier == Select(6, f)
    ensures names == Select(9, f)
  {
    names := earlier;
    if f.likesReceived >= 30 { names := names + [Name(Popular)]; }
    assert names == Select(7, f);
    if f.commentCount >= 20 { names := names + [Name(Commenter)]; }
    assert names == Select(8, f);
    if f.rainPost { names := names + [Name(Rain)]; }
    assert names == Select(9, f);
  }

  /** The pushes for the streak and for the first post of the day. */
  method StreakAndFirstBadges(f: Facts, earlier: seq<string>) returns (names: seq<string>)
    requires earlier == Select(9, f)
    ensures names == Select(13, f)
  {
    names := earlier;
    if f.streakDays >= 3 { names := names + [Name(Streak3)]; }
    assert names == Select(10, f);
    if f.streakDays >= 7 { names := names + [Name(Streak7)]; }
    assert names == Select(11, f);
    if f.streakDays >= 28 { names := names + [Name(Streak28)]; }
    assert names == Select(12, f);
    if f.firstToday { names := names + [Name(FirstToday)]; }
    assert names == Select(13, f);
  }

  /** The pushes for the category badges and for likes given. */
  method CategoryBadges(f: Facts, earlier: seq<string>) returns (names: seq<string>)
    requires earlier == Select(13, f)
    ensures names == Select(17, f)
  {
    names := earlier;
    if f.category == Some("10km") && f.postCount >= 5 { names := names + [Name(CoastGuard)]; }
    assert names == Select(14, f);
    if f.category == Some("5km") && f.postCount >= 10 { names := names + [Name(HalfMaster)]; }
    assert names == Select(15, f);
    if f.category == Some("Tea") && f.commentCount >= 10 { names := names + [Name(TeaTime)]; }
    assert names == Select(16, f);
    if f.likesGiven >= 5 { names := names + [Name(Pacemaker)]; }
    assert names == Select(17, f);
  }

  /** The block of `if (...) earnedBadgeNames.push(...)` statements, in source order. */
  method EarnedBadgeNames(f: Facts) returns (names: seq<string>)
    ensures names == Select(|PushOrder|, f)
    ensures forall b :: Name(b) in names <==> Criterion(b, f)
    ensures NoDuplicates(names)
  {
    names := DistanceBadges(f, []);
    names := HourBadges(f, names);
    names := SocialBadges(f, names);
    names := StreakAndFirstBadges(f, names);
    names := CategoryBadges(f, names);
    EarnedNames(f);
  }

  /* ---------------- properties of the conditions ---------------- */

  /** The distance and streak badges are nested: a higher tier implies every lower one. */
  lemma TiersNested(f: Facts)
    ensures Name(Km200) in Select(|PushOrder|, f) ==> Name(Km100) in Select(|PushOrder|, f)
    ensures Name(Km100) in Select(|PushOrder|, f) ==> Name(Km50) in Select(|PushOrder|, f)
    ensures Name(Streak28) in Select(|PushOrder|, f) ==> Name(Streak7) in Select(|PushOrder|, f)
    ensures Name(Streak7) in Select(|PushOrder|, f) ==> Name(Streak3) in Select(|PushOrder|, f)
  {
    EarnedNames(f);
  }

  /** A user has one category, so at most one of the category badges is earned by one call. */
  lemma CategoryBadgesExclusive(f: Facts)
    ensures Name(CoastGuard) in Select(|PushOrder|, f) ==> f.category == Some("10km")
    ensures Name(HalfMaster) in Select(|PushOrder|, f) ==> f.category == Some("5km")
    ensures Name(TeaTime) in Select(|PushOrder|, f) ==> f.category == Some("Tea")
    ensures Name(CoastGuard) in Select(|PushOrder|, f) ==> Name(HalfMaster) !in Select(|PushOrder|, f)
    ensures Name(CoastGuard) in Select(|PushOrder|, f) ==> Name(TeaTime) !in Select(|PushOrder|, f)
    ensures Name(HalfMaster) in Select(|PushOrder|, f) ==> Name(TeaTime) !in Select(|PushOrder|, f)
  {
    EarnedNames(f);
  }

  /** Three catalogue badges have no condition in `awardBadges` and are never pushed. */
  lemma UnreachableBadges(f: Facts)
    ensures WeekendName !in Select(|PushOrder|, f)
    ensures BestMateName !in Select(|PushOrder|, f)
    ensures GrowingName !in Select(|PushOrder|, f)
  {
    EarnedNames(f);
    assert Name(Weekend) == WeekendName && Name(BestMate) == BestMateName && Name(Growing) == GrowingName;
  }

  /** The dawn badge is earned iff some post was made before 06:00 KST, the night badge iff some at or after 22:00. */
  lemma DawnAndNightBadges(u: UserActivity, streakDays: nat, firstToday: bool)
    ensures Name(Dawn) in Select(|PushOrder|, FactsOf(u, streakDays, firstToday)) <==>
      exists i :: 0 <= i < |u.posts| && KstHour(u.posts[i].createdAt) < 6
    ensures Name(Night) in Select(|PushOrder|, FactsOf(u, streakDays, firstToday)) <==>
      exists i :: 0 <= i < |u.posts| && KstHour(u.posts[i].createdAt) >= 22
  {
    var f := FactsOf(u, streakDays, firstToday);
    EarnedNames(f);
    if exists i :: 0 <= i < |u.posts| && KstHour(u.posts[i].createdAt) < 6 {
      var i :| 0 <= i < |u.posts| && KstHour(u.posts[i].createdAt) < 6;
      assert f.kstHours[i] < 6;
    }
    if exists i :: 0 <= i < |u.posts| && KstHour(u.posts[i].createdAt) >= 22 {
      var i :| 0 <= i < |u.posts| && KstHour(u.posts[i].createdAt) >= 22;
      assert f.kstHours[i] >= 22;
    }
  }

  /** A first post ever is always a first-post badge; one early post is a dawn badge. */
  lemma OneDawnPost(u: UserActivity, streakDays: nat, firstToday: bool)
    requires |u.posts| >= 1 && KstHour(u.posts[0].createdAt) < 6
    ensures Name(FirstPost) in Select(|PushOrder|, FactsOf(u, streakDays, firstToday))
    ensures Name(Dawn) in Select(|PushOrder|, FactsOf(u, streakDays, firstToday))
  {
    var f := FactsOf(u, streakDays, firstToday);
    EarnedNames(f);
    assert f.kstHours[0] < 6;
  }

  /* ---------------- recording the grants ---------------- */

  /** `allBadges.filter(b => earnedBadgeNames.includes(b.name) && !alreadyEarnedIds.has(b.id))` */
  function ToAward(all: seq<BadgeRow>, names: seq<string>, earned: set<nat>): (r: seq<BadgeRow>)
    ensures |r| <= |all|
    ensures forall row :: row in r <==> row in all && row.name in names && row.id !in earned
    ensures r == [] <==> forall i :: 0 <= i < |all| ==> all[i].name !in names || all[i].id in earned
  {
    if all == [] then []
    else (if all[0].name in names && all[0].id !in earned then [all[0]] else []) + ToAward(all[1..], names, earned)
  }

  /** The ids of the badges `userId` already holds. */
  function EarnedIds(grants: seq<Grant>, userId: UserId): (ids: set<nat>)
    ensures forall id :: id in ids <==> exists i :: 0 <= i < |grants| && grants[i].userId == userId && grants[i].badgeId == id
  {
    set i | 0 <= i < |grants| && grants[i].userId == userId :: grants[i].badgeId
  }

  /** The `userBadge` rows created for `rows`, stamped `now`. */
  function GrantsFor(userId: UserId, rows: seq<BadgeRow>, now: nat): (g: seq<Grant>)
    ensures |g| == |rows| && forall i :: 0 <= i < |rows| ==> g[i] == Grant(userId, rows[i].id, now)
  {
    seq(|rows|, i requires 0 <= i < |rows| => Grant(userId, rows[i].id, now))
  }

  /** The badges returned to the caller, in award order. */
  function Announce(rows: seq<BadgeRow>, now: nat): (e: seq<EarnedBadge>)
    ensures |e| == |rows|
    ensures forall i :: 0 <= i < |rows| ==>
      e[i] == EarnedBadge(rows[i].id, rows[i].name, rows[i].description, rows[i].icon, now)
  {
    seq(|rows|, i requires 0 <= i < |rows| => EarnedBadge(rows[i].id, rows[i].name, rows[i].description, rows[i].icon, now))
  }

  predicate UniqueIds(rows: seq<BadgeRow>) {
    forall i, j :: 0 <= i < j < |rows| ==> rows[i].id != rows[j].id
  }

  /** No user holds the same badge twice. */
  predicate UniqueGrants(grants: seq<Grant>) {
    forall i, j :: 0 <= i < j < |grants| ==>
      grants[i].userId != grants[j].userId || grants[i].badgeId != grants[j].badgeId
  }

  lemma {:induction false} ToAwardUniqueIds(all: seq<BadgeRow>, names: seq<string>, earned: set<nat>)
    requires UniqueIds(all)
    ensures UniqueIds(ToAward(all, names, earned))
  {
    if all != [] {
      var rest := ToAward(all[1..], names, earned);
      assert UniqueIds(all[1..]);
      ToAwardUniqueIds(all[1..], names, earned);
      forall row | row in rest ensures row.id != all[0].id {
        var j :| 0 <= j < |all[1..]| && all[1..][j] == row;
        assert all[j + 1] == row;
      }
    }
  }

  /** Recording a user's new badges keeps every (user, badge) pair unique. */
  lemma AwardKeepsGrantsUnique(all: seq<BadgeRow>, names: seq<string>, grants: seq<Grant>, userId: UserId, now: nat)
    requires UniqueIds(all) && UniqueGrants(grants)
    ensures UniqueGrants(grants + GrantsFor(userId, ToAward(all, names, EarnedIds(grants, userId)), now))
  {
    var rows := ToAward(all, names, EarnedIds(grants, userId));
    var added := GrantsFor(userId, rows, now);
    var g := grants + added;
    ToAwardUniqueIds(all, names, EarnedIds(grants, userId));
    forall i, j | 0 <= i < j < |g| ensures g[i].userId != g[j].userId || g[i].badgeId != g[j].badgeId {
      if j >= |grants| && i < |grants| {
        assert g[j] == added[j - |grants|];
        assert rows[j - |grants|] in rows;
        if g[i].userId == userId {
          assert g[i].badgeId in EarnedIds(grants, userId);
        }
      } else if i >= |grants| {
        assert g[i] == added[i - |grants|] && g[j] == added[j - |grants|];
      }
    }
  }

  /** Awarding twice in a row with the same names awards nothing the second time. */
  lemma AwardIdempotent(all: seq<BadgeRow>, names: seq<string>, grants: seq<Grant>, userId: UserId, now: nat)
    ensures ToAward(all, names,
      EarnedIds(grants + GrantsFor(userId, ToAward(all, names, EarnedIds(grants, userId)), now), userId)) == []
  {
    var rows := ToAward(all, names, EarnedIds(grants, userId));
    var g := grants + GrantsFor(userId, rows, now);
    var again := ToAward(all, names, EarnedIds(g, userId));
    forall j | 0 <= j < |all| && all[j].name in names ensures all[j].id in EarnedIds(g, userId) {
      var row := all[j];
      if row.id in EarnedIds(grants, userId) {
        var i :| 0 <= i < |grants| && grants[i].userId == userId && grants[i].badgeId == row.id;
        assert g[i] == grants[i];
      } else {
        assert row in rows;
        var k :| 0 <= k < |rows| && rows[k] == row;
        assert g[|grants| + k] == Grant(userId, row.id, now);
      }
    }

  }

  /**
   * With the full catalogue seeded, every badge whose condition holds and that
   * the user does not hold yet is awarded, and nothing else is.
   */
  lemma AwardedExactly(all: seq<BadgeRow>, f: Facts, earned: set<nat>, row: BadgeRow)
    ensures row in ToAward(all, Select(|PushOrder|, f), earned) <==>
      row in all && row.id !in earned && exists b :: Name(b) == row.name && Criterion(b, f)
  {
    EarnedNames(f);
    SelectedNames(|PushOrder|, f);
  }

  /** The rows seeded into an empty table, with ids from `from`. */
  function SeedRows(from: nat, k: nat): (rows: seq<BadgeRow>)
    requires k <= |Definitions|
    ensures |rows| == k
    ensures forall i :: 0 <= i < k ==>
      rows[i] == BadgeRow(from + i, Definitions[i].name, Definitions[i].description, Definitions[i].icon)
  {
    seq(k, i requires 0 <= i < k => BadgeRow(from + i, Definitions[i].name, Definitions[i].description, Definitions[i].icon))
  }

  /** The badge table and the user-badge table. */
  class BadgeStore {
    var badges: seq<BadgeRow>
    var grants: seq<Grant>
    /** The id the next created badge row receives. */
    var nextId: nat

    ghost predicate Valid()
      reads this
    {
      UniqueIds(badges) && (forall i :: 0 <= i < |badges| ==> badges[i].id < nextId) && UniqueGrants(grants)
    }

    constructor ()
      ensures Valid() && badges == [] && grants == []
    {
      badges, grants, nextId := [], [], 0;
    }

    /** `ensureBadgesExist`: seed the whole catalogue when the badge table is empty. */
    method EnsureBadgesExist()
      requires Valid()
      modifies this
      ensures Valid() && grants == old(grants) && |badges| > 0
      ensures old(badges) == [] ==> badges == SeedRows(old(nextId), |Definitions|) && nextId == old(nextId) + |Definitions|
      ensures old(badges) != [] ==> badges == old(badges) && nextId == old(nextId)
    {
      if |badges| == 0 {
        ghost var from := nextId;
        var i := 0;
        while i < |Definitions|
          invariant 0 <= i <= |Definitions|
          invariant badges == SeedRows(from, i) && nextId == from + i && grants == old(grants)
        {
          var d := Definitions[i];
          badges := badges + [BadgeRow(nextId, d.name, d.description, d.icon)];
          nextId := nextId + 1;
          i := i + 1;
        }
      }
    }

    /**
     * `awardBadges(userId)`: seed the catalogue if needed, evaluate the
     * conditions on the user's activity (`None` when the user row is missing),
     * and record and return the badges not held before. `firstPoster` is the
     * author of the first post since KST midnight, `now` the current instant,
     * which also stamps the new grants.
     */
    method AwardBadges(userId: UserId, user: Option<UserActivity>, firstPoster: Option<UserId>, now: nat)
      returns (newlyEarned: seq<EarnedBadge>)
      requires Valid()
      modifies this
      ensures Valid()
      ensures old(badges) == [] ==> badges == SeedRows(old(nextId), |Definitions|)
      ensures old(badges) != [] ==> badges == old(badges)
      ensures user.None? ==> newlyEarned == [] && grants == old(grants)
      ensures user.Some? ==>
        var f := FactsOf(user.value, BadgeStreak(user.value.posts, now), firstPoster == Some(userId));
        var rows := ToAward(badges, Select(|PushOrder|, f), EarnedIds(old(grants), userId));
        grants == old(grants) + GrantsFor(userId, rows, now) && newlyEarned == Announce(rows, now)
    {
      EnsureBadgesExist();
      if user.None? {
        return [];
      }
      var u := user.value;
      var allBadges := badges;
      var streakDays := KstStreak(u.posts, now);
      var earnedBadgeNames := EarnedBadgeNames(FactsOf(u, streakDays, firstPoster == Some(userId)));
      var alreadyEarnedIds := EarnedIds(grants, userId);
      var toAward := ToAward(allBadges, earnedBadgeNames, alreadyEarnedIds);
      AwardKeepsGrantsUnique(allBadges, earnedBadgeNames, grants, userId, now);
      newlyEarned := RecordGrants(userId, toAward, now);
    }

    /** Step 5 of `awardBadges`: one `userBadge` row per badge to award, collected for the caller. */
    method RecordGrants(userId: UserId, toAward: seq<BadgeRow>, now: nat) returns (newlyEarned: seq<EarnedBadge>)
      requires Valid() && UniqueGrants(grants + GrantsFor(userId, toAward, now))
      modifies this
      ensures Valid()
      ensures badges == old(badges) && nextId == old(nextId)
      ensures grants == old(grants) + GrantsFor(userId, toAward, now)
      ensures newlyEarned == Announce(toAward, now)
    {
      newlyEarned := [];
      var i := 0;
      while i < |toAward|
        invariant 0 <= i <= |toAward|
        invariant badges == old(badges) && nextId == old(nextId)
        invariant grants == old(grants) + GrantsFor(userId, toAward[..i], now)
        invariant newlyEarned == Announce(toAward[..i], now)
      {
        var badge := toAward[i];
        grants := grants + [Grant(userId, badge.id, now)];
        newlyEarned := newlyEarned + [EarnedBadge(badge.id, badge.name, badge.description, badge.icon, now)];
        i := i + 1;
        assert toAward[..i] == toAward[..i - 1] + [badge];
      }
      assert toAward[..i] == toAward;
    }
  }
}
