/**
 * `/api/ranking`: the current month's ranking of onboarded users by the
 * number of distinct days they posted, ties broken by the distance run.
 * `now` is the current instant and `offset` the server's fixed distance
 * from UTC in ms; the user rows with their posts are inputs.
 */
module RankingRoute {
  import opened Wrappers
  import opened JsText
  import opened JsDate
  import opened Sorting
  import opened MeRoute

  /** A post as the ranking query selects it. */
  datatype MonthPost = MonthPost(distance: real, createdAt: nat)

  /** A user row with all of that user's posts. */
  datatype RankUser = RankUser(name: string, initials: Option<string>, image: Option<string>,
                               isOnboarded: bool, posts: seq<MonthPost>)

  /** One line of the ranking before its rank is assigned. */
  datatype RankRow = RankRow(name: string, initials: string, avatar: string, certDays: nat, totalKm: real)

  /** A ranked line: the row with its 1-based place. */
  datatype RankEntry = RankEntry(row: RankRow, rank: nat)

  /* ---------------- the month window ---------------- */

  /** `new Date(now.getFullYear(), now.getMonth(), 1)`. */
  function MonthStart(now: nat, offset: int): int {
    var c := LocalCivil(now, offset);
    LocalInstant(c.year, c.month - 1, 1, 0, 0, 0, 0, offset)
  }

  /** `new Date(now.getFullYear(), now.getMonth() + 1, 0, 23, 59, 59, 999)`. */
  function MonthEnd(now: nat, offset: int): int {
    var c := LocalCivil(now, offset);
    LocalInstant(c.year, c.month, 0, 23, 59, 59, 999, offset)
  }

  /** The query's `gte: startOfMonth, lte: endOfMonth`. */
  predicate InMonth(t: int, now: nat, offset: int) {
    MonthStart(now, offset) <= t <= MonthEnd(now, offset)
  }

  lemma YearAfterEpoch(t: int, offset: int)
    requires t + offset >= 0
    ensures LocalCivil(t, offset).year >= 1970
  {
  }

  /**
   * From the first of the month at midnight to the last day at 23:59:59.999
   * inclusive: the window holds exactly the instants of the current local month.
   */
  lemma InMonthIff(now: nat, offset: int, t: int)
    requires now + offset >= 0
    ensures InMonth(t, now, offset) <==>
      LocalCivil(t, offset).year == LocalCivil(now, offset).year && LocalCivil(t, offset).month == LocalCivil(now, offset).month
  {
    var c := LocalCivil(now, offset);
    YearAfterEpoch(now, offset);
    MonthWindow(c.year, c.month, offset, t);
  }

  /** The posts of the current month. */
  function MonthPosts(posts: seq<MonthPost>, now: nat, offset: int): (r: seq<MonthPost>)
    ensures |r| <= |posts|
    ensures forall p :: p in r <==> p in posts && InMonth(p.createdAt, now, offset)
  {
    if posts == [] then []
    else
      var init := MonthPosts(posts[..|posts| - 1], now, offset);
      var p := posts[|posts| - 1];
      assert posts == posts[..|posts| - 1] + [p];
      if InMonth(p.createdAt, now, offset) then init + [p] else init
  }

  /* ---------------- one user's line ---------------- */

  /** `new Set(posts.map(p => p.createdAt.getDate()))`. */
  function PostDays(posts: seq<MonthPost>, offset: int): set<int> {
    if posts == [] then {} else PostDays(posts[..|posts| - 1], offset) + {LocalCivil(posts[|posts| - 1].createdAt, offset).day}
  }

  lemma {:induction false} PostDaysMembers(posts: seq<MonthPost>, offset: int)
    ensures forall d :: d in PostDays(posts, offset) <==> exists p :: p in posts && LocalCivil(p.createdAt, offset).day == d
    ensures |PostDays(posts, offset)| <= |posts|
  {
    PostDaysIn(posts, offset);
    PostDaysSize(posts, offset);
  }

  lemma {:induction false} PostDaysIn(posts: seq<MonthPost>, offset: int)
    ensures forall d :: d in PostDays(posts, offset) <==> exists p :: p in posts && LocalCivil(p.createdAt, offset).day == d
  {
    if posts != [] {
      var init := posts[..|posts| - 1];
      PostDaysIn(init, offset);
      assert posts == init + [posts[|posts| - 1]];
    }
  }

  lemma {:induction false} PostDaysSize(posts: seq<MonthPost>, offset: int)
    ensures |PostDays(posts, offset)| <= |posts|
  {
    if posts != [] {
      PostDaysSize(posts[..|posts| - 1], offset);
    }
  }

  /** The day numbers a month can have, 1..31. */
  function MonthDays(): (r: seq<int>)
    ensures |r| == 31 && forall i :: 0 <= i < 31 ==> r[i] == i + 1
  {
    seq(31, i => i + 1)
  }

  function DaysOfMonth(): set<int> { set d | d in MonthDays() }

  lemma DaysOfMonthSize()
    ensures |DaysOfMonth()| == 31
    ensures forall d :: 1 <= d <= 31 ==> d in DaysOfMonth()
  {
    var r := MonthDays();
    assert NoDuplicates(r);
    DistinctElements(r);
    forall d | 1 <= d <= 31 ensures d in r { assert r[d - 1] == d; }
  }

  lemma SubsetSize(a: set<int>, b: set<int>)
    requires a <= b
    ensures |a| <= |b|
  {
    assert b == a + (b - a);
    assert a !! (b - a);
  }

  /** `uniqueDays.size`. */
  function CertDays(posts: seq<MonthPost>, offset: int): nat { |PostDays(posts, offset)| }

  lemma DayOfMonth(c: Civil)
    requires ValidCivil(c)
    ensures c.day in DaysOfMonth()
  {
    DaysOfMonthSize();
  }

  /** Every distinct day is a day of the month. */
  lemma {:induction false} PostDaysInMonth(posts: seq<MonthPost>, offset: int)
    ensures PostDays(posts, offset) <= DaysOfMonth()
  {
    if posts != [] {
      PostDaysInMonth(posts[..|posts| - 1], offset);
      DayOfMonth(LocalCivil(posts[|posts| - 1].createdAt, offset));
    }
  }

  /** At most 31, at most one per post, and zero exactly when there is no post. */
  lemma CertDaysBounds(posts: seq<MonthPost>, offset: int)
    ensures CertDays(posts, offset) <= 31 && CertDays(posts, offset) <= |posts|
    ensures CertDays(posts, offset) == 0 <==> posts == []
  {
    PostDaysMembers(posts, offset);
    PostDaysInMonth(posts, offset);
    SubsetSize(PostDays(posts, offset), DaysOfMonth());
    DaysOfMonthSize();
    if posts != [] {
      var p := posts[0];
      assert LocalCivil(p.createdAt, offset).day in PostDays(posts, offset);
    }
  }

  function MonthKm(posts: seq<MonthPost>): real {
    if posts == [] then 0.0 else MonthKm(posts[..|posts| - 1]) + posts[|posts| - 1].distance
  }

  /** `user.initials || user.name.slice(0, 2).toUpperCase()`. */
  function Initials(u: RankUser): (s: string)
    ensures u.initials.Some? && u.initials.value != "" ==> s == u.initials.value
    ensures !(u.initials.Some? && u.initials.value != "") ==>
      |s| == (if |u.name| < 2 then |u.name| else 2) && forall i :: 0 <= i < |s| ==> s[i] == UpperChar(u.name[i])
  {
    if u.initials.Some? && u.initials.value != "" then u.initials.value else ToUpperCase(Prefix(u.name, 2))
  }

  /** `user.image || ""`. */
  function Avatar(u: RankUser): string {
    if u.image.Some? then u.image.value else ""
  }

  /** The line of user `u` for the month of `now`. */
  function RowOf(u: RankUser, now: nat, offset: int): RankRow {
    var ps := MonthPosts(u.posts, now, offset);
    RankRow(u.name, Initials(u), Avatar(u), CertDays(ps, offset), RoundTenth(MonthKm(ps)))
  }

  /** `findMany({ where: { isOnboarded: true } })` followed by the `map`. */
  function Rows(users: seq<RankUser>, now: nat, offset: int): (rows: seq<RankRow>)
    ensures forall r :: r in rows <==> exists u :: u in users && u.isOnboarded && RowOf(u, now, offset) == r
  {
    if users == [] then []
    else
      var init := Rows(users[..|users| - 1], now, offset);
      var u := users[|users| - 1];
      assert users == users[..|users| - 1] + [u];
      if u.isOnboarded then init + [RowOf(u, now, offset)] else init
  }

  /** `.filter(u => u.certDays > 0)`. */
  function Certified(rows: seq<RankRow>): (r: seq<RankRow>)
    ensures forall x :: x in r <==> x in rows && x.certDays > 0
    ensures multiset(r) <= multiset(rows)
  {
    if rows == [] then []
    else
      var init := Certified(rows[..|rows| - 1]);
      var x := rows[|rows| - 1];
      assert rows == rows[..|rows| - 1] + [x];
      if x.certDays > 0 then init + [x] else init
  }

  /* ---------------- order and ranks ---------------- */

  /** The comparator `b.certDays - a.certDays || b.totalKm - a.totalKm` is negative. */
  predicate RankBefore(a: RankRow, b: RankRow) {
    a.certDays > b.certDays || (a.certDays == b.certDays && a.totalKm > b.totalKm)
  }

  lemma RankBeforeIsStrict()
    ensures StrictOrder(RankBefore)
  {
  }

  /** `.map((u, i) => ({ ...u, rank: i + 1 }))`. */
  function Ranked(rows: seq<RankRow>): (r: seq<RankEntry>)
    ensures |r| == |rows|
  {
    seq(|rows|, i requires 0 <= i < |rows| => RankEntry(rows[i], i + 1))
  }

  function RowsOf(entries: seq<RankEntry>): (r: seq<RankRow>)
    ensures |r| == |entries|
  {
    seq(|entries|, i requires 0 <= i < |entries| => entries[i].row)
  }

  /** The ranking GET returns. */
  function Ranking(users: seq<RankUser>, now: nat, offset: int): seq<RankEntry> {
    Ranked(Sort(Certified(Rows(users, now, offset)), RankBefore))
  }

  /** The places are 1..N in order, and the lines are in the order the ranks say. */
  lemma RankingOrder(users: seq<RankUser>, now: nat, offset: int)
    ensures var r := Ranking(users, now, offset);
      (forall i :: 0 <= i < |r| ==> r[i].rank == i + 1) &&
      (forall i, j :: 0 <= i < j < |r| ==> r[i].row.certDays >= r[j].row.certDays) &&
      (forall i, j :: 0 <= i < j < |r| && r[i].row.certDays == r[j].row.certDays ==> r[i].row.totalKm >= r[j].row.totalKm)
  {
    var sorted := Sort(Certified(Rows(users, now, offset)), RankBefore);
    RankBeforeIsStrict();
    SortSorted(Certified(Rows(users, now, offset)), RankBefore);
    var r := Ranking(users, now, offset);
    forall i, j | 0 <= i < j < |r| ensures r[i].row.certDays >= r[j].row.certDays {
      assert !RankBefore(sorted[j], sorted[i]);
    }
    forall i, j | 0 <= i < j < |r| && r[i].row.certDays == r[j].row.certDays ensures r[i].row.totalKm >= r[j].row.totalKm {
      assert !RankBefore(sorted[j], sorted[i]);
    }
  }

  /** The ranked lines are a permutation of the lines with a certified day: none dropped, none added, none repeated. */
  lemma RankingPermutation(users: seq<RankUser>, now: nat, offset: int)
    ensures multiset(RowsOf(Ranking(users, now, offset))) == multiset(Certified(Rows(users, now, offset)))
  {
    var sorted := Sort(Certified(Rows(users, now, offset)), RankBefore);
    assert RowsOf(Ranking(users, now, offset)) == sorted;
  }

  /** The ranked lines are the certified lines. */
  lemma RankedAreCertified(users: seq<RankUser>, now: nat, offset: int)
    ensures forall row :: row in RowsOf(Ranking(users, now, offset)) <==> row in Certified(Rows(users, now, offset))
  {
    var c := Certified(Rows(users, now, offset));
    assert RowsOf(Ranking(users, now, offset)) == Sort(c, RankBefore);
    SortMembers(c, RankBefore);
  }

  /** A line is ranked exactly when it is the line of an onboarded user who posted in the current month. */
  lemma RankingMembers(users: seq<RankUser>, now: nat, offset: int)
    ensures forall row :: row in RowsOf(Ranking(users, now, offset)) <==>
      exists u :: u in users && u.isOnboarded && RowOf(u, now, offset) == row && MonthPosts(u.posts, now, offset) != []
  {
    RankedAreCertified(users, now, offset);
    forall u | u in users ensures CertDays(MonthPosts(u.posts, now, offset), offset) > 0 <==> MonthPosts(u.posts, now, offset) != [] {
      CertDaysBounds(MonthPosts(u.posts, now, offset), offset);
    }
  }

  lemma {:induction false} RowsDaysBound(users: seq<RankUser>, now: nat, offset: int)
    ensures forall row :: row in Rows(users, now, offset) ==> row.certDays <= 31
  {
    if users != [] {
      var u := users[|users| - 1];
      RowsDaysBound(users[..|users| - 1], now, offset);
      CertDaysBounds(MonthPosts(u.posts, now, offset), offset);
    }
  }

  /** Every ranked line has between 1 and 31 certified days. */
  lemma RankingDays(users: seq<RankUser>, now: nat, offset: int)
    ensures forall e :: e in Ranking(users, now, offset) ==> 1 <= e.row.certDays <= 31
  {
    var r := Ranking(users, now, offset);
    RankedAreCertified(users, now, offset);
    RowsDaysBound(users, now, offset);
    forall e | e in r ensures 1 <= e.row.certDays <= 31 {
      var i :| 0 <= i < |r| && r[i] == e;
      assert e.row == RowsOf(r)[i];
    }
  }

  datatype RankingResponse = RankingUnauthorized | RankingList(entries: seq<RankEntry>)

  /** GET /api/ranking; the route reads no query parameter, so the month is always the current one. */
  function Get(sessionUserId: Option<string>, users: seq<RankUser>, now: nat, offset: int): (r: RankingResponse)
    ensures r.RankingUnauthorized? <==> !SignedIn(sessionUserId)
  {
    if !SignedIn(sessionUserId) then RankingUnauthorized else RankingList(Ranking(users, now, offset))
  }
}
