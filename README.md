# Sea Side Marathon: a verified model of the running-crew core

Sea Side Marathon is a web app for a running crew. Members post their runs: a distance, a duration typed as `"H:MM"`, and a time stamp. The app derives everything else from those posts:

- profile statistics: total distance, total time as `HH:MM`, average pace and the day streak;
- a monthly ranking by the number of distinct days run;
- a calendar of the days run in a month;
- badges awarded when activity thresholds are crossed.

Around these are a few state machines in the pages:
- the ranking month selector;
- the calendar month arrows;
- the onboarding and nickname checks;
- the badge pop-up pager;
- the like and wave toggles.

This project models that core in Dafny. Its parts are:

- `wrappers.dfy`: `Option`.
- `js_text.dfy` (`JsText`): the JavaScript string operations the code relies on, namely `String(n)`, `padStart`, `trim`, `toUpperCase`, `slice`, `split`, `includes`, `parseInt`, `Number` and the code-unit order, which `localeCompare` follows on keys made of digits and `-` (the only keys the code compares). On other text, locale collation differs: `"a".localeCompare("B")` is negative.
- `js_date.dfy` (`JsDate`): the proleptic Gregorian calendar behind `Date`:
  - day numbers since 1970-01-01;
  - `MakeDay` with month and day rolling, and years 0..99 read as 1900..1999;
  - local time as a fixed offset from UTC;
  - the month-window lemma.
- `sorting.dfy` (`Sorting`): `Array.prototype.sort` as a stable insertion sort under a strict order, with sortedness and permutation proved. Also `[...new Set(xs)]` as `Dedup`.
- `streak.dfy` (`Streak`): the streak walk shared by the badge engine and the profile route.
- `badges.dfy` (`Badges`): `lib/badges.ts`. It covers:
  - the KST hour and date key;
  - the seventeen badge conditions in their push order;
  - the string-ordered streak;
  - the award delta;
  - `ensureBadgesExist`;
  - a `BadgeStore` class holding the badge and user-badge tables.
- `me_route.dfy` (`MeRoute`): GET and PATCH of `/api/me`.
- `ranking_route.dfy` (`RankingRoute`): GET `/api/ranking`.
- `calendar_route.dfy` (`CalendarRoute`): GET `/api/me/calendar`.
- `ranking_page.dfy`, `calendar_page.dfy`, `signup_page.dfy`, `profile_page.dfy`, `badge_popup.dfy`, `feed_page.dfy`: the page logic, each with a class for the state the page updates.

Some of the code's behaviour is easy to misread. The model follows the code as written:

- A duration segment that is not a number is not read as 0. `parseInt` yields `NaN`, and `NaN` spreads through the minute total (`MeRoute.SumMinutesNaN`). Only a missing or empty segment reads as 0.
- `/api/ranking` counts every day with a post. It applies no distance or duration threshold. Ties are broken by the rounded distance, not by minutes. It builds no five-view leaderboard, and it ignores the `year` and `month` parameters the ranking page sends.
- The badge streak walks its date keys in string order, not date order (`Badges.LexicographicKeysBreakStreak`). The dawn badge tests a KST hour below 6, not an hour band.

Instants are whole milliseconds since 1970; distances are exact reals. The server's time zone is a fixed offset `offset`. KST is the fixed +9 h that the code itself adds. Sessions, database rows, the request body and the current instant are inputs to the functions and methods.

## Model

| member | source | states |
|---|---|---|
| Badges.KstHour | lib/badges.ts:49-53 | the hour lies in 0..23 and is the hour within the UTC day of the instant moved 9 hours later |
| Badges.DawnAndNightBadges | lib/badges.ts:93-104 | the dawn badge is computed iff some post has a KST hour below 6; the night badge iff some post has one of 22 or more |
| Badges.KstKeyParses | lib/badges.ts:113-125 | parsing a KST date key gives back the KST day number of the instant |
| Badges.KeyBeforeIsStrict | lib/badges.ts:119 | the `localeCompare` comparator on date keys is a strict order |
| Badges.SortedKeysFacts | lib/badges.ts:119 | the sorted keys are distinct, strictly descending as strings, exactly the posts' keys, and no more than the posts |
| Badges.SortedKeysDays | lib/badges.ts:119-125 | every sorted key parses to the KST day of some post |
| Badges.SortedKeysNonEmpty | lib/badges.ts:112-119 | a user with posts has at least one key |
| Badges.KeyDays | lib/badges.ts:122-125 | the day of each key is its parsed value, in key order |
| Badges.KstStreak | lib/badges.ts:111-139 | the streak block's result equals the walk over the string-sorted keys |
| Badges.RunOfKeys | lib/badges.ts:132-137 | the loop counts the first key plus the following keys exactly one day apart, stopping at the first other gap |
| Badges.BadgeStreakBounds | lib/badges.ts:111-139 | the streak is at most the number of distinct KST dates; it is 0 iff there is no post or the first key is more than a day before today |
| Badges.TenthBeforeNinth | lib/badges.ts:115-119 | as strings, "2026-2-10" precedes "2026-2-9" and not the other way round |
| Badges.LexicographicKeysBreakStreak | lib/badges.ts:115-137 | posts on February 9 and 10 sort as 9, 10 and give a one-day streak on the 10th |
| Badges.FactsOf | lib/badges.ts:89-108 | the KST hours are those of the posts in order; the rain flag holds iff some post's content contains "비" |
| Badges.Index | lib/badges.ts:11-32 | every badge has a position in the catalogue, holding that badge and its name |
| Badges.NamesInjective | lib/badges.ts:11-32 | distinct badges have distinct names |
| Badges.DefinitionNames | lib/badges.ts:11-32 | the twenty definitions carry the badge names in catalogue order |
| Badges.CatalogueComplete | lib/badges.ts:11-32 | the catalogue lists every badge exactly once |
| Badges.Position | lib/badges.ts:98-163 | each tested badge has its place in the push order, and the three untested ones have none |
| Badges.SelectMember | lib/badges.ts:98-163 | a name is pushed by the first `k` tests iff its badge is among them and its condition holds |
| Badges.SelectDistinct | lib/badges.ts:98-163 | no name is pushed twice |
| Badges.SelectedNames | lib/badges.ts:98-163 | every pushed name belongs to a badge whose condition holds |
| Badges.EarnedNames | lib/badges.ts:98-163 | a badge's name is pushed iff its condition holds, and each at most once |
| Badges.DistanceBadges | lib/badges.ts:98-101 | the first four pushes give the first four selections |
| Badges.HourBadges | lib/badges.ts:103-104 | the dawn and night pushes extend them to the first six |
| Badges.SocialBadges | lib/badges.ts:106-108 | the likes, comments and rain pushes extend them to nine |
| Badges.StreakAndFirstBadges | lib/badges.ts:141-157 | the streak and first-of-the-day pushes extend them to thirteen |
| Badges.CategoryBadges | lib/badges.ts:159-163 | the category and likes-given pushes complete the seventeen |
| Badges.EarnedBadgeNames | lib/badges.ts:96-163 | the pushed names are exactly those whose condition holds, in push order, without duplicates |
| Badges.TiersNested | lib/badges.ts:99-143 | 200 km implies 100 km implies 50 km; a 28-day streak implies 7 implies 3 |
| Badges.CategoryBadgesExclusive | lib/badges.ts:159-161 | each category badge needs its own category ("10km", "5km", "Tea"), so at most one fires |
| Badges.UnreachableBadges | lib/badges.ts:21-31 | "주말의 전사", "베스트 메이트" and "성장하는 러너" are never pushed |
| Badges.OneDawnPost | lib/badges.ts:98-103 | a user whose first post is before 06:00 KST earns the first-post and dawn badges |
| Badges.ToAward | lib/badges.ts:173 | a row is awarded iff it is in the table, its name was pushed and its id is not held; nothing is awarded iff every row fails that |
| Badges.EarnedIds | lib/badges.ts:166-170 | the held ids are exactly the badge ids of the user's grants |
| Badges.GrantsFor | lib/badges.ts:175-178 | one grant of the user per awarded row, in order |
| Badges.Announce | lib/badges.ts:179-185 | one returned badge per awarded row, carrying its id, name, description, icon and the grant time |
| Badges.ToAwardUniqueIds | lib/badges.ts:173 | filtering keeps the ids distinct |
| Badges.AwardKeepsGrantsUnique | lib/badges.ts:166-186 | recording the new grants never gives a user the same badge twice |
| Badges.AwardIdempotent | lib/badges.ts:166-186 | awarding again with the same names after the grants were recorded awards nothing |
| Badges.AwardedExactly | lib/badges.ts:98-173 | a row is awarded iff it is in the table, not held, and named after a badge whose condition holds |
| Badges.SeedRows | lib/badges.ts:42-44 | seeded row `i` carries definition `i` and the `i`-th fresh id |
| Badges.BadgeStore.constructor | lib/badges.ts:38-47 | the store starts with empty tables |
| Badges.BadgeStore.EnsureBadgesExist | lib/badges.ts:38-47 | an empty table receives all definitions in order; a non-empty one is left unchanged, so a second call changes nothing |
| Badges.BadgeStore.AwardBadges | lib/badges.ts:55-190 | after seeding, an unknown user gets nothing; otherwise the grants grow by exactly the awarded rows and those rows are returned |
| Badges.BadgeStore.RecordGrants | lib/badges.ts:172-186 | the loop appends one grant and one returned badge per awarded row and leaves the badge table alone |
| MeRoute.SegmentOrZero | app/api/me/route.ts:43-44 | `parts[i] \|\| "0"` is never empty |
| MeRoute.DurationOfNumerals | app/api/me/route.ts:42-45 | two numerals joined by a colon read as `h * 60 + m` |
| MeRoute.DurationOfParts | app/api/me/route.ts:42-45 | "H:MM", with either side zero-padded to any width, reads as `h * 60 + m` |
| MeRoute.StoredDuration | app/api/me/route.ts:42-45 | an unpadded hour, a colon and two minute digits read as `h * 60 + m` |
| MeRoute.DurationOfHours | app/api/me/route.ts:42-45 | a numeral without a colon is whole hours |
| MeRoute.DurationHoursOnly | app/api/me/route.ts:42-45 | `String(h)` is `h * 60` minutes and the empty duration is 0 |
| MeRoute.DurationNotANumber | app/api/me/route.ts:43 | an hour segment that starts with a letter makes the duration `NaN` |
| MeRoute.PostMinutesAt | app/api/me/route.ts:41-45 | the `i`-th term of the sum is the `i`-th post's minutes |
| MeRoute.SumMinutesStep | app/api/me/route.ts:45 | one more post adds its minutes to the running total, and `NaN` stays `NaN` |
| MeRoute.SumOptionsNaN | app/api/me/route.ts:45 | a sum is `NaN` iff one of its terms is |
| MeRoute.SumMinutesNaN | app/api/me/route.ts:40-46 | `totalMinutes` is `NaN` iff some post's duration is |
| MeRoute.SumOptionsOfSome | app/api/me/route.ts:45 | a sum of numbers is their total |
| MeRoute.SumOfParsed | app/api/me/route.ts:40-46 | without `NaN`, `totalMinutes` is the sum of the posts' minutes |
| MeRoute.ParseDuration | app/api/me/route.ts:42-45 | the loop body's parse computes the post's minutes |
| MeRoute.TotalMinutes | app/api/me/route.ts:40-46 | the loop computes the sum of all posts' minutes |
| MeRoute.JsRem | app/api/me/route.ts:49 | `%` leaves a remainder with the dividend's sign, smaller than the divisor |
| MeRoute.TotalTimeText | app/api/me/route.ts:48-50 | for `n >= 0` the text is `floor(n/60)` and `n % 60`, each zero-padded to two characters, around a colon |
| MeRoute.TotalTimeRoundTrip | app/api/me/route.ts:42-50 | parsing `totalTime` back as a duration gives `n` for every `n >= 0` |
| MeRoute.TotalTimeMinutesField | app/api/me/route.ts:48-50 | `totalTime` ends in a colon and two digits whose value is `n % 60`, below 60 |
| MeRoute.TotalTimeNaN | app/api/me/route.ts:48-50 | a `NaN` total shows as "NaN:NaN" |
| MeRoute.JsRound | app/api/me/route.ts:57 | `Math.round` is the nearest integer, with halves rounded up |
| MeRoute.PaceOf | app/api/me/route.ts:55-57 | pace minutes are the floor of minutes per km; seconds lie in 0..60 |
| MeRoute.AvgPace | app/api/me/route.ts:53-59 | the pace is "-" iff not both the distance and the minutes are positive |
| MeRoute.PaceExample | app/api/me/route.ts:55-58 | 10 km in 62 minutes is 6 minutes 12 seconds |
| MeRoute.PaceSixtySeconds | app/api/me/route.ts:56-58 | 200 km in 1199 minutes is 5 minutes 60 seconds, with 60 not carried |
| MeRoute.LaterIsStrict | app/api/me/route.ts:69 | `(a, b) => b - a` is a strict order |
| MeRoute.PostDatesMembers | app/api/me/route.ts:65-69 | the post dates are exactly the local midnights of the posts, and no more than the posts |
| MeRoute.PostDatesDescending | app/api/me/route.ts:65-69 | the post dates strictly decrease |
| MeRoute.MidnightOfDay | app/api/me/route.ts:66-68 | each key is the midnight of its own day number, and some post falls on that day |
| MeRoute.PostDatesMidnights | app/api/me/route.ts:66-68 | every post date is the midnight of its day number |
| MeRoute.PostDaysDescending | app/api/me/route.ts:65-69 | the day numbers of the post dates strictly decrease |
| MeRoute.PostDaysMembers | app/api/me/route.ts:65-69 | the day numbers are exactly the days with a post |
| MeRoute.PostDatesNonEmpty | app/api/me/route.ts:65-71 | some post means some post date |
| MeRoute.LatestPostDay | app/api/me/route.ts:73 | the first day is the latest day with a post |
| MeRoute.ProfileStreakZero | app/api/me/route.ts:62-86 | the streak is 0 iff there is no post or the latest post day is more than a day before today; it is at most the number of post days |
| MeRoute.ProfileStreakBlock | app/api/me/route.ts:75-85 | a positive streak is the block of consecutive days with a post ending at the latest one; the day before the block has none |
| MeRoute.StreakDays | app/api/me/route.ts:62-86 | the streak block computes the profile streak |
| MeRoute.RunOfDates | app/api/me/route.ts:76-84 | the loop counts the midnights exactly one day apart, from the newest |
| MeRoute.RoundTenth | app/api/me/route.ts:91 | rounding to a tenth moves the value by at most 0.05 |
| MeRoute.Get | app/api/me/route.ts:6-98 | 401 iff there is no session user id; otherwise 404 iff no user row; otherwise the row with the statistics, `totalRuns` being the number of posts |
| MeRoute.PatchData | app/api/me/route.ts:107-114 | only the four fields are copied, each unchanged; name, initials and category are copied iff truthy; `isOnboarded` iff present, `false` included; a field is in `data` iff it is copied |
| MeRoute.Patch | app/api/me/route.ts:101-122 | 401 iff there is no session user id. Otherwise the update is rejected iff a copied field has the wrong column type. Otherwise the new row has exactly the stored fields plus the copied ones: a copied field takes the body's value and every other field keeps its stored value |
| RankingRoute.YearAfterEpoch | app/api/ranking/route.ts:13 | an instant from 1970 on has a year from 1970 on |
| RankingRoute.InMonthIff | app/api/ranking/route.ts:12-30 | the window from the 1st at 00:00 to the last day at 23:59:59.999 holds exactly the instants of the current local month |
| RankingRoute.MonthPosts | app/api/ranking/route.ts:24-30 | the user's posts kept are exactly those in the window |
| RankingRoute.PostDaysMembers | app/api/ranking/route.ts:39 | the day set holds exactly the `getDate` values of the posts, and no more than the posts |
| RankingRoute.PostDaysInMonth | app/api/ranking/route.ts:39 | every day in the set is between 1 and 31 |
| RankingRoute.CertDaysBounds | app/api/ranking/route.ts:39-46 | `certDays` is at most 31 and at most the number of posts; it is 0 iff there is no post |
| RankingRoute.Initials | app/api/ranking/route.ts:44 | the stored initials when non-empty, otherwise the name's first two characters upper-cased |
| RankingRoute.Rows | app/api/ranking/route.ts:17-49 | a row is produced iff it is the row of an onboarded user |
| RankingRoute.Certified | app/api/ranking/route.ts:50 | exactly the rows with `certDays > 0` are kept, none added |
| RankingRoute.RankBeforeIsStrict | app/api/ranking/route.ts:51 | the comparator (days descending, then rounded km descending) is a strict order |
| RankingRoute.RankingOrder | app/api/ranking/route.ts:47-52 | the ranks run 1..N in output order; days never increase; on equal days the rounded km never increases |
| RankingRoute.RankingPermutation | app/api/ranking/route.ts:36-52 | the rows ranked are a permutation of the kept rows |
| RankingRoute.RankedAreCertified | app/api/ranking/route.ts:50-52 | a row is ranked iff it was kept |
| RankingRoute.RankingMembers | app/api/ranking/route.ts:17-52 | a row is ranked iff it is the row of an onboarded user with a post in the window |
| RankingRoute.RowsDaysBound | app/api/ranking/route.ts:39-46 | no row counts more than 31 days |
| RankingRoute.RankingDays | app/api/ranking/route.ts:39-50 | every ranked row has between 1 and 31 days |
| RankingRoute.Get | app/api/ranking/route.ts:6-55 | 401 iff there is no session user id |
| CalendarRoute.QueryDefault | app/api/me/calendar/route.ts:13-14 | a missing or empty parameter reads as the fallback |
| CalendarRoute.QueryGiven | app/api/me/calendar/route.ts:13-14 | a decimal parameter reads as its value |
| CalendarRoute.WindowMonth | app/api/me/calendar/route.ts:17 | the rolled month is in 1..12 |
| CalendarRoute.LastDayOfWindow | app/api/me/calendar/route.ts:18 | day 0 of `month + 1` is the last day of the rolled month |
| CalendarRoute.WindowIff | app/api/me/calendar/route.ts:17-29 | the window holds exactly the instants whose local date lies in the month the parameters roll to |
| CalendarRoute.WindowOfPlainMonth | app/api/me/calendar/route.ts:17-18 | for a month in 1..12 and a year from 100 on, that is the given month |
| CalendarRoute.WindowPosts | app/api/me/calendar/route.ts:20-29 | the posts kept are exactly those in the window |
| CalendarRoute.RunDates | app/api/me/calendar/route.ts:32 | `runDates` has no duplicates |
| CalendarRoute.RunDatesMembers | app/api/me/calendar/route.ts:20-32 | a day is listed iff some post in the window fell on it |
| CalendarRoute.RunDatesInMonth | app/api/me/calendar/route.ts:17-32 | every listed day is between 1 and the length of the window's month |
| CalendarRoute.Get | app/api/me/calendar/route.ts:6-35 | 401 iff there is no session user id; the request fails iff the year or the month reads as `NaN` |
| CalendarRoute.GetDefaultsToToday | app/api/me/calendar/route.ts:13-34 | without parameters the answer is the current local year and 1-based month with their run dates |
| RankingPage.IndexInjective | components/ranking-page.tsx:47-74 | two valid months with the same index are equal |
| RankingPage.PrevOf | components/ranking-page.tsx:55-62 | a step back stays in 1..12 and goes exactly one month earlier |
| RankingPage.NextOf | components/ranking-page.tsx:64-72 | a step forward stays in 1..12; it changes nothing at the current month and otherwise goes exactly one month later |
| RankingPage.PrevCases | components/ranking-page.tsx:55-62 | back from January is December of the year before; otherwise the month decreases and the year stays |
| RankingPage.NextCases | components/ranking-page.tsx:64-72 | forward from December is January of the year after; otherwise the month increases |
| RankingPage.StepsStayBehind | components/ranking-page.tsx:55-72 | no step carries the display past the current month |
| RankingPage.NextAfterPrev | components/ranking-page.tsx:55-72 | a step forward after a step back restores the month |
| RankingPage.MonthNavigator.constructor | components/ranking-page.tsx:47-53 | the display opens at the current KST year and month |
| RankingPage.MonthNavigator.HandlePrevMonth | components/ranking-page.tsx:55-62 | the display moves one month back and stays valid |
| RankingPage.MonthNavigator.HandleNextMonth | components/ranking-page.tsx:64-72 | the display moves forward unless at the current month, and never past it |
| RankingPage.MonthNavigator.IsCurrentMonth | components/ranking-page.tsx:74 | the next button is disabled iff stepping forward would change nothing |
| CalendarPage.LocalMidnightDay | components/calendar-page.tsx:14-20 | a local midnight built by `new Date` reads back as that day |
| CalendarPage.DaysInShownMonthIs | components/calendar-page.tsx:14-16 | `getDaysInMonth` is the length of the month |
| CalendarPage.DaysInShownMonthRange | components/calendar-page.tsx:14-16 | it lies in 28..31, and February has 29 days iff the year is a leap year |
| CalendarPage.FirstDayOfShownMonth | components/calendar-page.tsx:18-20 | `getFirstDayOfMonth` is a weekday in 0..6 |
| CalendarPage.FirstDayIs | components/calendar-page.tsx:18-20 | it is the weekday of the 1st, 0 being Sunday, in every time zone |
| CalendarPage.PrevIndex | components/calendar-page.tsx:56-58 | back wraps 0 to 11 and stays in 0..11 |
| CalendarPage.NextIndex | components/calendar-page.tsx:59-61 | forward wraps 11 to 0 and stays in 0..11 |
| CalendarPage.ArrowsInverse | components/calendar-page.tsx:56-61 | each arrow undoes the other |
| CalendarPage.Blanks | components/calendar-page.tsx:63 | there are `firstDay` blank cells |
| CalendarPage.GridLayout | components/calendar-page.tsx:63-64 | the cells number every day of the month once, in order, and fit in six rows of seven |
| CalendarPage.CalendarView.constructor | components/calendar-page.tsx:50-51 | the page opens at February 2026 |
| CalendarPage.CalendarView.PrevMonth | components/calendar-page.tsx:56-58 | the month steps back with wrap-around and the year stays |
| CalendarPage.CalendarView.NextMonth | components/calendar-page.tsx:59-61 | the month steps forward with wrap-around and the year stays |
| CalendarPage.CalendarView.ShownDays | components/calendar-page.tsx:53 | the shown month's length is 28..31 |
| CalendarPage.CalendarView.ShownFirstDay | components/calendar-page.tsx:54 | the shown month starts on the weekday of its 1st |
| SignupPage.Validate | app/signup/page.tsx:24-37 | an empty trimmed name, then a one-character name, then an empty category is reported; only the first failing check, and none iff all pass |
| SignupPage.PayloadOf | app/signup/page.tsx:45-50 | the payload is the trimmed name, its first two characters upper-cased, the category, and onboarded |
| SignupPage.PayloadFullyCopied | app/signup/page.tsx:41-50 | a valid payload carries exactly the four fields PATCH copies, each truthy and of its column type, so `data` is the whole body |
| SignupPage.SignupForm.constructor | app/signup/page.tsx:18-22 | the nickname starts as the session name or empty; nothing else is set |
| SignupPage.SignupForm.HandleSubmit | app/signup/page.tsx:24-65 | a failed check shows its message and sends nothing; otherwise the payload is sent, loading ends, and the form completes or shows the failure message |
| ProfilePage.NewInitials | components/profile-page.tsx:58 | the new initials are the first two characters of the name upper-cased |
| ProfilePage.SaveDisabledIff | components/profile-page.tsx:113 | when not saving, the button is disabled iff the nickname check of `handleSaveNickname` would refuse the name |
| ProfilePage.DisplayInitials | components/profile-page.tsx:78 | the stored initials if non-empty, else the name's first two characters upper-cased, else "?" |
| ProfilePage.RenamedInitials | components/profile-page.tsx:58-78 | after a rename the avatar shows the new name's two initials |
| ProfilePage.RenameBodyCopied | components/profile-page.tsx:59-63 | a rename sends exactly name and initials, both truthy text fields that PATCH copies whole |
| ProfilePage.EarnedCount | components/profile-page.tsx:171 | the earned count is at most the total; it equals it iff all are earned, and is 0 iff none is |
| ProfilePage.ProfileView.constructor | components/profile-page.tsx:30-37 | the page starts with the loaded profile, not editing and not saving |
| ProfilePage.ProfileView.HandleSaveNickname | components/profile-page.tsx:49-76 | a refused name alerts and sends nothing; otherwise the request is sent, saving ends, and only a saved request renames the profile and closes the editor |
| BadgePopup.ButtonLabel | components/badge-award-popup.tsx:70 | "Next Reward" iff another badge follows, otherwise "Keep Running" |
| BadgePopup.Popup.constructor | components/badge-award-popup.tsx:21 | the pager starts at index 0 |
| BadgePopup.Popup.HandleNext | components/badge-award-popup.tsx:24-30 | the index increments unless at the last badge, where the pop-up closes and the index stays; the index stays in range |
| BadgePopup.Popup.View | components/badge-award-popup.tsx:22-84 | nothing renders iff the list is empty; the label follows the index; the indicator shows `currentIndex + 1` of `n` iff `n > 1` |
| FeedPage.Toggle | components/feed-page.tsx:17-26 | a press flips the flag and moves the counter down if it was on, else up |
| FeedPage.ToggleKeepsOthers | components/feed-page.tsx:17-19 | a press changes only the viewer's share of the counter |
| FeedPage.ToggleTwice | components/feed-page.tsx:17-19 | two presses restore the flag and the counter |
| FeedPage.PostCard.constructor | components/feed-page.tsx:9-15 | the card starts from the post's flags and counters |
| FeedPage.PostCard.HandleLike | components/feed-page.tsx:17-22 | the like toggles and the wave is untouched |
| FeedPage.PostCard.HandleWave | components/feed-page.tsx:24-29 | the wave toggles and the like is untouched |
| FeedPage.PostCard.ClearRipple | components/feed-page.tsx:21-28 | the timer clears the ripple and leaves both reactions alone |
| Streak.LeadingRun | lib/badges.ts:132-137 | the run is 0 for no day and otherwise between 1 and the number of days |
| Streak.StreakOf | lib/badges.ts:127-138 | the streak is 0 iff there is no day or the first is more than a day before today, and never exceeds the days |
| Streak.LeadingRunExact | app/api/me/route.ts:77-84 | the run is `i` when the first `i - 1` gaps are one day and the next is not |
| Streak.ConsecutiveBlock | app/api/me/route.ts:77-84 | over descending days, the run is the block of consecutive days ending at the newest, and the day before it is absent |
| JsDate.MonthWindow | app/api/ranking/route.ts:13-14 | `[new Date(y, m-1, 1), new Date(y, m, 0, 23, 59, 59, 999)]` holds exactly the instants of month `m` of year `y` |
| JsDate.CivilRoundTrip | app/api/me/calendar/route.ts:32 | a valid date survives the trip to its day number and back |
| Sorting.SortSorted | app/api/ranking/route.ts:51 | the sort returns a sorted permutation of its input |
| Sorting.DistinctElements | app/api/ranking/route.ts:39 | a list without duplicates has as many elements as its set |
| JsText.PaddedNatParses | app/api/me/route.ts:43-50 | a zero-padded decimal numeral parses back to its value |

## Left out

- The database, Prisma and the Neon/pg drivers. Rows and query results are inputs: the user row, the posts and the grants. The badge and user-badge tables are fields of `Badges.BadgeStore`. Ids are a counter instead of cuids.
- The storage-level uniqueness of grants, and concurrent calls of `awardBadges`. Instead, one sequential call is proved to keep the (user, badge) pairs unique.
- The `findFirst` query for the first post since KST midnight (lib/badges.ts:146-157). It is the input `firstPoster`.
- Authentication and sessions (NextAuth, JWT, middleware). The session is the input `sessionUserId`; the session refresh after a save is not modelled.
- Wall-clock reads, `setTimeout` and animations. The current instant is a parameter `now`. The ripple timer is the method `FeedPage.PostCard.ClearRipple`. The two `new Date()` reads inside `awardBadges` are one instant.
- Time zones other than a fixed offset. Daylight saving time is not modelled. Instants before 1970 are not modelled, and neither is the ±8.64e15 ms range of `Date`.
- IEEE-754 arithmetic. Distances, sums, `totalMinutes / totalKm` and `Math.round(x * 10) / 10` are exact reals. The gap tests of the streak loops compare exact quotients.
- `p.distance || 0` in lib/badges.ts:89: a distance is never null in the model.
- `MeRoute.RoundTenth`: states only the ±0.05 bound, not the exact rounding of floating-point halves.
- `JsText.ToUpperCase`: upper-cases ASCII letters only. `length` and `slice` count characters, not UTF-16 code units.
- `parseInt` reads decimal and `0x` hexadecimal prefixes. `Number` reads unsigned decimals and the empty string only; other literal forms are `NaN` in the model.
- A null user name in `/api/ranking`, which would throw before the response. Names are strings.
- A PATCH body that is not a JSON object, and a PATCH for a user with no row (Prisma throws). These are not modelled.
- The database schema is not part of this model. The column types `MeRoute.FieldTyped` checks are inferred from the values the signup and profile pages send: text for name, initials and category, a boolean for `isOnboarded`. Whether the schema accepts `null` for any of them is not modelled. A copied `null` or mistyped value gives `PatchRejected`, the model of the thrown update.
- An error thrown after `res.ok` on the profile page, by `update()`, shows the network alert in the browser. The model's outcomes are saved, refused and network error.
- The five-view leaderboard, the certification threshold, ISO weeks and challenge conditions. They appear only in page text and in the response shape the ranking page expects; no route computes them.
- The ranking page's `fetch` effect and rendering. Its current month is fixed by the constructor, not re-read on every render.
- The calendar page's `isToday` and `isRunDay` markers: they read mock data and the clock for display only.
- Rendering (JSX), confetti, `lib/mock-data.ts`, `lib/supabase.ts`, `app/api/posts`, `app/api/crew`, the seeding scripts and the login countdown. These hold no core logic.
