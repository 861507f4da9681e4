/**
 * The streak walk both the badge engine and the profile route run: over a
 * list of day numbers, newest first, a streak is alive when the first one is
 * today or yesterday (or later), and it counts that day plus every following
 * day that lies exactly one day before the previous one, up to the first gap
 * that is not exactly one.
 */
module Streak {
  import opened Sorting

  /** The first day plus the unbroken steps of exactly one day that follow it. */
  function LeadingRun(days: seq<int>): (n: nat)
    ensures days == [] ==> n == 0
    ensures days != [] ==> 1 <= n <= |days|
  {
    if |days| <= 1 then |days|
    else if days[0] - days[1] == 1 then 1 + LeadingRun(days[1..])
    else 1
  }

  /** The streak on day `today`: zero when there is no day or the first one is more than a day old. */
  function StreakOf(days: seq<int>, today: int): (n: nat)
    ensures n <= |days|
    ensures n == 0 <==> days == [] || today - days[0] > 1
  {
    if days == [] || today - days[0] > 1 then 0 else LeadingRun(days)
  }

  /** The run is exactly `i` long when the first `i - 1` steps are one day and the next is not. */
  lemma {:induction false} LeadingRunExact(days: seq<int>, i: nat)
    requires 1 <= i <= |days|
    requires forall k :: 1 <= k < i ==> days[k - 1] - days[k] == 1
    requires i == |days| || days[i - 1] - days[i] != 1
    ensures LeadingRun(days) == i
  {
    if i > 1 {
      LeadingRunExact(days[1..], i - 1);
    }
  }

  /** Within the run each day is one before the previous one; the run stops at the first other gap. */
  lemma {:induction false} LeadingRunSteps(days: seq<int>)
    requires days != []
    ensures forall k :: 0 <= k < LeadingRun(days) ==> days[k] == days[0] - k
    ensures LeadingRun(days) < |days| ==> days[LeadingRun(days) - 1] - days[LeadingRun(days)] != 1
  {
    if |days| > 1 && days[0] - days[1] == 1 {
      LeadingRunSteps(days[1..]);
      forall k | 0 < k < LeadingRun(days)
        ensures days[k] == days[0] - k
      {
        assert days[1..][k - 1] == days[k];
      }
    }
  }

  predicate StrictlyDescending(days: seq<int>) {
    forall i, j :: 0 <= i < j < |days| ==> days[i] > days[j]
  }

  /**
   * Over distinct days sorted newest first, the run is the longest block of
   * consecutive calendar days ending at the newest one: every day of the block
   * is present and the day just before it is not.
   */
  lemma ConsecutiveBlock(days: seq<int>)
    requires days != [] && StrictlyDescending(days)
    ensures forall d :: days[0] - LeadingRun(days) < d <= days[0] ==> d in days
    ensures days[0] - LeadingRun(days) !in days
  {
    LeadingRunSteps(days);
    var n := LeadingRun(days);
    forall d | days[0] - n < d <= days[0]
      ensures d in days
    {
      assert days[days[0] - d] == d;
    }
    forall j | 0 <= j < |days|
      ensures days[j] != days[0] - n
    {
      if j < n {
        assert days[j] == days[0] - j;
      } else {
        assert days[n - 1] == days[0] - (n - 1);
        if j > n {
          assert days[j] < days[n];
        }
      }
    }
  }
}
