/** The daily activity streak: the rule `update_streak` applies to a user's
    last active day and streak counter, and what that rule amounts to over a
    history of active days. Days are integer day numbers. */
module Streak {
  import opened Models

  /** The two user columns the rule reads and writes. */
  datatype Activity = Activity(lastActive: Option<int>, streak: Option<int>)

  /** The activity columns after `update_streak` on day `today`: nothing
      changes when the user was already active today; the streak (a missing
      value read as 0) grows by one after activity yesterday and restarts at
      1 otherwise; the last active day becomes `today`. */
  function StreakAfter(a: Activity, today: int): Activity
  {
    if a.lastActive == Some(today) then a
    else if a.lastActive == Some(today - 1) then Activity(Some(today), Some(OrZero(a.streak) + 1))
    else Activity(Some(today), Some(1))
  }

  lemma StreakSameDay(a: Activity, today: int)
    requires a.lastActive == Some(today)
    ensures StreakAfter(a, today) == a
  {
  }

  lemma StreakNextDay(a: Activity, today: int)
    requires a.lastActive == Some(today - 1)
    ensures StreakAfter(a, today) == Activity(Some(today), Some(OrZero(a.streak) + 1))
  {
  }

  /** First activity ever, a gap of more than one day, or a last active day
      in the future all restart the streak at 1. */
  lemma StreakRestart(a: Activity, today: int)
    requires a.lastActive.None? || (a.lastActive.value != today && a.lastActive.value != today - 1)
    ensures StreakAfter(a, today) == Activity(Some(today), Some(1))
  {
  }

  /** Whatever the state, the user is active today afterwards, and a second
      update on the same day changes nothing. */
  lemma StreakIdempotent(a: Activity, today: int)
    ensures StreakAfter(a, today).lastActive == Some(today)
    ensures StreakAfter(StreakAfter(a, today), today) == StreakAfter(a, today)
  {
  }

  /** The activity columns after `update_streak` ran once per day of `days`, in order. */
  function Replay(a: Activity, days: seq<int>): Activity
    decreases |days|
  {
    if |days| == 0 then a
    else StreakAfter(Replay(a, days[..|days| - 1]), days[|days| - 1])
  }

  /** Each update comes on the same day as the one before it or later. */
  predicate NonDecreasing(days: seq<int>)
  {
    forall i :: 0 < i < |days| ==> days[i - 1] <= days[i]
  }

  /** The meaning of the counter after the updates on `days`: the user was
      last active on the latest day, and the streak is k >= 1 exactly when
      the last k calendar days up to that one all saw activity and the day
      before them did not. */
  predicate CountsConsecutiveDays(a: Activity, days: seq<int>)
  {
    |days| > 0 &&
    a.lastActive == Some(days[|days| - 1]) &&
    a.streak.Some? && a.streak.value >= 1 &&
    (forall d :: days[|days| - 1] - a.streak.value < d <= days[|days| - 1] ==> d in days) &&
    days[|days| - 1] - a.streak.value !in days
  }

  /** For a user with no recorded activity whose updates come on
      non-decreasing days, the counter has that meaning. */
  lemma {:induction false} ReplayCountsConsecutiveDays(start: Activity, days: seq<int>)
    requires start.lastActive.None?
    requires |days| > 0 && NonDecreasing(days)
    ensures CountsConsecutiveDays(Replay(start, days), days)
    decreases |days|
  {
    var n := |days|;
    var prefix, today := days[..n - 1], days[n - 1];
    assert days == prefix + [today];
    if n == 1 {
      assert Replay(start, prefix) == start;
      assert Replay(start, days) == Activity(Some(today), Some(1));
    } else {
      NonDecreasingPrefix(days);
      ReplayCountsConsecutiveDays(start, prefix);
      LatestIsMaximum(prefix);
      CountStep(Replay(start, prefix), prefix, today);
    }
  }

  lemma NonDecreasingPrefix(days: seq<int>)
    requires |days| > 1 && NonDecreasing(days)
    ensures NonDecreasing(days[..|days| - 1])
    ensures days[..|days| - 1][|days| - 2] <= days[|days| - 1]
  {
  }

  /** In a non-decreasing history the last day is the latest. */
  lemma {:induction false} LatestIsMaximum(days: seq<int>)
    requires |days| > 0 && NonDecreasing(days)
    ensures forall d :: d in days ==> d <= days[|days| - 1]
    decreases |days|
  {
    if |days| > 1 {
      var prefix := days[..|days| - 1];
      NonDecreasingPrefix(days);
      LatestIsMaximum(prefix);
      assert forall d :: d in days ==> d in prefix || d == days[|days| - 1];
    }
  }

  /** One more update, on the latest day so far or later, keeps the
      counter's meaning. */
  lemma CountStep(before: Activity, prefix: seq<int>, today: int)
    requires CountsConsecutiveDays(before, prefix)
    requires forall d :: d in prefix ==> d <= prefix[|prefix| - 1]
    requires prefix[|prefix| - 1] <= today
    ensures CountsConsecutiveDays(StreakAfter(before, today), prefix + [today])
  {
    var last, k := prefix[|prefix| - 1], before.streak.value;
    var days := prefix + [today];
    assert forall d :: d in days <==> d in prefix || d == today;
    if last == today {
      assert StreakAfter(before, today) == before;
    } else if last == today - 1 {
      assert StreakAfter(before, today).streak.value == k + 1;
    } else {
      assert StreakAfter(before, today).streak.value == 1;
      assert today - 1 !in prefix;
    }
  }
}
