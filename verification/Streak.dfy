/** The daily streak: how it is computed from one row, and what it is supposed to count. */
module Streak {
  import opened Options

  /** Days are ordinals. */
  function ComputeStreak(prevStreak: int, lastActive: Option<nat>, today: nat): int {
    if lastActive.None? then 1
    else if lastActive.value == today then prevStreak
    else if lastActive.value == today - 1 then prevStreak + 1
    else 1
  }

  /** The number of consecutive days of `days` that end at `d`. */
  function Consecutive(days: set<nat>, d: nat): nat {
    if d !in days then 0 else if d == 0 then 1 else 1 + Consecutive(days, d - 1)
  }

  /** A row's streak and last day say exactly what the active days say. */
  ghost predicate Exact(streak: int, lastActive: Option<nat>, days: set<nat>) {
    match lastActive
    case None => days == {} && streak == 0
    case Some(d) => d in days && (forall x :: x in days ==> x <= d) && streak == Consecutive(days, d)
  }

  lemma {:induction false} LaterDaysDoNotCount(days: set<nat>, more: set<nat>, d: nat)
    requires forall x :: x <= d ==> (x in days <==> x in more)
    ensures Consecutive(days, d) == Consecutive(more, d)
  {
    if d in days && d > 0 {
      LaterDaysDoNotCount(days, more, d - 1);
    }
  }

  lemma {:induction false} AtLeastOne(days: set<nat>, d: nat)
    requires d in days
    ensures Consecutive(days, d) >= 1
    ensures (Consecutive(days, d) == 1) <==> (d == 0 || d - 1 !in days)
  {
    if d > 0 && d - 1 in days {
      AtLeastOne(days, d - 1);
    }
  }

  /** From an exact row, the streak of a day no earlier than any activity comes out exact. */
  lemma StreakIsExact(streak: int, lastActive: Option<nat>, days: set<nat>, today: nat)
    requires Exact(streak, lastActive, days)
    requires forall x :: x in days ==> x <= today
    ensures ComputeStreak(streak, lastActive, today) == Consecutive(days + {today}, today)
    ensures Exact(ComputeStreak(streak, lastActive, today), Some(today), days + {today})
  {
    if today > 0 {
      LaterDaysDoNotCount(days, days + {today}, today - 1);
    }
    if today in days {
      assert days + {today} == days;
    }
  }

  /** Two exact rows for the same days are the same row. */
  lemma ExactIsUnique(streak: int, lastActive: Option<nat>, streak': int, lastActive': Option<nat>, days: set<nat>)
    requires Exact(streak, lastActive, days) && Exact(streak', lastActive', days)
    ensures streak == streak' && lastActive == lastActive'
  {
    if lastActive.Some? && lastActive'.Some? {
      assert lastActive.value <= lastActive'.value <= lastActive.value;
    }
  }

  /** A column is written only if the value computed differs from the value that was read. */
  function WriteIfChanged<T(==)>(read: T, computed: T, stored: T): T {
    if computed == read then stored else computed
  }

  /** What is in the row after a request that read one streak commits over another. */
  function StreakAfter(readStreak: int, readLast: Option<nat>, storedStreak: int, today: nat): int {
    WriteIfChanged(readStreak, ComputeStreak(readStreak, readLast, today), storedStreak)
  }

  function LastAfter(readLast: Option<nat>, storedLast: Option<nat>, today: nat): Option<nat> {
    WriteIfChanged(readLast, Some(today), storedLast)
  }

  /** A read that missed nothing but activity of this very day. */
  ghost predicate MissedOnlyToday(seen: set<nat>, days: set<nat>, today: nat) {
    seen <= days && days <= seen + {today}
  }

  /** Requests of one day converge, however stale their reads: the stored streak stays exact. */
  lemma SameDayConverges(readStreak: int, readLast: Option<nat>, seen: set<nat>,
                         storedStreak: int, storedLast: Option<nat>, days: set<nat>, today: nat)
    requires Exact(readStreak, readLast, seen) && Exact(storedStreak, storedLast, days)
    requires MissedOnlyToday(seen, days, today)
    requires forall x :: x in days ==> x <= today
    ensures Exact(StreakAfter(readStreak, readLast, storedStreak, today), LastAfter(readLast, storedLast, today),
                  days + {today})
  {
    StreakIsExact(readStreak, readLast, seen, today);
    StreakIsExact(storedStreak, storedLast, days, today);
    assert seen + {today} == days + {today};
    if today in days {
      assert days + {today} == days;
      assert storedLast == Some(today);
    } else {
      assert seen == days;
      ExactIsUnique(readStreak, readLast, storedStreak, storedLast, days);
    }
  }

  /** The day before `today` is active. */
  predicate ActiveYesterday(days: set<nat>, today: nat) { today > 0 && today - 1 in days }

  /** A run of active days seen earlier is still the whole run exactly if the day before it is not active. */
  lemma {:induction false} SameRun(seen: set<nat>, days: set<nat>, d: nat)
    requires seen <= days && d in seen
    ensures var n := Consecutive(seen, d); Consecutive(days, d) == n <==> n > d || d - n !in days
    ensures 1 <= Consecutive(seen, d) <= d + 1
  {
    AtLeastOne(days, d);
    AtLeastOne(seen, d);
    if d > 0 && d - 1 in seen {
      SameRun(seen, days, d - 1);
    }
  }

  /** What a request that read one row needs to find on writing another, no later day being active. */
  ghost predicate KeepsStreak(readStreak: int, readLast: Option<nat>, storedStreak: int, days: set<nat>, today: nat) {
    if today > 0 && readLast == Some(today - 1) then readStreak >= today || today - 1 - readStreak !in days
    else if readStreak == 1 then today in days || (!ActiveYesterday(days, today) && storedStreak == 1)
    else !ActiveYesterday(days, today)
  }

  /**
   Without that assumption the promise can break, and this is exactly when it holds, for any read
   however stale: the row read was already of the request's own day, so that nothing is written; or
   no later day has become active, and the run of days that the request continues is the one it read,
   or it starts a new run rightly, or writes nothing over a streak that is right.
   */
  lemma StreakSurvivesIff(readStreak: int, readLast: Option<nat>, seen: set<nat>,
                          storedStreak: int, storedLast: Option<nat>, days: set<nat>, today: nat)
    requires Exact(readStreak, readLast, seen) && Exact(storedStreak, storedLast, days)
    requires seen <= days
    ensures Exact(StreakAfter(readStreak, readLast, storedStreak, today), LastAfter(readLast, storedLast, today),
                  days + {today})
       <==> || readLast == Some(today)
            || ((forall x :: x in days ==> x <= today)
                && KeepsStreak(readStreak, readLast, storedStreak, days, today))
  {
    var streak := StreakAfter(readStreak, readLast, storedStreak, today);
    if readLast == Some(today) {
      assert days + {today} == days;
    } else if x :| x in days && x > today {
      assert x in days + {today};
    } else {
      assert Exact(streak, Some(today), days + {today}) <==> streak == Consecutive(days + {today}, today);
      StreakIsExact(storedStreak, storedLast, days, today);
      AtLeastOne(days + {today}, today);
      if today > 0 && readLast == Some(today - 1) {
        SameRun(seen, days, today - 1);
        LaterDaysDoNotCount(days, days + {today}, today - 1);
      }
      if today in days { assert days + {today} == days; }
    }
  }
}
