/**
 The race across midnight as a run of requests. Waiving a waived lesson again changes nothing before
 the progress row is read, so such a request may hold a row of yesterday while another one commits.
 */
module MidnightRace {
  import opened Options
  import opened Streak
  import opened Gating
  import opened ProgressTables
  import opened ProgressProtocol
  import opened ProgressHistory
  import opened ProgressStreak
  import opened PathCompletion

  /** The lesson is waived, not passed, and open. */
  ghost predicate Waivable(site: Site, db: Db, u: User, lesson: string) {
    && lesson in site.content.lessons && LessonUnlocked(site.content, lesson, CompletedLessons(db, u))
    && (u, lesson) in db.completions && db.completions[(u, lesson)].waived && !db.completions[(u, lesson)].passed
  }

  function Again(u: User, lesson: string): Request { Waive(u, lesson) }

  /** A waive that has read the progress row, and nothing else yet. */
  function Reading(u: User, lesson: string, day: nat, row: Progress): Flight {
    Flight(Again(u, lesson), None, None, Some((day, Some(row))), None, None)
  }

  function Requested(u: User, lesson: string): Flight { Flight(Again(u, lesson), None, None, None, None, None) }

  lemma WaivableStays(site: Site, a: Db, b: Db, u: User, lesson: string)
    requires Waivable(site, a, u, lesson) && Grows(a, b)
    requires Row(b, u, lesson) == Row(a, u, lesson)
    ensures Waivable(site, b, u, lesson)
  {
    CompletedGrow(a, b, u);
    UnlockedStaysUnlocked(site.content, lesson, CompletedLessons(a, u), CompletedLessons(b, u));
  }

  /** What the commit of such a request writes. */
  lemma CommitAgain(site: Site, db: Db, clock: nat, f: Flight, u: User, lesson: string)
    requires f.req == Again(u, lesson) && f.completed.None? && f.row.None? && Behind(db, f)
    requires Waivable(site, db, u, lesson) && u in db.progress && f.progress.Some? && f.progress.value.1.Some?
    ensures var effect := CommitEffect(site, db, clock, f);
            var (day, read) := f.progress.value;
            && effect.event == Some(WaivedLesson(u, lesson, day))
            && u in effect.db.progress
            && effect.db.progress[u].streak
               == StreakAfter(read.value.streak, read.value.lastActive, db.progress[u].streak, day)
            && effect.db.progress[u].lastActive == LastAfter(read.value.lastActive, db.progress[u].lastActive, day)
            && Waivable(site, effect.db, u, lesson)
  {
    var effect := CommitEffect(site, db, clock, f);
    var completion := db.completions[(u, lesson)];
    assert completion.(waived := true) == completion;
    assert effect.db.completions == db.completions;
    CommitGrows(site, db, clock, f);
    WaivableStays(site, db, effect.db, u, lesson);
  }

  /** The two requests: each is made after a midnight and reads the row, then both commit in order. */
  function Race(u: User, lesson: string, a: nat, b: nat): seq<Step> {
    [NextDay, Arrive(a, Again(u, lesson)), ReadProgress(a),
     NextDay, Arrive(b, Again(u, lesson)), ReadProgress(b),
     Commit(a), Commit(b)]
  }

  lemma BeforeCommits(site: Site, s: System, u: User, lesson: string, a: nat, b: nat)
    requires Coherent(s) && a != b && a !in s.flights && b !in s.flights && u in s.db.progress
    ensures |Race(u, lesson, a, b)| == 8
    ensures Run(site, s, Race(u, lesson, a, b)[..6])
         == System(s.db, s.clock + 2,
                   s.flights[a := Reading(u, lesson, s.clock + 1, s.db.progress[u])]
                            [b := Reading(u, lesson, s.clock + 2, s.db.progress[u])],
                   s.log)
  {
    var steps, row := Race(u, lesson, a, b), s.db.progress[u];
    var s3 := s.(clock := s.clock + 1, flights := s.flights[a := Reading(u, lesson, s.clock + 1, row)]);
    FirstThree(site, s, u, lesson, a);
    assert steps[..3] == OneRead(u, lesson, a) && steps[3..6] == OneRead(u, lesson, b);
    assert steps[..6] == steps[..3] + steps[3..6];
    hide Run, Next, Coherent;
    RunConcat(site, s, steps[..3], steps[3..6]);
    FirstThree(site, s3, u, lesson, b);
  }

  function OneRead(u: User, lesson: string, id: nat): seq<Step> {
    [NextDay, Arrive(id, Again(u, lesson)), ReadProgress(id)]
  }

  lemma FirstThree(site: Site, s: System, u: User, lesson: string, a: nat)
    requires Coherent(s) && a !in s.flights && u in s.db.progress
    ensures Run(site, s, OneRead(u, lesson, a))
         == s.(clock := s.clock + 1,
               flights := s.flights[a := Reading(u, lesson, s.clock + 1, s.db.progress[u])])
  {
    var steps := OneRead(u, lesson, a);
    assert steps == [] + [NextDay] + [Arrive(a, Again(u, lesson))] + [ReadProgress(a)];
    RunStep(site, s, [], NextDay);
    RunStep(site, s, [] + [NextDay], Arrive(a, Again(u, lesson)));
    RunStep(site, s, [] + [NextDay] + [Arrive(a, Again(u, lesson))], ReadProgress(a));
    var s2 := s.(clock := s.clock + 1, flights := s.flights[a := Requested(u, lesson)]);
    assert Run(site, s, []) == s;
    assert Run(site, s, [] + [NextDay] + [Arrive(a, Again(u, lesson))]) == s2;
    assert s2.flights[a := Reading(u, lesson, s.clock + 1, s.db.progress[u])]
        == s.flights[a := Reading(u, lesson, s.clock + 1, s.db.progress[u])];
  }

  lemma CommitStep(site: Site, s: System, u: User, lesson: string, id: nat, day: nat, row: Progress)
    requires Coherent(s) && id in s.flights && s.flights[id] == Reading(u, lesson, day, row)
    requires Waivable(site, s.db, u, lesson) && u in s.db.progress
    ensures var t := Next(site, s, Commit(id));
            && Coherent(t) && t.clock == s.clock && t.flights == s.flights - {id}
            && t.log == s.log + [WaivedLesson(u, lesson, day)]
            && Waivable(site, t.db, u, lesson) && u in t.db.progress
            && t.db.progress[u].streak == StreakAfter(row.streak, row.lastActive, s.db.progress[u].streak, day)
            && t.db.progress[u].lastActive == LastAfter(row.lastActive, s.db.progress[u].lastActive, day)
  {
    assert Behind(s.db, s.flights[id]);
    CommitAgain(site, s.db, s.clock, s.flights[id], u, lesson);
    hide CommitEffect, Waivable, StreakAfter, LastAfter;
  }

  /** Two more days of activity in a row make the run of days two longer. */
  lemma TwoMoreDays(days: set<nat>, d: nat)
    requires d in days && forall x :: x in days ==> x <= d
    ensures Consecutive(days + {d + 1} + {d + 2}, d + 2) == Consecutive(days, d) + 2
  {
    var more := days + {d + 1} + {d + 2};
    LaterDaysDoNotCount(days, more, d);
    assert Consecutive(more, d + 1) == 1 + Consecutive(more, d);
  }

  /** The columns after the second commit. */
  lemma LostDay(streak: int, d: nat)
    ensures StreakAfter(streak, Some(d), streak, d + 1) == streak + 1
    ensures LastAfter(Some(d), Some(d), d + 1) == Some(d + 1)
    ensures StreakAfter(streak, Some(d), streak + 1, d + 2) == if streak == 1 then 2 else 1
    ensures LastAfter(Some(d), Some(d + 1), d + 2) == Some(d + 2)
  {
  }

  /** Both commit, over a row that neither has seen the other change. */
  lemma BothCommit(site: Site, s: System, u: User, lesson: string, a: nat, b: nat, d: nat)
    requires Coherent(s) && Waivable(site, s.db, u, lesson) && u in s.db.progress
             && s.db.progress[u].lastActive == Some(d)
    requires a != b && a in s.flights && b in s.flights
    requires s.flights[a] == Reading(u, lesson, d + 1, s.db.progress[u])
    requires s.flights[b] == Reading(u, lesson, d + 2, s.db.progress[u])
    ensures var t := Next(site, Next(site, s, Commit(a)), Commit(b));
            && u in t.db.progress && t.db.progress[u].lastActive == Some(d + 2)
            && t.db.progress[u].streak == (if s.db.progress[u].streak == 1 then 2 else 1)
            && t.log == s.log + [WaivedLesson(u, lesson, d + 1)] + [WaivedLesson(u, lesson, d + 2)]
  {
    hide Next, Coherent, Waivable, StreakAfter, LastAfter, Reading;
    var row := s.db.progress[u];
    CommitStep(site, s, u, lesson, a, d + 1, row);
    CommitStep(site, Next(site, s, Commit(a)), u, lesson, b, d + 2, row);
    LostDay(row.streak, d);
  }

  lemma AfterCommits(site: Site, s: System, u: User, lesson: string, a: nat, b: nat)
    requires Coherent(s) && Waivable(site, s.db, u, lesson) && u in s.db.progress
    requires a != b && a !in s.flights && b !in s.flights && s.db.progress[u].lastActive == Some(s.clock)
    ensures var d, t := s.clock, Run(site, s, Race(u, lesson, a, b));
            && u in t.db.progress && t.db.progress[u].lastActive == Some(d + 2)
            && t.db.progress[u].streak == (if s.db.progress[u].streak == 1 then 2 else 1)
            && t.log == s.log + [WaivedLesson(u, lesson, d + 1)] + [WaivedLesson(u, lesson, d + 2)]
  {
    hide *;
    RaceSplits(u, lesson, a, b);
    var most := Race(u, lesson, a, b)[..6];
    BeforeCommits(site, s, u, lesson, a, b);
    TwoCommits(site, s, most, u, lesson, a, b, s.clock, s.db.progress[u]);
  }

  lemma RaceSplits(u: User, lesson: string, a: nat, b: nat)
    ensures var steps := Race(u, lesson, a, b);
            |steps| == 8 && steps == steps[..6] + [Commit(a)] + [Commit(b)]
  {
  }

  lemma TwoCommits(site: Site, s: System, most: seq<Step>, u: User, lesson: string, a: nat, b: nat, d: nat,
                   row: Progress)
    requires Coherent(s) && a != b && row.lastActive == Some(d)
    requires var t := Run(site, s, most);
             && Waivable(site, t.db, u, lesson) && u in t.db.progress && t.db.progress[u] == row
             && a in t.flights && t.flights[a] == Reading(u, lesson, d + 1, row)
             && b in t.flights && t.flights[b] == Reading(u, lesson, d + 2, row)
    ensures var t, log := Run(site, s, most + [Commit(a)] + [Commit(b)]), Run(site, s, most).log;
            && u in t.db.progress && t.db.progress[u].lastActive == Some(d + 2)
            && t.db.progress[u].streak == (if row.streak == 1 then 2 else 1)
            && t.log == log + [WaivedLesson(u, lesson, d + 1)] + [WaivedLesson(u, lesson, d + 2)]
  {
    hide *;
    RunStep(site, s, most, Commit(a));
    RunStep(site, s, most + [Commit(a)], Commit(b));
    BothCommit(site, Run(site, s, most), u, lesson, a, b, d);
  }

  /**
   From any state in which the streak is exact and the learner was active today, the race loses it:
   three days in a row are counted as two, and a longer streak falls to one.
   */
  lemma RaceLosesTheStreak(site: Site, s: System, u: User, lesson: string, a: nat, b: nat)
    requires Coherent(s) && StreakInvariant(s, u) && Waivable(site, s.db, u, lesson) && u in s.db.progress
    requires a != b && a !in s.flights && b !in s.flights && s.db.progress[u].lastActive == Some(s.clock)
    ensures var t, streak := Run(site, s, Race(u, lesson, a, b)), s.db.progress[u].streak;
            && u in t.db.progress && t.db.progress[u].lastActive == Some(s.clock + 2)
            && t.db.progress[u].streak == (if streak == 1 then 2 else 1)
            && Consecutive(ActiveDays(t.log, u), s.clock + 2) == streak + 2
  {
    hide Next, Run, Coherent, Waivable;
    AfterCommits(site, s, u, lesson, a, b);
    var first, second := WaivedLesson(u, lesson, s.clock + 1), WaivedLesson(u, lesson, s.clock + 2);
    OneMoreEvent(s.log, first, u, lesson);
    OneMoreEvent(s.log + [first], second, u, lesson);
    TwoMoreDays(ActiveDays(s.log, u), s.clock);
  }

  // ----- Such a state is reached -----

  function SubmitZero(u: User, lesson: string): Request { SubmitResult(u, lesson, 0.0) }

  lemma ZeroFails(site: Site, db: Db, u: User, lesson: string)
    requires lesson in site.content.lessons && LessonUnlocked(site.content, lesson, CompletedLessons(db, u))
    requires site.content.lessons[lesson].passThreshold > 0.0
    ensures var effect := CommitEffect(site, db, 0, ResultOf(u, lesson, 0.0));
            && effect.event == Some(FailedLesson(u, lesson))
            && effect.db.progress == EnsureProgress(db.progress, u, site.content.lessons[lesson].level)
  {
  }

  lemma FirstWaive(site: Site, db: Db, u: User, lesson: string)
    requires lesson in site.content.lessons && LessonUnlocked(site.content, lesson, CompletedLessons(db, u))
    requires (u, lesson) in db.completions && !db.completions[(u, lesson)].passed
    requires db.completions[(u, lesson)].attempts >= WAIVE_AFTER_ATTEMPTS
    requires u in db.progress && db.progress[u].streak == 0 && db.progress[u].lastActive == None
    ensures var effect := CommitEffect(site, db, 0, Requested(u, lesson));
            && effect.event == Some(WaivedLesson(u, lesson, 0)) && Waivable(site, effect.db, u, lesson)
            && u in effect.db.progress
            && effect.db.progress[u].streak == 1 && effect.db.progress[u].lastActive == Some(0)
  {
    var effect := CommitEffect(site, db, 0, Requested(u, lesson));
    CommitGrows(site, db, 0, Requested(u, lesson));
    CompletedGrow(db, effect.db, u);
    UnlockedStaysUnlocked(site.content, lesson, CompletedLessons(db, u), CompletedLessons(effect.db, u));
  }

  /** On the first day: two results that fail, and a waive. */
  lemma FirstDay(site: Site, u: User, lesson: string) returns (steps: seq<Step>)
    requires lesson in site.content.lessons && LessonUnlocked(site.content, lesson, {})
    requires site.content.lessons[lesson].passThreshold > 0.0
    ensures var s := Run(site, START, steps);
            && StreakInvariant(s, u) && Waivable(site, s.db, u, lesson) && u in s.db.progress && s.flights == map[]
            && s.clock == 0 && s.db.progress[u].lastActive == Some(0) && s.db.progress[u].streak == 1
  {
    hide CommitEffect, LessonUnlocked, Next, Run, Waivable;
    assert CompletedLessons(EMPTY_DB, u) == {};
    var one := Serve(site, START, SubmitZero(u, lesson));
    var s1 := Run(site, START, one);
    FailingCounts(site, START.db, 0, u, lesson);
    ZeroFails(site, START.db, u, lesson);
    var two := Serve(site, s1, SubmitZero(u, lesson));
    var s2 := Run(site, s1, two);
    FailingCounts(site, s1.db, 0, u, lesson);
    ZeroFails(site, s1.db, u, lesson);
    var three := Serve(site, s2, Again(u, lesson));
    FirstWaive(site, s2.db, u, lesson);
    RunConcat(site, START, one, two);
    RunConcat(site, START, one + two, three);
    steps := one + two + three;
    DaysOfFirst(u, lesson);
    OneDay();
  }

  lemma DaysOfFirst(u: User, lesson: string)
    ensures ActiveDays([] + [FailedLesson(u, lesson)] + [FailedLesson(u, lesson)] + [WaivedLesson(u, lesson, 0)], u)
            == {0}
  {
    var fail, waive := FailedLesson(u, lesson), WaivedLesson(u, lesson, 0);
    OneMoreEvent([], fail, u, lesson);
    OneMoreEvent([] + [fail], fail, u, lesson);
    OneMoreEvent([] + [fail] + [fail], waive, u, lesson);
  }

  lemma OneDay()
    ensures Exact(1, Some(0), {0})
  {
  }

  /** So in a run from empty tables a learner active on three days in a row is left with a streak of two. */
  lemma MidnightRaceHappens(site: Site, u: User, lesson: string) returns (steps: seq<Step>)
    requires lesson in site.content.lessons && LessonUnlocked(site.content, lesson, {})
    requires site.content.lessons[lesson].passThreshold > 0.0
    ensures var t := Run(site, START, steps);
            && u in t.db.progress && t.db.progress[u].lastActive == Some(2) && t.db.progress[u].streak == 2
            && Consecutive(ActiveDays(t.log, u), 2) == 3
  {
    assert Coherent(START);
    hide *;
    var first := FirstDay(site, u, lesson);
    steps := first + Race(u, lesson, 0, 1);
    RaceAfter(site, START, first, u, lesson);
  }

  lemma RaceAfter(site: Site, s: System, first: seq<Step>, u: User, lesson: string)
    requires Coherent(s)
    requires var t := Run(site, s, first);
             && StreakInvariant(t, u) && Waivable(site, t.db, u, lesson) && u in t.db.progress && t.flights == map[]
             && t.clock == 0 && t.db.progress[u].lastActive == Some(0) && t.db.progress[u].streak == 1
    ensures var t := Run(site, s, first + Race(u, lesson, 0, 1));
            && u in t.db.progress && t.db.progress[u].lastActive == Some(2) && t.db.progress[u].streak == 2
            && Consecutive(ActiveDays(t.log, u), 2) == 3
  {
    hide *;
    RaceLosesTheStreak(site, Run(site, s, first), u, lesson, 0, 1);
    RunConcat(site, s, first, Race(u, lesson, 0, 1));
  }
}
