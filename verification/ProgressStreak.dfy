/** The streak over whole runs: exact in every run in which no request straddles midnight. */
module ProgressStreak {
  import opened Options
  import opened Streak
  import opened Gating
  import opened ProgressTables
  import opened ProgressProtocol
  import opened ProgressHistory

  /** The streak columns of a row; a missing row counts as one never active. */
  function StreakOf(row: Option<Progress>): (int, Option<nat>) {
    match row
    case None => (0, None)
    case Some(p) => (p.streak, p.lastActive)
  }

  ghost predicate RowExact(row: Option<Progress>, days: set<nat>) {
    Exact(StreakOf(row).0, StreakOf(row).1, days)
  }

  /** A commit is on time when the request has not carried a date over midnight. */
  ghost predicate OnTime(s: System, step: Step) {
    step.Commit? && step.id in s.flights && s.flights[step.id].progress.Some? ==>
      s.flights[step.id].progress.value.0 == s.clock
  }

  ghost predicate NoRequestStraddlesMidnight(site: Site, steps: seq<Step>)
    decreases |steps|
  {
    steps == []
    || (NoRequestStraddlesMidnight(site, steps[..|steps| - 1])
        && OnTime(Run(site, START, steps[..|steps| - 1]), steps[|steps| - 1]))
  }

  /** A progress row read today missed nothing but activity of today. */
  ghost predicate FlightExact(f: Flight, days: set<nat>, clock: nat) {
    f.progress.Some? ==>
      var (day, row) := f.progress.value;
      day <= clock && (day == clock ==> RowExact(row, days) || RowExact(row, days - {clock}))
  }

  ghost predicate StreakHolds(row: Option<Progress>, days: set<nat>, clock: nat, flights: map<nat, Flight>, u: User) {
    && RowExact(row, days)
    && (forall d :: d in days ==> d <= clock)
    && (forall id :: id in flights && flights[id].req.user == u ==> FlightExact(flights[id], days, clock))
  }

  ghost predicate StreakInvariant(s: System, u: User) {
    StreakHolds(ProgressOf(s.db, u), ActiveDays(s.log, u), s.clock, s.flights, u)
  }

  /** Everyone's streak columns after an activity of `u`. */
  function ActiveStreak(db: Db, u: User, read: Option<Progress>, today: nat, v: User): (int, Option<nat>) {
    var stored := StreakOf(ProgressOf(db, v));
    var base := if read.Some? then StreakOf(read) else stored;
    if v == u then (StreakAfter(base.0, base.1, stored.0, today), LastAfter(base.1, stored.1, today)) else stored
  }

  lemma ActivityStreak(db: Db, u: User, read: Option<Progress>, today: nat, xp: nat, source: Source, oncePerDay: bool,
                       level: string, v: User)
    requires read.Some? ==> u in db.progress
    ensures StreakOf(ProgressOf(AfterActivity(db, u, read, today, xp, source, oncePerDay, level), v))
            == ActiveStreak(db, u, read, today, v)
  {
  }

  /** A commit either is an activity of its user today, or leaves all streak columns alone. */
  ghost predicate StreakEffect(db: Db, clock: nat, f: Flight, effect: Effect, v: User) {
    if effect.event.Some? && !effect.event.value.FailedLesson? then
      && effect.event.value.user == f.req.user && effect.event.value.day == Today(clock, f)
      && StreakOf(ProgressOf(effect.db, v)) == ActiveStreak(db, f.req.user, ProgressRead(db, f), Today(clock, f), v)
    else StreakOf(ProgressOf(effect.db, v)) == StreakOf(ProgressOf(db, v))
  }

  lemma PassStreak(db: Db, u: User, lesson: string, level: string, score: real, read: Option<Progress>, today: nat,
                   v: User)
    requires read.Some? ==> u in db.progress
    ensures StreakOf(ProgressOf(PassLesson(db, u, lesson, level, score, read, today), v))
            == ActiveStreak(db, u, read, today, v)
  {
    var xp := if FirstPass(db, u, lesson) then XP_PER_LESSON else 0;
    var marked := MarkPassed(db, u, lesson, score);
    assert marked.progress == db.progress;
    ActivityStreak(marked, u, read, today, xp, LessonXp, false, level, v);
  }

  lemma FailStreak(db: Db, u: User, lesson: string, level: string, score: real, v: User)
    ensures StreakOf(ProgressOf(FailLesson(db, u, lesson, level, score), v)) == StreakOf(ProgressOf(db, v))
  {
  }

  lemma ResultStreak(site: Site, db: Db, clock: nat, f: Flight, v: User)
    requires Behind(db, f) && f.req.SubmitResult?
    ensures StreakEffect(db, clock, f, CommitResult(site, db, clock, f), v)
  {
    var SubmitResult(u, lesson, score) := f.req;
    if lesson in site.content.lessons && LessonUnlocked(site.content, lesson, CompletedRead(db, f)) {
      var info := site.content.lessons[lesson];
      if score < info.passThreshold {
        FailStreak(db, u, lesson, info.level, score, v);
      } else {
        PassStreak(db, u, lesson, info.level, score, ProgressRead(db, f), Today(clock, f), v);
      }
    }
  }

  lemma WaiveStreak(site: Site, db: Db, clock: nat, f: Flight, v: User)
    requires Behind(db, f) && f.req.Waive?
    ensures StreakEffect(db, clock, f, CommitWaive(site, db, clock, f), v)
  {
    var Waive(u, lesson) := f.req;
    if CommitWaive(site, db, clock, f).event.Some? {
      var waived := db.(completions := db.completions[(u, lesson) := db.completions[(u, lesson)].(waived := true)]);
      ActivityStreak(waived, u, ProgressRead(db, f), Today(clock, f), 0, LessonXp, false,
                     site.content.lessons[lesson].level, v);
    }
  }

  lemma SetStreak(db: Db, clock: nat, f: Flight, v: User)
    requires Behind(db, f) && f.req.SubmitSet?
    ensures StreakEffect(db, clock, f, CommitSet(db, clock, f), v)
  {
    var SubmitSet(u, setId, level, _, _) := f.req;
    ActivityStreak(db.(setPasses := db.setPasses + {(u, setId)}), u, ProgressRead(db, f), Today(clock, f),
                   COMPREHENSION_XP, ComprehensionXp, false, level, v);
  }

  lemma FinishStreak(site: Site, db: Db, clock: nat, f: Flight, v: User)
    requires Behind(db, f) && f.req.FinishExam?
    ensures StreakEffect(db, clock, f, CommitFinish(site, db, clock, f), v)
  {
    var FinishExam(u, id) := f.req;
    if CommitFinish(site, db, clock, f).event.Some? {
      ActivityStreak(db.(exams := db.exams[id := db.exams[id].(finished := true)]), u, ProgressRead(db, f),
                     Today(clock, f),
                     EXAM_XP, ExamXp, false, AttemptRead(db, f).value.level, v);
    }
  }

  lemma DailyStreak(db: Db, clock: nat, f: Flight, v: User)
    requires Behind(db, f)
    ensures f.req.ReviewCard? ==> StreakEffect(db, clock, f, CommitReview(db, clock, f), v)
    ensures f.req.Drill? ==> StreakEffect(db, clock, f, CommitDrill(db, clock, f), v)
  {
    if f.req.ReviewCard? {
      ActivityStreak(db, f.req.user, ProgressRead(db, f), Today(clock, f), REVIEW_XP, ReviewXp, true, "a1", v);
    } else if f.req.Drill? {
      ActivityStreak(db, f.req.user, ProgressRead(db, f), Today(clock, f), DRILL_XP, DrillXp, true, f.req.level, v);
    }
  }

  lemma SetupStreak(site: Site, db: Db, clock: nat, f: Flight, v: User)
    requires Behind(db, f)
    ensures f.req.StartExam? ==> StreakEffect(db, clock, f, CommitStart(site, db, f), v)
    ensures f.req.RecordSection? ==> StreakEffect(db, clock, f, CommitSection(db, f), v)
  {
  }

  lemma CommitStreak(site: Site, db: Db, clock: nat, f: Flight, v: User)
    requires Behind(db, f)
    ensures StreakEffect(db, clock, f, CommitEffect(site, db, clock, f), v)
  {
    match f.req
    case SubmitResult(_, _, _) => ResultStreak(site, db, clock, f, v);
    case Waive(_, _) => WaiveStreak(site, db, clock, f, v);
    case SubmitSet(_, _, _, _, _) => SetStreak(db, clock, f, v);
    case FinishExam(_, _) => FinishStreak(site, db, clock, f, v);
    case ReviewCard(_, _) => DailyStreak(db, clock, f, v);
    case Drill(_, _, _) => DailyStreak(db, clock, f, v);
    case StartExam(_, _, _) => SetupStreak(site, db, clock, f, v);
    case RecordSection(_, _, _, _) => SetupStreak(site, db, clock, f, v);
  }

  /** An activity of today over an exact row, from a read that missed only today, leaves the row exact. */
  lemma ActivityStaysExact(f: Flight, stored: (int, Option<nat>), base: (int, Option<nat>), days: set<nat>, clock: nat)
    requires Exact(stored.0, stored.1, days)
    requires Exact(base.0, base.1, days) || Exact(base.0, base.1, days - {clock})
    requires forall d :: d in days ==> d <= clock
    ensures Exact(StreakAfter(base.0, base.1, stored.0, clock), LastAfter(base.1, stored.1, clock), days + {clock})
  {
    if Exact(base.0, base.1, days) {
      SameDayConverges(base.0, base.1, days, stored.0, stored.1, days, clock);
    } else {
      SameDayConverges(base.0, base.1, days - {clock}, stored.0, stored.1, days, clock);
    }
  }

  lemma FlightStaysExact(f: Flight, days: set<nat>, clock: nat)
    requires FlightExact(f, days, clock)
    ensures FlightExact(f, days + {clock}, clock)
  {
    if clock in days {
      assert days + {clock} == days;
    } else {
      assert days + {clock} - {clock} == days && days - {clock} == days;
    }
  }

  /** The invariant over one commit of `u` that counts as activity. */
  lemma ActiveCommitKeepsStreak(db: Db, clock: nat, f: Flight, effect: Effect, days: set<nat>,
                                flights: map<nat, Flight>, id: nat, u: User)
    requires StreakHolds(ProgressOf(db, u), days, clock, flights, u)
    requires FlightExact(f, days, clock) && Today(clock, f) == clock
    requires StreakEffect(db, clock, f, effect, u) && f.req.user == u
    requires effect.event.Some? && !effect.event.value.FailedLesson?
    ensures StreakHolds(ProgressOf(effect.db, u), days + {clock}, clock, flights - {id}, u)
  {
    var stored := StreakOf(ProgressOf(db, u));
    var base := if ProgressRead(db, f).Some? then StreakOf(ProgressRead(db, f)) else stored;
    ActivityStaysExact(f, stored, base, days, clock);
    forall k | k in flights - {id} && flights[k].req.user == u ensures FlightExact(flights[k], days + {clock}, clock) {
      FlightStaysExact(flights[k], days, clock);
    }
  }

  /** The invariant over a commit that is no activity of `u`. */
  lemma QuietCommitKeepsStreak(db: Db, clock: nat, effect: Effect, days: set<nat>, flights: map<nat, Flight>, id: nat,
                               u: User)
    requires StreakHolds(ProgressOf(db, u), days, clock, flights, u)
    requires StreakOf(ProgressOf(effect.db, u)) == StreakOf(ProgressOf(db, u))
    ensures StreakHolds(ProgressOf(effect.db, u), days, clock, flights - {id}, u)
  {
  }

  lemma CommitKeepsStreak(site: Site, s: System, id: nat, u: User)
    requires Coherent(s) && StreakInvariant(s, u) && OnTime(s, Commit(id)) && id in s.flights
    ensures StreakInvariant(Next(site, s, Commit(id)), u)
  {
    var f := s.flights[id];
    var effect := CommitEffect(site, s.db, s.clock, f);
    var days := ActiveDays(s.log, u);
    CommitStreak(site, s.db, s.clock, f, u);
    if effect.event.Some? {
      OneMoreEvent(s.log, effect.event.value, u, "");
    }
    if effect.event.Some? && !effect.event.value.FailedLesson? && f.req.user == u {
      ActiveCommitKeepsStreak(s.db, s.clock, f, effect, days, s.flights, id, u);
    } else {
      QuietCommitKeepsStreak(s.db, s.clock, effect, days, s.flights, id, u);
    }
  }

  lemma StepKeepsStreak(site: Site, s: System, step: Step, u: User)
    requires Coherent(s) && StreakInvariant(s, u) && OnTime(s, step)
    ensures StreakInvariant(Next(site, s, step), u)
  {
    match step
    case Commit(id) =>
      if id in s.flights {
        CommitKeepsStreak(site, s, id, u);
      }
    case NextDay =>
    case Arrive(_, _) =>
    case ReadCompleted(_) =>
    case ReadRow(_) =>
    case ReadProgress(_) =>
    case ReadAttempt(_) =>
  }

  /**
   In every run in which no request straddles midnight, whatever its requests read and in
   whatever order they commit, a learner's streak is the number of consecutive active days that
   end at `lastActive`. The order of requests of one day does not matter.
   */
  lemma {:induction false} StreakIsAlwaysExact(site: Site, steps: seq<Step>, u: User)
    requires NoRequestStraddlesMidnight(site, steps)
    ensures var s := Run(site, START, steps);
            StreakInvariant(s, u)
            && (u in s.db.progress && s.db.progress[u].lastActive.Some? ==>
                  s.db.progress[u].streak == Consecutive(ActiveDays(s.log, u), s.db.progress[u].lastActive.value))
    decreases |steps|
  {
    if steps != [] {
      StreakIsAlwaysExact(site, steps[..|steps| - 1], u);
      StepKeepsStreak(site, Run(site, START, steps[..|steps| - 1]), steps[|steps| - 1], u);
    }
  }
}
