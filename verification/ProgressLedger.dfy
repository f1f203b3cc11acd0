/**
 Accounting: total XP, the daily ledger and the history always agree, in every state any
 interleaving of requests can reach.
 */
module ProgressLedger {
  import opened Options
  import opened Gating
  import opened ProgressTables
  import opened ProgressProtocol
  import opened ProgressHistory

  function Share(k: LedgerKey, xp: nat, u: User): nat {
    if k.user == u then xp else 0
  }

  /** The sum of all of a learner's ledger rows. */
  ghost function LedgerTotal(ledger: map<LedgerKey, nat>, u: User): nat {
    if ledger == map[] then 0
    else
      var k :| k in ledger;
      Share(k, ledger[k], u) + LedgerTotal(ledger - {k}, u)
  }

  lemma {:induction false} TotalWithout(ledger: map<LedgerKey, nat>, k: LedgerKey, u: User)
    requires k in ledger
    ensures LedgerTotal(ledger, u) == Share(k, ledger[k], u) + LedgerTotal(ledger - {k}, u)
    decreases |ledger|
  {
    var picked :| picked in ledger
        && LedgerTotal(ledger, u) == Share(picked, ledger[picked], u) + LedgerTotal(ledger - {picked}, u);
    if picked != k {
      TotalWithout(ledger - {picked}, k, u);
      TotalWithout(ledger - {k}, picked, u);
      assert ledger - {picked} - {k} == ledger - {k} - {picked};
    }
  }

  lemma TotalAfterWrite(ledger: map<LedgerKey, nat>, k: LedgerKey, xp: nat, u: User)
    ensures LedgerTotal(ledger[k := xp], u)
         == LedgerTotal(ledger, u) - (if k in ledger then Share(k, ledger[k], u) else 0) + Share(k, xp, u)
  {
    var after := ledger[k := xp];
    TotalWithout(after, k, u);
    assert after - {k} == ledger - {k};
    if k in ledger {
      TotalWithout(ledger, k, u);
    } else {
      assert ledger - {k} == ledger;
    }
  }

  function Xp(db: Db, u: User): int {
    if u in db.progress then db.progress[u].xp else 0
  }

  /** An award reaches the progress row and the ledger alike, and no one else's. */
  lemma ActivityBooksBoth(db: Db, u: User, read: Option<Progress>, today: nat, xp: nat, source: Source,
                          oncePerDay: bool, level: string, v: User)
    requires read.Some? ==> u in db.progress
    ensures var after := AfterActivity(db, u, read, today, xp, source, oncePerDay, level);
            var granted := Award(db.ledger, LedgerKey(u, today, source), xp, oncePerDay).1;
            && Xp(after, v) == Xp(db, v) + (if v == u then granted else 0)
            && LedgerTotal(after.ledger, v) == LedgerTotal(db.ledger, v) + (if v == u then granted else 0)
  {
    var key := LedgerKey(u, today, source);
    TotalAfterWrite(db.ledger, key, if key in db.ledger && !oncePerDay then db.ledger[key] + xp else xp, v);
  }

  /** The tables' markers are exactly the history's. */
  ghost predicate Marked(db: Db, t: Tally, u: User) {
    && (forall l :: l in t.lessons <==> (u, l) in db.completions && db.completions[(u, l)].passed)
    && (forall s :: s in t.sets <==> (u, s) in db.setPasses)
    && (forall id :: id in t.exams <==> Finished(db, id, u))
    && (forall d :: d in t.reviewDays <==> LedgerKey(u, d, ReviewXp) in db.ledger)
    && (forall d :: d in t.drillDays <==> LedgerKey(u, d, DrillXp) in db.ledger)
  }

  predicate Finished(db: Db, id: nat, u: User) {
    id in db.exams && db.exams[id].user == u && db.exams[id].finished
  }

  ghost predicate Balanced(db: Db, t: Tally, u: User) {
    Xp(db, u) == Earned(t) && Xp(db, u) == LedgerTotal(db.ledger, u)
  }

  function TallyAfter(t: Tally, effect: Effect, u: User): Tally {
    if effect.event.Some? then Noted(t, effect.event.value, u) else t
  }

  lemma OneMore<T>(s: set<T>, x: T)
    ensures |s + {x}| == |s| + if x in s then 0 else 1
  {
    if x in s {
      assert s + {x} == s;
    }
  }

  /** What one event is worth on top of the history. */
  function Worth(t: Tally, e: Event, u: User): nat {
    if e.user != u then 0
    else match e
      case PassedLesson(_, l, _, _) => if l in t.lessons then 0 else XP_PER_LESSON
      case PassedSet(_, s, _) => if s in t.sets then 0 else COMPREHENSION_XP
      case FinishedExam(_, id, _) => if id in t.exams then 0 else EXAM_XP
      case Reviewed(_, d) => if d in t.reviewDays then 0 else REVIEW_XP
      case Drilled(_, d) => if d in t.drillDays then 0 else DRILL_XP
      case FailedLesson(_, _) => 0
      case WaivedLesson(_, _, _) => 0
  }

  lemma EarnedGrows(t: Tally, e: Event, u: User)
    ensures Earned(Noted(t, e, u)) == Earned(t) + Worth(t, e, u)
  {
    match e
    case PassedLesson(_, l, _, _) => OneMore(t.lessons, l);
    case PassedSet(_, s, _) => OneMore(t.sets, s);
    case FinishedExam(_, id, _) => OneMore(t.exams, id);
    case Reviewed(_, d) => OneMore(t.reviewDays, d);
    case Drilled(_, d) => OneMore(t.drillDays, d);
    case FailedLesson(_, _) =>
    case WaivedLesson(_, _, _) =>
  }

  /** The award a commit makes, and to whom. */
  function Granted(db: Db, u: User, today: nat, xp: nat, source: Source, oncePerDay: bool): nat {
    Award(db.ledger, LedgerKey(u, today, source), xp, oncePerDay).1
  }

  lemma FailBalances(db: Db, t: Tally, u: User, lesson: string, level: string, score: real, v: User)
    requires Balanced(db, t, v)
    ensures Balanced(FailLesson(db, u, lesson, level, score), t, v)
  {
  }

  lemma PassBalances(db: Db, t: Tally, u: User, lesson: string, level: string, score: real, read: Option<Progress>,
                     today: nat, v: User)
    requires read.Some? ==> u in db.progress
    requires Balanced(db, t, v)
    requires v == u ==> (lesson in t.lessons <==> !FirstPass(db, u, lesson))
    ensures Balanced(PassLesson(db, u, lesson, level, score, read, today),
                     Noted(t, PassedLesson(u, lesson, today, FirstPass(db, u, lesson)), v), v)
  {
    var xp := if FirstPass(db, u, lesson) then XP_PER_LESSON else 0;
    var marked := MarkPassed(db, u, lesson, score);
    assert marked.progress == db.progress && marked.ledger == db.ledger;
    EarnedGrows(t, PassedLesson(u, lesson, today, FirstPass(db, u, lesson)), v);
    ActivityBooksBoth(marked, u, read, today, xp, LessonXp, false, level, v);
  }

  /** Any activity that grants what its event is worth keeps the books. */
  lemma ActivityBalances(db: Db, t: Tally, u: User, read: Option<Progress>, today: nat, xp: nat, source: Source,
                         oncePerDay: bool,
                         level: string, e: Event, v: User)
    requires read.Some? ==> u in db.progress
    requires Balanced(db, t, v) && e.user == u
    requires v == u ==> Worth(t, e, v) == Granted(db, u, today, xp, source, oncePerDay)
    ensures Balanced(AfterActivity(db, u, read, today, xp, source, oncePerDay, level), Noted(t, e, v), v)
  {
    EarnedGrows(t, e, v);
    ActivityBooksBoth(db, u, read, today, xp, source, oncePerDay, level, v);
  }

  lemma ResultBalances(site: Site, db: Db, t: Tally, clock: nat, f: Flight, v: User)
    requires Behind(db, f) && f.req.SubmitResult? && Marked(db, t, v) && Balanced(db, t, v)
    ensures var effect := CommitResult(site, db, clock, f); Balanced(effect.db, TallyAfter(t, effect, v), v)
  {
    var SubmitResult(u, lesson, score) := f.req;
    if lesson in site.content.lessons && LessonUnlocked(site.content, lesson, CompletedRead(db, f)) {
      var info := site.content.lessons[lesson];
      if score < info.passThreshold {
        FailBalances(db, t, u, lesson, info.level, score, v);
      } else {
        PassBalances(db, t, u, lesson, info.level, score, ProgressRead(db, f), Today(clock, f), v);
      }
    }
  }

  lemma WaiveBalances(site: Site, db: Db, t: Tally, clock: nat, f: Flight, v: User)
    requires Behind(db, f) && f.req.Waive? && Balanced(db, t, v)
    ensures var effect := CommitWaive(site, db, clock, f); Balanced(effect.db, TallyAfter(t, effect, v), v)
  {
    var Waive(u, lesson) := f.req;
    if CommitWaive(site, db, clock, f).event.Some? {
      var waived := db.(completions := db.completions[(u, lesson) := db.completions[(u, lesson)].(waived := true)]);
      ActivityBooksBoth(waived, u, ProgressRead(db, f), Today(clock, f), 0, LessonXp, false,
                        site.content.lessons[lesson].level, v);
    }
  }

  lemma SetBalances(db: Db, t: Tally, clock: nat, f: Flight, v: User)
    requires Behind(db, f) && f.req.SubmitSet? && Marked(db, t, v) && Balanced(db, t, v)
    ensures var effect := CommitSet(db, clock, f); Balanced(effect.db, TallyAfter(t, effect, v), v)
  {
    var SubmitSet(u, setId, level, _, _) := f.req;
    if CommitSet(db, clock, f).event.Some? {
      ActivityBalances(db.(setPasses := db.setPasses + {(u, setId)}), t, u, ProgressRead(db, f), Today(clock, f),
                       COMPREHENSION_XP, ComprehensionXp, false, level, PassedSet(u, setId, Today(clock, f)), v);
    }
  }

  lemma FinishBalances(db: Db, t: Tally, u: User, id: nat, level: string, read: Option<Progress>, today: nat, v: User)
    requires read.Some? ==> u in db.progress
    requires id in db.exams && !db.exams[id].finished && Balanced(db, t, v)
    requires v == u ==> id !in t.exams
    ensures Balanced(FinishAttempt(db, u, id, level, read, today), Noted(t, FinishedExam(u, id, today), v), v)
  {
    ActivityBalances(db.(exams := db.exams[id := db.exams[id].(finished := true)]), t, u, read, today,
                     EXAM_XP, ExamXp, false, level, FinishedExam(u, id, today), v);
  }

  lemma ExamBalances(site: Site, db: Db, t: Tally, clock: nat, f: Flight, v: User)
    requires Behind(db, f) && f.req.FinishExam? && Marked(db, t, v) && Balanced(db, t, v)
    ensures var effect := CommitFinish(site, db, clock, f); Balanced(effect.db, TallyAfter(t, effect, v), v)
  {
    var FinishExam(u, id) := f.req;
    if CommitFinish(site, db, clock, f).event.Some? {
      FinishBalances(db, t, u, id, AttemptRead(db, f).value.level, ProgressRead(db, f), Today(clock, f), v);
    }
  }

  lemma ReviewBalances(db: Db, t: Tally, clock: nat, f: Flight, v: User)
    requires Behind(db, f) && f.req.ReviewCard? && Marked(db, t, v) && Balanced(db, t, v)
    ensures var effect := CommitReview(db, clock, f); Balanced(effect.db, TallyAfter(t, effect, v), v)
  {
    var u, today := f.req.user, Today(clock, f);
    ActivityBalances(db, t, u, ProgressRead(db, f), today, REVIEW_XP, ReviewXp, true, "a1", Reviewed(u, today), v);
  }

  lemma DrillBalances(db: Db, t: Tally, clock: nat, f: Flight, v: User)
    requires Behind(db, f) && f.req.Drill? && Marked(db, t, v) && Balanced(db, t, v)
    ensures var effect := CommitDrill(db, clock, f); Balanced(effect.db, TallyAfter(t, effect, v), v)
  {
    var u, today := f.req.user, Today(clock, f);
    ActivityBalances(db, t, u, ProgressRead(db, f), today, DRILL_XP, DrillXp, true, f.req.level, Drilled(u, today), v);
  }

  lemma SetupBalances(site: Site, db: Db, t: Tally, f: Flight, v: User)
    requires Behind(db, f) && Balanced(db, t, v)
    ensures f.req.StartExam? ==>
              var effect := CommitStart(site, db, f); Balanced(effect.db, TallyAfter(t, effect, v), v)
    ensures f.req.RecordSection? ==>
              var effect := CommitSection(db, f); Balanced(effect.db, TallyAfter(t, effect, v), v)
  {
    if f.req.StartExam? {
      StartTouchesNoBooks(site, db, f);
    } else if f.req.RecordSection? {
      SectionTouchesNoBooks(db, f);
    }
  }

  lemma CommitBalances(site: Site, db: Db, t: Tally, clock: nat, f: Flight, v: User)
    requires Behind(db, f) && Marked(db, t, v) && Balanced(db, t, v)
    ensures var effect := CommitEffect(site, db, clock, f); Balanced(effect.db, TallyAfter(t, effect, v), v)
  {
    match f.req
    case SubmitResult(_, _, _) => ResultBalances(site, db, t, clock, f, v);
    case Waive(_, _) => WaiveBalances(site, db, t, clock, f, v);
    case SubmitSet(_, _, _, _, _) => SetBalances(db, t, clock, f, v);
    case FinishExam(_, _) => ExamBalances(site, db, t, clock, f, v);
    case StartExam(_, _, _) => SetupBalances(site, db, t, f, v);
    case RecordSection(_, _, _, _) => SetupBalances(site, db, t, f, v);
    case ReviewCard(_, _) => ReviewBalances(db, t, clock, f, v);
    case Drill(_, _, _) => DrillBalances(db, t, clock, f, v);
  }

  lemma StartTouchesNoBooks(site: Site, db: Db, f: Flight)
    requires f.req.StartExam?
    ensures var effect := CommitStart(site, db, f);
            effect.event.None? && effect.db == db.(exams := effect.db.exams)
            && (forall id, u :: Finished(effect.db, id, u) <==> Finished(db, id, u))
  {
  }

  lemma SectionTouchesNoBooks(db: Db, f: Flight)
    requires Behind(db, f) && f.req.RecordSection?
    ensures var effect := CommitSection(db, f);
            effect.event.None? && effect.db == db.(exams := effect.db.exams)
            && (forall id, u :: Finished(effect.db, id, u) <==> Finished(db, id, u))
  {
  }

  // ----- Markers -----

  lemma ActivityKeys(db: Db, u: User, read: Option<Progress>, today: nat, xp: nat, source: Source, oncePerDay: bool,
                     level: string)
    requires read.Some? ==> u in db.progress
    ensures AfterActivity(db, u, read, today, xp, source, oncePerDay, level).ledger.Keys
         == db.ledger.Keys + if xp == 0 then {} else {LedgerKey(u, today, source)}
  {
  }

  lemma PassMarks(db: Db, t: Tally, u: User, lesson: string, level: string, score: real, read: Option<Progress>,
                  today: nat, v: User)
    requires read.Some? ==> u in db.progress
    requires Marked(db, t, v)
    ensures Marked(PassLesson(db, u, lesson, level, score, read, today),
                   Noted(t, PassedLesson(u, lesson, today, FirstPass(db, u, lesson)), v), v)
  {
    var xp := if FirstPass(db, u, lesson) then XP_PER_LESSON else 0;
    ActivityKeys(MarkPassed(db, u, lesson, score), u, read, today, xp, LessonXp, false, level);
  }

  lemma ResultMarks(site: Site, db: Db, t: Tally, clock: nat, f: Flight, v: User)
    requires Behind(db, f) && f.req.SubmitResult? && Marked(db, t, v)
    ensures var effect := CommitResult(site, db, clock, f); Marked(effect.db, TallyAfter(t, effect, v), v)
  {
    var SubmitResult(u, lesson, score) := f.req;
    if lesson in site.content.lessons && LessonUnlocked(site.content, lesson, CompletedRead(db, f)) {
      var info := site.content.lessons[lesson];
      if score >= info.passThreshold {
        PassMarks(db, t, u, lesson, info.level, score, ProgressRead(db, f), Today(clock, f), v);
      }
    }
  }

  lemma WaiveMarks(site: Site, db: Db, t: Tally, clock: nat, f: Flight, v: User)
    requires Behind(db, f) && f.req.Waive? && Marked(db, t, v)
    ensures var effect := CommitWaive(site, db, clock, f); Marked(effect.db, TallyAfter(t, effect, v), v)
  {
    var Waive(u, lesson) := f.req;
    if CommitWaive(site, db, clock, f).event.Some? {
      var waived := db.(completions := db.completions[(u, lesson) := db.completions[(u, lesson)].(waived := true)]);
      ActivityKeys(waived, u, ProgressRead(db, f), Today(clock, f), 0, LessonXp, false,
                   site.content.lessons[lesson].level);
    }
  }

  lemma SetMarks(db: Db, t: Tally, clock: nat, f: Flight, v: User)
    requires Behind(db, f) && f.req.SubmitSet? && Marked(db, t, v)
    ensures var effect := CommitSet(db, clock, f); Marked(effect.db, TallyAfter(t, effect, v), v)
  {
    var SubmitSet(u, setId, level, _, _) := f.req;
    if CommitSet(db, clock, f).event.Some? {
      ActivityKeys(db.(setPasses := db.setPasses + {(u, setId)}), u, ProgressRead(db, f), Today(clock, f),
                   COMPREHENSION_XP, ComprehensionXp, false, level);
    }
  }

  lemma FinishMarks(db: Db, t: Tally, u: User, id: nat, level: string, read: Option<Progress>, today: nat, v: User)
    requires read.Some? ==> u in db.progress
    requires id in db.exams && db.exams[id].user == u && !db.exams[id].finished && Marked(db, t, v)
    ensures Marked(FinishAttempt(db, u, id, level, read, today), Noted(t, FinishedExam(u, id, today), v), v)
  {
    ActivityKeys(db.(exams := db.exams[id := db.exams[id].(finished := true)]), u, read, today, EXAM_XP, ExamXp,
                 false, level);
  }

  lemma DailyMarks(db: Db, t: Tally, u: User, read: Option<Progress>, today: nat, source: Source, level: string,
                   v: User)
    requires read.Some? ==> u in db.progress
    requires (source == ReviewXp || source == DrillXp) && Marked(db, t, v)
    ensures Marked(AfterActivity(db, u, read, today, REVIEW_XP, source, true, level),
                   Noted(t, if source == ReviewXp then Reviewed(u, today) else Drilled(u, today), v), v)
  {
    ActivityKeys(db, u, read, today, REVIEW_XP, source, true, level);
  }

  lemma ExamMarks(site: Site, db: Db, t: Tally, clock: nat, f: Flight, v: User)
    requires Behind(db, f) && f.req.FinishExam? && Marked(db, t, v)
    ensures var effect := CommitFinish(site, db, clock, f); Marked(effect.db, TallyAfter(t, effect, v), v)
  {
    if CommitFinish(site, db, clock, f).event.Some? {
      FinishMarks(db, t, f.req.user, f.req.attempt, AttemptRead(db, f).value.level, ProgressRead(db, f),
                  Today(clock, f), v);
    }
  }

  lemma DailyCommitMarks(db: Db, t: Tally, clock: nat, f: Flight, v: User)
    requires Behind(db, f) && Marked(db, t, v)
    ensures f.req.ReviewCard? ==>
              var effect := CommitReview(db, clock, f); Marked(effect.db, TallyAfter(t, effect, v), v)
    ensures f.req.Drill? ==> var effect := CommitDrill(db, clock, f); Marked(effect.db, TallyAfter(t, effect, v), v)
  {
    if f.req.ReviewCard? {
      DailyMarks(db, t, f.req.user, ProgressRead(db, f), Today(clock, f), ReviewXp, "a1", v);
    } else if f.req.Drill? {
      DailyMarks(db, t, f.req.user, ProgressRead(db, f), Today(clock, f), DrillXp, f.req.level, v);
    }
  }

  lemma SetupMarks(site: Site, db: Db, t: Tally, f: Flight, v: User)
    requires Behind(db, f) && Marked(db, t, v)
    ensures f.req.StartExam? ==> var effect := CommitStart(site, db, f); Marked(effect.db, TallyAfter(t, effect, v), v)
    ensures f.req.RecordSection? ==> var effect := CommitSection(db, f); Marked(effect.db, TallyAfter(t, effect, v), v)
  {
    if f.req.StartExam? {
      StartTouchesNoBooks(site, db, f);
    } else if f.req.RecordSection? {
      SectionTouchesNoBooks(db, f);
    }
  }

  lemma CommitMarks(site: Site, db: Db, t: Tally, clock: nat, f: Flight, v: User)
    requires Behind(db, f) && Marked(db, t, v)
    ensures var effect := CommitEffect(site, db, clock, f); Marked(effect.db, TallyAfter(t, effect, v), v)
  {
    match f.req
    case SubmitResult(_, _, _) => ResultMarks(site, db, t, clock, f, v);
    case Waive(_, _) => WaiveMarks(site, db, t, clock, f, v);
    case SubmitSet(_, _, _, _, _) => SetMarks(db, t, clock, f, v);
    case FinishExam(_, _) => ExamMarks(site, db, t, clock, f, v);
    case StartExam(_, _, _) => SetupMarks(site, db, t, f, v);
    case RecordSection(_, _, _, _) => SetupMarks(site, db, t, f, v);
    case ReviewCard(_, _) => DailyCommitMarks(db, t, clock, f, v);
    case Drill(_, _, _) => DailyCommitMarks(db, t, clock, f, v);
  }

  /** One step of any request keeps every learner's books. */
  lemma StepKeepsBooks(site: Site, s: System, step: Step, u: User)
    requires Coherent(s)
    requires Marked(s.db, TallyOf(s.log, u), u) && Balanced(s.db, TallyOf(s.log, u), u)
    ensures var t := Next(site, s, step);
            Marked(t.db, TallyOf(t.log, u), u) && Balanced(t.db, TallyOf(t.log, u), u)
  {
    if step.Commit? && step.id in s.flights {
      var f := s.flights[step.id];
      var effect := CommitEffect(site, s.db, s.clock, f);
      CommitMarks(site, s.db, TallyOf(s.log, u), s.clock, f, u);
      CommitBalances(site, s.db, TallyOf(s.log, u), s.clock, f, u);
      if effect.event.Some? {
        OneMoreEvent(s.log, effect.event.value, u, "");
      }
    }
  }

  /**
   XP is conserved: in every state any interleaving of requests reaches from empty tables, a
   learner's total is the sum of their daily ledger rows, and is 10 for each lesson passed, 15 for
   each set passed, 25 for each exam finished and 10 for each day with a review and each day with
   a drill. No race pays twice.
   */
  lemma {:induction false} XpIsConserved(site: Site, steps: seq<Step>, u: User)
    ensures var s := Run(site, START, steps);
            var t := TallyOf(s.log, u);
            && Xp(s.db, u) == LedgerTotal(s.db.ledger, u)
            && Xp(s.db, u) == 10 * |t.lessons| + 15 * |t.sets| + 25 * |t.exams| + 10 * |t.reviewDays|
                + 10 * |t.drillDays|
            && Marked(s.db, t, u)
    decreases |steps|
  {
    if steps != [] {
      XpIsConserved(site, steps[..|steps| - 1], u);
      StepKeepsBooks(site, Run(site, START, steps[..|steps| - 1]), steps[|steps| - 1], u);
    }
  }
}
