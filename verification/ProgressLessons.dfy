/**
 Lessons in every reachable state: the books of the attempt / pass / waive state machine, gating
 under stale checks, and the escape hatch.
 */
module ProgressLessons {
  import opened Options
  import opened Gating
  import opened ProgressTables
  import opened ProgressProtocol
  import opened ProgressHistory

  /** The completion row says exactly what happened to the lesson. */
  ghost predicate Kept(db: Db, t: LessonTally, u: User, lesson: string) {
    match Row(db, u, lesson)
    case None => t == LessonTally(0, 0, false, false)
    case Some(c) =>
      && c.attempts == t.fails && c.passed == t.passed && c.waived == t.waived
      && t.firstPasses == (if c.passed then 1 else 0)
      && (c.waived ==> c.attempts >= WAIVE_AFTER_ATTEMPTS)
  }

  function LessonTallyAfter(t: LessonTally, effect: Effect, u: User, lesson: string): LessonTally {
    if effect.event.Some? then LessonNoted(t, effect.event.value, u, lesson) else t
  }

  /** Tables and history as far as lessons go. */
  ghost predicate LeavesLessons(db: Db, effect: Effect) {
    && effect.db.completions == db.completions
    && (effect.event.Some? ==>
          !effect.event.value.FailedLesson? && !effect.event.value.PassedLesson? && !effect.event.value.WaivedLesson?)
  }

  lemma ExamLeavesLessons(site: Site, db: Db, clock: nat, f: Flight)
    requires Behind(db, f)
    ensures f.req.StartExam? ==> LeavesLessons(db, CommitStart(site, db, f))
    ensures f.req.RecordSection? ==> LeavesLessons(db, CommitSection(db, f))
    ensures f.req.FinishExam? ==> LeavesLessons(db, CommitFinish(site, db, clock, f))
  {
  }

  lemma ActivityLeavesLessons(db: Db, clock: nat, f: Flight)
    requires Behind(db, f)
    ensures f.req.SubmitSet? ==> LeavesLessons(db, CommitSet(db, clock, f))
    ensures f.req.ReviewCard? ==> LeavesLessons(db, CommitReview(db, clock, f))
    ensures f.req.Drill? ==> LeavesLessons(db, CommitDrill(db, clock, f))
  {
  }

  /** Only results and waives touch completions. */
  lemma OtherCommitsLeaveLessons(site: Site, db: Db, clock: nat, f: Flight)
    requires Behind(db, f) && !f.req.SubmitResult? && !f.req.Waive?
    ensures LeavesLessons(db, CommitEffect(site, db, clock, f))
  {
    hide LeavesLessons, CommitStart, CommitSection, CommitFinish, CommitSet, CommitReview, CommitDrill, Behind;
    ExamLeavesLessons(site, db, clock, f);
    ActivityLeavesLessons(db, clock, f);
  }

  lemma PassKeepsLesson(db: Db, v: User, l: string, level: string, score: real, read: Option<Progress>, today: nat,
                        t: LessonTally, u: User, lesson: string)
    requires read.Some? ==> v in db.progress
    requires Kept(db, t, u, lesson)
    ensures Kept(PassLesson(db, v, l, level, score, read, today),
                 LessonNoted(t, PassedLesson(v, l, today, FirstPass(db, v, l)), u, lesson), u, lesson)
  {
    var after := PassLesson(db, v, l, level, score, read, today);
    assert after.completions == MarkPassed(db, v, l, score).completions;
  }

  lemma FailKeepsLesson(db: Db, v: User, l: string, level: string, score: real, t: LessonTally, u: User, lesson: string)
    requires Kept(db, t, u, lesson)
    ensures Kept(FailLesson(db, v, l, level, score), LessonNoted(t, FailedLesson(v, l), u, lesson), u, lesson)
  {
  }

  lemma ResultKeepsLesson(site: Site, db: Db, clock: nat, f: Flight, t: LessonTally, u: User, lesson: string)
    requires Behind(db, f) && f.req.SubmitResult? && Kept(db, t, u, lesson)
    ensures var effect := CommitResult(site, db, clock, f);
            Kept(effect.db, LessonTallyAfter(t, effect, u, lesson), u, lesson)
  {
    var SubmitResult(v, l, score) := f.req;
    if l in site.content.lessons && LessonUnlocked(site.content, l, CompletedRead(db, f)) {
      var info := site.content.lessons[l];
      if score < info.passThreshold {
        FailKeepsLesson(db, v, l, info.level, score, t, u, lesson);
      } else {
        PassKeepsLesson(db, v, l, info.level, score, ProgressRead(db, f), Today(clock, f), t, u, lesson);
      }
    }
  }

  lemma WaiveKeepsLesson(site: Site, db: Db, clock: nat, f: Flight, t: LessonTally, u: User, lesson: string)
    requires Behind(db, f) && f.req.Waive? && Kept(db, t, u, lesson)
    ensures var effect := CommitWaive(site, db, clock, f);
            Kept(effect.db, LessonTallyAfter(t, effect, u, lesson), u, lesson)
  {
  }

  lemma CommitKeepsLesson(site: Site, db: Db, clock: nat, f: Flight, t: LessonTally, u: User, lesson: string)
    requires Behind(db, f) && Kept(db, t, u, lesson)
    ensures var effect := CommitEffect(site, db, clock, f);
            Kept(effect.db, LessonTallyAfter(t, effect, u, lesson), u, lesson)
  {
    if f.req.SubmitResult? {
      ResultKeepsLesson(site, db, clock, f, t, u, lesson);
    } else if f.req.Waive? {
      WaiveKeepsLesson(site, db, clock, f, t, u, lesson);
    } else {
      OtherCommitsLeaveLessons(site, db, clock, f);
    }
  }

  /**
   The lesson state machine keeps its books in every interleaving: attempts are the failing
   results, a lesson is passed or waived exactly when such a request was committed, a waive took
   at least two failures, and exactly one submission of a passed lesson was told it was first.
   */
  lemma {:induction false} LessonBooksAreKept(site: Site, steps: seq<Step>, u: User, lesson: string)
    ensures var s := Run(site, START, steps); Kept(s.db, LessonTallyOf(s.log, u, lesson), u, lesson)
    decreases |steps|
  {
    if steps != [] {
      LessonBooksAreKept(site, steps[..|steps| - 1], u, lesson);
      var s := Run(site, START, steps[..|steps| - 1]);
      var step := steps[|steps| - 1];
      if step.Commit? && step.id in s.flights {
        var effect := CommitEffect(site, s.db, s.clock, s.flights[step.id]);
        CommitKeepsLesson(site, s.db, s.clock, s.flights[step.id], LessonTallyOf(s.log, u, lesson), u, lesson);
        if effect.event.Some? {
          OneMoreEvent(s.log, effect.event.value, u, lesson);
        }
      }
    }
  }

  /** Passed and waived never revert, and attempts never fall. */
  lemma LessonsNeverRevert(site: Site, s: System, steps: seq<Step>, u: User, lesson: string)
    requires Coherent(s) && (u, lesson) in s.db.completions
    ensures var t := Run(site, s, steps);
            (u, lesson) in t.db.completions && Older(s.db.completions[(u, lesson)], t.db.completions[(u, lesson)])
  {
    assert Grows(s.db, Run(site, s, steps).db);
  }

  // ----- Gating -----

  ghost predicate Counts(db: Db, u: User, lesson: string) {
    (u, lesson) in db.completions && (db.completions[(u, lesson)].passed || db.completions[(u, lesson)].waived)
  }

  ghost predicate OpenNow(site: Site, db: Db, u: User, lesson: string) {
    lesson in site.content.lessons && LessonUnlocked(site.content, lesson, CompletedLessons(db, u))
  }

  lemma OpenStays(site: Site, a: Db, b: Db, u: User, lesson: string)
    requires Grows(a, b) && OpenNow(site, a, u, lesson)
    ensures OpenNow(site, b, u, lesson)
  {
    CompletedGrow(a, b, u);
    UnlockedStaysUnlocked(site.content, lesson, CompletedLessons(a, u), CompletedLessons(b, u));
  }

  /** A lesson that a commit newly passes or waives was open by the set it read, so it is open now. */
  lemma NewlyCountedIsOpen(site: Site, db: Db, clock: nat, f: Flight, u: User, lesson: string)
    requires Behind(db, f) && !Counts(db, u, lesson) && Counts(CommitEffect(site, db, clock, f).db, u, lesson)
    ensures OpenNow(site, db, u, lesson)
  {
    if f.req.SubmitResult? || f.req.Waive? {
      assert f.req.user == u && f.req.lesson == lesson by {
        LessonWritesOneRow(site, db, clock, f, u, lesson);
      }
      UnlockedStaysUnlocked(site.content, lesson, CompletedRead(db, f), CompletedLessons(db, u));
    } else {
      OtherCommitsLeaveLessons(site, db, clock, f);
    }
  }

  lemma LessonWritesOneRow(site: Site, db: Db, clock: nat, f: Flight, u: User, lesson: string)
    requires Behind(db, f) && (f.req.SubmitResult? || f.req.Waive?)
    ensures (u, lesson) != (f.req.user, f.req.lesson)
            ==> Row(CommitEffect(site, db, clock, f).db, u, lesson) == Row(db, u, lesson)
    ensures CommitEffect(site, db, clock, f).db == db
         || (f.req.lesson in site.content.lessons && LessonUnlocked(site.content, f.req.lesson, CompletedRead(db, f)))
  {
  }

  /**
   Gating is sound although it is checked on a possibly stale set: in every reachable state each
   passed or waived lesson belongs to no unit, or to an owning unit that is not locked.
   */
  lemma {:induction false} GatingIsSound(site: Site, steps: seq<Step>, u: User, lesson: string)
    ensures var s := Run(site, START, steps); Counts(s.db, u, lesson) ==> OpenNow(site, s.db, u, lesson)
    decreases |steps|
  {
    if steps != [] {
      GatingIsSound(site, steps[..|steps| - 1], u, lesson);
      var s := Run(site, START, steps[..|steps| - 1]);
      var step := steps[|steps| - 1];
      if step.Commit? && step.id in s.flights {
        var effect := CommitEffect(site, s.db, s.clock, s.flights[step.id]);
        CommitGrows(site, s.db, s.clock, s.flights[step.id]);
        if Counts(effect.db, u, lesson) {
          if !Counts(s.db, u, lesson) {
            NewlyCountedIsOpen(site, s.db, s.clock, s.flights[step.id], u, lesson);
          }
          OpenStays(site, s.db, effect.db, u, lesson);
        }
      }
    }
  }

  /** The unit that gates the lesson is unfinished and requires something the learner has not completed. */
  ghost predicate Closed(site: Site, lesson: string, completed: set<string>)
    requires lesson in site.content.lessons
  {
    var units := site.content.units;
    exists k: nat ::
      && Gates(site.content, lesson, k) && !Finished(units[k], completed) && units[k].unlockType != "none"
      && exists r :: r in units[k].unlockRequires && Unmet(LevelOf(site, lesson), completed, r)
  }

  function LevelOf(site: Site, lesson: string): seq<Unit>
    requires lesson in site.content.lessons
  {
    UnitsOfLevel(site.content.units, site.content.lessons[lesson].level)
  }

  /**
   While it is, results and waives are refused and change nothing, whatever the request read, and
   however good the score.
   */
  lemma LockedOutWhileClosed(site: Site, s: System, id: nat)
    requires Coherent(s) && DistinctIds(site.content.units) && id in s.flights
    requires var req := s.flights[id].req;
             && (req.SubmitResult? || req.Waive?) && req.lesson in site.content.lessons
             && Closed(site, req.lesson, CompletedLessons(s.db, req.user))
    ensures CommitEffect(site, s.db, s.clock, s.flights[id]) == Effect(s.db, None, LockedOut)
    ensures Next(site, s, Commit(id)).db == s.db && Next(site, s, Commit(id)).log == s.log
  {
    var f := s.flights[id];
    LessonClosedIff(site.content, f.req.lesson, CompletedLessons(s.db, f.req.user));
    if LessonUnlocked(site.content, f.req.lesson, CompletedRead(s.db, f)) {
      UnlockedStaysUnlocked(site.content, f.req.lesson, CompletedRead(s.db, f), CompletedLessons(s.db, f.req.user));
    }
  }

  /** Every requirement of the unit is a completed lesson or a finished unit. */
  ghost predicate AllMet(site: Site, lesson: string, completed: set<string>, k: nat)
    requires lesson in site.content.lessons && k < |site.content.units|
  {
    forall r :: r in site.content.units[k].unlockRequires ==> !Unmet(LevelOf(site, lesson), completed, r)
  }

  lemma MetStays(site: Site, lesson: string, less: set<string>, more: set<string>, k: nat)
    requires lesson in site.content.lessons && k < |site.content.units|
    requires AllMet(site, lesson, less, k) && less <= more
    ensures AllMet(site, lesson, more, k)
  {
    forall r | r in site.content.units[k].unlockRequires ensures !Unmet(LevelOf(site, lesson), more, r) {
      assert !Unmet(LevelOf(site, lesson), less, r);
    }
  }

  lemma NewlyCountedIsMet(site: Site, db: Db, clock: nat, f: Flight, u: User, lesson: string, k: nat)
    requires Behind(db, f) && DistinctIds(site.content.units) && lesson in site.content.lessons
    requires Gates(site.content, lesson, k) && site.content.units[k].unlockType != "none"
    requires !Counts(db, u, lesson) && Counts(CommitEffect(site, db, clock, f).db, u, lesson)
    ensures AllMet(site, lesson, CompletedLessons(db, u), k)
  {
    if f.req.SubmitResult? || f.req.Waive? {
      LessonWritesOneRow(site, db, clock, f, u, lesson);
      var read := CompletedRead(db, f);
      assert f.req.user == u && f.req.lesson == lesson;
      LessonClosedIff(site.content, lesson, read);
      assert lesson !in CompletedLessons(db, u);
      assert lesson in site.content.units[k].lessons && lesson !in read;
      MetStays(site, lesson, read, CompletedLessons(db, u), k);
    } else {
      OtherCommitsLeaveLessons(site, db, clock, f);
    }
  }

  /**
   So in every reachable state a passed or waived lesson of a gated unit has all requirements of that
   unit met: nobody ever gets past a locked unit.
   */
  lemma {:induction false} RequirementsAreMet(site: Site, steps: seq<Step>, u: User, lesson: string, k: nat)
    requires DistinctIds(site.content.units) && lesson in site.content.lessons
    requires Gates(site.content, lesson, k) && site.content.units[k].unlockType != "none"
    ensures var s := Run(site, START, steps);
            Counts(s.db, u, lesson) ==> AllMet(site, lesson, CompletedLessons(s.db, u), k)
    decreases |steps|
  {
    if steps != [] {
      hide CommitEffect, Gates, AllMet, CompletedLessons;
      RequirementsAreMet(site, steps[..|steps| - 1], u, lesson, k);
      var s := Run(site, START, steps[..|steps| - 1]);
      var step := steps[|steps| - 1];
      if step.Commit? && step.id in s.flights {
        var effect := CommitEffect(site, s.db, s.clock, s.flights[step.id]);
        CommitGrows(site, s.db, s.clock, s.flights[step.id]);
        GatedUnit(site, lesson, k);
        if Counts(effect.db, u, lesson) {
          if !Counts(s.db, u, lesson) {
            NewlyCountedIsMet(site, s.db, s.clock, s.flights[step.id], u, lesson, k);
          }
          CompletedGrow(s.db, effect.db, u);
          MetStays(site, lesson, CompletedLessons(s.db, u), CompletedLessons(effect.db, u), k);
        }
      }
    }
  }

  lemma GatedUnit(site: Site, lesson: string, k: nat)
    requires lesson in site.content.lessons && Gates(site.content, lesson, k)
    ensures k < |site.content.units|
  {
  }

  // ----- The escape hatch -----

  /**
   A failing reply that offers to waive keeps its word: whatever commits meanwhile, a waive issued
   later is accepted, unless the lesson has been passed by then.
   */
  lemma OfferedWaiveIsAccepted(site: Site, s: System, id: nat, meanwhile: seq<Step>)
    requires Coherent(s) && id in s.flights && s.flights[id].req.SubmitResult?
    requires var reply := CommitEffect(site, s.db, s.clock, s.flights[id]).reply; reply.Failed? && reply.canWaive
    ensures var u, lesson := s.flights[id].req.user, s.flights[id].req.lesson;
            var t := Run(site, Next(site, s, Commit(id)), meanwhile);
            var waive := Flight(Waive(u, lesson), None, None, None, None, None);
            CommitEffect(site, t.db, t.clock, waive).reply
              == if t.db.completions[(u, lesson)].passed then Rejected else Served
  {
    var u, lesson := s.flights[id].req.user, s.flights[id].req.lesson;
    var failed := Next(site, s, Commit(id));
    var t := Run(site, failed, meanwhile);
    assert failed.db.completions[(u, lesson)].attempts >= WAIVE_AFTER_ATTEMPTS;
    assert Older(failed.db.completions[(u, lesson)], t.db.completions[(u, lesson)]);
    CompletedGrow(s.db, failed.db, u);
    CompletedGrow(failed.db, t.db, u);
    UnlockedStaysUnlocked(site.content, lesson, CompletedRead(s.db, s.flights[id]), CompletedLessons(t.db, u));
  }
}
