/**
 What each request replies and pays, in the numbers a learner sees: a request that reads and writes
 with no other in between, and over whole runs where the history decides.
 */
module RequestEffects {
  import opened Options
  import opened Gating
  import opened ProgressTables
  import opened ProgressProtocol
  import opened ProgressHistory
  import opened ProgressLedger
  import opened ProgressLessons

  function Alone(site: Site, db: Db, clock: nat, req: Request): Effect {
    CommitEffect(site, db, clock, Flight(req, None, None, None, None, None))
  }

  /** What a request pays its learner. */
  function Pays(site: Site, db: Db, clock: nat, req: Request): int {
    Xp(Alone(site, db, clock, req).db, req.user) - Xp(db, req.user)
  }

  ghost predicate IsOpen(site: Site, db: Db, u: User, lesson: string) {
    lesson in site.content.lessons && LessonUnlocked(site.content, lesson, CompletedLessons(db, u))
  }

  // ----- Lessons -----

  /** A result passes exactly from the lesson's threshold on; the first pass pays 10, all else nothing. */
  lemma ResultPassesIff(site: Site, db: Db, clock: nat, u: User, lesson: string, score: real)
    requires IsOpen(site, db, u, lesson)
    ensures var effect := Alone(site, db, clock, SubmitResult(u, lesson, score));
            var before := PassedBy(db, u, lesson);
            && (effect.reply.Passed? <==> score >= site.content.lessons[lesson].passThreshold)
            && (effect.reply.Passed? ==> effect.reply.firstPass == !before && PassedBy(effect.db, u, lesson))
            && (!effect.reply.Passed? ==> effect.reply.Failed? && PassedBy(effect.db, u, lesson) == before)
            && Pays(site, db, clock, SubmitResult(u, lesson, score))
               == if effect.reply.Passed? && !before then 10 else 0
  {
  }

  predicate PassedBy(db: Db, u: User, lesson: string) {
    (u, lesson) in db.completions && db.completions[(u, lesson)].passed
  }

  /** A lesson nobody published is not found, whatever is asked about it. */
  lemma UnknownLessonIsNotFound(site: Site, db: Db, clock: nat, u: User, lesson: string, score: real)
    requires lesson !in site.content.lessons
    ensures Alone(site, db, clock, SubmitResult(u, lesson, score)) == Effect(db, None, NotFound)
    ensures Alone(site, db, clock, Waive(u, lesson)) == Effect(db, None, NotFound)
  {
  }

  /**
   In every state of every run the reply to a failing result counts the failing results so far, this
   one included, and offers a waive exactly from the second on, while the lesson is neither passed nor
   waived.
   */
  lemma FailingReplyOffersIff(site: Site, steps: seq<Step>, u: User, lesson: string, score: real)
    requires IsOpen(site, Run(site, START, steps).db, u, lesson)
    requires score < site.content.lessons[lesson].passThreshold
    ensures var s := Run(site, START, steps);
            var t := LessonTallyOf(s.log, u, lesson);
            Alone(site, s.db, s.clock, SubmitResult(u, lesson, score)).reply
            == Failed(t.fails + 1, t.fails + 1 >= 2 && !t.passed && !t.waived)
  {
    LessonBooksAreKept(site, steps, u, lesson);
    hide Run, LessonTallyOf;
  }

  /**
   And a waive is accepted exactly when the history has two failing results of the lesson or more and
   no pass; a lesson that was waived had two failing results or more.
   */
  lemma WaiveIsAcceptedIff(site: Site, steps: seq<Step>, u: User, lesson: string)
    requires IsOpen(site, Run(site, START, steps).db, u, lesson)
    ensures var s := Run(site, START, steps);
            var t := LessonTallyOf(s.log, u, lesson);
            var effect := Alone(site, s.db, s.clock, Waive(u, lesson));
            && (t.waived ==> t.fails >= 2)
            && (t.fails >= 2 && !t.passed <==> effect.reply == Served)
            && (effect.reply != Served ==> effect == Effect(s.db, None, Rejected))
            && (effect.reply == Served ==> lesson in CompletedLessons(effect.db, u))
            && Pays(site, s.db, s.clock, Waive(u, lesson)) == 0
  {
    LessonBooksAreKept(site, steps, u, lesson);
    WaiveAlone(site, Run(site, START, steps).db, Run(site, START, steps).clock, u, lesson);
    hide Run, LessonTallyOf;
  }

  lemma WaiveAlone(site: Site, db: Db, clock: nat, u: User, lesson: string)
    requires IsOpen(site, db, u, lesson)
    ensures var effect, row := Alone(site, db, clock, Waive(u, lesson)), Row(db, u, lesson);
            var allowed := row.Some? && !row.value.passed && (row.value.waived || row.value.attempts >= 2);
            && (allowed ==> effect.reply == Served && lesson in CompletedLessons(effect.db, u))
            && (!allowed ==> effect == Effect(db, None, Rejected))
            && Pays(site, db, clock, Waive(u, lesson)) == 0
  {
    var effect := Alone(site, db, clock, Waive(u, lesson));
    if effect.reply == Served { assert effect.db.completions[(u, lesson)].waived; }
  }

  /**
   The row keeps the latest score, but a pass after the first changes nothing; only failing results
   count as attempts, and no other row changes.
   */
  lemma ResultIsRecorded(site: Site, db: Db, clock: nat, u: User, lesson: string, score: real)
    requires IsOpen(site, db, u, lesson)
    ensures var rows, key := Alone(site, db, clock, SubmitResult(u, lesson, score)).db.completions, (u, lesson);
            var passes := score >= site.content.lessons[lesson].passThreshold;
            var tries := if key in db.completions then db.completions[key].attempts else 0;
            && rows.Keys == db.completions.Keys + {key}
            && (forall k :: k in db.completions && k != key ==> rows[k] == db.completions[k])
            && rows[key].score == (if passes && PassedBy(db, u, lesson) then db.completions[key].score else score)
            && rows[key].attempts == (if passes then tries else tries + 1)
            && rows[key].waived == (key in db.completions && db.completions[key].waived)
  {
  }

  // ----- Sets, reviews and drills -----

  /** A comprehension set pays 15, once: for a submission that passes within its time. */
  lemma SetPaysIff(site: Site, db: Db, clock: nat, u: User, setId: string, level: string, passed: bool, overTime: bool)
    ensures var req := SubmitSet(u, setId, level, passed, overTime);
            var effect := Alone(site, db, clock, req);
            && Pays(site, db, clock, req) == (if passed && !overTime && (u, setId) !in db.setPasses then 15 else 0)
            && ((u, setId) in effect.db.setPasses <==> (u, setId) in db.setPasses || (passed && !overTime))
            && (!passed || overTime ==> effect.db == db)
  {
  }

  /** Nothing has been paid to the learner today for this kind of activity. */
  predicate Unpaid(db: Db, u: User, day: nat, source: Source) {
    LedgerKey(u, day, source) !in db.ledger
  }

  /** A known card's review pays 10 the first time on a day, and counts as activity every time. */
  lemma ReviewPaysIff(site: Site, db: Db, clock: nat, u: User, known: bool)
    ensures var req := ReviewCard(u, known);
            var effect := Alone(site, db, clock, req);
            && Pays(site, db, clock, req) == (if known && Unpaid(db, u, clock, ReviewXp) then 10 else 0)
            && effect.event == (if known then Some(Reviewed(u, clock)) else None)
            && (!known ==> effect.db == db && effect.reply == NotFound)
  {
  }

  /** So does a drill that was delivered; one over the budget changes nothing. */
  lemma DrillPaysIff(site: Site, db: Db, clock: nat, u: User, level: string, overBudget: bool)
    ensures var req := Drill(u, level, overBudget);
            var effect := Alone(site, db, clock, req);
            && Pays(site, db, clock, req) == (if !overBudget && Unpaid(db, u, clock, DrillXp) then 10 else 0)
            && effect.event == (if overBudget then None else Some(Drilled(u, clock)))
            && (overBudget ==> effect.db == db)
  {
  }

  /** Finishing an exam pays 25 to the one request that finishes it. */
  lemma FinishPaysIff(site: Site, db: Db, clock: nat, u: User, id: nat)
    ensures var req := FinishExam(u, id);
            var effect := Alone(site, db, clock, req);
            Pays(site, db, clock, req)
            == if && id in db.exams && !db.exams[id].finished
                  && id in effect.db.exams && effect.db.exams[id].finished
               then 25 else 0
  {
  }

  ghost predicate IsUnderWay(db: Db, u: User, blueprint: string, id: nat) {
    id in db.exams && db.exams[id].user == u && db.exams[id].blueprint == blueprint && !db.exams[id].finished
  }

  /** Starting an exam opens an attempt with nothing in it, unless one is under way; two make it fail. */
  lemma StartOpensIff(site: Site, db: Db, clock: nat, u: User, blueprint: string, newId: nat)
    requires blueprint in site.blueprints && newId !in db.exams
    ensures var effect := Alone(site, db, clock, StartExam(u, blueprint, newId));
            var level := site.blueprints[blueprint].level;
            var begun := db.exams[newId := Attempt(u, blueprint, level, false, map[])];
            && effect.db == (if exists id: nat :: IsUnderWay(db, u, blueprint, id) then db
                             else db.(exams := begun))
            && effect.event == None && effect.reply in {Served, ServerError}
            && (effect.reply == ServerError <==>
                  exists a: nat, b: nat :: a != b && IsUnderWay(db, u, blueprint, a) && IsUnderWay(db, u, blueprint, b))
  {
    var found := InProgress(db, u, blueprint);
    assert forall id: nat :: id in found <==> IsUnderWay(db, u, blueprint, id);
    MoreThanOneIff(found);
    hide IsUnderWay, InProgress;
  }

  lemma MoreThanOneIff(found: set<nat>)
    ensures |found| > 1 <==> exists a: nat, b: nat :: a != b && a in found && b in found
  {
    if found != {} {
      var a: nat :| a in found;
      var rest := found - {a};
      if rest != {} {
        var b: nat :| b in rest;
        assert |found| == |rest| + 1;
        assert a != b && b in found;
      } else {
        assert found == {a};
        assert |found| == 1;
      }
    }
  }

  // ----- Levels -----

  /** The level a request is about. */
  function LevelOf(site: Site, db: Db, req: Request): string {
    match req
    case SubmitResult(_, lesson, _) => if lesson in site.content.lessons then site.content.lessons[lesson].level else ""
    case Waive(_, lesson) => if lesson in site.content.lessons then site.content.lessons[lesson].level else ""
    case SubmitSet(_, _, level, _, _) => level
    case FinishExam(_, id) => if id in db.exams then db.exams[id].level else ""
    case ReviewCard(_, _) => "a1"
    case Drill(_, level, _) => level
    case StartExam(_, _, _) => ""
    case RecordSection(_, _, _, _) => ""
  }

  /** The learner is at the higher of the two levels, or at this one as the first; everyone else stays. */
  ghost predicate Raised(before: Db, after: Db, u: User, level: string) {
    && after.progress.Keys == before.progress.Keys + {u}
    && after.progress[u].level
       == (if u in before.progress && LevelRank(level) <= LevelRank(before.progress[u].level)
           then before.progress[u].level else level)
    && forall v :: v in before.progress && v != u ==> after.progress[v] == before.progress[v]
  }

  lemma ActivityRaises(before: Db, db: Db, u: User, today: nat, xp: nat, source: Source, oncePerDay: bool,
                       level: string)
    requires db.progress == before.progress
    ensures Raised(before, AfterActivity(db, u, ProgressOf(before, u), today, xp, source, oncePerDay, level), u, level)
  {
    hide LevelRank, Award;
  }

  /** What a request does to the levels: nothing, or what its activity does. */
  ghost predicate LevelsFollow(site: Site, db: Db, effect: Effect, req: Request) {
    if effect.event.None? then effect.db.progress == db.progress
    else if effect.event.value.FailedLesson? then
      forall v :: v in db.progress ==> v in effect.db.progress && effect.db.progress[v] == db.progress[v]
    else Raised(db, effect.db, req.user, LevelOf(site, db, req))
  }

  lemma ResultRaisesLevel(site: Site, db: Db, clock: nat, req: Request)
    requires req.SubmitResult?
    ensures LevelsFollow(site, db, Alone(site, db, clock, req), req)
  {
    var SubmitResult(u, lesson, score) := req;
    var xp := if FirstPass(db, u, lesson) then XP_PER_LESSON else 0;
    ActivityRaises(db, MarkPassed(db, u, lesson, score), u, clock, xp, LessonXp, false, LevelOf(site, db, req));
    FailingStays(db, u, lesson, LevelOf(site, db, req), score);
    hide AfterActivity, Raised, LessonUnlocked, FailLesson, MarkPassed, FirstPass, CanWaive, LevelRank;
  }

  lemma FailingStays(db: Db, u: User, lesson: string, level: string, score: real)
    ensures var after := FailLesson(db, u, lesson, level, score);
            && (u, lesson) in after.completions
            && forall v :: v in db.progress ==> v in after.progress && after.progress[v] == db.progress[v]
  {
  }

  lemma WaiveRaisesLevel(site: Site, db: Db, clock: nat, req: Request)
    requires req.Waive?
    ensures LevelsFollow(site, db, Alone(site, db, clock, req), req)
  {
    var key := (req.user, req.lesson);
    if key in db.completions {
      var waived := db.completions[key := db.completions[key].(waived := true)];
      ActivityRaises(db, db.(completions := waived), req.user, clock, 0, LessonXp, false, LevelOf(site, db, req));
    }
    hide AfterActivity, Raised, LessonUnlocked;
  }

  lemma SetRaisesLevel(site: Site, db: Db, clock: nat, req: Request)
    requires req.SubmitSet?
    ensures LevelsFollow(site, db, Alone(site, db, clock, req), req)
  {
    var claimed := db.(setPasses := db.setPasses + {(req.user, req.setId)});
    ActivityRaises(db, claimed, req.user, clock, COMPREHENSION_XP, ComprehensionXp, false, req.level);
    hide AfterActivity, Raised;
  }

  lemma ExamRaisesLevel(site: Site, db: Db, clock: nat, req: Request)
    requires req.FinishExam?
    ensures LevelsFollow(site, db, Alone(site, db, clock, req), req)
  {
    var id := req.attempt;
    if id in db.exams {
      var finished := db.(exams := db.exams[id := db.exams[id].(finished := true)]);
      ActivityRaises(db, finished, req.user, clock, EXAM_XP, ExamXp, false, db.exams[id].level);
    }
    hide AfterActivity, Raised;
  }

  /** Every activity but a failing result raises its learner to its own level. */
  lemma ActivityRaisesLevel(site: Site, db: Db, clock: nat, req: Request)
    ensures LevelsFollow(site, db, Alone(site, db, clock, req), req)
  {
    match req
    case SubmitResult(_, _, _) => ResultRaisesLevel(site, db, clock, req);
    case Waive(_, _) => WaiveRaisesLevel(site, db, clock, req);
    case SubmitSet(_, _, _, _, _) => SetRaisesLevel(site, db, clock, req);
    case FinishExam(_, _) => ExamRaisesLevel(site, db, clock, req);
    case ReviewCard(_, _) =>
      ActivityRaises(db, db, req.user, clock, REVIEW_XP, ReviewXp, true, "a1");
      hide AfterActivity, Raised;
    case Drill(_, level, _) =>
      ActivityRaises(db, db, req.user, clock, DRILL_XP, DrillXp, true, level);
      hide AfterActivity, Raised;
    case StartExam(_, _, _) =>
      hide AfterActivity, Raised;
    case RecordSection(_, _, _, _) =>
      hide AfterActivity, Raised;
  }

  /** Levels rank a1, a2, b1, b2, c1, c2, and anything else below them all. */
  lemma LevelsRank(other: string)
    requires other !in {"a1", "a2", "b1", "b2", "c1", "c2"}
    ensures LevelRank(other) < LevelRank("a1") < LevelRank("a2") < LevelRank("b1") < LevelRank("b2")
              < LevelRank("c1") < LevelRank("c2")
  {
    var levels := LEVEL_ORDER;
    RankAt(levels, "a1", 0);
    RankAt(levels, "a2", 1);
    RankAt(levels, "b1", 2);
    RankAt(levels, "b2", 3);
    RankAt(levels, "c1", 4);
    RankAt(levels, "c2", 5);
    NoRank(levels, other);
  }

  lemma {:induction false} RankAt(levels: seq<string>, level: string, k: nat)
    requires k < |levels| && levels[k] == level && forall i :: 0 <= i < k ==> levels[i] != level
    ensures IndexIn(levels, level) == k
  {
    if k > 0 { RankAt(levels[1..], level, k - 1); }
  }

  lemma {:induction false} NoRank(levels: seq<string>, level: string)
    requires level !in levels
    ensures IndexIn(levels, level) == -1
  {
    if levels != [] { NoRank(levels[1..], level); }
  }
}
