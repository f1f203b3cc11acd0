/**
 Requests in flight. A request reads rows, at different times and possibly before other requests
 commit, and then commits all its writes at once over the tables as they are by then. A read that
 was not made earlier is made at the commit. Any interleaving of such steps is a run.
 */
module ProgressProtocol {
  import opened Options
  import opened Streak
  import opened Gating
  import opened ProgressTables

  datatype Request =
    | SubmitResult(user: User, lesson: string, score: real)
    | Waive(user: User, lesson: string)
    | SubmitSet(user: User, setId: string, level: string, passed: bool, overTime: bool)
    | StartExam(user: User, blueprint: string, newId: nat)
    | RecordSection(user: User, attempt: nat, skill: string, value: real)
    | FinishExam(user: User, attempt: nat)
    | ReviewCard(user: User, known: bool)
    | Drill(user: User, level: string, overBudget: bool)

  datatype Blueprint = Blueprint(level: string, required: seq<string>)

  /** The synced content, fixed during a run. */
  datatype Site = Site(content: Content, blueprints: map<string, Blueprint>)

  /** A request and what it has read so far. */
  datatype Flight = Flight(
    req: Request,
    completed: Option<set<string>>,
    row: Option<Option<Completion>>,
    progress: Option<(nat, Option<Progress>)>,
    attempt: Option<Option<Attempt>>,
    open: Option<set<nat>>)

  datatype Event =
    | FailedLesson(user: User, lesson: string)
    | PassedLesson(user: User, lesson: string, day: nat, first: bool)
    | WaivedLesson(user: User, lesson: string, day: nat)
    | PassedSet(user: User, setId: string, day: nat)
    | FinishedExam(user: User, attempt: nat, day: nat)
    | Reviewed(user: User, day: nat)
    | Drilled(user: User, day: nat)

  datatype Reply =
    | NotFound
    | LockedOut
    | Rejected
    | Failed(attempts: nat, canWaive: bool)
    | Passed(firstPass: bool)
    | Served
    | ServerError

  /** What a commit does: the tables after it, the event it leaves in the history, the reply. */
  datatype Effect = Effect(db: Db, event: Option<Event>, reply: Reply)

  /** The whole system: tables, today's date, requests in flight, and the history of what was committed. */
  datatype System = System(db: Db, clock: nat, flights: map<nat, Flight>, log: seq<Event>)

  datatype Step =
    | Arrive(id: nat, req: Request)
    | ReadCompleted(id: nat)
    | ReadRow(id: nat)
    | ReadProgress(id: nat)
    | ReadAttempt(id: nat)
    | Commit(id: nat)
    | NextDay

  // ----- Reads -----

  function CompletedLessons(db: Db, u: User): set<string> {
    set k | k in db.completions && k.0 == u && (db.completions[k].passed || db.completions[k].waived) :: k.1
  }

  function ProgressOf(db: Db, u: User): Option<Progress> {
    if u in db.progress then Some(db.progress[u]) else None
  }

  function LessonOf(req: Request): string {
    if req.SubmitResult? || req.Waive? then req.lesson else ""
  }

  function AttemptOf(db: Db, req: Request): Option<Attempt> {
    if (req.FinishExam? || req.RecordSection?) && req.attempt in db.exams then Some(db.exams[req.attempt]) else None
  }

  /** The unfinished attempts that starting an exam looks for. */
  function OpenAttempts(db: Db, req: Request): set<nat> {
    if req.StartExam? then InProgress(db, req.user, req.blueprint) else {}
  }

  function CompletedRead(db: Db, f: Flight): set<string> {
    if f.completed.Some? then f.completed.value else CompletedLessons(db, f.req.user)
  }

  function RowRead(db: Db, f: Flight): Option<Completion> {
    if f.row.Some? then f.row.value else Row(db, f.req.user, LessonOf(f.req))
  }

  function ProgressRead(db: Db, f: Flight): Option<Progress> {
    if f.progress.Some? then f.progress.value.1 else ProgressOf(db, f.req.user)
  }

  /** The date a request works with is taken just before it reads the progress row. */
  function Today(clock: nat, f: Flight): nat {
    if f.progress.Some? then f.progress.value.0 else clock
  }

  function AttemptRead(db: Db, f: Flight): Option<Attempt> {
    if f.attempt.Some? then f.attempt.value else AttemptOf(db, f.req)
  }

  function OpenRead(db: Db, f: Flight): set<nat> {
    if f.open.Some? then f.open.value else OpenAttempts(db, f.req)
  }

  // ----- How tables grow, and reads that lag behind -----

  ghost predicate Older(a: Completion, b: Completion) {
    (a.passed ==> b.passed) && (a.waived ==> b.waived) && a.attempts <= b.attempts
  }

  /** What no committed request ever takes back. */
  ghost predicate Grows(a: Db, b: Db) {
    && a.progress.Keys <= b.progress.Keys
    && (forall k :: k in a.completions ==> k in b.completions && Older(a.completions[k], b.completions[k]))
    && a.ledger.Keys <= b.ledger.Keys
    && a.setPasses <= b.setPasses
    && (forall id :: id in a.exams ==>
          id in b.exams && b.exams[id].user == a.exams[id].user && b.exams[id].blueprint == a.exams[id].blueprint
          && b.exams[id].level == a.exams[id].level && (a.exams[id].finished ==> b.exams[id].finished)
          && a.exams[id].sections.Keys <= b.exams[id].sections.Keys)
  }

  ghost predicate Behind(db: Db, f: Flight) {
    var u := f.req.user;
    && (f.completed.Some? ==> f.completed.value <= CompletedLessons(db, u))
    && (f.row.Some? && f.row.value.Some? ==>
          (u, LessonOf(f.req)) in db.completions && Older(f.row.value.value, db.completions[(u, LessonOf(f.req))]))
    && (f.progress.Some? && f.progress.value.1.Some? ==> u in db.progress)
    && (f.attempt.Some? && f.attempt.value.Some? ==>
          AttemptOf(db, f.req).Some?
          && AttemptOf(db, f.req).value.user == f.attempt.value.value.user
          && AttemptOf(db, f.req).value.blueprint == f.attempt.value.value.blueprint
          && AttemptOf(db, f.req).value.level == f.attempt.value.value.level
          && f.attempt.value.value.sections.Keys <= AttemptOf(db, f.req).value.sections.Keys)
  }

  lemma CompletedGrow(a: Db, b: Db, u: User)
    requires Grows(a, b)
    ensures CompletedLessons(a, u) <= CompletedLessons(b, u)
  {
    forall l | l in CompletedLessons(a, u) ensures l in CompletedLessons(b, u) {
      assert (u, l) in b.completions;
    }
  }

  lemma BehindStays(a: Db, b: Db, f: Flight)
    requires Grows(a, b) && Behind(a, f)
    ensures Behind(b, f)
  {
    CompletedGrow(a, b, f.req.user);
  }

  // ----- Commits -----

  function CommitResult(site: Site, db: Db, clock: nat, f: Flight): Effect
    requires Behind(db, f) && f.req.SubmitResult?
  {
    var SubmitResult(u, lesson, score) := f.req;
    if lesson !in site.content.lessons then Effect(db, None, NotFound)
    else if !LessonUnlocked(site.content, lesson, CompletedRead(db, f)) then Effect(db, None, LockedOut)
    else
      var info := site.content.lessons[lesson];
      if score < info.passThreshold then
        var after := FailLesson(db, u, lesson, info.level, score);
        var row := after.completions[(u, lesson)];
        Effect(after, Some(FailedLesson(u, lesson)), Failed(row.attempts, CanWaive(row)))
      else
        var first := FirstPass(db, u, lesson);
        Effect(PassLesson(db, u, lesson, info.level, score, ProgressRead(db, f), Today(clock, f)),
               Some(PassedLesson(u, lesson, Today(clock, f), first)), Passed(first))
  }

  function CommitWaive(site: Site, db: Db, clock: nat, f: Flight): Effect
    requires Behind(db, f) && f.req.Waive?
  {
    var Waive(u, lesson) := f.req;
    if lesson !in site.content.lessons then Effect(db, None, NotFound)
    else if !LessonUnlocked(site.content, lesson, CompletedRead(db, f)) then Effect(db, None, LockedOut)
    else if !WaiveAllowed(RowRead(db, f)) then Effect(db, None, Rejected)
    else
      Effect(WaiveLesson(db, u, lesson, site.content.lessons[lesson].level, ProgressRead(db, f), Today(clock, f)),
             Some(WaivedLesson(u, lesson, Today(clock, f))), Served)
  }

  function CommitSet(db: Db, clock: nat, f: Flight): Effect
    requires Behind(db, f) && f.req.SubmitSet?
  {
    var SubmitSet(u, setId, level, passed, overTime) := f.req;
    if !passed || overTime then Effect(db, None, Served)
    else
      var first := (u, setId) !in db.setPasses;
      Effect(ClaimSet(db, u, setId, level, ProgressRead(db, f), Today(clock, f)),
             if first then Some(PassedSet(u, setId, Today(clock, f))) else None, Passed(first))
  }

  function CommitStart(site: Site, db: Db, f: Flight): Effect
    requires f.req.StartExam?
  {
    var StartExam(u, blueprint, newId) := f.req;
    if blueprint !in site.blueprints then Effect(db, None, NotFound)
    else if |OpenRead(db, f)| > 1 then Effect(db, None, ServerError)
    else if OpenRead(db, f) != {} then Effect(db, None, Served)
    else if newId in db.exams then Effect(db, None, Rejected)
    else
      Effect(db.(exams := db.exams[newId := Attempt(u, blueprint, site.blueprints[blueprint].level, false, map[])]),
             None, Served)
  }

  function CommitSection(db: Db, f: Flight): Effect
    requires Behind(db, f) && f.req.RecordSection?
  {
    var attempt := AttemptRead(db, f);
    if attempt.None? || attempt.value.user != f.req.user then Effect(db, None, NotFound)
    else if attempt.value.finished then Effect(db, None, Rejected)
    else Effect(SetSection(db, f.req.attempt, f.req.skill, f.req.value), None, Served)
  }

  function RequiredSkills(site: Site, blueprint: string): seq<string> {
    if blueprint in site.blueprints then site.blueprints[blueprint].required else []
  }

  function CommitFinish(site: Site, db: Db, clock: nat, f: Flight): Effect
    requires Behind(db, f) && f.req.FinishExam?
  {
    var FinishExam(u, id) := f.req;
    var attempt := AttemptRead(db, f);
    if attempt.None? || attempt.value.user != u then Effect(db, None, NotFound)
    else if attempt.value.finished then Effect(db, None, Served)
    else if exists s :: s in RequiredSkills(site, attempt.value.blueprint) && s !in attempt.value.sections then
      Effect(db, None, Rejected)
    else
      Effect(FinishAttempt(db, u, id, attempt.value.level, ProgressRead(db, f), Today(clock, f)),
             if db.exams[id].finished then None else Some(FinishedExam(u, id, Today(clock, f))), Served)
  }

  function CommitReview(db: Db, clock: nat, f: Flight): Effect
    requires Behind(db, f) && f.req.ReviewCard?
  {
    if !f.req.known then Effect(db, None, NotFound)
    else
      Effect(AfterActivity(db, f.req.user, ProgressRead(db, f), Today(clock, f), REVIEW_XP, ReviewXp, true, "a1"),
             Some(Reviewed(f.req.user, Today(clock, f))), Served)
  }

  function CommitDrill(db: Db, clock: nat, f: Flight): Effect
    requires Behind(db, f) && f.req.Drill?
  {
    if f.req.overBudget then Effect(db, None, Served)
    else
      Effect(AfterActivity(db, f.req.user, ProgressRead(db, f), Today(clock, f), DRILL_XP, DrillXp, true, f.req.level),
             Some(Drilled(f.req.user, Today(clock, f))), Served)
  }

  function CommitEffect(site: Site, db: Db, clock: nat, f: Flight): Effect
    requires Behind(db, f)
  {
    match f.req
    case SubmitResult(_, _, _) => CommitResult(site, db, clock, f)
    case Waive(_, _) => CommitWaive(site, db, clock, f)
    case SubmitSet(_, _, _, _, _) => CommitSet(db, clock, f)
    case StartExam(_, _, _) => CommitStart(site, db, f)
    case RecordSection(_, _, _, _) => CommitSection(db, f)
    case FinishExam(_, _) => CommitFinish(site, db, clock, f)
    case ReviewCard(_, _) => CommitReview(db, clock, f)
    case Drill(_, _, _) => CommitDrill(db, clock, f)
  }

  /** An activity touches only the progress row and the ledger. */
  lemma ActivityFrame(db: Db, u: User, read: Option<Progress>, today: nat, xp: nat, source: Source, oncePerDay: bool,
                      level: string)
    requires read.Some? ==> u in db.progress
    ensures var after := AfterActivity(db, u, read, today, xp, source, oncePerDay, level);
            && after.completions == db.completions && after.setPasses == db.setPasses && after.exams == db.exams
            && after.progress.Keys == db.progress.Keys + {u}
            && db.ledger.Keys <= after.ledger.Keys
            && Grows(db, after)
  {
  }

  lemma GrowthChains(a: Db, b: Db, c: Db)
    requires Grows(a, b) && Grows(b, c)
    ensures Grows(a, c)
  {
    forall k | k in a.completions ensures k in c.completions && Older(a.completions[k], c.completions[k]) {
      assert k in b.completions;
    }
    forall id | id in a.exams ensures id in c.exams {
      assert id in b.exams;
    }
  }

  lemma CompletionWriteGrows(db: Db, key: (User, string), c: Completion)
    requires key in db.completions ==> Older(db.completions[key], c)
    ensures Grows(db, db.(completions := db.completions[key := c]))
  {
  }

  lemma PassGrows(db: Db, u: User, lesson: string, level: string, score: real, read: Option<Progress>, today: nat)
    requires read.Some? ==> u in db.progress
    ensures Grows(db, PassLesson(db, u, lesson, level, score, read, today))
  {
    var marked := MarkPassed(db, u, lesson, score);
    if marked != db {
      CompletionWriteGrows(db, (u, lesson), marked.completions[(u, lesson)]);
    }
    var xp := if FirstPass(db, u, lesson) then XP_PER_LESSON else 0;
    ActivityFrame(marked, u, read, today, xp, LessonXp, false, level);
    GrowthChains(db, marked, PassLesson(db, u, lesson, level, score, read, today));
  }

  lemma WaiveGrows(db: Db, u: User, lesson: string, level: string, read: Option<Progress>, today: nat)
    requires read.Some? ==> u in db.progress
    requires (u, lesson) in db.completions
    ensures Grows(db, WaiveLesson(db, u, lesson, level, read, today))
  {
    var c := db.completions[(u, lesson)].(waived := true);
    var waived := db.(completions := db.completions[(u, lesson) := c]);
    CompletionWriteGrows(db, (u, lesson), c);
    ActivityFrame(waived, u, read, today, 0, LessonXp, false, level);
    GrowthChains(db, waived, WaiveLesson(db, u, lesson, level, read, today));
  }

  lemma ClaimGrows(db: Db, u: User, setId: string, level: string, read: Option<Progress>, today: nat)
    requires read.Some? ==> u in db.progress
    ensures Grows(db, ClaimSet(db, u, setId, level, read, today))
  {
    ActivityFrame(db.(setPasses := db.setPasses + {(u, setId)}), u, read, today, COMPREHENSION_XP, ComprehensionXp,
                  false, level);
  }

  lemma ExamWriteGrows(db: Db, id: nat, attempt: Attempt)
    requires id in db.exams ==>
               var before := db.exams[id];
               before.user == attempt.user && before.blueprint == attempt.blueprint && before.level == attempt.level
               && (before.finished ==> attempt.finished) && before.sections.Keys <= attempt.sections.Keys
    ensures Grows(db, db.(exams := db.exams[id := attempt]))
  {
  }

  lemma FinishGrows(db: Db, u: User, id: nat, level: string, read: Option<Progress>, today: nat)
    requires read.Some? ==> u in db.progress
    ensures Grows(db, FinishAttempt(db, u, id, level, read, today))
  {
    if id in db.exams && !db.exams[id].finished {
      var flipped := db.(exams := db.exams[id := db.exams[id].(finished := true)]);
      ExamWriteGrows(db, id, db.exams[id].(finished := true));
      ActivityFrame(flipped, u, read, today, EXAM_XP, ExamXp, false, level);
      GrowthChains(db, flipped, FinishAttempt(db, u, id, level, read, today));
    }
  }

  lemma FailGrows(db: Db, u: User, lesson: string, level: string, score: real)
    ensures Grows(db, FailLesson(db, u, lesson, level, score))
  {
    var c := BumpAttempts(Row(db, u, lesson), score);
    CompletionWriteGrows(db, (u, lesson), c);
    GrowthChains(db, db.(completions := db.completions[(u, lesson) := c]), FailLesson(db, u, lesson, level, score));
  }

  lemma ResultCommitGrows(site: Site, db: Db, clock: nat, f: Flight)
    requires Behind(db, f) && f.req.SubmitResult?
    ensures Grows(db, CommitResult(site, db, clock, f).db)
  {
    var SubmitResult(u, lesson, score) := f.req;
    if lesson in site.content.lessons && LessonUnlocked(site.content, lesson, CompletedRead(db, f)) {
      var info := site.content.lessons[lesson];
      if score < info.passThreshold {
        FailGrows(db, u, lesson, info.level, score);
      } else {
        PassGrows(db, u, lesson, info.level, score, ProgressRead(db, f), Today(clock, f));
      }
    }
  }

  lemma WaiveCommitGrows(site: Site, db: Db, clock: nat, f: Flight)
    requires Behind(db, f) && f.req.Waive?
    ensures Grows(db, CommitWaive(site, db, clock, f).db)
  {
    var Waive(u, lesson) := f.req;
    if CommitWaive(site, db, clock, f).reply == Served {
      WaiveGrows(db, u, lesson, site.content.lessons[lesson].level, ProgressRead(db, f), Today(clock, f));
    }
  }

  lemma FinishCommitGrows(site: Site, db: Db, clock: nat, f: Flight)
    requires Behind(db, f) && f.req.FinishExam?
    ensures Grows(db, CommitFinish(site, db, clock, f).db)
  {
    if AttemptRead(db, f).Some? {
      FinishGrows(db, f.req.user, f.req.attempt, AttemptRead(db, f).value.level, ProgressRead(db, f), Today(clock, f));
    }
  }

  lemma StartCommitGrows(site: Site, db: Db, f: Flight)
    requires f.req.StartExam?
    ensures Grows(db, CommitStart(site, db, f).db)
  {
    var StartExam(u, blueprint, newId) := f.req;
    if blueprint in site.blueprints && newId !in db.exams {
      ExamWriteGrows(db, newId, Attempt(u, blueprint, site.blueprints[blueprint].level, false, map[]));
    }
  }

  lemma SectionCommitGrows(db: Db, f: Flight)
    requires Behind(db, f) && f.req.RecordSection?
    ensures Grows(db, CommitSection(db, f).db)
  {
    var id := f.req.attempt;
    if id in db.exams {
      ExamWriteGrows(db, id, db.exams[id].(sections := db.exams[id].sections[f.req.skill := f.req.value]));
    }
  }

  lemma ActivityCommitGrows(db: Db, clock: nat, f: Flight)
    requires Behind(db, f)
    ensures f.req.SubmitSet? ==> Grows(db, CommitSet(db, clock, f).db)
    ensures f.req.ReviewCard? ==> Grows(db, CommitReview(db, clock, f).db)
    ensures f.req.Drill? ==> Grows(db, CommitDrill(db, clock, f).db)
  {
    var read, today, u := ProgressRead(db, f), Today(clock, f), f.req.user;
    if f.req.SubmitSet? {
      ClaimGrows(db, u, f.req.setId, f.req.level, read, today);
    } else if f.req.ReviewCard? {
      ActivityFrame(db, u, read, today, REVIEW_XP, ReviewXp, true, "a1");
    } else if f.req.Drill? {
      ActivityFrame(db, u, read, today, DRILL_XP, DrillXp, true, f.req.level);
    }
  }

  lemma CommitGrows(site: Site, db: Db, clock: nat, f: Flight)
    requires Behind(db, f)
    ensures Grows(db, CommitEffect(site, db, clock, f).db)
  {
    if f.req.SubmitResult? {
      ResultCommitGrows(site, db, clock, f);
    } else if f.req.Waive? {
      WaiveCommitGrows(site, db, clock, f);
    } else if f.req.StartExam? {
      StartCommitGrows(site, db, f);
    } else if f.req.RecordSection? {
      SectionCommitGrows(db, f);
    } else if f.req.FinishExam? {
      FinishCommitGrows(site, db, clock, f);
    } else {
      ActivityCommitGrows(db, clock, f);
    }
  }

  // ----- Runs -----

  ghost predicate Coherent(s: System) {
    forall id :: id in s.flights ==> Behind(s.db, s.flights[id])
  }

  function Recorded(s: System, step: Step, f: Flight): Flight {
    match step
    case ReadCompleted(_) => f.(completed := Some(CompletedLessons(s.db, f.req.user)))
    case ReadRow(_) => f.(row := Some(Row(s.db, f.req.user, LessonOf(f.req))))
    case ReadProgress(_) => f.(progress := Some((s.clock, ProgressOf(s.db, f.req.user))))
    case ReadAttempt(_) => f.(attempt := Some(AttemptOf(s.db, f.req)), open := Some(OpenAttempts(s.db, f.req)))
    case _ => f
  }

  function Next(site: Site, s: System, step: Step): (t: System)
    requires Coherent(s)
    ensures Coherent(t) && Grows(s.db, t.db) && s.log <= t.log && s.clock <= t.clock
  {
    match step
    case NextDay => s.(clock := s.clock + 1)
    case Arrive(id, req) =>
      if id in s.flights then s else s.(flights := s.flights[id := Flight(req, None, None, None, None, None)])
    case Commit(id) =>
      if id !in s.flights then s
      else
        var effect := CommitEffect(site, s.db, s.clock, s.flights[id]);
        CommitGrows(site, s.db, s.clock, s.flights[id]);
        CoherentAfter(s, effect.db, id);
        System(effect.db, s.clock, s.flights - {id}, if effect.event.Some? then s.log + [effect.event.value] else s.log)
    case _ =>
      if step.id !in s.flights then s
      else s.(flights := s.flights[step.id := Recorded(s, step, s.flights[step.id])])
  }

  lemma CoherentAfter(s: System, db: Db, id: nat)
    requires Coherent(s) && Grows(s.db, db)
    ensures Coherent(s.(db := db, flights := s.flights - {id}))
  {
    forall k | k in s.flights ensures Behind(db, s.flights[k]) {
      BehindStays(s.db, db, s.flights[k]);
    }
  }

  const START := System(EMPTY_DB, 0, map[], [])

  function Run(site: Site, s: System, steps: seq<Step>): (t: System)
    requires Coherent(s)
    ensures Coherent(t) && Grows(s.db, t.db) && s.log <= t.log && s.clock <= t.clock
    decreases |steps|
  {
    if steps == [] then s else
      var before := Run(site, s, steps[..|steps| - 1]);
      var after := Next(site, before, steps[|steps| - 1]);
      after
  }
}
