/**
 Exam attempts. Starting an exam reads first and writes later without a guard: it keeps one open
 attempt each in exactly the runs in which no start misses an attempt opened since it looked.
 */
module ExamAttempts {
  import opened Options
  import opened ProgressTables
  import opened ProgressProtocol
  import opened Sets

  /** A request that reads and writes with no other in between. */
  function Alone(req: Request): Flight { Flight(req, None, None, None, None, None) }

  function Handled(site: Site, db: Db, clock: nat, req: Request): Effect {
    CommitEffect(site, db, clock, Alone(req))
  }

  function Serial(site: Site, reqs: seq<(nat, Request)>): Db {
    if reqs == [] then EMPTY_DB
    else
      var (clock, req) := reqs[|reqs| - 1];
      Handled(site, Serial(site, reqs[..|reqs| - 1]), clock, req).db
  }

  ghost predicate OneOpen(db: Db) {
    forall u, blueprint :: |InProgress(db, u, blueprint)| <= 1
  }

  lemma OneOpenShrinks(before: Db, after: Db)
    requires OneOpen(before)
    requires forall u, blueprint :: InProgress(after, u, blueprint) <= InProgress(before, u, blueprint)
    ensures OneOpen(after)
  {
    forall u, blueprint ensures |InProgress(after, u, blueprint)| <= 1 {
      SubsetSize(InProgress(after, u, blueprint), InProgress(before, u, blueprint));
    }
  }

  lemma OthersLeaveExams(site: Site, db: Db, clock: nat, f: Flight)
    requires Behind(db, f) && !f.req.StartExam? && !f.req.RecordSection? && !f.req.FinishExam?
    ensures CommitEffect(site, db, clock, f).db.exams == db.exams
  {
    match f.req
    case SubmitResult(_, _, _) =>
    case Waive(_, _) =>
    case SubmitSet(_, _, _, _, _) =>
    case ReviewCard(_, _) =>
    case Drill(_, _, _) =>
  }

  /** The attempt a start opens joins those already open. */
  lemma StartAddsOne(site: Site, db: Db, f: Flight, u: User, blueprint: string)
    requires f.req.StartExam?
    ensures var after := CommitStart(site, db, f).db;
            InProgress(after, u, blueprint) == InProgress(db, u, blueprint)
              + (if after != db && u == f.req.user && blueprint == f.req.blueprint then {f.req.newId} else {})
  {
    var after := CommitStart(site, db, f).db;
    if after != db {
      assert forall id :: id in after.exams <==> id in db.exams || id == f.req.newId;
    }
  }

  /** A start opens an attempt beside one that it did not see. */
  predicate MissesOpen(site: Site, db: Db, f: Flight)
    requires f.req.StartExam?
  {
    && f.req.blueprint in site.blueprints && OpenRead(db, f) == {} && f.req.newId !in db.exams
    && InProgress(db, f.req.user, f.req.blueprint) != {}
  }

  /** Whatever a start has read, one open attempt each is kept exactly if it misses none. */
  lemma StartKeepsOneOpenIff(site: Site, db: Db, f: Flight)
    requires f.req.StartExam? && OneOpen(db)
    ensures OneOpen(CommitStart(site, db, f).db) <==> !MissesOpen(site, db, f)
  {
    var StartExam(u, blueprint, newId) := f.req;
    var after := CommitStart(site, db, f).db;
    var open := InProgress(db, u, blueprint);
    StartAddsOne(site, db, f, u, blueprint);
    if MissesOpen(site, db, f) {
      assert after.exams[newId].user == u;
      assert newId !in open && |open + {newId}| == |open| + 1;
    } else {
      forall v, other ensures |InProgress(after, v, other)| <= 1 {
        StartAddsOne(site, db, f, v, other);
        if after != db && v == u && other == blueprint { assert open + {newId} == {newId}; }
      }
    }
  }

  /** No other commit opens an attempt, however stale its reads. */
  lemma OthersOpenNothing(site: Site, db: Db, clock: nat, f: Flight)
    requires Behind(db, f) && !f.req.StartExam? && OneOpen(db)
    ensures OneOpen(CommitEffect(site, db, clock, f).db)
    ensures CommitEffect(site, db, clock, f).reply != ServerError
  {
    OthersNeverFail(site, db, clock, f);
    if f.req.RecordSection? || f.req.FinishExam? {
      ExamsOpenNothing(site, db, clock, f);
    } else {
      OthersLeaveExams(site, db, clock, f);
    }
    hide CommitEffect;
    OneOpenShrinks(db, CommitEffect(site, db, clock, f).db);
  }

  lemma ExamsOpenNothing(site: Site, db: Db, clock: nat, f: Flight)
    requires Behind(db, f) && (f.req.RecordSection? || f.req.FinishExam?)
    ensures forall u, blueprint ::
              InProgress(CommitEffect(site, db, clock, f).db, u, blueprint) <= InProgress(db, u, blueprint)
  {
  }

  lemma OthersNeverFail(site: Site, db: Db, clock: nat, f: Flight)
    requires Behind(db, f) && !f.req.StartExam?
    ensures CommitEffect(site, db, clock, f).reply != ServerError
  {
    hide AfterActivity, FailLesson, PassLesson, WaiveLesson, ClaimSet, FinishAttempt, SetSection;
  }

  // ----- One at a time -----

  lemma HandledKeepsOneOpen(site: Site, db: Db, clock: nat, req: Request)
    requires OneOpen(db)
    ensures OneOpen(Handled(site, db, clock, req).db)
    ensures Handled(site, db, clock, req).reply != ServerError
  {
    if req.StartExam? {
      StartKeepsOneOpenIff(site, db, Alone(req));
    } else {
      OthersOpenNothing(site, db, clock, Alone(req));
    }
  }

  /**
   One request at a time, a learner never has two open attempts at the same exam, and whatever
   request comes next does not fail on them.
   */
  lemma {:induction false} OneOpenAttemptEach(site: Site, reqs: seq<(nat, Request)>, clock: nat, next: Request)
    ensures OneOpen(Serial(site, reqs))
    ensures Handled(site, Serial(site, reqs), clock, next).reply != ServerError
  {
    if reqs != [] {
      var (before, req) := reqs[|reqs| - 1];
      OneOpenAttemptEach(site, reqs[..|reqs| - 1], before, req);
      HandledKeepsOneOpen(site, Serial(site, reqs[..|reqs| - 1]), before, req);
    }
    HandledKeepsOneOpen(site, Serial(site, reqs), clock, next);
  }

  // ----- Interleaved -----

  /** This step commits a start that misses an open attempt. */
  ghost predicate StepMisses(site: Site, s: System, step: Step) {
    && step.Commit? && step.id in s.flights
    && s.flights[step.id].req.StartExam? && MissesOpen(site, s.db, s.flights[step.id])
  }

  lemma StepKeepsOneOpenIff(site: Site, s: System, step: Step)
    requires Coherent(s) && OneOpen(s.db)
    ensures OneOpen(Next(site, s, step).db) <==> !StepMisses(site, s, step)
  {
    if step.Commit? && step.id in s.flights {
      var f := s.flights[step.id];
      hide OneOpen, CommitEffect, MissesOpen;
      assert Next(site, s, step).db == CommitEffect(site, s.db, s.clock, f).db;
      if f.req.StartExam? {
        StartIsCommit(site, s.db, s.clock, f);
        StartKeepsOneOpenIff(site, s.db, f);
      } else {
        OthersOpenNothing(site, s.db, s.clock, f);
      }
    }
  }

  lemma StartIsCommit(site: Site, db: Db, clock: nat, f: Flight)
    requires Behind(db, f) && f.req.StartExam?
    ensures CommitEffect(site, db, clock, f) == CommitStart(site, db, f)
  {
  }

  ghost predicate NoStartMisses(site: Site, steps: seq<Step>)
    decreases |steps|
  {
    steps == []
    || (NoStartMisses(site, steps[..|steps| - 1])
        && !StepMisses(site, Run(site, START, steps[..|steps| - 1]), steps[|steps| - 1]))
  }

  /** In every state along the run a learner has at most one open attempt at each exam. */
  ghost predicate AlwaysOneOpen(site: Site, steps: seq<Step>)
    decreases |steps|
  {
    OneOpen(Run(site, START, steps).db) && (steps == [] || AlwaysOneOpen(site, steps[..|steps| - 1]))
  }

  /** For every interleaving: one open attempt each, all along the run, exactly if no start misses one. */
  lemma {:induction false} AlwaysOneOpenIff(site: Site, steps: seq<Step>)
    ensures AlwaysOneOpen(site, steps) <==> NoStartMisses(site, steps)
    decreases |steps|
  {
    if steps == [] {
      assert forall u, blueprint :: InProgress(EMPTY_DB, u, blueprint) == {};
    } else {
      hide OneOpen, StepMisses, Next;
      var before, last := steps[..|steps| - 1], steps[|steps| - 1];
      AlwaysOneOpenIff(site, before);
      assert Run(site, START, steps) == Next(site, Run(site, START, before), last);
      if AlwaysOneOpen(site, before) { StepKeepsOneOpenIff(site, Run(site, START, before), last); }
    }
  }

  /**
   Two starts that both look before either commits leave two open attempts; from then on starting
   that exam fails, as long as both are open.
   */
  lemma StartRace(site: Site, db: Db, u: User, blueprint: string, a: nat, b: nat)
    requires blueprint in site.blueprints && InProgress(db, u, blueprint) == {}
    requires a != b && a !in db.exams && b !in db.exams
    ensures var first := Alone(StartExam(u, blueprint, a)).(open := Some({}));
            var second := Alone(StartExam(u, blueprint, b)).(open := Some({}));
            InProgress(CommitStart(site, CommitStart(site, db, first).db, second).db, u, blueprint) == {a, b}
    ensures forall later: Db, c | {a, b} <= InProgress(later, u, blueprint) ::
              CommitStart(site, later, Alone(StartExam(u, blueprint, c))) == Effect(later, None, ServerError)
  {
    var first := Alone(StartExam(u, blueprint, a)).(open := Some({}));
    var second := Alone(StartExam(u, blueprint, b)).(open := Some({}));
    var raced := CommitStart(site, CommitStart(site, db, first).db, second).db;
    assert InProgress(raced, u, blueprint) == {a, b};
    forall later: Db, c | {a, b} <= InProgress(later, u, blueprint)
      ensures CommitStart(site, later, Alone(StartExam(u, blueprint, c))) == Effect(later, None, ServerError)
    {
      SubsetSize({a, b}, InProgress(later, u, blueprint));
    }
  }

  // ----- Finished attempts have been sat -----

  /** Every skill that the blueprint requires has been recorded. */
  ghost predicate AllRecorded(site: Site, attempt: Attempt) {
    attempt.blueprint in site.blueprints ==>
      forall skill :: skill in site.blueprints[attempt.blueprint].required ==> skill in attempt.sections
  }

  ghost predicate FinishedAreComplete(site: Site, db: Db) {
    forall id :: id in db.exams && db.exams[id].finished ==> AllRecorded(site, db.exams[id])
  }

  lemma FinishCompletes(site: Site, db: Db, clock: nat, f: Flight)
    requires Behind(db, f) && f.req.FinishExam? && FinishedAreComplete(site, db)
    ensures FinishedAreComplete(site, CommitFinish(site, db, clock, f).db)
  {
    var attempt := AttemptRead(db, f);
    if CommitFinish(site, db, clock, f).db != db {
      var now := db.exams[f.req.attempt];
      assert now.blueprint == attempt.value.blueprint && attempt.value.sections.Keys <= now.sections.Keys;
      assert AllRecorded(site, attempt.value);
      assert AllRecorded(site, now);
    }
  }

  lemma SectionsComplete(site: Site, db: Db, f: Flight)
    requires Behind(db, f)
    requires FinishedAreComplete(site, db)
    ensures f.req.StartExam? ==> FinishedAreComplete(site, CommitStart(site, db, f).db)
    ensures f.req.RecordSection? ==> FinishedAreComplete(site, CommitSection(db, f).db)
  {
  }

  /**
   In every state of every interleaving a finished attempt has a result for every skill its exam
   requires, however stale the reads of the requests that finished it.
   */
  lemma {:induction false} FinishedExamsAreComplete(site: Site, steps: seq<Step>)
    ensures FinishedAreComplete(site, Run(site, START, steps).db)
    decreases |steps|
  {
    if steps != [] {
      var s, step := Run(site, START, steps[..|steps| - 1]), steps[|steps| - 1];
      FinishedExamsAreComplete(site, steps[..|steps| - 1]);
      if step.Commit? && step.id in s.flights {
        CommitCompletes(site, s.db, s.clock, s.flights[step.id]);
      }
      hide FinishedAreComplete, CommitEffect, Behind;
    }
  }

  lemma CommitCompletes(site: Site, db: Db, clock: nat, f: Flight)
    requires Behind(db, f) && FinishedAreComplete(site, db)
    ensures FinishedAreComplete(site, CommitEffect(site, db, clock, f).db)
  {
    hide FinishedAreComplete, CommitStart, CommitSection, CommitFinish, Behind;
    if f.req.FinishExam? {
      FinishCompletes(site, db, clock, f);
    } else {
      SectionsComplete(site, db, f);
      if !f.req.StartExam? && !f.req.RecordSection? { ExamsUntouched(site, db, clock, f); }
    }
  }

  lemma ExamsUntouched(site: Site, db: Db, clock: nat, f: Flight)
    requires Behind(db, f) && !f.req.StartExam? && !f.req.RecordSection? && !f.req.FinishExam?
    requires FinishedAreComplete(site, db)
    ensures FinishedAreComplete(site, CommitEffect(site, db, clock, f).db)
  {
    OthersLeaveExams(site, db, clock, f);
    hide CommitEffect;
  }

  /** What finishing alone replies and does: refused for a missing skill, and otherwise finished for good. */
  lemma FinishIsRefusedIff(site: Site, db: Db, clock: nat, u: User, id: nat)
    requires id in db.exams && db.exams[id].user == u && !db.exams[id].finished
    ensures var effect := Handled(site, db, clock, FinishExam(u, id));
            && (effect.reply == Rejected <==> !AllRecorded(site, db.exams[id]))
            && (effect.reply == Rejected ==> effect.db == db && effect.event == None)
            && (effect.reply != Rejected ==>
                  && effect.reply == Served && effect.event == Some(FinishedExam(u, id, clock))
                  && effect.db.exams == db.exams[id := db.exams[id].(finished := true)])
  {
    var attempt := db.exams[id];
    assert AllRecorded(site, attempt) <==>
      forall skill :: skill in RequiredSkills(site, attempt.blueprint) ==> skill in attempt.sections;
  }

  /** Nor does a stranger's attempt, or one that is not there, change for anyone who asks. */
  lemma OnlyOwnAttempts(site: Site, db: Db, clock: nat, u: User, id: nat, skill: string, value: real)
    requires id !in db.exams || db.exams[id].user != u
    ensures Handled(site, db, clock, FinishExam(u, id)) == Effect(db, None, NotFound)
    ensures Handled(site, db, clock, RecordSection(u, id, skill, value)) == Effect(db, None, NotFound)
  {
  }

  /** A section is recorded while the attempt is open, and refused afterwards. */
  lemma SectionIsRefusedIff(site: Site, db: Db, clock: nat, u: User, id: nat, skill: string, value: real)
    requires id in db.exams && db.exams[id].user == u
    ensures var effect := Handled(site, db, clock, RecordSection(u, id, skill, value));
            && (effect.reply == Rejected <==> db.exams[id].finished)
            && (db.exams[id].finished ==> effect.db == db)
            && (!db.exams[id].finished ==>
                  && effect.reply == Served
                  && effect.db.exams[id] == db.exams[id].(sections := db.exams[id].sections[skill := value]))
  {
  }

  /** One request at a time, the sections of a finished attempt are final. */
  lemma FinishedSectionsAreFinal(site: Site, db: Db, clock: nat, req: Request, id: nat)
    requires id in db.exams && db.exams[id].finished
    ensures var after := Handled(site, db, clock, req).db; id in after.exams && after.exams[id] == db.exams[id]
  {
    match req
    case StartExam(_, _, _) =>
    case RecordSection(_, _, _, _) =>
    case FinishExam(_, _) =>
    case _ => OthersLeaveExams(site, db, clock, Alone(req));
  }

  /** Two sections written to different places: neither is lost, and the order does not matter. */
  lemma SetSectionsCommute(db: Db, i: nat, a: string, x: real, j: nat, b: string, y: real)
    requires i != j || a != b
    ensures SetSection(SetSection(db, i, a, x), j, b, y) == SetSection(SetSection(db, j, b, y), i, a, x)
    ensures i in db.exams ==> var after := SetSection(SetSection(db, i, a, x), j, b, y);
                              a in after.exams[i].sections && after.exams[i].sections[a] == x
  {
    if i in db.exams && j in db.exams {
      var fg := SetSection(SetSection(db, i, a, x), j, b, y).exams;
      var gf := SetSection(SetSection(db, j, b, y), i, a, x).exams;
      assert fg.Keys == gf.Keys;
      forall id | id in fg ensures fg[id] == gf[id] {
        assert fg[id].sections == gf[id].sections;
      }
      assert fg == gf;
    }
  }

  /** So sections recorded at the same time for different skills do not lose each other. */
  lemma SectionsCommute(db: Db, f: Flight, g: Flight)
    requires Behind(db, f) && Behind(db, g) && f.req.RecordSection? && g.req.RecordSection?
    requires f.attempt.Some? && g.attempt.Some? && (f.req.attempt != g.req.attempt || f.req.skill != g.req.skill)
    ensures Behind(CommitSection(db, f).db, g) && Behind(CommitSection(db, g).db, f)
    ensures CommitSection(CommitSection(db, f).db, g).db == CommitSection(CommitSection(db, g).db, f).db
    ensures CommitSection(db, f).reply == Served ==>
              var after := CommitSection(CommitSection(db, f).db, g).db;
              && f.req.attempt in after.exams && f.req.skill in after.exams[f.req.attempt].sections
              && after.exams[f.req.attempt].sections[f.req.skill] == f.req.value
  {
    SectionCommitGrows(db, f);
    SectionCommitGrows(db, g);
    SetSectionsCommute(db, f.req.attempt, f.req.skill, f.req.value, g.req.attempt, g.req.skill, g.req.value);
    SectionShows(db, f);
    SectionIs(db, f);
    SectionIs(db, g);
    hide *;
    var df, dg := CommitSection(db, f).db, CommitSection(db, g).db;
    BehindStays(db, df, g);
    BehindStays(db, dg, f);
    SectionIs(df, g);
    SectionIs(dg, f);
  }

  /** What a section does was settled by what it read: it is recorded, or refused. */
  lemma SectionIs(db: Db, f: Flight)
    requires Behind(db, f) && f.req.RecordSection? && f.attempt.Some?
    ensures var read := f.attempt.value;
            var recorded := read.Some? && read.value.user == f.req.user && !read.value.finished;
            && CommitSection(db, f).db
               == (if recorded then SetSection(db, f.req.attempt, f.req.skill, f.req.value) else db)
            && (CommitSection(db, f).reply == Served <==> recorded)
  {
  }

  lemma SectionShows(db: Db, f: Flight)
    requires Behind(db, f) && f.req.RecordSection? && f.attempt.Some?
    ensures CommitSection(db, f).reply == Served ==>
              var after := CommitSection(db, f).db;
              && f.req.attempt in db.exams && f.req.attempt in after.exams
              && f.req.skill in after.exams[f.req.attempt].sections
              && after.exams[f.req.attempt].sections[f.req.skill] == f.req.value
  {
  }
}
