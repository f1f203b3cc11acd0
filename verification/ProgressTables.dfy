/**
 The learner's tables and the statements run against them. `Db` is the value of all tables; each
 handler's writes are a function of that value and of what the handler read before its first
 write, and the class below runs the same statements one by one.
 */
module ProgressTables {
  import opened Options
  import opened Streak

  type User = nat

  datatype Source = LessonXp | ComprehensionXp | ExamXp | ReviewXp | DrillXp

  datatype Progress = Progress(level: string, xp: int, streak: int, lastActive: Option<nat>)

  datatype Completion = Completion(passed: bool, waived: bool, attempts: nat, score: real)

  datatype Attempt = Attempt(user: User, blueprint: string, level: string, finished: bool, sections: map<string, real>)

  datatype LedgerKey = LedgerKey(user: User, day: nat, source: Source)

  /** The tables, keyed by their unique constraints. */
  datatype Db = Db(
    progress: map<User, Progress>,
    completions: map<(User, string), Completion>,
    ledger: map<LedgerKey, nat>,
    setPasses: set<(User, string)>,
    exams: map<nat, Attempt>)

  const EMPTY_DB := Db(map[], map[], map[], {}, map[])

  const XP_PER_LESSON: nat := 10
  const COMPREHENSION_XP: nat := 15
  const EXAM_XP: nat := 25
  const REVIEW_XP: nat := 10
  const DRILL_XP: nat := 10
  const WAIVE_AFTER_ATTEMPTS: nat := 2

  // ----- Shared write path -----

  const LEVEL_ORDER := ["a1", "a2", "b1", "b2", "c1", "c2"]

  function IndexIn(levels: seq<string>, level: string): int {
    if levels == [] then -1
    else if levels[0] == level then 0
    else
      var i := IndexIn(levels[1..], level);
      if i < 0 then -1 else i + 1
  }

  function LevelRank(level: string): int { IndexIn(LEVEL_ORDER, level) }

  function Promoted(current: string, incoming: string): string {
    if LevelRank(incoming) > LevelRank(current) then incoming else current
  }

  function EnsureProgress(progress: map<User, Progress>, u: User, level: string): map<User, Progress> {
    if u in progress then progress else progress[u := Progress(level, 0, 0, None)]
  }

  /** The ledger after an award, and how much of it was granted. */
  function ClaimDailyXp(ledger: map<LedgerKey, nat>, key: LedgerKey, xp: nat, oncePerDay: bool)
      : (map<LedgerKey, nat>, nat)
  {
    if oncePerDay then
      if key in ledger then (ledger, 0) else (ledger[key := xp], xp)
    else
      (ledger[key := if key in ledger then ledger[key] + xp else xp], xp)
  }

  function Award(ledger: map<LedgerKey, nat>, key: LedgerKey, xp: nat, oncePerDay: bool): (map<LedgerKey, nat>, nat) {
    if xp == 0 then (ledger, 0) else ClaimDailyXp(ledger, key, xp, oncePerDay)
  }

  /** The progress row after an activity: increments go to the stored row, the rest comes from the row read. */
  function ActivityRow(read: Progress, stored: Progress, level: string, today: nat, granted: nat): Progress {
    Progress(
      WriteIfChanged(read.level, Promoted(read.level, level), stored.level),
      stored.xp + granted,
      StreakAfter(read.streak, read.lastActive, stored.streak, today),
      LastAfter(read.lastActive, stored.lastActive, today))
  }

  /** `read` is the progress row as first read, possibly before other requests committed. */
  function AfterActivity(db: Db, u: User, read: Option<Progress>, today: nat, xp: nat, source: Source,
                         oncePerDay: bool, level: string): Db
    requires read.Some? ==> u in db.progress
  {
    var progress := EnsureProgress(db.progress, u, level);
    var row := if read.Some? then read.value else progress[u];
    var (ledger, granted) := Award(db.ledger, LedgerKey(u, today, source), xp, oncePerDay);
    db.(progress := progress[u := ActivityRow(row, progress[u], level, today, granted)], ledger := ledger)
  }

  // ----- Lessons -----

  function Row(db: Db, u: User, lesson: string): Option<Completion> {
    if (u, lesson) in db.completions then Some(db.completions[(u, lesson)]) else None
  }

  function BumpAttempts(row: Option<Completion>, score: real): Completion {
    match row
    case None => Completion(false, false, 1, score)
    case Some(c) => c.(attempts := c.attempts + 1, score := score)
  }

  function CanWaive(c: Completion): bool {
    c.attempts >= WAIVE_AFTER_ATTEMPTS && !c.passed && !c.waived
  }

  function FailLesson(db: Db, u: User, lesson: string, level: string, score: real): Db {
    db.(completions := db.completions[(u, lesson) := BumpAttempts(Row(db, u, lesson), score)],
        progress := EnsureProgress(db.progress, u, level))
  }

  predicate FirstPass(db: Db, u: User, lesson: string) {
    Row(db, u, lesson).None? || !Row(db, u, lesson).value.passed
  }

  function MarkPassed(db: Db, u: User, lesson: string, score: real): Db {
    match Row(db, u, lesson)
    case None => db.(completions := db.completions[(u, lesson) := Completion(true, false, 0, score)])
    case Some(c) =>
      if c.passed then db
      else db.(completions := db.completions[(u, lesson) := c.(passed := true, score := score)])
  }

  function PassLesson(db: Db, u: User, lesson: string, level: string, score: real, read: Option<Progress>,
                      today: nat): Db
    requires read.Some? ==> u in db.progress
  {
    var xp := if FirstPass(db, u, lesson) then XP_PER_LESSON else 0;
    AfterActivity(MarkPassed(db, u, lesson, score), u, read, today, xp, LessonXp, false, level)
  }

  /** The checks of a waive, on the row as it was read. */
  predicate WaiveAllowed(row: Option<Completion>) {
    row.Some? && !row.value.passed && (row.value.waived || row.value.attempts >= WAIVE_AFTER_ATTEMPTS)
  }

  function WaiveLesson(db: Db, u: User, lesson: string, level: string, read: Option<Progress>, today: nat): Db
    requires (u, lesson) in db.completions
    requires read.Some? ==> u in db.progress
  {
    var waived := db.(completions := db.completions[(u, lesson) := db.completions[(u, lesson)].(waived := true)]);
    AfterActivity(waived, u, read, today, 0, LessonXp, false, level)
  }

  // ----- Comprehension and exams -----

  function ClaimSet(db: Db, u: User, setId: string, level: string, read: Option<Progress>, today: nat): Db
    requires read.Some? ==> u in db.progress
  {
    if (u, setId) in db.setPasses then db
    else AfterActivity(db.(setPasses := db.setPasses + {(u, setId)}), u, read, today, COMPREHENSION_XP,
                       ComprehensionXp, false, level)
  }

  function FinishAttempt(db: Db, u: User, id: nat, level: string, read: Option<Progress>, today: nat): Db
    requires read.Some? ==> u in db.progress
  {
    if id !in db.exams || db.exams[id].finished then db
    else AfterActivity(db.(exams := db.exams[id := db.exams[id].(finished := true)]), u, read, today, EXAM_XP, ExamXp,
                       false, level)
  }

  /** Patching one section leaves the others, whoever else is writing. */
  function SetSection(db: Db, id: nat, skill: string, value: real): Db {
    if id !in db.exams then db
    else db.(exams := db.exams[id := db.exams[id].(sections := db.exams[id].sections[skill := value])])
  }

  function InProgress(db: Db, u: User, blueprint: string): set<nat> {
    set id | id in db.exams && db.exams[id].user == u && db.exams[id].blueprint == blueprint && !db.exams[id].finished
  }

  // ----- The same statements on mutable tables -----

  class ProgressStore {
    var progress: map<User, Progress>
    var completions: map<(User, string), Completion>
    var ledger: map<LedgerKey, nat>
    var setPasses: set<(User, string)>
    var exams: map<nat, Attempt>

    ghost function Tables(): Db
      reads this
    {
      Db(progress, completions, ledger, setPasses, exams)
    }

    constructor ()
      ensures Tables() == EMPTY_DB
    {
      progress, completions, ledger, setPasses, exams := map[], map[], map[], {}, map[];
    }

    /** Insert or ignore: the row count says whether this request was first. */
    method InsertDailyXp(key: LedgerKey, xp: nat) returns (rowcount: nat)
      modifies this`ledger
      ensures rowcount == if key in old(ledger) then 0 else 1
      ensures ledger == if key in old(ledger) then old(ledger) else old(ledger)[key := xp]
    {
      if key in ledger { return 0; }
      ledger := ledger[key := xp];
      return 1;
    }

    method UpsertDailyXp(key: LedgerKey, xp: nat)
      modifies this`ledger
      ensures ledger == old(ledger)[key := if key in old(ledger) then old(ledger)[key] + xp else xp]
    {
      if key in ledger {
        ledger := ledger[key := ledger[key] + xp];
      } else {
        ledger := ledger[key := xp];
      }
    }

    method ClaimDaily(key: LedgerKey, xp: nat, oncePerDay: bool) returns (granted: nat)
      modifies this`ledger
      ensures (ledger, granted) == ClaimDailyXp(old(ledger), key, xp, oncePerDay)
    {
      if oncePerDay {
        var rowcount := InsertDailyXp(key, xp);
        return if rowcount == 1 then xp else 0;
      }
      UpsertDailyXp(key, xp);
      return xp;
    }

    method GetOrCreateProgress(u: User, level: string) returns (prog: Progress)
      modifies this`progress
      ensures progress == EnsureProgress(old(progress), u, level) && prog == progress[u]
    {
      if u !in progress {
        progress := progress[u := Progress(level, 0, 0, None)];
      }
      prog := progress[u];
    }

    method RecordActivity(u: User, read: Option<Progress>, today: nat, xpAward: nat, source: Source, oncePerDay: bool,
                          level: string)
      requires read.Some? ==> u in progress
      modifies this`progress, this`ledger
      ensures Tables() == AfterActivity(old(Tables()), u, read, today, xpAward, source, oncePerDay, level)
    {
      var prog: Progress;
      if read.Some? {
        prog := read.value;
      } else {
        prog := GetOrCreateProgress(u, level);
      }
      var newLevel := Promoted(prog.level, level);
      var newStreak := ComputeStreak(prog.streak, prog.lastActive, today);
      var granted := 0;
      if xpAward != 0 {
        granted := ClaimDaily(LedgerKey(u, today, source), xpAward, oncePerDay);
      }
      // flushing the row: changed columns only, and the increment on whatever is stored by now
      var stored := progress[u];
      stored := stored.(level := WriteIfChanged(prog.level, newLevel, stored.level),
                        streak := WriteIfChanged(prog.streak, newStreak, stored.streak),
                        lastActive := WriteIfChanged(prog.lastActive, Some(today), stored.lastActive));
      stored := stored.(xp := stored.xp + granted);
      progress := progress[u := stored];
    }

    method SubmitFailedResult(u: User, lesson: string, level: string, score: real)
        returns (attempts: nat, canWaive: bool)
      modifies this`completions, this`progress
      ensures Tables() == FailLesson(old(Tables()), u, lesson, level, score)
      ensures attempts == completions[(u, lesson)].attempts
      ensures canWaive == CanWaive(completions[(u, lesson)])
    {
      if (u, lesson) in completions {
        var row := completions[(u, lesson)];
        completions := completions[(u, lesson) := row.(attempts := row.attempts + 1, score := score)];
      } else {
        completions := completions[(u, lesson) := Completion(false, false, 1, score)];
      }
      var row := completions[(u, lesson)];
      var _ := GetOrCreateProgress(u, level);
      return row.attempts, row.attempts >= WAIVE_AFTER_ATTEMPTS && !row.passed && !row.waived;
    }

    method SubmitPassedResult(u: User, lesson: string, level: string, score: real, read: Option<Progress>, today: nat)
        returns (firstPass: bool)
      requires read.Some? ==> u in progress
      modifies this`completions, this`progress, this`ledger
      ensures Tables() == PassLesson(old(Tables()), u, lesson, level, score, read, today)
      ensures firstPass == FirstPass(old(Tables()), u, lesson)
    {
      firstPass := (u, lesson) !in completions;
      if firstPass {
        completions := completions[(u, lesson) := Completion(true, false, 0, score)];
      } else if !completions[(u, lesson)].passed {
        completions := completions[(u, lesson) := completions[(u, lesson)].(passed := true, score := score)];
        firstPass := true;
      }
      RecordActivity(u, read, today, if firstPass then XP_PER_LESSON else 0, LessonXp, false, level);
    }

    method Waive(u: User, lesson: string, level: string, row: Option<Completion>, read: Option<Progress>, today: nat)
        returns (accepted: bool)
      requires row.Some? ==> (u, lesson) in completions
      requires read.Some? ==> u in progress
      modifies this`completions, this`progress, this`ledger
      ensures accepted == WaiveAllowed(row)
      ensures Tables() == if accepted then WaiveLesson(old(Tables()), u, lesson, level, read, today) else old(Tables())
    {
      if row.None? || row.value.passed {
        return false;
      }
      if !row.value.waived && row.value.attempts < WAIVE_AFTER_ATTEMPTS {
        return false;
      }
      completions := completions[(u, lesson) := completions[(u, lesson)].(waived := true)];
      RecordActivity(u, read, today, 0, LessonXp, false, level);
      return true;
    }

    method SubmitPassedSet(u: User, setId: string, level: string, read: Option<Progress>, today: nat)
        returns (firstPass: bool)
      requires read.Some? ==> u in progress
      modifies this`setPasses, this`progress, this`ledger
      ensures firstPass == ((u, setId) !in old(setPasses))
      ensures Tables() == ClaimSet(old(Tables()), u, setId, level, read, today)
    {
      firstPass := (u, setId) !in setPasses;
      if firstPass {
        setPasses := setPasses + {(u, setId)};
        RecordActivity(u, read, today, COMPREHENSION_XP, ComprehensionXp, false, level);
      }
    }

    method FinishExam(u: User, id: nat, level: string, read: Option<Progress>, today: nat) returns (awarded: bool)
      requires read.Some? ==> u in progress
      modifies this`exams, this`progress, this`ledger
      ensures awarded == (id in old(exams) && !old(exams)[id].finished)
      ensures Tables() == FinishAttempt(old(Tables()), u, id, level, read, today)
    {
      awarded := id in exams && !exams[id].finished;
      if awarded {
        exams := exams[id := exams[id].(finished := true)];
        RecordActivity(u, read, today, EXAM_XP, ExamXp, false, level);
      }
    }

    method RecordSection(id: nat, skill: string, value: real)
      modifies this`exams
      ensures Tables() == SetSection(old(Tables()), id, skill, value)
    {
      if id in exams {
        exams := exams[id := exams[id].(sections := exams[id].sections[skill := value])];
      }
    }
  }

  // ----- One request at a time -----

  /** Read and written in one go, the level only ever rises, to the higher of the two. */
  lemma LevelOnlyRises(db: Db, u: User, today: nat, xp: nat, source: Source, oncePerDay: bool, level: string)
    requires u in db.progress
    ensures var before := db.progress[u];
            var after := AfterActivity(db, u, Some(before), today, xp, source, oncePerDay, level).progress[u];
            var was, now := LevelRank(before.level), LevelRank(level);
            LevelRank(after.level) == if now > was then now else was
  {
  }
}
