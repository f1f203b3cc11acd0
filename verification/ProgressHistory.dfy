/**
 What the history of committed requests says about a learner, independently of the tables: the
 failing results, first passes, waives, claims and days of activity.
 */
module ProgressHistory {
  import opened ProgressTables
  import opened ProgressProtocol

  /** Everything a learner has earned XP with: each lesson, set, exam, review day and drill day once. */
  datatype Tally = Tally(lessons: set<string>, sets: set<string>, exams: set<nat>, reviewDays: set<nat>,
                         drillDays: set<nat>)

  function Noted(t: Tally, e: Event, u: User): Tally {
    if e.user != u then t
    else match e
      case PassedLesson(_, lesson, _, _) => t.(lessons := t.lessons + {lesson})
      case PassedSet(_, setId, _) => t.(sets := t.sets + {setId})
      case FinishedExam(_, attempt, _) => t.(exams := t.exams + {attempt})
      case Reviewed(_, day) => t.(reviewDays := t.reviewDays + {day})
      case Drilled(_, day) => t.(drillDays := t.drillDays + {day})
      case FailedLesson(_, _) => t
      case WaivedLesson(_, _, _) => t
  }

  function TallyOf(log: seq<Event>, u: User): Tally {
    if log == [] then Tally({}, {}, {}, {}, {})
    else Noted(TallyOf(log[..|log| - 1], u), log[|log| - 1], u)
  }

  function Earned(t: Tally): int {
    XP_PER_LESSON * |t.lessons| + COMPREHENSION_XP * |t.sets| + EXAM_XP * |t.exams|
    + REVIEW_XP * |t.reviewDays| + DRILL_XP * |t.drillDays|
  }

  /** What happened to one lesson: failing results, submissions that were told they passed it first, pass, waive. */
  datatype LessonTally = LessonTally(fails: nat, firstPasses: nat, passed: bool, waived: bool)

  function LessonNoted(t: LessonTally, e: Event, u: User, lesson: string): LessonTally {
    match e
    case FailedLesson(v, l) => if v == u && l == lesson then t.(fails := t.fails + 1) else t
    case PassedLesson(v, l, _, first) =>
      if v == u && l == lesson then t.(passed := true, firstPasses := t.firstPasses + if first then 1 else 0) else t
    case WaivedLesson(v, l, _) => if v == u && l == lesson then t.(waived := true) else t
    case _ => t
  }

  function LessonTallyOf(log: seq<Event>, u: User, lesson: string): LessonTally {
    if log == [] then LessonTally(0, 0, false, false)
    else LessonNoted(LessonTallyOf(log[..|log| - 1], u, lesson), log[|log| - 1], u, lesson)
  }

  /** The days on which the learner did anything that counts; a failed result does not. */
  function DayNoted(days: set<nat>, e: Event, u: User): set<nat> {
    if e.user == u && !e.FailedLesson? then days + {e.day} else days
  }

  function ActiveDays(log: seq<Event>, u: User): set<nat> {
    if log == [] then {}
    else DayNoted(ActiveDays(log[..|log| - 1], u), log[|log| - 1], u)
  }

  lemma OneMoreEvent(log: seq<Event>, e: Event, u: User, lesson: string)
    ensures TallyOf(log + [e], u) == Noted(TallyOf(log, u), e, u)
    ensures LessonTallyOf(log + [e], u, lesson) == LessonNoted(LessonTallyOf(log, u, lesson), e, u, lesson)
    ensures ActiveDays(log + [e], u) == DayNoted(ActiveDays(log, u), e, u)
  {
    assert (log + [e])[..|log|] == log;
  }
}
