/** A well-founded path never dead-ends: from any state the learner can finish every unit. */
module PathCompletion {
  import opened Options
  import opened Sets
  import opened Gating
  import opened ProgressTables
  import opened ProgressProtocol

  lemma {:induction false} RunConcat(site: Site, s: System, a: seq<Step>, b: seq<Step>)
    requires Coherent(s)
    ensures Run(site, s, a + b) == Run(site, Run(site, s, a), b)
    decreases |b|
  {
    if b == [] {
      assert a + b == a;
    } else {
      hide Next, Coherent;
      var front, last := b[..|b| - 1], b[|b| - 1];
      RunConcat(site, s, a, front);
      LastStep(a, b);
      RunStep(site, s, a + front, last);
      RunStep(site, Run(site, s, a), front, last);
    }
  }

  lemma LastStep(a: seq<Step>, b: seq<Step>)
    requires b != []
    ensures a + b == a + b[..|b| - 1] + [b[|b| - 1]] && b == b[..|b| - 1] + [b[|b| - 1]]
  {
  }

  lemma RunStep(site: Site, s: System, front: seq<Step>, last: Step)
    requires Coherent(s)
    ensures Run(site, s, front + [last]) == Next(site, Run(site, s, front), last)
  {
    hide Next, Coherent;
    assert (front + [last])[..|front|] == front;
  }

  lemma {:induction false} FreshId(ids: set<nat>) returns (id: nat)
    ensures forall x :: x in ids ==> x < id
    decreases |ids|
  {
    if ids == {} {
      id := 0;
    } else {
      var x :| x in ids;
      var above := FreshId(ids - {x});
      id := if above <= x then x + 1 else above;
      assert forall y :: y in ids ==> y == x || y in ids - {x};
    }
  }

  /** A request served from start to end with nothing in between. */
  predicate Handles(steps: seq<Step>, req: Request) {
    |steps| == 2 && steps[0].Arrive? && steps[0].req == req && steps[1] == Commit(steps[0].id)
  }

  lemma Serve(site: Site, s: System, req: Request) returns (steps: seq<Step>)
    requires Coherent(s)
    ensures Handles(steps, req)
    ensures var t := Run(site, s, steps);
            var effect := CommitEffect(site, s.db, s.clock, Flight(req, None, None, None, None, None));
            && t.db == effect.db && t.clock == s.clock && t.flights == s.flights
            && t.log == if effect.event.Some? then s.log + [effect.event.value] else s.log
  {
    var id := FreshId(s.flights.Keys);
    steps := [Arrive(id, req), Commit(id)];
    assert id !in s.flights;
    assert steps[..1] == [Arrive(id, req)] && steps[..1][..0] == [];
    assert Run(site, s, steps[..1]) == Next(site, s, Arrive(id, req));
  }

  function ResultOf(u: User, lesson: string, score: real): Flight {
    Flight(SubmitResult(u, lesson, score), None, None, None, None, None)
  }

  /** A score of 10 passes any lesson that can be passed. */
  lemma PassingCompletes(site: Site, db: Db, clock: nat, u: User, lesson: string)
    requires lesson in site.content.lessons && LessonUnlocked(site.content, lesson, CompletedLessons(db, u))
    requires site.content.lessons[lesson].passThreshold <= 10.0
    ensures lesson in CompletedLessons(CommitEffect(site, db, clock, ResultOf(u, lesson, 10.0)).db, u)
  {
    var after := CommitEffect(site, db, clock, ResultOf(u, lesson, 10.0)).db;
    assert after.completions == MarkPassed(db, u, lesson, 10.0).completions;
    assert (u, lesson) in after.completions && after.completions[(u, lesson)].passed;
  }

  lemma FailingCounts(site: Site, db: Db, clock: nat, u: User, lesson: string)
    requires lesson in site.content.lessons && LessonUnlocked(site.content, lesson, CompletedLessons(db, u))
    requires site.content.lessons[lesson].passThreshold > 0.0
    requires lesson !in CompletedLessons(db, u)
    ensures var after := CommitEffect(site, db, clock, ResultOf(u, lesson, 0.0)).db;
            && (u, lesson) in after.completions && !after.completions[(u, lesson)].passed
            && after.completions[(u, lesson)].attempts == 1
                + (if Row(db, u, lesson).Some? then Row(db, u, lesson).value.attempts else 0)
            && CompletedLessons(after, u) == CompletedLessons(db, u)
  {
    var after := CommitEffect(site, db, clock, ResultOf(u, lesson, 0.0)).db;
    assert Row(db, u, lesson).Some? ==> !db.completions[(u, lesson)].passed && !db.completions[(u, lesson)].waived;
    forall l ensures l in CompletedLessons(after, u) <==> l in CompletedLessons(db, u) {
      if l != lesson {
        assert Row(after, u, l) == Row(db, u, l);
      }
    }
  }

  lemma WaivingCompletes(site: Site, db: Db, clock: nat, u: User, lesson: string)
    requires lesson in site.content.lessons && LessonUnlocked(site.content, lesson, CompletedLessons(db, u))
    requires (u, lesson) in db.completions && !db.completions[(u, lesson)].passed
    requires db.completions[(u, lesson)].attempts >= WAIVE_AFTER_ATTEMPTS
    ensures var waive := Flight(Waive(u, lesson), None, None, None, None, None);
            lesson in CompletedLessons(CommitEffect(site, db, clock, waive).db, u)
  {
    var after := CommitEffect(site, db, clock, Flight(Waive(u, lesson), None, None, None, None, None)).db;
    assert (u, lesson) in after.completions && after.completions[(u, lesson)].waived;
  }

  predicate PassedBy(db: Db, u: User, lesson: string) {
    Row(db, u, lesson).Some? && Row(db, u, lesson).value.passed
  }

  /** Nothing is passed that was not passed before. */
  ghost predicate NoNewPass(a: Db, b: Db, u: User) {
    forall lesson :: PassedBy(b, u, lesson) ==> PassedBy(a, u, lesson)
  }

  lemma FailingPassesNothing(site: Site, db: Db, clock: nat, u: User, lesson: string)
    requires lesson in site.content.lessons && site.content.lessons[lesson].passThreshold > 0.0
    ensures NoNewPass(db, CommitEffect(site, db, clock, ResultOf(u, lesson, 0.0)).db, u)
  {
    var after := CommitEffect(site, db, clock, ResultOf(u, lesson, 0.0)).db;
    forall l | PassedBy(after, u, l) ensures PassedBy(db, u, l) {
      if l != lesson { assert Row(after, u, l) == Row(db, u, l); }
    }
  }

  lemma WaivingPassesNothing(site: Site, db: Db, clock: nat, u: User, lesson: string)
    ensures NoNewPass(db, CommitEffect(site, db, clock, Flight(Waive(u, lesson), None, None, None, None, None)).db, u)
  {
    var after := CommitEffect(site, db, clock, Flight(Waive(u, lesson), None, None, None, None, None)).db;
    forall l | PassedBy(after, u, l) ensures PassedBy(db, u, l) {
      if l != lesson { assert Row(after, u, l) == Row(db, u, l); }
    }
  }

  /** Two results that fail and a waive, each served from start to end. */
  predicate TwoFailuresAndAWaive(steps: seq<Step>, u: User, lesson: string) {
    && |steps| == 6
    && Handles(steps[..2], SubmitResult(u, lesson, 0.0)) && Handles(steps[2..4], SubmitResult(u, lesson, 0.0))
    && Handles(steps[4..], Waive(u, lesson))
  }

  /** Failing an open lesson twice and waiving it completes it too, and passes nothing. */
  lemma FailTwiceThenWaive(site: Site, s: System, u: User, lesson: string) returns (steps: seq<Step>)
    requires Coherent(s)
    requires lesson in site.content.lessons && LessonUnlocked(site.content, lesson, CompletedLessons(s.db, u))
    requires site.content.lessons[lesson].passThreshold > 0.0 && lesson !in CompletedLessons(s.db, u)
    ensures TwoFailuresAndAWaive(steps, u, lesson)
    ensures lesson in CompletedLessons(Run(site, s, steps).db, u)
    ensures NoNewPass(s.db, Run(site, s, steps).db, u)
  {
    hide CommitEffect, CompletedLessons, LessonUnlocked, Run, Next, Coherent, PassedBy;
    var first := Serve(site, s, SubmitResult(u, lesson, 0.0));
    var s1 := Run(site, s, first);
    FailingCounts(site, s.db, s.clock, u, lesson);
    FailingPassesNothing(site, s.db, s.clock, u, lesson);
    var second := Serve(site, s1, SubmitResult(u, lesson, 0.0));
    var s2 := Run(site, s1, second);
    FailingCounts(site, s1.db, s1.clock, u, lesson);
    FailingPassesNothing(site, s1.db, s1.clock, u, lesson);
    var third := Serve(site, s2, Waive(u, lesson));
    WaivingCompletes(site, s2.db, s2.clock, u, lesson);
    WaivingPassesNothing(site, s2.db, s2.clock, u, lesson);
    RunConcat(site, s, first, second);
    RunConcat(site, s, first + second, third);
    steps := first + second + third;
    assert steps[..2] == first && steps[2..4] == second && steps[4..] == third;
  }

  lemma CompleteLesson(site: Site, s: System, u: User, lesson: string) returns (steps: seq<Step>)
    requires Coherent(s)
    requires lesson in site.content.lessons && LessonUnlocked(site.content, lesson, CompletedLessons(s.db, u))
    requires lesson !in CompletedLessons(s.db, u)
    ensures lesson in CompletedLessons(Run(site, s, steps).db, u)
  {
    if site.content.lessons[lesson].passThreshold <= 10.0 {
      steps := Serve(site, s, SubmitResult(u, lesson, 10.0));
      PassingCompletes(site, s.db, s.clock, u, lesson);
    } else {
      steps := FailTwiceThenWaive(site, s, u, lesson);
    }
  }

  function Remaining(site: Site, completed: set<string>): set<string> {
    site.content.lessons.Keys - completed
  }

  lemma NothingLeft(units: seq<Unit>, completed: set<string>)
    requires FirstOpen(units, completed) == |units|
    ensures forall unit :: unit in units ==> Done(unit, completed)
  {
    forall unit | unit in units ensures Done(unit, completed) {
      var k :| 0 <= k < |units| && units[k] == unit;
    }
  }

  /**
   While a unit of a well-founded path is unfinished some unfinished unit is open, and completing
   open lessons one at a time, each by a pass or by two failures and a waive, finishes all units.
   */
  lemma {:induction false} PathNeverDeadEnds(site: Site, s: System, u: User, level: string) returns (steps: seq<Step>)
    requires Coherent(s) && WellFounded(site.content, level)
    ensures var completed := CompletedLessons(Run(site, s, steps).db, u);
            forall unit :: unit in UnitsOfLevel(site.content.units, level) ==> Done(unit, completed)
    decreases |Remaining(site, CompletedLessons(s.db, u))|
  {
    var units := UnitsOfLevel(site.content.units, level);
    var completed := CompletedLessons(s.db, u);
    var i := FirstOpen(units, completed);
    if i == |units| {
      steps := [];
      NothingLeft(units, completed);
    } else {
      var lesson := FirstOpenUnitIsUnlocked(site.content, level, completed);
      var now := CompleteLesson(site, s, u, lesson);
      var t := Run(site, s, now);
      CompletedGrow(s.db, t.db, u);
      SubsetSize(Remaining(site, CompletedLessons(t.db, u)), Remaining(site, completed));
      var later := PathNeverDeadEnds(site, t, u, level);
      RunConcat(site, s, now, later);
      steps := now + later;
    }
  }

  /** Every request is a result that fails, or a waive. */
  predicate OnlyFailuresAndWaives(steps: seq<Step>, u: User) {
    forall i :: 0 <= i < |steps| && steps[i].Arrive? ==>
      (steps[i].req.SubmitResult? && steps[i].req.user == u && steps[i].req.score == 0.0)
      || (steps[i].req.Waive? && steps[i].req.user == u)
  }

  lemma OnlyConcat(a: seq<Step>, b: seq<Step>, u: User)
    requires OnlyFailuresAndWaives(a, u) && OnlyFailuresAndWaives(b, u)
    ensures OnlyFailuresAndWaives(a + b, u)
  {
  }

  lemma SixAreOnly(steps: seq<Step>, u: User, lesson: string)
    requires TwoFailuresAndAWaive(steps, u, lesson)
    ensures OnlyFailuresAndWaives(steps, u)
  {
    assert steps[..2][0] == steps[0] && steps[..2][1] == steps[1];
    assert steps[2..4][0] == steps[2] && steps[2..4][1] == steps[3];
    assert steps[4..][0] == steps[4] && steps[4..][1] == steps[5];
  }

  /**
   The escape hatch alone finishes the path: a learner who never passes anything can fail and waive
   through every unit, whatever the thresholds, so long as a score of zero fails.
   */
  lemma {:induction false} PathFinishesByWaiving(site: Site, s: System, u: User, level: string)
      returns (steps: seq<Step>)
    requires Coherent(s) && WellFounded(site.content, level)
    requires forall l :: l in site.content.lessons ==> site.content.lessons[l].passThreshold > 0.0
    ensures OnlyFailuresAndWaives(steps, u) && NoNewPass(s.db, Run(site, s, steps).db, u)
    ensures var completed := CompletedLessons(Run(site, s, steps).db, u);
            forall unit :: unit in UnitsOfLevel(site.content.units, level) ==> Done(unit, completed)
    decreases |Remaining(site, CompletedLessons(s.db, u))|
  {
    var units := UnitsOfLevel(site.content.units, level);
    var completed := CompletedLessons(s.db, u);
    if FirstOpen(units, completed) == |units| {
      steps := [];
      NothingLeft(units, completed);
    } else {
      var lesson := FirstOpenUnitIsUnlocked(site.content, level, completed);
      hide Next, PassedBy, Done, Coherent, Handles, TwoFailuresAndAWaive;
      var now := FailTwiceThenWaive(site, s, u, lesson);
      var t := Run(site, s, now);
      CompletedGrow(s.db, t.db, u);
      SubsetSize(Remaining(site, CompletedLessons(t.db, u)), Remaining(site, completed));
      var later := PathFinishesByWaiving(site, t, u, level);
      RunConcat(site, s, now, later);
      SixAreOnly(now, u, lesson);
      OnlyConcat(now, later, u);
      steps := now + later;
    }
  }
}
