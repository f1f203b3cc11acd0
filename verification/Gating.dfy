/**
 Gating of a learning path. A unit's status is derived from the units and the lessons completed
 so far; a lesson is open unless the unit that owns it is locked.
 */
module Gating {
  import opened Options

  datatype Unit = Unit(id: string, level: string, lessons: seq<string>, unlockType: string, unlockRequires: seq<string>)

  datatype Lesson = Lesson(level: string, passThreshold: real)

  datatype Status = Locked | Available | Complete

  /** The synced content; unit ids are a primary key. */
  datatype Content = Content(units: seq<Unit>, lessons: map<string, Lesson>)

  ghost predicate DistinctIds(units: seq<Unit>) {
    forall i, j :: 0 <= i < j < |units| ==> units[i].id != units[j].id
  }

  // ----- Status -----

  predicate Done(u: Unit, completed: set<string>) {
    u.lessons != [] && forall l :: l in u.lessons ==> l in completed
  }

  function CompleteUnits(units: seq<Unit>, completed: set<string>): set<string> {
    set u | u in units && Done(u, completed) :: u.id
  }

  predicate UnlockOk(u: Unit, completeUnits: set<string>, completed: set<string>) {
    u.unlockType == "none" || forall r :: r in u.unlockRequires ==> r in completeUnits || r in completed
  }

  function StatusOf(units: seq<Unit>, completed: set<string>, u: Unit): Status {
    if u.id in CompleteUnits(units, completed) then Complete
    else if UnlockOk(u, CompleteUnits(units, completed), completed) then Available
    else Locked
  }

  method ComputeUnitStatus(units: seq<Unit>, completed: set<string>) returns (out: map<string, Status>)
    requires DistinctIds(units)
    ensures out.Keys == set u | u in units :: u.id
    ensures forall u :: u in units ==> out[u.id] == StatusOf(units, completed, u)
    ensures forall u :: u in units ==>
              && (out[u.id] == Complete <==> Finished(u, completed))
              && (out[u.id] == Locked <==>
                    && !Finished(u, completed) && u.unlockType != "none"
                    && exists r :: r in u.unlockRequires && Unmet(units, completed, r))
  {
    var completeUnits := CompleteUnits(units, completed);
    out := map[];
    for i := 0 to |units|
      invariant out.Keys == set u | u in units[..i] :: u.id
      invariant forall k :: 0 <= k < i ==>
                  units[k].id in out && out[units[k].id] == StatusOf(units, completed, units[k])
    {
      var u := units[i];
      var status := Locked;
      if u.id in completeUnits {
        status := Complete;
      } else if UnlockOk(u, completeUnits, completed) {
        status := Available;
      }
      out := out[u.id := status];
      assert units[..i + 1] == units[..i] + [u];
    }
    assert units[..|units|] == units;
    forall u | u in units { LockedIff(units, completed, u); }
  }

  /** A requirement that no completed lesson and no finished unit meets. */
  ghost predicate Unmet(units: seq<Unit>, completed: set<string>, r: string) {
    && r !in completed
    && forall v :: v in units && v.id == r ==> v.lessons == [] || exists l :: l in v.lessons && l !in completed
  }

  /** The unit has lessons, and all of them are completed. */
  ghost predicate Finished(u: Unit, completed: set<string>) {
    |u.lessons| > 0 && forall l :: l in u.lessons ==> l in completed
  }

  /** A unit is complete exactly when it is finished, and otherwise locked exactly by an unmet requirement. */
  lemma LockedIff(units: seq<Unit>, completed: set<string>, u: Unit)
    requires DistinctIds(units) && u in units
    ensures StatusOf(units, completed, u) == Complete <==> Finished(u, completed)
    ensures StatusOf(units, completed, u) == Locked <==>
              !Finished(u, completed) && u.unlockType != "none"
              && exists r :: r in u.unlockRequires && Unmet(units, completed, r)
  {
    forall v | v in units && v.id == u.id ensures v == u {
      var i :| 0 <= i < |units| && units[i] == u;
      var j :| 0 <= j < |units| && units[j] == v;
    }
    forall r | r in u.unlockRequires
      ensures Unmet(units, completed, r) <==> r !in CompleteUnits(units, completed) && r !in completed
    {
      assert r in CompleteUnits(units, completed) <==> exists v :: v in units && v.id == r && Done(v, completed);
    }
  }

  // ----- Owning units -----

  function UnitsOfLevel(units: seq<Unit>, level: string): (r: seq<Unit>)
    ensures forall u :: u in r <==> u in units && u.level == level
  {
    if units == [] then []
    else (if units[0].level == level then [units[0]] else []) + UnitsOfLevel(units[1..], level)
  }

  function Owner(units: seq<Unit>, lesson: string): (r: Option<Unit>)
    ensures r.Some? ==> r.value in units && lesson in r.value.lessons
    ensures r.None? ==> forall u :: u in units ==> lesson !in u.lessons
  {
    if units == [] then None
    else if lesson in units[0].lessons then Some(units[0])
    else Owner(units[1..], lesson)
  }

  predicate LessonUnlocked(c: Content, lesson: string, completed: set<string>)
    requires lesson in c.lessons
  {
    var units := UnitsOfLevel(c.units, c.lessons[lesson].level);
    var owning := Owner(units, lesson);
    owning.None? || StatusOf(units, completed, owning.value) != Locked
  }

  /** The unit that gates a lesson: the first of the lesson's level that lists it. */
  ghost predicate Gates(c: Content, lesson: string, k: nat)
    requires lesson in c.lessons
  {
    var level := c.lessons[lesson].level;
    && k < |c.units| && c.units[k].level == level && lesson in c.units[k].lessons
    && forall i :: 0 <= i < k && c.units[i].level == level ==> lesson !in c.units[i].lessons
  }

  lemma OwnerSkips(u: Unit, rest: seq<Unit>, lesson: string)
    requires lesson !in u.lessons
    ensures Owner([u] + rest, lesson) == Owner(rest, lesson)
  {
    assert ([u] + rest)[1..] == rest;
  }

  lemma OwnerTakes(u: Unit, rest: seq<Unit>, lesson: string)
    requires lesson in u.lessons
    ensures Owner([u] + rest, lesson) == Some(u)
  {
  }

  lemma {:induction false} OwnerOfLevel(units: seq<Unit>, level: string, lesson: string, k: nat)
    requires k < |units| && units[k].level == level && lesson in units[k].lessons
    requires forall i :: 0 <= i < k && units[i].level == level ==> lesson !in units[i].lessons
    ensures Owner(UnitsOfLevel(units, level), lesson) == Some(units[k])
  {
    hide Owner;
    var u, more := units[0], units[1..];
    var rest := UnitsOfLevel(more, level);
    assert UnitsOfLevel(units, level) == (if u.level == level then [u] else []) + rest;
    if k == 0 {
      OwnerTakes(u, rest, lesson);
    } else {
      assert forall i :: 0 <= i < |more| ==> more[i] == units[i + 1];
      OwnerOfLevel(more, level, lesson, k - 1);
      if u.level == level { OwnerSkips(u, rest, lesson); } else { assert [] + rest == rest; }
    }
  }

  /** A lesson is closed exactly while the unit that gates it is unfinished and requires something unmet. */
  lemma LessonClosedIff(c: Content, lesson: string, completed: set<string>)
    requires DistinctIds(c.units) && lesson in c.lessons
    ensures var level := UnitsOfLevel(c.units, c.lessons[lesson].level);
            !LessonUnlocked(c, lesson, completed) <==>
              exists k: nat ::
                && Gates(c, lesson, k) && !Finished(c.units[k], completed) && c.units[k].unlockType != "none"
                && exists r :: r in c.units[k].unlockRequires && Unmet(level, completed, r)
  {
    var name := c.lessons[lesson].level;
    var level := UnitsOfLevel(c.units, name);
    LevelUnitsDistinct(c.units, name);
    forall k: nat | Gates(c, lesson, k)
      ensures Owner(level, lesson) == Some(c.units[k]) && c.units[k] in level
    {
      OwnerOfLevel(c.units, name, lesson, k);
    }
    if Owner(level, lesson).Some? {
      var u := Owner(level, lesson).value;
      LockedIff(level, completed, u);
      var k := FirstGate(c.units, name, lesson, u);
      assert Gates(c, lesson, k);
    }
  }

  lemma {:induction false} FirstGate(units: seq<Unit>, level: string, lesson: string, u: Unit) returns (k: nat)
    requires u in units && u.level == level && lesson in u.lessons
    ensures k < |units| && units[k].level == level && lesson in units[k].lessons
    ensures forall i :: 0 <= i < k && units[i].level == level ==> lesson !in units[i].lessons
  {
    if units[0].level == level && lesson in units[0].lessons {
      k := 0;
    } else {
      var j := FirstGate(units[1..], level, lesson, u);
      k := j + 1;
    }
  }

  lemma {:induction false} LevelUnitsDistinct(units: seq<Unit>, level: string)
    requires DistinctIds(units)
    ensures DistinctIds(UnitsOfLevel(units, level))
  {
    if units != [] {
      LevelUnitsDistinct(units[1..], level);
      var rest := UnitsOfLevel(units[1..], level);
      forall u | u in rest ensures u.id != units[0].id {
        assert u in units[1..];
      }
    }
  }

  method IsLessonUnlocked(c: Content, lesson: string, completed: set<string>) returns (open: bool)
    requires DistinctIds(c.units) && lesson in c.lessons
    ensures open == LessonUnlocked(c, lesson, completed)
  {
    var units := UnitsOfLevel(c.units, c.lessons[lesson].level);
    LevelUnitsDistinct(c.units, c.lessons[lesson].level);
    var owning := Owner(units, lesson);
    if owning.None? {
      return true;
    }
    var statuses := ComputeUnitStatus(units, completed);
    return statuses[owning.value.id] != Locked;
  }

  // ----- Statuses only move forward -----

  predicate NoFurtherThan(a: Status, b: Status) {
    a == Locked || b == Complete || a == b
  }

  /** More completed lessons never take a status back: locked, then available, then complete. */
  lemma StatusOnlyAdvances(units: seq<Unit>, less: set<string>, more: set<string>, u: Unit)
    requires less <= more
    ensures NoFurtherThan(StatusOf(units, less, u), StatusOf(units, more, u))
  {
    assert CompleteUnits(units, less) <= CompleteUnits(units, more) by {
      forall v | v in units && Done(v, less) ensures Done(v, more) {
      }
    }
  }

  lemma UnlockedStaysUnlocked(c: Content, lesson: string, less: set<string>, more: set<string>)
    requires lesson in c.lessons && less <= more && LessonUnlocked(c, lesson, less)
    ensures LessonUnlocked(c, lesson, more)
  {
    var units := UnitsOfLevel(c.units, c.lessons[lesson].level);
    var owning := Owner(units, lesson);
    if owning.Some? {
      StatusOnlyAdvances(units, less, more, owning.value);
    }
  }

  // ----- Paths without dead ends -----

  ghost predicate Precedes(units: seq<Unit>, i: nat, r: string)
    requires i <= |units|
  {
    exists j :: 0 <= j < i && (r == units[j].id || r in units[j].lessons)
  }

  /** Every unit has lessons of its level, and asks only for earlier units or their lessons. */
  ghost predicate WellFounded(c: Content, level: string) {
    var units := UnitsOfLevel(c.units, level);
    && DistinctIds(units)
    && (forall i :: 0 <= i < |units| ==> units[i].lessons != [])
    && (forall i :: 0 <= i < |units| ==>
          forall l :: l in units[i].lessons ==> l in c.lessons && c.lessons[l].level == level)
    && (forall i :: 0 <= i < |units| ==> forall r :: r in units[i].unlockRequires ==> Precedes(units, i, r))
  }

  /** The position of the first unit not yet done. */
  function FirstOpen(units: seq<Unit>, completed: set<string>): (i: nat)
    ensures i <= |units|
    ensures forall k :: 0 <= k < i ==> Done(units[k], completed)
    ensures i < |units| ==> !Done(units[i], completed)
  {
    if units == [] || !Done(units[0], completed) then 0 else 1 + FirstOpen(units[1..], completed)
  }

  lemma {:induction false} OwnerIsFirst(units: seq<Unit>, lesson: string, i: nat)
    requires i < |units| && lesson in units[i].lessons
    requires forall k :: 0 <= k < i ==> lesson !in units[k].lessons
    ensures Owner(units, lesson) == Some(units[i])
  {
    if i > 0 {
      assert lesson !in units[0].lessons;
      OwnerIsFirst(units[1..], lesson, i - 1);
    }
  }

  lemma FirstOpenIsNotComplete(units: seq<Unit>, completed: set<string>, i: nat)
    requires DistinctIds(units) && i < |units| && !Done(units[i], completed)
    ensures units[i].id !in CompleteUnits(units, completed)
  {
    forall v | v in units && Done(v, completed) ensures v.id != units[i].id {
      var k :| 0 <= k < |units| && units[k] == v;
    }
  }

  lemma EarlierRequirementMet(units: seq<Unit>, completed: set<string>, i: nat, r: string)
    requires i <= |units| && Precedes(units, i, r)
    requires forall k :: 0 <= k < i ==> Done(units[k], completed)
    ensures r in CompleteUnits(units, completed) || r in completed
  {
    var j :| 0 <= j < i && (r == units[j].id || r in units[j].lessons);
    assert units[j] in units && Done(units[j], completed);
  }

  /** The first unfinished unit is open, and so is each of its lessons still to do. */
  lemma FirstOpenUnitIsUnlocked(c: Content, level: string, completed: set<string>) returns (lesson: string)
    requires WellFounded(c, level)
    requires FirstOpen(UnitsOfLevel(c.units, level), completed) < |UnitsOfLevel(c.units, level)|
    ensures var units := UnitsOfLevel(c.units, level);
            var u := units[FirstOpen(units, completed)];
            StatusOf(units, completed, u) == Available && lesson in u.lessons
    ensures lesson in c.lessons && lesson !in completed && LessonUnlocked(c, lesson, completed)
  {
    var units := UnitsOfLevel(c.units, level);
    var i := FirstOpen(units, completed);
    var u := units[i];
    forall r | r in u.unlockRequires ensures r in CompleteUnits(units, completed) || r in completed {
      EarlierRequirementMet(units, completed, i, r);
    }
    FirstOpenIsNotComplete(units, completed, i);
    lesson :| lesson in u.lessons && lesson !in completed;
    forall k | 0 <= k < i ensures lesson !in units[k].lessons {
      assert Done(units[k], completed);
    }
    OwnerIsFirst(units, lesson, i);
  }
}
