/**
 Requests to the router on several threads at once: each cache call is one step, as its lock makes
 it, and provider calls go on in between.
 */
module RouterThreads {
  import opened Options
  import opened MemoryCaches
  import opened CacheRuns
  import opened Router

  /** Where a request is: about to consult the cache, waiting for a provider, about to keep an answer, done. */
  datatype Phase = Asking | Calling | Keeping(result: LLMResult) | Done(outcome: Outcome)

  /** A request on its way through its targets. */
  datatype Walker = Walker(x: Context, targets: seq<string>, at: nat, phase: Phase, lastError: Option<string>)

  /** The shared cache, the provider calls that succeeded, and all requests, answered ones included. */
  datatype Shared = Shared(store: Store, calls: seq<(CacheKey, LLMResult)>, walkers: map<nat, Walker>)

  datatype Step =
    | Arrive(id: nat, profile: string, request: Request)
    | Look(id: nat, now: real)
    | Receive(id: nat, reply: Reply)
    | Put(id: nat, now: real)

  function Begun(u: Setup, profile: string, request: Request): Walker
    requires profile in u.profiles
  {
    var config := u.profiles[profile];
    Walker(Context(profile, config, request, u.hasCache && config.cache),
           PolicyOrder(u.policy, profile, StaticTargets(config)), 0, Asking, None)
  }

  /** One step of one request; a step out of turn changes nothing. */
  function Next(u: Setup, s: Shared, step: Step): Shared {
    if step.Arrive? then
      if step.id in s.walkers || step.profile !in u.profiles then s
      else s.(walkers := s.walkers[step.id := Begun(u, step.profile, step.request)])
    else if step.id !in s.walkers then s
    else
      var w := s.walkers[step.id];
      match step
      case Look(id, now) =>
        if w.phase != Asking then s
        else if w.at >= |w.targets| then
          s.(walkers := s.walkers[id := w.(phase := Done(AllProvidersFailed(w.lastError)))])
        else
          var (hit, consulted) := Consult(w.x, s.store, w.targets[w.at], now);
          s.(store := consulted,
             walkers := s.walkers[id := w.(phase := if hit.Some? then Done(Answer(FromCache(hit.value))) else Calling)])
      case Receive(id, reply) =>
        if w.phase != Calling || w.at >= |w.targets| then s
        else if reply.Err? then
          s.(walkers := s.walkers[id := w.(phase := Asking, at := w.at + 1, lastError := Some(reply.error))])
        else
          s.(calls := s.calls + [(KeyOf(w.x, w.targets[w.at]), reply.result)],
             walkers := s.walkers[id := w.(phase := Keeping(reply.result))])
      case Put(id, now) =>
        if !w.phase.Keeping? || w.at >= |w.targets| then s
        else
          s.(store := Keep(u.config, w.x, s.store, w.targets[w.at], w.phase.result, now),
             walkers := s.walkers[id := w.(phase := Done(Answer(w.phase.result)))])
  }

  function Run(u: Setup, steps: seq<Step>): Shared {
    if steps == [] then Shared([], [], map[]) else Next(u, Run(u, steps[..|steps| - 1]), steps[|steps| - 1])
  }

  // ----- Faithful answers -----

  /** The call is one for this request, to one of its targets. */
  ghost predicate CallFor(w: Walker, call: (CacheKey, LLMResult)) {
    call.0.profile == w.x.profile && call.0.request == w.x.request && call.0.target in w.targets
  }

  /** What the request holds or has answered was answered by a provider to that very request. */
  ghost predicate Backed(w: Walker, calls: seq<(CacheKey, LLMResult)>) {
    match w.phase
    case Keeping(r) =>
      w.at < |w.targets| && exists i :: 0 <= i < |calls| && calls[i] == (KeyOf(w.x, w.targets[w.at]), r)
    case Done(Answer(a)) =>
      exists i :: 0 <= i < |calls| && CallFor(w, calls[i]) && (a == calls[i].1 || a == Free(calls[i].1))
    case _ => true
  }

  ghost predicate AllBacked(s: Shared) {
    forall id :: id in s.walkers ==> Backed(s.walkers[id], s.calls)
  }

  lemma BackedStays(w: Walker, calls: seq<(CacheKey, LLMResult)>, call: (CacheKey, LLMResult))
    requires Backed(w, calls)
    ensures Backed(w, calls + [call])
  {
    var more := calls + [call];
    assert forall i :: 0 <= i < |calls| ==> more[i] == calls[i];
  }

  lemma FewerEntriesStayFaithful(s: Store, t: Store, calls: seq<(CacheKey, LLMResult)>)
    requires Faithful(s, calls) && forall e :: e in t ==> e in s
    ensures Faithful(t, calls)
  {
  }

  lemma MoreCallsStayFaithful(s: Store, calls: seq<(CacheKey, LLMResult)>, call: (CacheKey, LLMResult))
    requires Faithful(s, calls)
    ensures Faithful(s, calls + [call])
  {
    var more := calls + [call];
    forall e | e in s
      ensures exists i :: 0 <= i < |more| && more[i].0 == e.key && e.value == ToCache(more[i].1)
    {
      var i :| 0 <= i < |calls| && calls[i].0 == e.key && e.value == ToCache(calls[i].1);
      assert more[i] == calls[i];
    }
  }

  lemma KeepIsFaithful(u: Setup, w: Walker, s: Store, now: real, calls: seq<(CacheKey, LLMResult)>)
    requires Faithful(s, calls) && w.phase.Keeping? && Backed(w, calls)
    ensures Faithful(Keep(u.config, w.x, s, w.targets[w.at], w.phase.result, now), calls)
  {
    var i :| 0 <= i < |calls| && calls[i] == (KeyOf(w.x, w.targets[w.at]), w.phase.result);
    forall e | e in Keep(u.config, w.x, s, w.targets[w.at], w.phase.result, now)
      ensures exists j :: 0 <= j < |calls| && calls[j].0 == e.key && e.value == ToCache(calls[j].1)
    {
      if e !in s { assert calls[i].0 == e.key && e.value == ToCache(calls[i].1); }
    }
  }

  lemma HitIsBacked(w: Walker, s: Store, now: real, calls: seq<(CacheKey, LLMResult)>)
    requires Faithful(s, calls) && w.at < |w.targets|
    ensures var (hit, consulted) := Consult(w.x, s, w.targets[w.at], now);
            && (forall e :: e in consulted ==> e in s)
            && (hit.Some? ==> Backed(w.(phase := Done(Answer(FromCache(hit.value)))), calls))
  {
    var (hit, consulted) := Consult(w.x, s, w.targets[w.at], now);
    if hit.Some? {
      var e := Lookup(s, KeyOf(w.x, w.targets[w.at])).value;
      var i :| 0 <= i < |calls| && calls[i].0 == e.key && e.value == ToCache(calls[i].1);
      assert FromCache(hit.value) == Free(calls[i].1) && CallFor(w, calls[i]);
    }
  }

  lemma StepIsFaithful(u: Setup, s: Shared, step: Step)
    requires Faithful(s.store, s.calls) && AllBacked(s)
    ensures var t := Next(u, s, step); Faithful(t.store, t.calls) && AllBacked(t)
  {
    if !step.Arrive? && step.id in s.walkers {
      var w := s.walkers[step.id];
      hide Consult, Keep, Faithful;
      match step
      case Look(id, now) =>
        if w.phase == Asking && w.at < |w.targets| {
          HitIsBacked(w, s.store, now, s.calls);
          FewerEntriesStayFaithful(s.store, Consult(w.x, s.store, w.targets[w.at], now).1, s.calls);
        }
      case Receive(id, reply) =>
        if w.phase == Calling && w.at < |w.targets| && reply.Ok? {
          var call := (KeyOf(w.x, w.targets[w.at]), reply.result);
          MoreCallsStayFaithful(s.store, s.calls, call);
          assert (s.calls + [call])[|s.calls|] == call;
          forall k | k in s.walkers ensures Backed(s.walkers[k], s.calls + [call]) {
            BackedStays(s.walkers[k], s.calls, call);
          }
        }
      case Put(id, now) =>
        if w.phase.Keeping? && w.at < |w.targets| {
          KeepIsFaithful(u, w, s.store, now, s.calls);
          assert CallFor(w, (KeyOf(w.x, w.targets[w.at]), w.phase.result));
        }
    }
  }

  /**
   However requests interleave, everything in the shared cache is a copy of a provider's answer to
   that very key, and every answer given is a provider's own, or a free copy of one, to the same
   request and one of its targets.
   */
  lemma {:induction false} InterleavedAnswersAreFaithful(u: Setup, steps: seq<Step>)
    ensures var s := Run(u, steps); Faithful(s.store, s.calls) && AllBacked(s)
  {
    if steps != [] {
      hide Next;
      InterleavedAnswersAreFaithful(u, steps[..|steps| - 1]);
      StepIsFaithful(u, Run(u, steps[..|steps| - 1]), steps[|steps| - 1]);
    }
  }

  // ----- Cost -----

  /** What a request has to report for its answer, given or about to be. */
  function CostOf(w: Walker): real {
    match w.phase
    case Keeping(r) => r.usage.costUsd
    case Done(Answer(a)) => a.usage.costUsd
    case _ => 0.0
  }

  ghost function Reported(walkers: map<nat, Walker>): real {
    if walkers == map[] then 0.0
    else
      var id :| id in walkers;
      CostOf(walkers[id]) + Reported(walkers - {id})
  }

  lemma {:induction false} ReportedWithout(walkers: map<nat, Walker>, id: nat)
    requires id in walkers
    ensures Reported(walkers) == CostOf(walkers[id]) + Reported(walkers - {id})
    decreases |walkers|
  {
    var k :| k in walkers && Reported(walkers) == CostOf(walkers[k]) + Reported(walkers - {k});
    if k != id {
      ReportedWithout(walkers - {k}, id);
      ReportedWithout(walkers - {id}, k);
      assert walkers - {k} - {id} == walkers - {id} - {k};
    }
  }

  lemma ReportedAfter(walkers: map<nat, Walker>, id: nat, w: Walker)
    ensures Reported(walkers[id := w])
         == Reported(walkers) - (if id in walkers then CostOf(walkers[id]) else 0.0) + CostOf(w)
  {
    ReportedWithout(walkers[id := w], id);
    if id in walkers {
      ReportedWithout(walkers, id);
      assert walkers[id := w] - {id} == walkers - {id};
    } else {
      assert walkers[id := w] - {id} == walkers;
    }
  }

  lemma HitIsFree(x: Context, s: Store, target: string, now: real)
    ensures var hit := Consult(x, s, target, now).0; hit.Some? ==> FromCache(hit.value).usage.costUsd == 0.0
  {
  }

  /** What a step adds to the calls is what it adds to the reports of the request that takes it. */
  lemma StepCost(u: Setup, s: Shared, step: Step)
    ensures var t := Next(u, s, step);
            t != s ==>
              && step.id in t.walkers && t.walkers == s.walkers[step.id := t.walkers[step.id]]
              && Spent(t.calls) - Spent(s.calls)
                 == CostOf(t.walkers[step.id]) - if step.id in s.walkers then CostOf(s.walkers[step.id]) else 0.0
  {
    var t := Next(u, s, step);
    if step.Look? && step.id in s.walkers && s.walkers[step.id].at < |s.walkers[step.id].targets| {
      var asking := s.walkers[step.id];
      HitIsFree(asking.x, s.store, asking.targets[asking.at], step.now);
    }
    if |t.calls| > 0 && t.calls != s.calls { assert t.calls[..|t.calls| - 1] == s.calls; }
  }

  lemma StepConservesCost(u: Setup, s: Shared, step: Step)
    requires Spent(s.calls) == Reported(s.walkers)
    ensures var t := Next(u, s, step); Spent(t.calls) == Reported(t.walkers)
  {
    hide *;
    StepCost(u, s, step);
    var t := Next(u, s, step);
    if t != s { ReportedAfter(s.walkers, step.id, t.walkers[step.id]); }
  }

  /** However requests interleave, what they report adds up to what the providers charged. */
  lemma {:induction false} InterleavedCostIsConserved(u: Setup, steps: seq<Step>)
    ensures var s := Run(u, steps); Spent(s.calls) == Reported(s.walkers)
  {
    if steps != [] {
      hide Next;
      InterleavedCostIsConserved(u, steps[..|steps| - 1]);
      StepConservesCost(u, Run(u, steps[..|steps| - 1]), steps[|steps| - 1]);
    }
  }
}
