/**
 The AI router: a profile's targets in policy order, each tried through the response cache.
 What a provider does is arbitrary: every attempt brings the times the cache is consulted at and
 the reply or error of the provider.
 */
module Router {
  import opened Options
  import opened MemoryCaches
  import opened CacheRuns

  datatype Msg = Msg(role: string, content: string)

  datatype Request = Request(system: string, messages: seq<Msg>, temperature: real, maxTokens: int)

  datatype Usage = Usage(inputTokens: int, outputTokens: int, costUsd: real)

  datatype LLMResult = LLMResult(text: string, provider: string, model: string, usage: Usage)

  datatype ProfileConfig = ProfileConfig(
    primary: string, fallback: Option<string>, cache: bool, cacheTtl: Option<int>)

  /** The full request a cached answer is filed under; the hash of the source is injective here. */
  datatype CacheKey = CacheKey(profile: string, target: string, request: Request)

  /** The encoded result as it sits in the cache. */
  datatype Blob = Blob(text: string, provider: string, model: string, inputTokens: int, outputTokens: int,
                       costUsd: real)

  type Store = seq<Entry<CacheKey, Blob>>

  datatype Reply = Ok(result: LLMResult) | Err(error: string)

  datatype Attempt = Attempt(askedAt: real, reply: Reply, doneAt: real)

  datatype Outcome =
    | Answer(result: LLMResult)
    | UnknownProfile
    | AllProvidersFailed(lastError: Option<string>)

  function ToCache(r: LLMResult): Blob {
    Blob(r.text, r.provider, r.model, r.usage.inputTokens, r.usage.outputTokens, r.usage.costUsd)
  }

  function FromCache(b: Blob): LLMResult {
    LLMResult(b.text, b.provider, b.model, Usage(b.inputTokens, b.outputTokens, b.costUsd).(costUsd := 0.0))
  }

  /** The same answer with nothing left to pay. */
  function Free(r: LLMResult): LLMResult {
    r.(usage := r.usage.(costUsd := 0.0))
  }

  // ----- Policies -----

  datatype Policy = StaticPolicy | BanditPolicy(weights: map<string, seq<string>>)

  function AppendMissing(ordered: seq<string>, targets: seq<string>): seq<string>
    decreases targets
  {
    if targets == [] then ordered
    else AppendMissing(if targets[0] in ordered then ordered else ordered + [targets[0]], targets[1..])
  }

  function PolicyOrder(policy: Policy, profile: string, staticTargets: seq<string>): seq<string> {
    match policy
    case StaticPolicy => staticTargets
    case BanditPolicy(weights) =>
      if profile !in weights || weights[profile] == [] then staticTargets
      else AppendMissing(weights[profile], staticTargets)
  }

  method Order(policy: Policy, profile: string, staticTargets: seq<string>) returns (ordered: seq<string>)
    ensures ordered == PolicyOrder(policy, profile, staticTargets)
  {
    if policy.StaticPolicy? || profile !in policy.weights || policy.weights[profile] == [] {
      return staticTargets;
    }
    ordered := policy.weights[profile];
    for i := 0 to |staticTargets|
      invariant AppendMissing(ordered, staticTargets[i..])
             == AppendMissing(policy.weights[profile], staticTargets)
    {
      if staticTargets[i] !in ordered {
        ordered := ordered + [staticTargets[i]];
      }
    }
  }

  lemma {:induction false} AppendMissingKeeps(ordered: seq<string>, targets: seq<string>)
    ensures ordered <= AppendMissing(ordered, targets)
    ensures forall t :: t in targets ==> t in AppendMissing(ordered, targets)
    ensures forall t :: t in AppendMissing(ordered, targets) ==> t in ordered || t in targets
    ensures (forall i, j :: 0 <= i < j < |ordered| ==> ordered[i] != ordered[j]) ==>
              var r := AppendMissing(ordered, targets);
              forall i, j :: 0 <= i < j < |r| ==> r[i] != r[j]
    decreases targets
  {
    if targets != [] {
      var next := if targets[0] in ordered then ordered else ordered + [targets[0]];
      AppendMissingKeeps(next, targets[1..]);
      assert targets[0] in next;
      assert forall t :: t in targets ==> t == targets[0] || t in targets[1..];
    }
  }

  /** The order learned for a profile; empty if there is none. */
  function LearnedOrder(policy: Policy, profile: string): seq<string> {
    if policy.BanditPolicy? && profile in policy.weights then policy.weights[profile] else []
  }

  /**
   No policy loses a target of the static order, a learned order comes first, unchanged, and nothing
   else comes in.
   */
  lemma PolicyKeepsStaticTargets(policy: Policy, profile: string, staticTargets: seq<string>)
    ensures var order, learned := PolicyOrder(policy, profile, staticTargets), LearnedOrder(policy, profile);
            && (forall t :: t in staticTargets ==> t in order)
            && learned <= order
            && (forall t :: t in order ==> t in learned || t in staticTargets)
            && (learned == [] ==> order == staticTargets)
  {
    AppendMissingKeeps(LearnedOrder(policy, profile), staticTargets);
  }

  // ----- One request -----

  function StaticTargets(p: ProfileConfig): seq<string> {
    [p.primary] + if p.fallback.Some? && p.fallback.value != "" then [p.fallback.value] else []
  }

  /** What stays fixed while one request walks its targets. */
  datatype Context = Context(profile: string, config: ProfileConfig, request: Request, useCache: bool)

  function KeyOf(x: Context, target: string): CacheKey {
    CacheKey(x.profile, target, x.request)
  }

  /** The cache's answer for one target. */
  function Consult(x: Context, s: Store, target: string, now: real): (Option<Blob>, Store) {
    if x.useCache then AfterGet(s, KeyOf(x, target), now) else (None, s)
  }

  function Keep(c: Config, x: Context, s: Store, target: string, r: LLMResult, now: real): Store {
    if x.useCache
    then AfterSet(s, NewEntry(c.defaultTtl, KeyOf(x, target), ToCache(r), x.config.cacheTtl, now), c.maxEntries)
    else s
  }

  /** How a walk ends: the outcome, the cache, and the provider call that succeeded, if one did. */
  datatype Walked = Walked(outcome: Outcome, store: Store, call: Option<(CacheKey, LLMResult)>)

  function Walk(c: Config, x: Context, s: Store, targets: seq<string>, attempts: seq<Attempt>,
                lastError: Option<string>): Walked
    requires |attempts| == |targets|
    decreases targets
  {
    if targets == [] then Walked(AllProvidersFailed(lastError), s, None)
    else
      var (hit, consulted) := Consult(x, s, targets[0], attempts[0].askedAt);
      if hit.Some? then Walked(Answer(FromCache(hit.value)), consulted, None)
      else match attempts[0].reply
        case Err(e) => Walk(c, x, consulted, targets[1..], attempts[1..], Some(e))
        case Ok(r) =>
          Walked(Answer(r), Keep(c, x, consulted, targets[0], r, attempts[0].doneAt), Some((KeyOf(x, targets[0]), r)))
  }

  class AIRouter {
    const profiles: map<string, ProfileConfig>
    const policy: Policy
    const cache: MemoryCache?<CacheKey, Blob>

    constructor (profiles: map<string, ProfileConfig>, policy: Policy, cache: MemoryCache?<CacheKey, Blob>)
      ensures this.profiles == profiles && this.policy == policy && this.cache == cache
    {
      this.profiles := profiles;
      this.policy := policy;
      this.cache := cache;
    }

    function ContextOf(profile: string, request: Request): Context
      requires profile in profiles
    {
      Context(profile, profiles[profile], request, cache != null && profiles[profile].cache)
    }

    function TargetsOf(profile: string): seq<string>
      requires profile in profiles
    {
      PolicyOrder(policy, profile, StaticTargets(profiles[profile]))
    }

    method Run(profile: string, request: Request, attempts: seq<Attempt>) returns (outcome: Outcome)
      requires cache != null ==> cache.Valid()
      requires profile in profiles ==> |attempts| == |TargetsOf(profile)|
      modifies if cache == null then {} else {cache}
      ensures cache != null ==> cache.Valid()
      ensures profile !in profiles ==>
                outcome == UnknownProfile && (cache != null ==> cache.store == old(cache.store))
      ensures profile in profiles ==>
                var config := Config(if cache == null then 0 else cache.defaultTtl,
                                     if cache == null then 0 else cache.maxEntries);
                var w := Walk(config, ContextOf(profile, request), if cache == null then [] else old(cache.store),
                              TargetsOf(profile), attempts, None);
                outcome == w.outcome && (cache != null ==> cache.store == w.store)
    {
      if profile !in profiles {
        return UnknownProfile;
      }
      var x := ContextOf(profile, request);
      ghost var config := Config(if cache == null then 0 else cache.defaultTtl,
                                 if cache == null then 0 else cache.maxEntries);
      ghost var store := if cache == null then [] else cache.store;
      var targets := Order(policy, profile, StaticTargets(x.config));
      ghost var whole := Walk(config, x, store, targets, attempts, None);
      var lastError: Option<string> := None;
      var i := 0;
      while i < |targets|
        invariant 0 <= i <= |targets|
        invariant cache != null ==> cache.Valid() && cache.store == store
        invariant whole == Walk(config, x, store, targets[i..], attempts[i..], lastError)
      {
        if x.useCache {
          var hit := cache.Get(KeyOf(x, targets[i]), attempts[i].askedAt);
          store := cache.store;
          if hit.Some? {
            return Answer(FromCache(hit.value));
          }
        }
        match attempts[i].reply
        case Err(e) =>
          lastError := Some(e);
          i := i + 1;
        case Ok(r) =>
          if x.useCache {
            cache.Set(KeyOf(x, targets[i]), ToCache(r), x.config.cacheTtl, attempts[i].doneAt);
          }
          return Answer(r);
      }
      outcome := AllProvidersFailed(lastError);
    }
  }

  // ----- Which target answers -----

  ghost predicate InOrder(attempts: seq<Attempt>) {
    forall i, j :: 0 <= i < j < |attempts| ==> attempts[i].askedAt <= attempts[j].askedAt
  }

  /** Target `i` can answer: its key is a live entry of the cache the request found, or its provider replies. */
  ghost predicate Serves(x: Context, s: Store, targets: seq<string>, attempts: seq<Attempt>, i: nat)
    requires |attempts| == |targets| && i < |targets|
  {
    Consult(x, s, targets[i], attempts[i].askedAt).0.Some? || attempts[i].reply.Ok?
  }

  function ServedBy(x: Context, s: Store, targets: seq<string>, attempts: seq<Attempt>, i: nat): LLMResult
    requires |attempts| == |targets| && i < |targets| && Serves(x, s, targets, attempts, i)
  {
    var hit := Consult(x, s, targets[i], attempts[i].askedAt).0;
    if hit.Some? then FromCache(hit.value) else attempts[i].reply.result
  }

  lemma {:induction false} WithoutOthers<K, V>(s: seq<Entry<K, V>>, key: K, other: K)
    requires key != other
    ensures Lookup(Without(s, other), key) == Lookup(s, key)
  {
    BehindWithout(s, key, other);
  }

  /** A miss leaves every later answer of the cache as it was. */
  lemma MissChangesNoAnswer(x: Context, s: Store, missed: string, at: real, target: string, now: real)
    requires Distinct(s) && at <= now
    requires Consult(x, s, missed, at).0.None?
    ensures Consult(x, Consult(x, s, missed, at).1, target, now).0 == Consult(x, s, target, now).0
    ensures Distinct(Consult(x, s, missed, at).1)
  {
    if x.useCache {
      WithoutDistinct(s, KeyOf(x, missed));
      if target != missed {
        WithoutOthers(s, KeyOf(x, target), KeyOf(x, missed));
      }
    }
  }

  /**
   A request fails exactly when no target can answer, with the error of the last one; otherwise
   the first target in policy order that can answer does, from the cache if it has a live entry.
   */
  lemma {:induction false} FirstServingTargetAnswers(c: Config, x: Context, s: Store, targets: seq<string>,
                                                     attempts: seq<Attempt>, lastError: Option<string>)
    requires |attempts| == |targets| && InOrder(attempts) && Distinct(s)
    ensures var outcome := Walk(c, x, s, targets, attempts, lastError).outcome;
            && (outcome.AllProvidersFailed? <==> forall i: nat | i < |targets| :: !Serves(x, s, targets, attempts, i))
            && (outcome.AllProvidersFailed? ==>
                  if targets == [] then outcome.lastError == lastError
                  else
                    && attempts[|targets| - 1].reply.Err?
                    && outcome.lastError == Some(attempts[|targets| - 1].reply.error))
            && (forall i: nat | i < |targets| && Serves(x, s, targets, attempts, i) ::
                  (forall j: nat | j < i :: !Serves(x, s, targets, attempts, j)) ==>
                    outcome == Answer(ServedBy(x, s, targets, attempts, i)))
    decreases targets
  {
    if targets != [] && !Serves(x, s, targets, attempts, 0) {
      var rest, later := targets[1..], attempts[1..];
      var consulted := Consult(x, s, targets[0], attempts[0].askedAt).1;
      MissChangesNoAnswer(x, s, targets[0], attempts[0].askedAt, targets[0], attempts[0].askedAt);
      FirstServingTargetAnswers(c, x, consulted, rest, later, Some(attempts[0].reply.error));
      forall i: nat | i < |rest|
        ensures Consult(x, consulted, rest[i], later[i].askedAt).0
                == Consult(x, s, targets[i + 1], attempts[i + 1].askedAt).0
        ensures Serves(x, consulted, rest, later, i) == Serves(x, s, targets, attempts, i + 1)
      {
        MissChangesNoAnswer(x, s, targets[0], attempts[0].askedAt, rest[i], later[i].askedAt);
      }
      assert forall i: nat | 0 < i < |targets| ::
        Serves(x, s, targets, attempts, i) == Serves(x, consulted, rest, later, i - 1);
    }
  }

  // ----- Runs of the router -----

  datatype Job = Job(profile: string, request: Request, attempts: seq<Attempt>)

  /** The router, its cache and everything it has paid for and answered so far. */
  datatype World = World(
    store: Store, calls: seq<(CacheKey, LLMResult)>, outcomes: seq<Outcome>)

  datatype Setup = Setup(config: Config, profiles: map<string, ProfileConfig>, policy: Policy, hasCache: bool)

  ghost predicate Fits(u: Setup, job: Job) {
    job.profile in u.profiles ==>
      |job.attempts| == |PolicyOrder(u.policy, job.profile, StaticTargets(u.profiles[job.profile]))|
  }

  function WalkOf(u: Setup, s: Store, job: Job): Walked
    requires Fits(u, job) && job.profile in u.profiles
  {
    var config := u.profiles[job.profile];
    Walk(u.config, Context(job.profile, config, job.request, u.hasCache && config.cache), s,
         PolicyOrder(u.policy, job.profile, StaticTargets(config)), job.attempts, None)
  }

  function Serve(u: Setup, w: World, job: Job): World
    requires Fits(u, job)
  {
    if job.profile !in u.profiles then w.(outcomes := w.outcomes + [UnknownProfile])
    else
      var walked := WalkOf(u, w.store, job);
      World(walked.store,
            if walked.call.Some? then w.calls + [walked.call.value] else w.calls,
            w.outcomes + [walked.outcome])
  }

  function ServeAll(u: Setup, jobs: seq<Job>): World
    requires forall job :: job in jobs ==> Fits(u, job)
  {
    if jobs == [] then World([], [], [])
    else Serve(u, ServeAll(u, jobs[..|jobs| - 1]), jobs[|jobs| - 1])
  }

  /** Every cached answer is an answer some provider gave to exactly that request. */
  ghost predicate Faithful(s: Store, calls: seq<(CacheKey, LLMResult)>) {
    forall e :: e in s ==> exists i :: 0 <= i < |calls| && calls[i].0 == e.key && e.value == ToCache(calls[i].1)
  }

  lemma FaithfulKeep(c: Config, x: Context, s: Store, target: string, r: LLMResult, now: real,
                     calls: seq<(CacheKey, LLMResult)>)
    requires Faithful(s, calls)
    ensures Faithful(Keep(c, x, s, target, r, now), calls + [(KeyOf(x, target), r)])
  {
    var more := calls + [(KeyOf(x, target), r)];
    assert more[|calls|] == (KeyOf(x, target), r);
    forall e | e in Keep(c, x, s, target, r, now)
      ensures exists i :: 0 <= i < |more| && more[i].0 == e.key && e.value == ToCache(more[i].1)
    {
      if e in s {
        var i :| 0 <= i < |calls| && calls[i].0 == e.key && e.value == ToCache(calls[i].1);
        assert more[i] == calls[i];
      }
    }
  }

  /** One walk: the cache stays faithful, and an answer is the call it made or a free copy of an earlier one. */
  lemma {:induction false} WalkIsFaithful(c: Config, x: Context, s: Store, targets: seq<string>, attempts: seq<Attempt>,
                                          lastError: Option<string>, calls: seq<(CacheKey, LLMResult)>)
    requires |attempts| == |targets| && Faithful(s, calls)
    ensures var w := Walk(c, x, s, targets, attempts, lastError);
            && Faithful(w.store, if w.call.Some? then calls + [w.call.value] else calls)
            && (w.call.Some? ==>
                  w.outcome == Answer(w.call.value.1) && w.call.value.0.profile == x.profile
                      && w.call.value.0.request == x.request
                  && w.call.value.0.target in targets)
            && (w.outcome.Answer? && w.call.None? ==>
                  exists i :: 0 <= i < |calls| && w.outcome == Answer(Free(calls[i].1))
                    && calls[i].0.profile == x.profile && calls[i].0.request == x.request
                        && calls[i].0.target in targets)
    decreases targets
  {
    if targets != [] {
      var (hit, consulted) := Consult(x, s, targets[0], attempts[0].askedAt);
      assert Faithful(consulted, calls);
      if hit.Some? {
        var e := Lookup(s, KeyOf(x, targets[0])).value;
        var i :| 0 <= i < |calls| && calls[i].0 == e.key && e.value == ToCache(calls[i].1);
        assert FromCache(hit.value) == Free(calls[i].1);
      } else {
        match attempts[0].reply
        case Err(e) => WalkIsFaithful(c, x, consulted, targets[1..], attempts[1..], Some(e), calls);
        case Ok(r) => FaithfulKeep(c, x, consulted, targets[0], r, attempts[0].doneAt, calls);
      }
    }
  }

  lemma {:induction false} RunIsFaithful(u: Setup, jobs: seq<Job>)
    requires forall job :: job in jobs ==> Fits(u, job)
    ensures Faithful(ServeAll(u, jobs).store, ServeAll(u, jobs).calls)
  {
    if jobs != [] {
      var before, job := jobs[..|jobs| - 1], jobs[|jobs| - 1];
      RunIsFaithful(u, before);
      assert Fits(u, job);
      if job.profile in u.profiles {
        var w := ServeAll(u, before);
        var config := u.profiles[job.profile];
        WalkIsFaithful(u.config, Context(job.profile, config, job.request, u.hasCache && config.cache), w.store,
                       PolicyOrder(u.policy, job.profile, StaticTargets(config)), job.attempts, None, w.calls);
      }
    }
  }

  /**
   After any run, the next request is answered by a provider it calls itself, or by a free copy
   of what a provider answered to the same full request and one of its own targets before.
   */
  lemma AnswersAreFaithful(u: Setup, jobs: seq<Job>, job: Job)
    requires forall j :: j in jobs ==> Fits(u, j)
    requires Fits(u, job) && job.profile in u.profiles
    ensures var w, walked := ServeAll(u, jobs), WalkOf(u, ServeAll(u, jobs).store, job);
            walked.outcome.Answer? ==>
              || (walked.call.Some? && walked.call.value.0.request == job.request
                  && walked.outcome == Answer(walked.call.value.1))
              || (exists i :: 0 <= i < |w.calls| && walked.outcome == Answer(Free(w.calls[i].1))
                    && w.calls[i].0.profile == job.profile && w.calls[i].0.request == job.request
                    && w.calls[i].0.target in PolicyOrder(u.policy, job.profile,
                                                          StaticTargets(u.profiles[job.profile])))
  {
    RunIsFaithful(u, jobs);
    var w := ServeAll(u, jobs);
    var config := u.profiles[job.profile];
    WalkIsFaithful(u.config, Context(job.profile, config, job.request, u.hasCache && config.cache), w.store,
                   PolicyOrder(u.policy, job.profile, StaticTargets(config)), job.attempts, None, w.calls);
  }

  // ----- Cost -----

  function Returned(outcomes: seq<Outcome>): real {
    if outcomes == [] then 0.0
    else
      var last := outcomes[|outcomes| - 1];
      Returned(outcomes[..|outcomes| - 1]) + if last.Answer? then last.result.usage.costUsd else 0.0
  }

  function Spent(calls: seq<(CacheKey, LLMResult)>): real {
    if calls == [] then 0.0
    else Spent(calls[..|calls| - 1]) + calls[|calls| - 1].1.usage.costUsd
  }

  /** No spend is lost or billed twice: what the answers say they cost is what the providers charged. */
  lemma {:induction false} CostIsConserved(u: Setup, jobs: seq<Job>)
    requires forall job :: job in jobs ==> Fits(u, job)
    ensures Returned(ServeAll(u, jobs).outcomes) == Spent(ServeAll(u, jobs).calls)
  {
    if jobs != [] {
      var before, job := jobs[..|jobs| - 1], jobs[|jobs| - 1];
      assert Fits(u, job);
      var w := ServeAll(u, before);
      CostIsConserved(u, before);
      var after := Serve(u, w, job);
      assert after.outcomes[..|after.outcomes| - 1] == w.outcomes;
      if job.profile in u.profiles {
        RunIsFaithful(u, before);
        var config := u.profiles[job.profile];
        WalkIsFaithful(u.config, Context(job.profile, config, job.request, u.hasCache && config.cache), w.store,
                       PolicyOrder(u.policy, job.profile, StaticTargets(config)), job.attempts, None, w.calls);
        var walked := WalkOf(u, w.store, job);
        if walked.call.Some? {
          assert after.calls[..|after.calls| - 1] == w.calls;
        }
      }
    }
  }

  function Lifetime(c: Config, config: ProfileConfig): int {
    match config.cacheTtl case Some(seconds) => seconds case None => c.defaultTtl
  }

  /** A request that its first target has just answered, kept in the cache. */
  ghost predicate JustPaid(u: Setup, s: Store, first: Job) {
    && Fits(u, first) && Distinct(s) && u.config.maxEntries > 0
    && first.profile in u.profiles && u.hasCache && u.profiles[first.profile].cache
    && first.attempts != [] && first.attempts[0].reply.Ok? && WalkOf(u, s, first).call.Some?
  }

  lemma PaidIsKept(u: Setup, s: Store, first: Job)
    requires JustPaid(u, s, first)
    ensures var config, attempt := u.profiles[first.profile], first.attempts[0];
            var targets := PolicyOrder(u.policy, first.profile, StaticTargets(config));
            var kept := Lookup(WalkOf(u, s, first).store, CacheKey(first.profile, targets[0], first.request));
            var ttl := Lifetime(u.config, config);
            && kept.Some? && kept.value.value == ToCache(attempt.reply.result)
            && kept.value.expires == if ttl <= 0 then None else Some(attempt.doneAt + ttl as real)
  {
    var config := u.profiles[first.profile];
    var x := Context(first.profile, config, first.request, true);
    var target := PolicyOrder(u.policy, first.profile, StaticTargets(config))[0];
    var attempt := first.attempts[0];
    var consulted := Consult(x, s, target, attempt.askedAt).1;
    WithoutDistinct(s, KeyOf(x, target));
    GetKeepsStore(s, KeyOf(x, target), attempt.askedAt);
    var e := NewEntry(u.config.defaultTtl, KeyOf(x, target), ToCache(attempt.reply.result), config.cacheTtl,
                      attempt.doneAt);
    WithoutDistinct(consulted, e.key);
    LastHasNoneBehind(Without(consulted, e.key), e);
    AppendDistinct(consulted, e);
    LookupLast(Without(consulted, e.key), e, u.config.maxEntries);
  }

  /**
   Asking again for what was just paid for is free for as many seconds as the profile says, or the
   cache's default, and forever if that is zero or less; from then on the provider is asked and paid.
   */
  lemma RepeatIsFree(u: Setup, s: Store, first: Job, again: Job)
    requires JustPaid(u, s, first) && Fits(u, again)
    requires again.profile == first.profile && again.request == first.request
    ensures var ttl := Lifetime(u.config, u.profiles[first.profile]);
            var paid, asked := first.attempts[0], again.attempts[0].askedAt;
            var walked := WalkOf(u, WalkOf(u, s, first).store, again);
            && (ttl <= 0 || asked < paid.doneAt + ttl as real ==>
                  walked.outcome == Answer(Free(paid.reply.result)) && walked.call.None?)
            && (ttl > 0 && asked >= paid.doneAt + ttl as real && again.attempts[0].reply.Ok? ==>
                  walked.outcome == Answer(again.attempts[0].reply.result) && walked.call.Some?)
  {
    PaidIsKept(u, s, first);
    hide Lookup, Without;
  }

  // ----- Targets and profiles -----

  /** A job on a router with the static policy. */
  ghost predicate Static(u: Setup, job: Job) {
    u.policy.StaticPolicy? && job.profile in u.profiles
  }

  /** A profile has one target, or two with its fallback. */
  lemma TargetsOfProfile(u: Setup, job: Job)
    requires Static(u, job)
    ensures var config := u.profiles[job.profile];
            var targets := PolicyOrder(u.policy, job.profile, StaticTargets(config));
            && (config.fallback == None || config.fallback == Some("") ==> targets == [config.primary])
            && (config.fallback.Some? && config.fallback.value != "" ==>
                  targets == [config.primary, config.fallback.value])
  {
  }

  /**
   Nothing being cached, the primary's reply is the answer; if it fails, the fallback's; and if that
   fails too, or there is none, the request fails with the last error.
   */
  lemma FallbackAnswers(u: Setup, job: Job)
    requires Static(u, job) && Fits(u, job)
    ensures var fallback := u.profiles[job.profile].fallback;
            var two := fallback.Some? && fallback.value != "";
            var outcome, replies := WalkOf(u, [], job).outcome, job.attempts;
            && |replies| == (if two then 2 else 1)
            && outcome == if replies[0].reply.Ok? then Answer(replies[0].reply.result)
                          else if !two then AllProvidersFailed(Some(replies[0].reply.error))
                          else if replies[1].reply.Ok? then Answer(replies[1].reply.result)
                          else AllProvidersFailed(Some(replies[1].reply.error))
  {
    TargetsOfProfile(u, job);
    var config := u.profiles[job.profile];
    var x := Context(job.profile, config, job.request, u.hasCache && config.cache);
    var targets := PolicyOrder(u.policy, job.profile, StaticTargets(config));
    hide PolicyOrder, StaticTargets;
    EmptyStep(u.config, x, targets, job.attempts, None);
    if |targets| == 2 && job.attempts[0].reply.Err? {
      EmptyStep(u.config, x, targets[1..], job.attempts[1..], Some(job.attempts[0].reply.error));
    }
  }

  /** One step of a walk with nothing cached. */
  lemma EmptyStep(c: Config, x: Context, targets: seq<string>, attempts: seq<Attempt>, lastError: Option<string>)
    requires |attempts| == |targets| > 0
    ensures attempts[0].reply.Ok? ==>
              Walk(c, x, [], targets, attempts, lastError).outcome == Answer(attempts[0].reply.result)
    ensures attempts[0].reply.Err? ==>
              Walk(c, x, [], targets, attempts, lastError)
              == Walk(c, x, [], targets[1..], attempts[1..], Some(attempts[0].reply.error))
  {
    assert Consult(x, [], targets[0], attempts[0].askedAt) == (None, []);
  }

  /** Without a cache, or for a profile that does not ask for one, nothing is kept and nothing is free. */
  lemma UncachedIsAlwaysAsked(u: Setup, s: Store, job: Job)
    requires Fits(u, job) && job.profile in u.profiles
    requires !u.hasCache || !u.profiles[job.profile].cache
    ensures WalkOf(u, s, job).store == s
    ensures WalkOf(u, s, job).outcome.Answer? ==> WalkOf(u, s, job).call.Some?
  {
    var config := u.profiles[job.profile];
    UncachedWalk(u.config, Context(job.profile, config, job.request, false), s,
                 PolicyOrder(u.policy, job.profile, StaticTargets(config)), job.attempts, None);
  }

  lemma {:induction false} UncachedWalk(c: Config, x: Context, s: Store, targets: seq<string>, attempts: seq<Attempt>,
                                        lastError: Option<string>)
    requires |attempts| == |targets| && !x.useCache
    ensures var w := Walk(c, x, s, targets, attempts, lastError);
            w.store == s && (w.outcome.Answer? ==> w.call.Some?)
    decreases targets
  {
    if targets != [] && attempts[0].reply.Err? {
      UncachedWalk(c, x, s, targets[1..], attempts[1..], Some(attempts[0].reply.error));
    }
  }

  lemma {:induction false} LookupLast<K, V>(s: seq<Entry<K, V>>, e: Entry<K, V>, capacity: nat)
    requires Distinct(s + [e]) && capacity > 0
    ensures Lookup(Evict(s + [e], capacity), e.key) == Some(e)
    decreases |s|
  {
    var t := s + [e];
    if |s| + 1 <= capacity || s == [] {
      assert t[|s|] == e;
      hide Lookup;
      LookupAt(t, |s|);
    } else {
      hide Lookup;
      var rest := s[1..];
      assert t[1..] == rest + [e];
      assert Evict(t, capacity) == Evict(rest + [e], capacity);
      LookupLast(rest, e, capacity);
    }
  }

  lemma {:induction false} LookupAt<K, V>(s: seq<Entry<K, V>>, i: nat)
    requires Distinct(s) && i < |s|
    ensures Lookup(s, s[i].key) == Some(s[i])
  {
    if i > 0 {
      LookupAt(s[1..], i - 1);
    }
  }
}
