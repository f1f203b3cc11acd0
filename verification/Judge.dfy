/**
 Round-robin evaluation by a pairwise judge. What the candidates cost and what the judge prefers
 when it sees two of them in a given order are arbitrary.
 */
module Judge {
  import opened Evaluation
  import opened EvaluationLaws

  // ----- One comparison, judged in both orders -----

  datatype Preference = First | Second | NoPreference

  datatype Verdict = A | B | Tie

  /** What a preference means when `a` was shown first, and when `b` was. */
  function WithAFirst(p: Preference): Verdict {
    match p case First => A case Second => B case NoPreference => Tie
  }

  function WithBFirst(p: Preference): Verdict {
    match p case First => B case Second => A case NoPreference => Tie
  }

  /** A verdict stands only if both orders agree on it. */
  function Compare(aFirst: Preference, bFirst: Preference): Verdict {
    if WithAFirst(aFirst) == WithBFirst(bFirst) then WithAFirst(aFirst) else Tie
  }

  function Flip(v: Verdict): Verdict {
    match v case A => B case B => A case Tie => Tie
  }

  /** Naming the outputs the other way round turns the verdict round, and a position never wins. */
  lemma PositionNeverDecides(x: Preference, y: Preference)
    ensures Compare(y, x) == Flip(Compare(x, y))
    ensures x == y ==> Compare(x, y) == Tie
    ensures Compare(x, y) == A <==> x == First && y == Second
  {
  }

  // ----- The round robin -----

  /** The judge's preference on an item between the output shown first and the one shown second. */
  type Bench = (nat, string, string) -> Preference

  function PairsWith(c: string, rest: seq<string>): (pairs: seq<(string, string)>)
    ensures |pairs| == |rest|
    ensures forall i :: 0 <= i < |rest| ==> pairs[i] == (c, rest[i])
  {
    seq(|rest|, i requires 0 <= i < |rest| => (c, rest[i]))
  }

  /** All combinations of two, in order. */
  function Pairs(candidates: seq<string>): seq<(string, string)> {
    if candidates == [] then [] else PairsWith(candidates[0], candidates[1..]) + Pairs(candidates[1..])
  }

  function Judged(judge: Bench, item: nat, pair: (string, string)): Outcome {
    var (a, b) := pair;
    var winner := match Compare(judge(item, a, b), judge(item, b, a)) case A => a case B => b case Tie => "tie";
    Outcome(a, b, winner)
  }

  function JudgeAll(judge: Bench, item: nat, pairs: seq<(string, string)>): seq<Outcome> {
    if pairs == [] then []
    else JudgeAll(judge, item, pairs[..|pairs| - 1]) + [Judged(judge, item, pairs[|pairs| - 1])]
  }

  function RoundRobin(candidates: seq<string>, items: nat, judge: Bench): seq<Outcome> {
    if items == 0 then [] else RoundRobin(candidates, items - 1, judge) + JudgeAll(judge, items - 1, Pairs(candidates))
  }

  function CostUpTo(generate: (string, nat) -> real, c: string, items: nat): real {
    if items == 0 then 0.0 else CostUpTo(generate, c, items - 1) + generate(c, items - 1)
  }

  const COST_UNIT := 1000000.0

  /** The nearest whole number, the even one of two that are equally near. */
  function RoundHalfEven(x: real): int {
    var down := x.Floor;
    var over := x - down as real;
    if over < 0.5 || (over == 0.5 && down % 2 == 0) then down else down + 1
  }

  /** A cost to six places. */
  function RoundedCost(cost: real): real { RoundHalfEven(cost * COST_UNIT) as real / COST_UNIT }

  lemma RoundIsNearest(x: real)
    ensures -0.5 <= RoundHalfEven(x) as real - x <= 0.5
  {
  }

  lemma RoundKeepsOrder(x: real, y: real)
    requires x <= y
    ensures RoundHalfEven(x) <= RoundHalfEven(y)
  {
    assert x.Floor <= y.Floor;
  }

  /** Rounding makes no candidate dearer than one that cost as much, and is off by half a unit at most. */
  lemma RoundingKeepsOrder(a: real, b: real)
    ensures a <= b ==> RoundedCost(a) <= RoundedCost(b)
    ensures -0.5 <= (RoundedCost(a) - a) * 1000000.0 <= 0.5
    ensures RoundedCost(0.0) == 0.0 && (a >= 0.0 ==> RoundedCost(a) >= 0.0)
  {
    RoundIsNearest(a * COST_UNIT);
    if a <= b { RoundKeepsOrder(a * COST_UNIT, b * COST_UNIT); }
    assert RoundHalfEven(0.0) == 0;
    if a >= 0.0 { RoundKeepsOrder(0.0, a * COST_UNIT); }
    hide RoundHalfEven;
  }

  function WinRate(outcomes: seq<Outcome>, c: string): real {
    if GamesOf(outcomes, c) > 0 then PointsOf(outcomes, c) / GamesOf(outcomes, c) as real else 0.0
  }

  function StatsOf(candidates: seq<string>, items: nat, generate: (string, nat) -> real, judge: Bench)
      : (stats: seq<ModelStats>)
    ensures |stats| == |candidates|
    ensures forall i :: 0 <= i < |candidates| ==>
              stats[i] == ModelStats(candidates[i], WinRate(RoundRobin(candidates, items, judge), candidates[i]),
                                     RoundedCost(CostUpTo(generate, candidates[i], items)), items)
  {
    var outcomes := RoundRobin(candidates, items, judge);
    seq(|candidates|, i requires 0 <= i < |candidates| =>
      ModelStats(candidates[i], WinRate(outcomes, candidates[i]),
                 RoundedCost(CostUpTo(generate, candidates[i], items)), items))
  }

  lemma {:induction false} PairsAreFair(candidates: seq<string>)
    requires Distinct(candidates)
    ensures forall p :: p in Pairs(candidates) ==> p.0 != p.1 && p.0 in candidates && p.1 in candidates
  {
    if candidates != [] {
      PairsAreFair(candidates[1..]);
      forall p | p in Pairs(candidates) ensures p.0 != p.1 && p.0 in candidates && p.1 in candidates {
        if p in PairsWith(candidates[0], candidates[1..]) {
          var i :| 0 <= i < |candidates| - 1 && p == (candidates[0], candidates[1..][i]);
        }
      }
    }
  }

  lemma {:induction false} JudgedAreFair(judge: Bench, item: nat, pairs: seq<(string, string)>)
    ensures |JudgeAll(judge, item, pairs)| == |pairs|
    ensures forall o :: o in JudgeAll(judge, item, pairs) ==> FairOutcome(o) && (o.a, o.b) in pairs
  {
    if pairs != [] {
      var before, last := pairs[..|pairs| - 1], pairs[|pairs| - 1];
      JudgedAreFair(judge, item, before);
      forall o | o in JudgeAll(judge, item, pairs) ensures FairOutcome(o) && (o.a, o.b) in pairs {
        if o == Judged(judge, item, last) {
          assert (o.a, o.b) == last && pairs[|pairs| - 1] == last;
        } else {
          assert (o.a, o.b) in before;
        }
      }
    }
  }

  lemma {:induction false} RoundRobinIsFair(candidates: seq<string>, items: nat, judge: Bench)
    ensures forall o :: o in RoundRobin(candidates, items, judge) ==> FairOutcome(o) && (o.a, o.b) in Pairs(candidates)
  {
    hide Judged, FairOutcome, JudgeAll, Pairs;
    if items > 0 {
      RoundRobinIsFair(candidates, items - 1, judge);
      JudgedAreFair(judge, items - 1, Pairs(candidates));
    }
  }

  /** What each candidate's answers cost over all items. */
  method Generate(candidates: seq<string>, items: nat, generate: (string, nat) -> real)
      returns (cost: map<string, real>)
    requires Distinct(candidates)
    ensures forall c :: c in candidates ==> c in cost && cost[c] == CostUpTo(generate, c, items)
  {
    cost := map c | c in candidates :: 0.0;
    for i := 0 to items
      invariant forall c :: c in candidates ==> c in cost && cost[c] == CostUpTo(generate, c, i)
    {
      for k := 0 to |candidates|
        invariant forall m :: 0 <= m < |candidates| ==>
                    && candidates[m] in cost
                    && cost[candidates[m]] == CostUpTo(generate, candidates[m], if m < k then i + 1 else i)
      {
        var c := candidates[k];
        cost := cost[c := cost[c] + generate(c, i)];
      }
    }
  }

  lemma NothingJudged(judge: Bench, item: nat)
    ensures JudgeAll(judge, item, []) == []
  {
  }

  lemma JudgeNext(judge: Bench, item: nat, pairs: seq<(string, string)>, k: nat)
    requires k < |pairs|
    ensures JudgeAll(judge, item, pairs[..k + 1]) == JudgeAll(judge, item, pairs[..k]) + [Judged(judge, item, pairs[k])]
  {
    assert pairs[..k + 1][..k] == pairs[..k];
  }

  method Play(candidates: seq<string>, items: nat, judge: Bench) returns (outcomes: seq<Outcome>)
    ensures outcomes == RoundRobin(candidates, items, judge)
  {
    hide Pairs, Judged, JudgeAll;
    outcomes := [];
    var pairs := Pairs(candidates);
    for i := 0 to items
      invariant outcomes == RoundRobin(candidates, i, judge)
    {
      ghost var before := outcomes;
      assert pairs[..0] == [] && JudgeAll(judge, i, []) == [] by {
        NothingJudged(judge, i);
      }
      for k := 0 to |pairs|
        invariant outcomes == before + JudgeAll(judge, i, pairs[..k])
      {
        JudgeNext(judge, i, pairs, k);
        outcomes := outcomes + [Judged(judge, i, pairs[k])];
      }
      assert pairs[..|pairs|] == pairs;
    }
  }

  method RunPairwiseEval(candidates: seq<string>, items: nat, generate: (string, nat) -> real, judge: Bench,
                         lam: real, exp: real -> real) returns (ranked: seq<RankedModel>)
    requires Distinct(candidates)
    ensures ranked == Rank(StatsOf(candidates, items, generate, judge), lam, 6.0, exp)
  {
    var cost := Generate(candidates, items, generate);
    var outcomes := Play(candidates, items, judge);
    RoundRobinIsFair(candidates, items, judge);
    var quality := PairwiseWinRates(outcomes);
    var stats := seq(|candidates|, k requires 0 <= k < |candidates| =>
      assert candidates[k] in candidates;
      ModelStats(candidates[k], if candidates[k] in quality then quality[candidates[k]] else 0.0,
                 RoundedCost(cost[candidates[k]]), items));
    assert stats == StatsOf(candidates, items, generate, judge);
    ranked := Rank(stats, lam, 6.0, exp);
  }

  // ----- Everyone plays everyone -----

  lemma {:induction false} GamesAppend(a: seq<Outcome>, b: seq<Outcome>, m: string)
    ensures GamesOf(a + b, m) == GamesOf(a, m) + GamesOf(b, m)
  {
    if b == [] {
      assert a + b == a;
    } else {
      GamesAppend(a, b[..|b| - 1], m);
      assert (a + b)[..|a + b| - 1] == a + b[..|b| - 1];
    }
  }

  function PairCount(pairs: seq<(string, string)>, m: string): nat {
    if pairs == [] then 0
    else (if pairs[0].0 == m then 1 else 0) + (if pairs[0].1 == m then 1 else 0) + PairCount(pairs[1..], m)
  }

  lemma {:induction false} PairCountAppend(a: seq<(string, string)>, b: seq<(string, string)>, m: string)
    ensures PairCount(a + b, m) == PairCount(a, m) + PairCount(b, m)
  {
    if a == [] {
      assert a + b == b;
    } else {
      assert (a + b)[1..] == a[1..] + b;
      PairCountAppend(a[1..], b, m);
    }
  }

  lemma JudgedPlayed(judge: Bench, item: nat, pair: (string, string), m: string)
    ensures Played(Judged(judge, item, pair), m) == PairCount([pair], m)
  {
  }

  lemma {:induction false} GamesOnItem(judge: Bench, item: nat, pairs: seq<(string, string)>, m: string)
    ensures GamesOf(JudgeAll(judge, item, pairs), m) == PairCount(pairs, m)
  {
    hide Judged, Played;
    if pairs != [] {
      var before, last := pairs[..|pairs| - 1], pairs[|pairs| - 1];
      GamesOnItem(judge, item, before, m);
      PairCountAppend(before, [last], m);
      assert pairs == before + [last];
      var all := JudgeAll(judge, item, pairs);
      assert all[..|all| - 1] == JudgeAll(judge, item, before) && all[|all| - 1] == Judged(judge, item, last);
      JudgedPlayed(judge, item, last, m);
    }
  }

  lemma {:induction false} CountWith(c: string, rest: seq<string>, m: string)
    requires Distinct(rest) && c !in rest
    ensures PairCount(PairsWith(c, rest), m) == (if m == c then |rest| else if m in rest then 1 else 0)
  {
    if rest != [] {
      CountWith(c, rest[1..], m);
      assert PairsWith(c, rest)[1..] == PairsWith(c, rest[1..]);
    }
  }

  /** Every candidate meets every other once per item. */
  lemma {:induction false} EveryonePlaysEveryone(candidates: seq<string>, m: string)
    requires Distinct(candidates)
    ensures PairCount(Pairs(candidates), m) == if m in candidates then |candidates| - 1 else 0
  {
    if candidates != [] {
      var c, rest := candidates[0], candidates[1..];
      assert forall i :: 0 <= i < |rest| ==> rest[i] != c;
      EveryonePlaysEveryone(rest, m);
      CountWith(c, rest, m);
      PairCountAppend(PairsWith(c, rest), Pairs(rest), m);
    }
  }

  lemma NextMultiple(n: nat, k: nat)
    ensures (n + 1) * k == n * k + k
  {
  }

  lemma NoGamesYet(m: string)
    ensures GamesOf([], m) == 0
  {
  }

  lemma {:induction false} GamesEach(candidates: seq<string>, items: nat, judge: Bench, m: string)
    requires Distinct(candidates) && m in candidates
    ensures GamesOf(RoundRobin(candidates, items, judge), m) == items * (|candidates| - 1)
  {
    hide GamesOf, PairCount, Pairs, JudgeAll;
    if items == 0 {
      NoGamesYet(m);
    } else {
      GamesEach(candidates, items - 1, judge, m);
      EveryonePlaysEveryone(candidates, m);
      GamesOnItem(judge, items - 1, Pairs(candidates), m);
      GamesAppend(RoundRobin(candidates, items - 1, judge), JudgeAll(judge, items - 1, Pairs(candidates)), m);
      NextMultiple(items - 1, |candidates| - 1);
    }
  }

  lemma Triangle(k: nat)
    ensures (k + 1) * k == k * (k - 1) + 2 * k
  {
  }

  lemma {:induction false} PairsTotal(candidates: seq<string>)
    ensures 2 * |Pairs(candidates)| == |candidates| * (|candidates| - 1)
  {
    if candidates != [] {
      PairsTotal(candidates[1..]);
      Triangle(|candidates| - 1);
    }
  }

  lemma {:induction false} RoundRobinSize(candidates: seq<string>, items: nat, judge: Bench)
    ensures |RoundRobin(candidates, items, judge)| == items * |Pairs(candidates)|
  {
    if items > 0 {
      hide Pairs, JudgeAll;
      RoundRobinSize(candidates, items - 1, judge);
      JudgedAreFair(judge, items - 1, Pairs(candidates));
      NextMultiple(items - 1, |Pairs(candidates)|);
    }
  }

  lemma {:induction false} JudgedAt(judge: Bench, item: nat, pairs: seq<(string, string)>, k: nat)
    requires k < |pairs|
    ensures |JudgeAll(judge, item, pairs)| == |pairs|
    ensures JudgeAll(judge, item, pairs)[k] == Judged(judge, item, pairs[k])
  {
    JudgedAreFair(judge, item, pairs[..|pairs| - 1]);
    if k < |pairs| - 1 { JudgedAt(judge, item, pairs[..|pairs| - 1], k); }
  }

  /** Item by item, each pair is judged on that very item. */
  lemma {:induction false} EachItemIsJudged(candidates: seq<string>, items: nat, judge: Bench, item: nat, k: nat)
    requires item < items && k < |Pairs(candidates)|
    ensures var outcomes := RoundRobin(candidates, items, judge);
            var at := item * |Pairs(candidates)| + k;
            && 0 <= at < |outcomes|
            && outcomes[at] == Judged(judge, item, Pairs(candidates)[k])
  {
    hide Pairs, JudgeAll, Judged;
    var pairs := Pairs(candidates);
    RoundRobinSize(candidates, items, judge);
    RoundRobinSize(candidates, items - 1, judge);
    NextMultiple(items - 1, |pairs|);
    JudgedAt(judge, items - 1, pairs, k);
    if item < items - 1 {
      EachItemIsJudged(candidates, items - 1, judge, item, k);
      Below(item, items - 1, |pairs|, k);
    }
  }

  lemma Below(item: nat, items: nat, pairs: nat, k: nat)
    requires item < items && k < pairs
    ensures 0 <= item * pairs + k < items * pairs
  {
    assert (items - item - 1) * pairs >= 0;
    assert items * pairs == item * pairs + (items - item - 1) * pairs + pairs;
  }

  /** Whatever the judge says, the points handed out are as many as the comparisons made. */
  lemma PointsEqualComparisons(candidates: seq<string>, items: nat, judge: Bench)
    requires Distinct(candidates)
    ensures TotalPoints(candidates, RoundRobin(candidates, items, judge)) == (items * |Pairs(candidates)|) as real
  {
    RoundRobinIsFair(candidates, items, judge);
    PairsAreFair(candidates);
    RoundRobinSize(candidates, items, judge);
    PointsAreConserved(candidates, RoundRobin(candidates, items, judge));
  }

  // ----- Balance -----

  ghost predicate DistinctModels(stats: seq<ModelStats>) {
    forall i, j :: 0 <= i < j < |stats| ==> stats[i].model != stats[j].model
  }

  function Models(stats: seq<ModelStats>): seq<string> {
    seq(|stats|, i requires 0 <= i < |stats| => stats[i].model)
  }

  lemma LastModelIsNew(stats: seq<ModelStats>, value: ModelStats -> real)
    requires stats != [] && DistinctModels(stats)
    ensures stats[|stats| - 1].model !in Collect(stats[..|stats| - 1], value).at
    ensures DistinctModels(stats[..|stats| - 1])
  {
    hide Collect;
    var before := stats[..|stats| - 1];
    assert forall s :: s in before ==> s.model != stats[|stats| - 1].model;
  }

  lemma {:induction false} CollectKeys(stats: seq<ModelStats>, value: ModelStats -> real)
    requires DistinctModels(stats)
    ensures Collect(stats, value).keys == Models(stats)
  {
    if stats != [] {
      var before, last := stats[..|stats| - 1], stats[|stats| - 1];
      LastModelIsNew(stats, value);
      CollectKeys(before, value);
      CollectOneMore(stats, value);
      assert Models(stats) == Models(before) + [last.model] by {
        hide Collect;
      }
    }
  }

  lemma {:induction false} CollectValues(stats: seq<ModelStats>, value: ModelStats -> real, i: nat)
    requires DistinctModels(stats) && i < |stats|
    ensures stats[i].model in Collect(stats, value).at && Collect(stats, value).at[stats[i].model] == value(stats[i])
  {
    LastModelIsNew(stats, value);
    CollectOneMore(stats, value);
    if i < |stats| - 1 {
      CollectValues(stats[..|stats| - 1], value, i);
    }
  }

  lemma CollectOneMore(stats: seq<ModelStats>, value: ModelStats -> real)
    requires stats != [] && stats[|stats| - 1].model !in Collect(stats[..|stats| - 1], value).at
    ensures var before, last := Collect(stats[..|stats| - 1], value), stats[|stats| - 1];
            Collect(stats, value) == Dict(before.keys + [last.model], before.at[last.model := value(last)])
  {
  }

  lemma {:induction false} TotalOfPoints(keys: seq<string>, outcomes: seq<Outcome>, points: map<string, real>)
    requires forall k :: k in keys ==> k in points && points[k] == PointsOf(outcomes, k)
    ensures Total(keys, points) == TotalPoints(keys, outcomes)
  {
    if keys != [] {
      TotalOfPoints(keys[1..], outcomes, points);
    }
  }

  lemma HalfOfAll(items: nat, k: nat, pairs: nat)
    requires items > 0 && k >= 2 && 2 * pairs == k * (k - 1)
    ensures items * (k - 1) > 0
    ensures Quotient((items * pairs) as real, (items * (k - 1)) as real) == k as real / 2.0
  {
    Regroup(items, k, pairs);
    PositiveProduct(items, k - 1);
    HalfQuotient(items * pairs, items * (k - 1), k);
  }

  lemma PositiveProduct(a: nat, b: nat)
    requires a > 0 && b > 0
    ensures a * b > 0
  {
  }

  lemma HalfQuotient(a: nat, b: nat, k: nat)
    requires b > 0 && 2 * a == k * b
    ensures Quotient(a as real, b as real) == k as real / 2.0
  {
    assert (k * b) as real == k as real * b as real;
    assert (2 * a) as real == 2.0 * a as real;
    QuotientIs(a as real, b as real, k as real / 2.0);
  }

  lemma Regroup(items: nat, k: nat, pairs: nat)
    requires 2 * pairs == k * (k - 1)
    ensures 2 * (items * pairs) == items * (k * (k - 1)) == k * (items * (k - 1))
  {
    assert 2 * (items * pairs) == items * (2 * pairs);
  }

  /** The win rates of a round robin add up to half the number of candidates. */
  lemma WinRatesSumToHalf(candidates: seq<string>, items: nat, generate: (string, nat) -> real, judge: Bench)
    requires Distinct(candidates) && |candidates| >= 2 && items > 0
    ensures var quality := QualityOf(StatsOf(candidates, items, generate, judge));
            && quality.keys == candidates
            && Total(quality.keys, quality.at) == |candidates| as real / 2.0
  {
    hide Quotient, RoundRobin, GamesOf, PointsOf, Pairs, StatsOf, Collect, Total, TotalPoints, WinRate, RoundedCost;
    var stats := StatsOf(candidates, items, generate, judge);
    var outcomes := RoundRobin(candidates, items, judge);
    CollectKeys(stats, (s: ModelStats) => s.quality);
    var quality := QualityOf(stats);
    assert quality.keys == candidates;
    var points := map c | c in candidates :: PointsOf(outcomes, c);
    var games := items * (|candidates| - 1);
    PairsTotal(candidates);
    HalfOfAll(items, |candidates|, |Pairs(candidates)|);
    forall c | c in candidates ensures c in quality.at && quality.at[c] == Quotient(points[c], games as real) {
      GamesEach(candidates, items, judge, c);
      var i :| 0 <= i < |candidates| && candidates[i] == c;
      CollectValues(stats, (s: ModelStats) => s.quality, i);
      RateIsQuotient(outcomes, c);
    }
    TotalQuotient(candidates, points, quality.at, games as real);
    TotalOfPoints(candidates, outcomes, points);
    PointsEqualComparisons(candidates, items, judge);
  }

  lemma RateIsQuotient(outcomes: seq<Outcome>, c: string)
    requires GamesOf(outcomes, c) > 0
    ensures WinRate(outcomes, c) == Quotient(PointsOf(outcomes, c), GamesOf(outcomes, c) as real)
  {
  }

  lemma HalfMean(k: nat)
    requires k >= 1
    ensures Quotient(k as real / 2.0, k as real) == 0.5
  {
    QuotientIs(k as real / 2.0, k as real, 0.5);
  }

  /** So each advantage the ranking reports is the win rate less one half. */
  lemma AdvantageIsRateLessHalf(candidates: seq<string>, items: nat, generate: (string, nat) -> real, judge: Bench,
                                c: string)
    requires Distinct(candidates) && |candidates| >= 2 && items > 0 && c in candidates
    ensures var quality := QualityOf(StatsOf(candidates, items, generate, judge));
            c in Advantages(quality).at
            && Advantages(quality).at[c] == WinRate(RoundRobin(candidates, items, judge), c) - 0.5
  {
    hide Quotient, WinRate, Total, RoundRobin, StatsOf, Collect, RoundedCost;
    var stats := StatsOf(candidates, items, generate, judge);
    WinRatesSumToHalf(candidates, items, generate, judge);
    HalfMean(|candidates|);
    var i :| 0 <= i < |candidates| && candidates[i] == c;
    CollectValues(stats, (s: ModelStats) => s.quality, i);
  }

  /** What a comparison is worth to each side, when no candidate is called "tie". */
  lemma ScoreIsWinOrHalf(judge: Bench, item: nat, a: string, b: string)
    requires a != b && a != "tie" && b != "tie"
    ensures var o, v := Judged(judge, item, (a, b)), Compare(judge(item, a, b), judge(item, b, a));
            && Score(o, a) == (if v == A then 1.0 else if v == Tie then 0.5 else 0.0)
            && Score(o, b) == (if v == B then 1.0 else if v == Tie then 0.5 else 0.0)
  {
  }
}
