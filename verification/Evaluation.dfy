/**
 Model comparison: win rates from pairwise judgements, baseline subtraction, and cost-penalised
 exponential weights. Numbers are reals, and the exponential is any positive, strictly increasing
 function.
 */
module Evaluation {

  /** An insertion-ordered dictionary of numbers. */
  datatype Dict = Dict(keys: seq<string>, at: map<string, real>)

  ghost predicate Distinct(keys: seq<string>) {
    forall i, j :: 0 <= i < j < |keys| ==> keys[i] != keys[j]
  }

  function Total(keys: seq<string>, at: map<string, real>): real
    requires forall k :: k in keys ==> k in at
  {
    if keys == [] then 0.0 else at[keys[0]] + Total(keys[1..], at)
  }

  /** Products and quotients by name, so that proofs can keep their arithmetic apart. */
  function Product(x: real, y: real): real { x * y }

  function Quotient(x: real, y: real): real
    requires y != 0.0
  {
    x / y
  }

  // ----- Win rates -----

  /** Who met whom, and the name of the winner or "tie". */
  datatype Outcome = Outcome(a: string, b: string, winner: string)

  predicate FairOutcome(o: Outcome) {
    o.winner == "tie" || o.winner == o.a || o.winner == o.b
  }

  function Half(cond: bool): real { if cond then 0.5 else 0.0 }

  /** What one comparison is worth to `m`. */
  function Score(o: Outcome, m: string): real {
    if o.winner == "tie" then Half(m == o.a) + Half(m == o.b)
    else if m == o.winner then 1.0 else 0.0
  }

  function Played(o: Outcome, m: string): nat {
    (if m == o.a then 1 else 0) + (if m == o.b then 1 else 0)
  }

  function PointsOf(outcomes: seq<Outcome>, m: string): real {
    if outcomes == [] then 0.0 else PointsOf(outcomes[..|outcomes| - 1], m) + Score(outcomes[|outcomes| - 1], m)
  }

  function GamesOf(outcomes: seq<Outcome>, m: string): nat {
    if outcomes == [] then 0 else GamesOf(outcomes[..|outcomes| - 1], m) + Played(outcomes[|outcomes| - 1], m)
  }

  function CountIn(games: map<string, nat>, m: string): nat { if m in games then games[m] else 0 }

  function PointsIn(points: map<string, real>, m: string): real { if m in points then points[m] else 0.0 }

  ghost predicate Tallied(games: map<string, nat>, points: map<string, real>, outcomes: seq<Outcome>) {
    && points.Keys == games.Keys
    && (forall m :: m in games ==> games[m] > 0)
    && (forall m :: CountIn(games, m) == GamesOf(outcomes, m))
    && (forall m :: PointsIn(points, m) == PointsOf(outcomes, m))
  }

  /** One comparison entered: a game for each player, with its points set up, then the points. */
  method Enter(games: map<string, nat>, points: map<string, real>, o: Outcome)
      returns (games': map<string, nat>, points': map<string, real>)
    requires FairOutcome(o) && points.Keys == games.Keys && forall m :: m in games ==> games[m] > 0
    ensures points'.Keys == games'.Keys && forall m :: m in games' ==> games'[m] > 0
    ensures forall m :: CountIn(games', m) == CountIn(games, m) + Played(o, m)
    ensures forall m :: PointsIn(points', m) == PointsIn(points, m) + Score(o, m)
  {
    games' := games[o.a := CountIn(games, o.a) + 1];
    points' := points[o.a := PointsIn(points, o.a)];
    games' := games'[o.b := CountIn(games', o.b) + 1];
    points' := points'[o.b := PointsIn(points', o.b)];
    if o.winner == "tie" {
      points' := points'[o.a := points'[o.a] + 0.5];
      points' := points'[o.b := points'[o.b] + 0.5];
    } else {
      points' := points'[o.winner := points'[o.winner] + 1.0];
    }
  }

  /** Mean score over every comparison a model took part in; models without one are absent. */
  method PairwiseWinRates(outcomes: seq<Outcome>) returns (rates: map<string, real>)
    requires forall o :: o in outcomes ==> FairOutcome(o)
    ensures forall m :: m in rates <==> GamesOf(outcomes, m) > 0
    ensures forall m :: m in rates ==> rates[m] == PointsOf(outcomes, m) / GamesOf(outcomes, m) as real
  {
    var points: map<string, real>, games: map<string, nat> := map[], map[];
    assert outcomes[..0] == [];
    for i := 0 to |outcomes|
      invariant Tallied(games, points, outcomes[..i])
    {
      assert FairOutcome(outcomes[i]);
      assert outcomes[..i + 1][..i] == outcomes[..i];
      games, points := Enter(games, points, outcomes[i]);
    }
    assert outcomes[..|outcomes|] == outcomes;
    rates := map m | m in games :: points[m] / games[m] as real;
    forall m ensures m in games <==> GamesOf(outcomes, m) > 0 {
      assert CountIn(games, m) == GamesOf(outcomes, m);
    }
    forall m | m in rates ensures rates[m] == PointsOf(outcomes, m) / GamesOf(outcomes, m) as real {
      assert CountIn(games, m) == GamesOf(outcomes, m) && PointsIn(points, m) == PointsOf(outcomes, m);
    }
  }

  // ----- Every comparison hands out one point -----

  function TotalScore(keys: seq<string>, o: Outcome): real {
    if keys == [] then 0.0 else Score(o, keys[0]) + TotalScore(keys[1..], o)
  }

  function TotalPoints(keys: seq<string>, outcomes: seq<Outcome>): real {
    if keys == [] then 0.0 else PointsOf(outcomes, keys[0]) + TotalPoints(keys[1..], outcomes)
  }

  lemma {:induction false} NoScoreOutside(keys: seq<string>, o: Outcome)
    requires FairOutcome(o) && o.a !in keys && o.b !in keys
    ensures TotalScore(keys, o) == 0.0
  {
    if keys != [] {
      NoScoreOutside(keys[1..], o);
    }
  }

  /** Among players listed once each, a comparison of two of them is worth one point in all. */
  lemma {:induction false} OnePointPerComparison(keys: seq<string>, o: Outcome)
    requires Distinct(keys) && FairOutcome(o) && o.a != o.b
    ensures TotalScore(keys, o) == (if o.a in keys then Score(o, o.a) else 0.0)
            + (if o.b in keys then Score(o, o.b) else 0.0)
  {
    if keys != [] {
      OnePointPerComparison(keys[1..], o);
    }
  }

  lemma {:induction false} TotalPointsGrow(keys: seq<string>, outcomes: seq<Outcome>)
    requires outcomes != []
    ensures TotalPoints(keys, outcomes)
         == TotalPoints(keys, outcomes[..|outcomes| - 1]) + TotalScore(keys, outcomes[|outcomes| - 1])
  {
    if keys != [] {
      TotalPointsGrow(keys[1..], outcomes);
    }
  }

  lemma {:induction false} NoPointsYet(keys: seq<string>)
    ensures TotalPoints(keys, []) == 0.0
  {
    if keys != [] {
      NoPointsYet(keys[1..]);
    }
  }

  lemma {:induction false} PointsAreConserved(keys: seq<string>, outcomes: seq<Outcome>)
    requires Distinct(keys)
    requires forall o :: o in outcomes ==> FairOutcome(o) && o.a != o.b && o.a in keys && o.b in keys
    ensures TotalPoints(keys, outcomes) == |outcomes| as real
  {
    if outcomes == [] {
      NoPointsYet(keys);
    } else {
      var last := outcomes[|outcomes| - 1];
      PointsAreConserved(keys, outcomes[..|outcomes| - 1]);
      TotalPointsGrow(keys, outcomes);
      OnePointPerComparison(keys, last);
    }
  }

  // ----- Ranking -----

  datatype ModelStats = ModelStats(model: string, quality: real, costUsd: real, plays: nat)

  datatype RankedModel = RankedModel(model: string, quality: real, costUsd: real, advantage: real, utility: real,
                                     weight: real)

  /** A dictionary comprehension over a list: keys in order of first appearance, the last value kept. */
  function Collect(stats: seq<ModelStats>, value: ModelStats -> real): (d: Dict)
    ensures forall k :: k in d.keys <==> k in d.at
    ensures forall k :: k in d.at <==> exists s :: s in stats && s.model == k
  {
    if stats == [] then Dict([], map[])
    else
      var d, s := Collect(stats[..|stats| - 1], value), stats[|stats| - 1];
      Dict(if s.model in d.at then d.keys else d.keys + [s.model], d.at[s.model := value(s)])
  }

  function Advantages(quality: Dict): (adv: Dict)
    requires forall k :: k in quality.keys <==> k in quality.at
    ensures adv.keys == quality.keys && adv.at.Keys == quality.at.Keys
  {
    if quality.keys == [] then Dict([], map[])
    else
      var base := Quotient(Total(quality.keys, quality.at), |quality.keys| as real);
      Dict(quality.keys, map k | k in quality.at :: quality.at[k] - base)
  }

  function Highest(keys: seq<string>, at: map<string, real>): (hi: real)
    requires keys != [] && forall k :: k in keys ==> k in at
    ensures exists k :: k in keys && at[k] == hi
    ensures forall k :: k in keys ==> at[k] <= hi
  {
    if |keys| == 1 then at[keys[0]]
    else
      var rest := Highest(keys[1..], at);
      if at[keys[0]] >= rest then at[keys[0]] else rest
  }

  function HighestOr(d: Dict, default: real): real
    requires forall k :: k in d.keys <==> k in d.at
  {
    if d.keys == [] then default else Highest(d.keys, d.at)
  }

  function NormalizedCost(cost: Dict): (n: Dict)
    requires forall k :: k in cost.keys <==> k in cost.at
    ensures n.keys == cost.keys && n.at.Keys == cost.at.Keys
  {
    var hi := HighestOr(cost, 0.0);
    Dict(cost.keys, map k | k in cost.at :: if hi <= 0.0 then 0.0 else Quotient(cost.at[k], hi))
  }

  function Utilities(quality: Dict, cost: Dict, lam: real): (u: Dict)
    requires forall k :: k in quality.keys <==> k in quality.at
    requires forall k :: k in cost.keys <==> k in cost.at
    requires quality.keys == cost.keys
    ensures u.keys == quality.keys && u.at.Keys == quality.at.Keys
  {
    var adv, ncost := Advantages(quality), NormalizedCost(cost);
    Dict(quality.keys, map k | k in quality.at :: adv.at[k] - Product(lam, ncost.at[k]))
  }

  /** One candidate's exponential, shifted by the highest utility. */
  function Exponential(util: Dict, eta: real, exp: real -> real, k: string): real
    requires (forall j :: j in util.keys <==> j in util.at) && k in util.at
  {
    exp(Product(eta, util.at[k] - HighestOr(util, 0.0)))
  }

  function Exponentials(util: Dict, eta: real, exp: real -> real): (e: map<string, real>)
    requires forall k :: k in util.keys <==> k in util.at
    ensures e.Keys == util.at.Keys
  {
    map k | k in util.at :: Exponential(util, eta, exp, k)
  }

  function Normalizer(util: Dict, eta: real, exp: real -> real): real
    requires forall k :: k in util.keys <==> k in util.at
  {
    var sum := Total(util.keys, Exponentials(util, eta, exp));
    if sum == 0.0 then 1.0 else sum
  }

  function Weights(util: Dict, eta: real, exp: real -> real): (w: Dict)
    requires forall k :: k in util.keys <==> k in util.at
    ensures w.keys == util.keys && w.at.Keys == util.at.Keys
  {
    var exps, z := Exponentials(util, eta, exp), Normalizer(util, eta, exp);
    Dict(util.keys, map k | k in util.at :: Quotient(exps[k], z))
  }

  /** Inserting before the first entry that weighs no more keeps the sort stable, best first. */
  function Insert(r: RankedModel, ranked: seq<RankedModel>): seq<RankedModel> {
    if ranked == [] || r.weight >= ranked[0].weight then [r] + ranked
    else [ranked[0]] + Insert(r, ranked[1..])
  }

  function SortByWeight(ranked: seq<RankedModel>): seq<RankedModel> {
    if ranked == [] then [] else Insert(ranked[0], SortByWeight(ranked[1..]))
  }

  function QualityOf(stats: seq<ModelStats>): Dict { Collect(stats, (s: ModelStats) => s.quality) }

  function CostOf(stats: seq<ModelStats>): Dict { Collect(stats, (s: ModelStats) => s.costUsd) }

  lemma {:induction false} SameKeys(stats: seq<ModelStats>, f: ModelStats -> real, g: ModelStats -> real)
    ensures Collect(stats, f).keys == Collect(stats, g).keys
    ensures Collect(stats, f).at.Keys == Collect(stats, g).at.Keys
  {
    if stats != [] {
      SameKeys(stats[..|stats| - 1], f, g);
    }
  }

  function UtilitiesOf(stats: seq<ModelStats>, lam: real): (u: Dict)
    ensures u.keys == QualityOf(stats).keys && u.at.Keys == QualityOf(stats).at.Keys
  {
    SameKeys(stats, (s: ModelStats) => s.quality, (s: ModelStats) => s.costUsd);
    Utilities(QualityOf(stats), CostOf(stats), lam)
  }

  function WeightsOf(stats: seq<ModelStats>, lam: real, eta: real, exp: real -> real): (w: Dict)
    ensures w.keys == QualityOf(stats).keys && w.at.Keys == QualityOf(stats).at.Keys
  {
    Weights(UtilitiesOf(stats, lam), eta, exp)
  }

  function RankedEntry(stats: seq<ModelStats>, s: ModelStats, lam: real, eta: real, exp: real -> real): RankedModel
    requires s in stats
  {
    assert s.model in QualityOf(stats).at;
    RankedModel(s.model, s.quality, s.costUsd, Advantages(QualityOf(stats)).at[s.model],
                UtilitiesOf(stats, lam).at[s.model], WeightsOf(stats, lam, eta, exp).at[s.model])
  }

  function Entries(stats: seq<ModelStats>, lam: real, eta: real, exp: real -> real): (entries: seq<RankedModel>)
    ensures |entries| == |stats|
    ensures forall i :: 0 <= i < |stats| ==> entries[i] == RankedEntry(stats, stats[i], lam, eta, exp)
  {
    seq(|stats|, i requires 0 <= i < |stats| => RankedEntry(stats, stats[i], lam, eta, exp))
  }

  function Rank(stats: seq<ModelStats>, lam: real, eta: real, exp: real -> real): seq<RankedModel> {
    SortByWeight(Entries(stats, lam, eta, exp))
  }
}
