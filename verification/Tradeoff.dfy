/** What the ranking says about quality and cost, in numbers, for candidates measured once each. */
module Tradeoff {
  import opened Evaluation
  import opened EvaluationLaws
  import opened Judge

  // ----- Arithmetic -----

  /** What a difference in cost takes off: at the rate of `lam` for the highest cost. */
  function Penalty(lam: real, gap: real, hi: real): real
    requires hi != 0.0
  {
    lam * gap / hi
  }

  lemma ProductOfQuotient(lam: real, x: real, h: real)
    requires h != 0.0
    ensures Product(lam, Quotient(x, h)) == lam * x / h
  {
    var q := x / h;
    assert q * h == x;
    assert lam * x == (lam * q) * h;
    Cancel(lam * q, h);
  }

  lemma Cancel(q: real, h: real)
    requires h != 0.0
    ensures q * h / h == q
  {
    var r := q * h / h;
    assert r * h == q * h;
    assert (r - q) * h == 0.0;
  }

  lemma DifferenceOver(a: real, b: real, h: real)
    requires h != 0.0
    ensures a / h - b / h == (a - b) / h
  {
    var p, q := a / h, b / h;
    assert p * h == a && q * h == b;
    assert (p - q) * h == a - b;
    Cancel(p - q, h);
  }

  lemma GapOver(lam: real, x: real, y: real, h: real)
    requires h != 0.0
    ensures Product(lam, Quotient(x, h)) - Product(lam, Quotient(y, h)) == Penalty(lam, x - y, h)
  {
    ProductOfQuotient(lam, x, h);
    ProductOfQuotient(lam, y, h);
    DifferenceOver(lam * x, lam * y, h);
    assert lam * x - lam * y == lam * (x - y);
  }

  lemma PositiveOver(lam: real, x: real, h: real)
    requires lam > 0.0 && h > 0.0
    ensures Penalty(lam, x, h) < 0.0 <==> x < 0.0
  {
    var q := lam * x / h;
    assert q * h == lam * x;
    assert q < 0.0 <==> q * h < 0.0;
    assert x < 0.0 <==> lam * x < 0.0;
  }

  // ----- Utilities -----

  /** The most that any candidate costs. */
  ghost predicate IsHighest(cost: Dict, hi: real) {
    (exists m :: m in cost.at && cost.at[m] == hi) && forall m :: m in cost.at ==> cost.at[m] <= hi
  }

  /**
   Between two candidates the difference in utility is that in quality, less the difference in cost at
   the rate of `lam` for the highest cost; if nothing costs anything it is that in quality alone.
   */
  lemma UtilityDifference(quality: Dict, cost: Dict, lam: real, hi: real, j: string, k: string)
    requires Keyed(quality) && Keyed(cost) && quality.keys == cost.keys && IsHighest(cost, hi)
    requires j in quality.at && k in quality.at && j in cost.at && k in cost.at
    ensures var u, better := Utilities(quality, cost, lam).at, quality.at[j] - quality.at[k];
            u[j] - u[k] == if hi > 0.0 then better - Penalty(lam, cost.at[j] - cost.at[k], hi) else better
  {
    hide Product, Quotient, Penalty;
    assert HighestOr(cost, 0.0) == hi;
    if hi > 0.0 {
      GapOver(lam, cost.at[j], cost.at[k], hi);
    } else {
      ZeroProduct(lam);
    }
  }

  lemma ZeroProduct(lam: real)
    ensures Product(lam, 0.0) == 0.0
  {
  }

  /** Advantages differ as qualities do. */
  lemma AdvantageDifference(quality: Dict, j: string, k: string)
    requires Keyed(quality) && j in quality.at && k in quality.at
    ensures Advantages(quality).at[j] - Advantages(quality).at[k] == quality.at[j] - quality.at[k]
  {
    hide Quotient;
    assert quality.keys != [];
  }

  // ----- The ranked list -----

  /** The highest cost of the measurements. */
  ghost predicate HighestCost(stats: seq<ModelStats>, hi: real) {
    (exists s :: s in stats && s.costUsd == hi) && forall s :: s in stats ==> s.costUsd <= hi
  }

  lemma MeasuredOnce(stats: seq<ModelStats>, s: ModelStats)
    requires DistinctModels(stats) && s in stats
    ensures s.model in QualityOf(stats).at && QualityOf(stats).at[s.model] == s.quality
    ensures s.model in CostOf(stats).at && CostOf(stats).at[s.model] == s.costUsd
  {
    var i :| 0 <= i < |stats| && stats[i] == s;
    CollectValues(stats, (s: ModelStats) => s.quality, i);
    CollectValues(stats, (s: ModelStats) => s.costUsd, i);
  }

  lemma HighestIsHighest(stats: seq<ModelStats>, hi: real)
    requires DistinctModels(stats) && HighestCost(stats, hi)
    ensures IsHighest(CostOf(stats), hi)
  {
    var cost := CostOf(stats);
    var top :| top in stats && top.costUsd == hi;
    MeasuredOnce(stats, top);
    forall m | m in cost.at ensures cost.at[m] <= hi {
      var s :| s in stats && s.model == m;
      MeasuredOnce(stats, s);
    }
  }

  /** How much better one candidate is than another, with the cost of both taken off. */
  function Gain(a: ModelStats, b: ModelStats, lam: real, hi: real): real {
    if hi > 0.0 then a.quality - b.quality - Penalty(lam, a.costUsd - b.costUsd, hi) else a.quality - b.quality
  }

  lemma EntryDifference(stats: seq<ModelStats>, lam: real, eta: real, exp: real -> real, hi: real, a: ModelStats,
                        b: ModelStats)
    requires DistinctModels(stats) && HighestCost(stats, hi) && a in stats && b in stats
    ensures var x, y := RankedEntry(stats, a, lam, eta, exp), RankedEntry(stats, b, lam, eta, exp);
            && x.advantage - y.advantage == a.quality - b.quality
            && x.utility - y.utility == Gain(a, b, lam, hi)
  {
    MeasuredOnce(stats, a);
    MeasuredOnce(stats, b);
    HighestIsHighest(stats, hi);
    UtilityGain(stats, lam, hi, a, b);
    CollectIsKeyed(stats);
    hide Product, Quotient, Penalty, Utilities, UtilitiesOf, Advantages, Weights, WeightsOf, Collect, Gain, QualityOf,
         CostOf;
    AdvantageDifference(QualityOf(stats), a.model, b.model);
  }

  lemma CollectIsKeyed(stats: seq<ModelStats>)
    ensures Keyed(QualityOf(stats)) && Keyed(CostOf(stats)) && QualityOf(stats).keys == CostOf(stats).keys
    ensures forall lam :: UtilitiesOf(stats, lam) == Utilities(QualityOf(stats), CostOf(stats), lam)
  {
    SameKeys(stats, (s: ModelStats) => s.quality, (s: ModelStats) => s.costUsd);
    hide Collect, Utilities;
  }

  lemma UtilityGain(stats: seq<ModelStats>, lam: real, hi: real, a: ModelStats, b: ModelStats)
    requires DistinctModels(stats) && HighestCost(stats, hi) && a in stats && b in stats
    ensures a.model in UtilitiesOf(stats, lam).at && b.model in UtilitiesOf(stats, lam).at
    ensures UtilitiesOf(stats, lam).at[a.model] - UtilitiesOf(stats, lam).at[b.model] == Gain(a, b, lam, hi)
  {
    CollectIsKeyed(stats);
    hide Product, Quotient, Penalty, Utilities, UtilitiesOf, Collect, QualityOf, CostOf, IsHighest, HighestCost,
         DistinctModels;
    MeasuredOnce(stats, a);
    MeasuredOnce(stats, b);
    HighestIsHighest(stats, hi);
    UtilityDifference(QualityOf(stats), CostOf(stats), lam, hi, a.model, b.model);
  }

  /** An entry of the ranking with its candidate's measurements. */
  ghost predicate EntryOf(r: RankedModel, s: ModelStats) {
    r.model == s.model && r.quality == s.quality && r.costUsd == s.costUsd
  }

  lemma RankedIsEntry(stats: seq<ModelStats>, lam: real, eta: real, exp: real -> real, r: RankedModel)
      returns (s: ModelStats)
    requires r in Rank(stats, lam, eta, exp)
    ensures s in stats && r == RankedEntry(stats, s, lam, eta, exp) && EntryOf(r, s)
  {
    var entries := Entries(stats, lam, eta, exp);
    hide Product, Quotient, Entries, RankedEntry, SortByWeight, EntryOf;
    SortIsBestFirst(entries);
    assert r in multiset(SortByWeight(entries));
    assert r in multiset(entries);
    var i :| 0 <= i < |entries| && entries[i] == r;
    s := stats[i];
    EntryIsOf(stats, s, lam, eta, exp);
  }

  lemma EntryIsOf(stats: seq<ModelStats>, s: ModelStats, lam: real, eta: real, exp: real -> real)
    requires s in stats
    ensures EntryOf(RankedEntry(stats, s, lam, eta, exp), s)
  {
    hide Product, Quotient;
  }

  /**
   Of two entries of the ranking, one weighs more than the other exactly when it gains more in quality
   than it loses in cost: `lam` times the difference in cost, measured by the highest cost of all.
   */
  lemma WeightTradesQualityForCost(stats: seq<ModelStats>, lam: real, eta: real, exp: real -> real, hi: real,
                                   x: RankedModel, y: RankedModel)
    requires ExpLike(exp) && eta > 0.0 && DistinctModels(stats) && HighestCost(stats, hi)
    requires x in Rank(stats, lam, eta, exp) && y in Rank(stats, lam, eta, exp)
    ensures x.advantage - y.advantage == x.quality - y.quality
    ensures var gain := if hi > 0.0 then x.quality - y.quality - Penalty(lam, x.costUsd - y.costUsd, hi)
                        else x.quality - y.quality;
            x.utility - y.utility == gain && (x.weight > y.weight <==> gain > 0.0)
  {
    hide Product, Quotient, Penalty, Rank, RankedEntry;
    var a := RankedIsEntry(stats, lam, eta, exp, x);
    var b := RankedIsEntry(stats, lam, eta, exp, y);
    EntryDifference(stats, lam, eta, exp, hi, a, b);
    WeightFollowsUtility(stats, lam, eta, exp, a, b);
  }

  lemma WeightFollowsUtility(stats: seq<ModelStats>, lam: real, eta: real, exp: real -> real, a: ModelStats,
                             b: ModelStats)
    requires ExpLike(exp) && eta > 0.0 && a in stats && b in stats
    ensures var x, y := RankedEntry(stats, a, lam, eta, exp), RankedEntry(stats, b, lam, eta, exp);
            x.weight > y.weight <==> x.utility > y.utility
  {
    hide Product, Quotient;
    assert a.model in QualityOf(stats).at && b.model in QualityOf(stats).at;
    WeightOrder(UtilitiesOf(stats, lam), eta, exp, b.model, a.model);
  }

  /** As good and cheaper, or as cheap and better: strictly more weight. */
  lemma StrictlyBetterWeighsMore(stats: seq<ModelStats>, lam: real, eta: real, exp: real -> real, x: RankedModel,
                                 y: RankedModel)
    requires ExpLike(exp) && eta > 0.0 && DistinctModels(stats)
    requires x in Rank(stats, lam, eta, exp) && y in Rank(stats, lam, eta, exp)
    ensures x.quality == y.quality && x.costUsd < y.costUsd && y.costUsd > 0.0 && lam > 0.0 ==> x.weight > y.weight
    ensures x.quality > y.quality && x.costUsd == y.costUsd ==> x.weight > y.weight
  {
    hide Product, Quotient, Penalty, Rank, ExpLike;
    var b := RankedIsEntry(stats, lam, eta, exp, y);
    var hi := HighestOfAll(stats);
    WeightTradesQualityForCost(stats, lam, eta, exp, hi, x, y);
    if hi > 0.0 {
      if lam > 0.0 { PositiveOver(lam, x.costUsd - y.costUsd, hi); }
      ZeroOver(lam, hi);
    }
  }

  lemma ZeroOver(lam: real, h: real)
    requires h != 0.0
    ensures Penalty(lam, 0.0, h) == 0.0
  {
    Cancel(0.0, h);
  }

  lemma {:induction false} HighestOfAll(stats: seq<ModelStats>) returns (hi: real)
    requires stats != []
    ensures HighestCost(stats, hi)
  {
    if |stats| == 1 {
      hi := stats[0].costUsd;
      assert stats[0] in stats;
    } else {
      var rest := HighestOfAll(stats[1..]);
      hi := if stats[0].costUsd >= rest then stats[0].costUsd else rest;
      var s :| s in stats[1..] && s.costUsd == rest;
      assert s in stats && stats[0] in stats;
    }
  }

  // ----- Softmax -----

  /** Sums turn into products. */
  ghost predicate Homomorphic(exp: real -> real) {
    forall x, y :: exp(x + y) == Product(exp(x), exp(y))
  }

  lemma QuotientScales(w: real, e: real, z: real)
    requires z != 0.0
    ensures Quotient(Product(w, e), z) == Product(Quotient(w, z), e)
  {
    var q := w / z;
    assert q * z == w;
    assert w * e == (q * e) * z;
    Cancel(q * e, z);
  }

  /** The weights stand to each other as the exponentials of `eta` times the utilities. */
  lemma WeightsAreSoftmax(util: Dict, eta: real, exp: real -> real, j: string, k: string)
    requires util.keys != [] && Keyed(util) && ExpLike(exp) && Homomorphic(exp)
    requires j in util.at && k in util.at
    ensures var w := Weights(util, eta, exp);
            w.at[j] == Product(w.at[k], exp(Product(eta, util.at[j] - util.at[k])))
  {
    var z := Normalizer(util, eta, exp);
    NormalizerIsPositive(util, eta, exp);
    SplitExponential(util, eta, exp, j, k);
    hide Product, Quotient, Normalizer, Exponential, ExpLike, Homomorphic;
    QuotientScales(Exponential(util, eta, exp, k), exp(Product(eta, util.at[j] - util.at[k])), z);
  }

  lemma SplitExponential(util: Dict, eta: real, exp: real -> real, j: string, k: string)
    requires Keyed(util) && Homomorphic(exp) && j in util.at && k in util.at
    ensures Exponential(util, eta, exp, j)
         == Product(Exponential(util, eta, exp, k), exp(Product(eta, util.at[j] - util.at[k])))
  {
    hide Product, HighestOr;
    var hi := HighestOr(util, 0.0);
    SplitExponent(eta, util.at[j], util.at[k], hi);
    var x, e := Product(eta, util.at[k] - hi), Product(eta, util.at[j] - util.at[k]);
    assert exp(x + e) == Product(exp(x), exp(e));
  }

  lemma SplitExponent(eta: real, a: real, b: real, hi: real)
    ensures Product(eta, a - hi) == Product(eta, b - hi) + Product(eta, a - b)
  {
  }
}
