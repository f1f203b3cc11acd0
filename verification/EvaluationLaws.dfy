/** What the ranking promises, for any measurements and any exponential-like function. */
module EvaluationLaws {
  import opened Evaluation

  ghost predicate ExpLike(exp: real -> real) {
    && (forall x :: exp(x) > 0.0)
    && (forall x, y :: x < y ==> exp(x) < exp(y))
  }

  ghost predicate Keyed(d: Dict) {
    forall k :: k in d.keys <==> k in d.at
  }

  // ----- Arithmetic -----

  lemma ProductOrder(c: real, x: real, y: real)
    requires c > 0.0
    ensures x < y <==> Product(c, x) < Product(c, y)
    ensures Product(c, 0.0) == 0.0
  {
  }

  lemma ProductMonotone(c: real, x: real, y: real)
    requires c >= 0.0 && x <= y
    ensures Product(c, x) <= Product(c, y)
  {
  }

  lemma QuotientOrder(x: real, y: real, z: real)
    requires z > 0.0
    ensures x < y <==> Quotient(x, z) < Quotient(y, z)
    ensures Quotient(0.0, z) == 0.0
  {
  }

  lemma QuotientIs(x: real, z: real, q: real)
    requires z != 0.0 && Product(q, z) == x
    ensures Quotient(x, z) == q
  {
    var d := x / z - q;
    assert x / z * z == x;
    assert d * z == 0.0;
  }

  lemma QuotientSum(x: real, y: real, z: real)
    requires z != 0.0
    ensures Quotient(x + y, z) == Quotient(x, z) + Quotient(y, z)
    ensures Quotient(0.0, z) == 0.0 && Quotient(z, z) == 1.0
  {
    QuotientIs(0.0, z, 0.0);
    QuotientIs(z, z, 1.0);
    ProductSplit(x / z, y / z, z);
    QuotientIs(x + y, z, x / z + y / z);
  }

  lemma ProductSplit(a: real, b: real, z: real)
    ensures Product(a + b, z) == a * z + b * z
  {
  }

  lemma ProductQuotient(c: real, x: real, y: real)
    requires c > 0.0 && y > 0.0
    ensures Product(c, y) > 0.0
    ensures Quotient(Product(c, x), Product(c, y)) == Quotient(x, y)
  {
    var q := x / y;
    assert x == q * y;
    assert c * x == q * (c * y);
    assert c * y > 0.0;
  }

  lemma ProductSucc(x: real, n: nat)
    ensures Product(x, (n + 1) as real) == Product(x, n as real) + x
    ensures Product(x, 0.0) == 0.0
  {
  }

  lemma QuotientOfProduct(x: real, n: real)
    requires n != 0.0
    ensures Quotient(Product(x, n), n) == x
    ensures Product(Quotient(x, n), n) == x
    ensures Product(-Quotient(x, n), n) == -x
  {
  }

  // ----- Sums -----

  lemma {:induction false} TotalShift(keys: seq<string>, at: map<string, real>, bt: map<string, real>, b: real)
    requires forall k :: k in keys ==> k in at && k in bt && bt[k] == at[k] + b
    ensures Total(keys, bt) == Total(keys, at) + Product(b, |keys| as real)
  {
    hide Product;
    ProductSucc(b, if keys == [] then 0 else |keys| - 1);
    if keys != [] {
      TotalShift(keys[1..], at, bt, b);
    }
  }

  lemma {:induction false} TotalPositive(keys: seq<string>, at: map<string, real>)
    requires keys != [] && forall k :: k in keys ==> k in at && at[k] > 0.0
    ensures Total(keys, at) > 0.0
  {
    if |keys| > 1 {
      TotalPositive(keys[1..], at);
    }
  }

  lemma {:induction false} TotalQuotient(keys: seq<string>, at: map<string, real>, bt: map<string, real>, z: real)
    requires z != 0.0 && forall k :: k in keys ==> k in at && k in bt && bt[k] == Quotient(at[k], z)
    ensures Total(keys, bt) == Quotient(Total(keys, at), z)
  {
    hide Quotient;
    if keys == [] {
      QuotientSum(0.0, 0.0, z);
    } else {
      TotalQuotient(keys[1..], at, bt, z);
      QuotientSum(at[keys[0]], Total(keys[1..], at), z);
    }
  }

  /** Subtracting the pool mean leaves nothing in all. */
  lemma AdvantagesSumToZero(quality: Dict)
    requires Keyed(quality)
    ensures Total(Advantages(quality).keys, Advantages(quality).at) == 0.0
  {
    hide Product, Quotient;
    if quality.keys != [] {
      var total, n := Total(quality.keys, quality.at), |quality.keys| as real;
      var adv := Advantages(quality).at;
      assert forall k :: k in quality.keys ==> adv[k] == quality.at[k] + -Quotient(total, n);
      TotalShift(quality.keys, quality.at, adv, -Quotient(total, n));
      QuotientOfProduct(total, n);
    }
  }

  // ----- Weights -----

  lemma NormalizerIsPositive(util: Dict, eta: real, exp: real -> real)
    requires util.keys != [] && Keyed(util) && ExpLike(exp)
    ensures Normalizer(util, eta, exp) == Total(util.keys, Exponentials(util, eta, exp)) > 0.0
  {
    hide Product, Quotient;
    TotalPositive(util.keys, Exponentials(util, eta, exp));
  }

  /** The policy weights are positive. */
  lemma WeightIsPositive(util: Dict, eta: real, exp: real -> real, k: string)
    requires util.keys != [] && Keyed(util) && ExpLike(exp) && k in util.at
    ensures Weights(util, eta, exp).at[k] > 0.0
  {
    hide Product, Quotient;
    NormalizerIsPositive(util, eta, exp);
    QuotientOrder(0.0, Exponentials(util, eta, exp)[k], Normalizer(util, eta, exp));
  }

  lemma ExpOrder(exp: real -> real, x: real, y: real)
    requires ExpLike(exp)
    ensures exp(x) < exp(y) <==> x < y
  {
    assert x < y ==> exp(x) < exp(y);
    assert y < x ==> exp(y) < exp(x);
  }

  lemma ExponentialOrder(util: Dict, eta: real, exp: real -> real, j: string, k: string)
    requires Keyed(util) && ExpLike(exp) && eta > 0.0 && j in util.at && k in util.at
    ensures Exponential(util, eta, exp, j) < Exponential(util, eta, exp, k) <==> util.at[j] < util.at[k]
  {
    hide Product, HighestOr;
    var a, b := util.at[j] - HighestOr(util, 0.0), util.at[k] - HighestOr(util, 0.0);
    ProductOrder(eta, a, b);
    ExpOrder(exp, Product(eta, a), Product(eta, b));
  }

  /** The weights are ordered as the utilities. */
  lemma WeightOrder(util: Dict, eta: real, exp: real -> real, j: string, k: string)
    requires util.keys != [] && Keyed(util) && ExpLike(exp) && eta > 0.0
    requires j in util.at && k in util.at
    ensures var w := Weights(util, eta, exp); w.at[j] < w.at[k] <==> util.at[j] < util.at[k]
  {
    hide Quotient, Exponential, Normalizer;
    NormalizerIsPositive(util, eta, exp);
    ExponentialOrder(util, eta, exp, j, k);
    QuotientOrder(Exponential(util, eta, exp, j), Exponential(util, eta, exp, k), Normalizer(util, eta, exp));
  }

  /** The policy weights add up to one. */
  lemma WeightsSumToOne(util: Dict, eta: real, exp: real -> real)
    requires util.keys != [] && Keyed(util) && ExpLike(exp)
    ensures Total(Weights(util, eta, exp).keys, Weights(util, eta, exp).at) == 1.0
  {
    hide Product, Quotient;
    NormalizerIsPositive(util, eta, exp);
    var z := Normalizer(util, eta, exp);
    TotalQuotient(util.keys, Exponentials(util, eta, exp), Weights(util, eta, exp).at, z);
    QuotientSum(z, 0.0, z);
  }

  // ----- Better and no dearer -----

  lemma CheaperNormalizes(cost: Dict, j: string, k: string)
    requires Keyed(cost) && j in cost.at && k in cost.at && cost.at[j] <= cost.at[k]
    ensures NormalizedCost(cost).at[j] <= NormalizedCost(cost).at[k]
  {
    hide Product, Quotient;
    var hi := HighestOr(cost, 0.0);
    if hi > 0.0 {
      QuotientOrder(cost.at[k], cost.at[j], hi);
    }
  }

  lemma BetterAndCheaperUtility(quality: Dict, cost: Dict, lam: real, j: string, k: string)
    requires Keyed(quality) && Keyed(cost)
    requires quality.keys == cost.keys && lam >= 0.0 && j in quality.at && k in quality.at
    requires j in cost.at && k in cost.at
    requires quality.at[j] >= quality.at[k] && cost.at[j] <= cost.at[k]
    ensures Utilities(quality, cost, lam).at[j] >= Utilities(quality, cost, lam).at[k]
  {
    hide Product, Quotient;
    var ncost := NormalizedCost(cost);
    CheaperNormalizes(cost, j, k);
    ProductMonotone(lam, ncost.at[j], ncost.at[k]);
  }

  /** A candidate that is no worse and no dearer than another never gets less weight. */
  lemma BetterAndCheaperWins(stats: seq<ModelStats>, lam: real, eta: real, exp: real -> real, j: string, k: string)
    requires ExpLike(exp) && eta > 0.0 && lam >= 0.0
    requires j in QualityOf(stats).at && k in QualityOf(stats).at
    requires j in CostOf(stats).at && k in CostOf(stats).at
    requires QualityOf(stats).at[j] >= QualityOf(stats).at[k] && CostOf(stats).at[j] <= CostOf(stats).at[k]
    ensures WeightsOf(stats, lam, eta, exp).at[j] >= WeightsOf(stats, lam, eta, exp).at[k]
  {
    hide Product, Quotient;
    SameKeys(stats, (s: ModelStats) => s.quality, (s: ModelStats) => s.costUsd);
    BetterAndCheaperUtility(QualityOf(stats), CostOf(stats), lam, j, k);
    WeightOrder(UtilitiesOf(stats, lam), eta, exp, j, k);
  }

  // ----- Shifting qualities, scaling costs -----

  function Adjusted(s: ModelStats, shift: real, scale: real): ModelStats {
    s.(quality := s.quality + shift, costUsd := Product(scale, s.costUsd))
  }

  function AdjustAll(stats: seq<ModelStats>, shift: real, scale: real): (r: seq<ModelStats>)
    ensures |r| == |stats| && forall i :: 0 <= i < |r| ==> r[i] == Adjusted(stats[i], shift, scale)
  {
    seq(|stats|, i requires 0 <= i < |stats| => Adjusted(stats[i], shift, scale))
  }

  /** Collecting values that were all changed alike. */
  lemma {:induction false} CollectChanged(stats: seq<ModelStats>, other: seq<ModelStats>, value: ModelStats -> real,
                                          change: real -> real)
    requires |other| == |stats|
    requires forall i :: 0 <= i < |stats| ==>
               other[i].model == stats[i].model && value(other[i]) == change(value(stats[i]))
    ensures Collect(other, value).keys == Collect(stats, value).keys
    ensures Collect(other, value).at.Keys == Collect(stats, value).at.Keys
    ensures forall k :: k in Collect(stats, value).at ==>
              Collect(other, value).at[k] == change(Collect(stats, value).at[k])
    decreases |stats|
  {
    if stats != [] {
      CollectChanged(stats[..|stats| - 1], other[..|stats| - 1], value, change);
    }
  }

  lemma ShiftedAdvantages(q: Dict, r: Dict, shift: real)
    requires q.keys == r.keys && Keyed(q) && Keyed(r)
    requires forall k :: k in q.at ==> k in r.at && r.at[k] == q.at[k] + shift
    ensures Advantages(r) == Advantages(q)
  {
    hide Product, Quotient;
    if q.keys != [] {
      var n := |q.keys| as real;
      TotalShift(q.keys, q.at, r.at, shift);
      QuotientSum(Total(q.keys, q.at), Product(shift, n), n);
      QuotientOfProduct(shift, n);
      assert Advantages(r).at.Keys == Advantages(q).at.Keys;
    }
  }

  lemma {:induction false} HighestScales(keys: seq<string>, at: map<string, real>, bt: map<string, real>, scale: real)
    requires keys != [] && scale > 0.0
    requires forall k :: k in keys ==> k in at && k in bt && bt[k] == Product(scale, at[k])
    ensures Highest(keys, bt) == Product(scale, Highest(keys, at))
  {
    hide Product;
    if |keys| > 1 {
      HighestScales(keys[1..], at, bt, scale);
      ProductOrder(scale, at[keys[0]], Highest(keys[1..], at));
    }
  }

  lemma ScaledCosts(c: Dict, d: Dict, scale: real)
    requires c.keys == d.keys && Keyed(c) && Keyed(d)
    requires scale > 0.0 && forall k :: k in c.at ==> k in d.at && d.at[k] == Product(scale, c.at[k])
    ensures NormalizedCost(d) == NormalizedCost(c)
  {
    hide Product, Quotient;
    if c.keys != [] {
      HighestScales(c.keys, c.at, d.at, scale);
      var hi := Highest(c.keys, c.at);
      ProductOrder(scale, 0.0, hi);
      forall k | k in c.at ensures NormalizedCost(d).at[k] == NormalizedCost(c).at[k] {
        if hi > 0.0 {
          ProductQuotient(scale, c.at[k], hi);
        }
      }
    }
    assert NormalizedCost(d).at.Keys == NormalizedCost(c).at.Keys;
  }

  lemma SameUtilities(q: Dict, r: Dict, c: Dict, d: Dict, lam: real)
    requires Keyed(q) && Keyed(r) && Keyed(c) && Keyed(d)
    requires q.keys == r.keys == c.keys == d.keys
    requires Advantages(q) == Advantages(r) && NormalizedCost(c) == NormalizedCost(d)
    ensures Utilities(q, c, lam) == Utilities(r, d, lam)
  {
    hide Product, Quotient;
    assert q.at.Keys == r.at.Keys;
  }

  /** Raising every quality alike, or pricing in another currency, changes no weight. */
  lemma WeightsIgnoreShiftAndScale(stats: seq<ModelStats>, lam: real, eta: real, exp: real -> real, shift: real,
                                   scale: real)
    requires scale > 0.0
    ensures WeightsOf(AdjustAll(stats, shift, scale), lam, eta, exp) == WeightsOf(stats, lam, eta, exp)
  {
    hide Product, Quotient;
    var all := AdjustAll(stats, shift, scale);
    CollectChanged(stats, all, (s: ModelStats) => s.quality, x => x + shift);
    CollectChanged(stats, all, (s: ModelStats) => s.costUsd, x => Product(scale, x));
    SameKeys(stats, (s: ModelStats) => s.quality, (s: ModelStats) => s.costUsd);
    SameKeys(all, (s: ModelStats) => s.quality, (s: ModelStats) => s.costUsd);
    ShiftedAdvantages(QualityOf(stats), QualityOf(all), shift);
    ScaledCosts(CostOf(stats), CostOf(all), scale);
    SameUtilities(QualityOf(stats), QualityOf(all), CostOf(stats), CostOf(all), lam);
  }

  // ----- The ranked list -----

  ghost predicate BestFirst(r: seq<RankedModel>) {
    forall i, j :: 0 <= i < j < |r| ==> r[i].weight >= r[j].weight
  }

  lemma {:induction false} InsertElements(x: RankedModel, r: seq<RankedModel>)
    ensures multiset(Insert(x, r)) == multiset(r) + multiset{x}
    ensures forall y :: y in Insert(x, r) ==> y == x || y in r
  {
    if r != [] && x.weight < r[0].weight {
      InsertElements(x, r[1..]);
      assert r == [r[0]] + r[1..];
    }
  }

  lemma {:induction false} InsertKeepsOrder(x: RankedModel, r: seq<RankedModel>)
    requires BestFirst(r)
    ensures BestFirst(Insert(x, r))
  {
    if r != [] && x.weight < r[0].weight {
      InsertKeepsOrder(x, r[1..]);
      InsertElements(x, r[1..]);
      forall y | y in Insert(x, r[1..]) ensures r[0].weight >= y.weight {
      }
    }
  }

  lemma {:induction false} SortIsBestFirst(r: seq<RankedModel>)
    ensures BestFirst(SortByWeight(r)) && multiset(SortByWeight(r)) == multiset(r)
  {
    if r != [] {
      SortIsBestFirst(r[1..]);
      InsertKeepsOrder(r[0], SortByWeight(r[1..]));
      InsertElements(r[0], SortByWeight(r[1..]));
      assert r == [r[0]] + r[1..];
    }
  }

  lemma TopOfSorted(entries: seq<RankedModel>, i: nat) returns (top: nat)
    requires i < |entries|
    ensures var ranked := SortByWeight(entries);
            && |ranked| == |entries| && entries[i] in ranked
            && top < |entries| && ranked[0] == entries[top] && entries[top].weight >= entries[i].weight
  {
    var ranked := SortByWeight(entries);
    SortIsBestFirst(entries);
    assert |multiset(ranked)| == |multiset(entries)|;
    assert entries[i] in multiset(entries) && ranked[0] in multiset(ranked);
    top :| 0 <= top < |entries| && entries[top] == ranked[0];
    var p :| 0 <= p < |ranked| && ranked[p] == entries[i];
  }

  lemma HeavierIsMoreUseful(stats: seq<ModelStats>, lam: real, eta: real, exp: real -> real, s: ModelStats,
                            t: ModelStats)
    requires ExpLike(exp) && eta > 0.0 && s in stats && t in stats
    requires RankedEntry(stats, s, lam, eta, exp).weight >= RankedEntry(stats, t, lam, eta, exp).weight
    ensures RankedEntry(stats, s, lam, eta, exp).utility >= RankedEntry(stats, t, lam, eta, exp).utility
  {
    hide Product, Quotient;
    assert s.model in QualityOf(stats).at && t.model in QualityOf(stats).at;
    WeightOrder(UtilitiesOf(stats, lam), eta, exp, s.model, t.model);
  }

  /** The ranking lists every candidate's entry, and the suggested primary has the best utility. */
  lemma PrimaryHasBestUtility(stats: seq<ModelStats>, lam: real, eta: real, exp: real -> real, i: nat)
    requires ExpLike(exp) && eta > 0.0 && i < |stats|
    ensures var ranked := Rank(stats, lam, eta, exp);
            && |ranked| == |stats| && RankedEntry(stats, stats[i], lam, eta, exp) in ranked
            && ranked[0].utility >= RankedEntry(stats, stats[i], lam, eta, exp).utility
  {
    hide Product, Quotient;
    var top := TopOfSorted(Entries(stats, lam, eta, exp), i);
    HeavierIsMoreUseful(stats, lam, eta, exp, stats[top], stats[i]);
  }
}
