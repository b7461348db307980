/** `compute_score_pure`: three capped components, a weighted composite and an affine
    map to 300..850, in checked u128 arithmetic. The circuit crate carries a second,
    identical copy of this function. */
module Scoring {
  import opened Host
  import opened CreditOracleTypes
  import opened Arithmetic

  const MIN_SCORE := 300
  const MAX_SCORE := 850
  const STROOPS := 100_000_000

  datatype Inputs = Inputs(
    vcPoints: u32,
    volume: i128,
    counterparties: u32,
    onTime: u32,
    total: u32,
    repaid: i128)
  {
    /** What `record_repayment` keeps true of the counters. */
    predicate Consistent() { onTime <= total }
  }

  function SatMulU128(a: u128, b: u128): (r: u128) {
    if a == 0 || b == 0 then 0
    else if a * b <= 0xFFFF_FFFF_FFFF_FFFF_FFFF_FFFF_FFFF_FFFF then Product(a, b)
    else 0xFFFF_FFFF_FFFF_FFFF_FFFF_FFFF_FFFF_FFFF
  }

  function Product(a: nat, b: nat): nat {
    MulBound(a, b, a, b);
    a * b
  }

  /** A stroop amount in whole units, negative amounts counting as none, up to a cap. */
  function CappedUnits(amount: i128, cap: nat): (r: u128)
    requires cap <= 100
    ensures r <= cap
  {
    Min(Max(TruncDiv(amount, STROOPS), 0), cap)
  }

  function VcScore(i: Inputs): (r: u128)
    ensures r <= 100
  {
    Min(i.vcPoints, 100)
  }

  function TxScore(i: Inputs): (r: u128)
    ensures r <= 100
  {
    Min(CappedUnits(i.volume, 80) + Min(i.counterparties / 5, 20), 100)
  }

  function RateScore(onTime: u32, total: u32): (r: u128)
    ensures r <= 100 * U32_MAX
    ensures onTime <= total ==> r <= 100
  {
    if total == 0 then 0
    else
      RateBound(onTime, total);
      (SatMulU128(onTime, 10_000) / total) / 100
  }

  lemma RateBound(onTime: u32, total: u32)
    requires total > 0
    ensures (SatMulU128(onTime, 10_000) / total) / 100 <= 100 * U32_MAX
    ensures onTime <= total ==> (onTime * 10_000) / total <= 10_000
    ensures SatMulU128(onTime, 10_000) == onTime * 10_000
  {
    DivShrinks(onTime * 10_000, total);
    if onTime <= total {
      DivAtMost(onTime * 10_000, total, 10_000);
    }
  }

  function RepayScore(i: Inputs): (r: u128)
    ensures r <= 50 * U32_MAX + 50
    ensures i.Consistent() ==> r <= 100
  {
    (RateScore(i.onTime, i.total) + CappedUnits(i.repaid, 100)) / 2
  }

  function WeightedSum(i: Inputs, w: ScoringWeights): (r: u128)
    ensures r <= 200 * U32_MAX + (50 * U32_MAX + 50) * U32_MAX
    ensures r == VcScore(i) * w.vc + TxScore(i) * w.tx + RepayScore(i) * w.repayment
  {
    MulBound(VcScore(i), w.vc, 100, U32_MAX);
    MulBound(TxScore(i), w.tx, 100, U32_MAX);
    MulBound(RepayScore(i), w.repayment, 50 * U32_MAX + 50, U32_MAX);
    var vc: u128 := VcScore(i) * w.vc;
    var tx: u128 := TxScore(i) * w.tx;
    var repay: u128 := RepayScore(i) * w.repayment;
    var partial: u128 := vc + tx;
    partial + repay
  }

  /** The affine map from a weighted sum to a score, clamped to the published range. */
  function Rescale(weightedSum: u128): (score: u32)
    ensures MIN_SCORE <= score <= MAX_SCORE
  {
    var composite: u128 := weightedSum / 100;
    var scaled: u128 := SatMulU128(composite, 550) / 100;
    var score: u128 := MIN_SCORE + scaled;
    Max(Min(score, MAX_SCORE), MIN_SCORE)
  }

  /** `compute_score_pure`. Every intermediate is a u128, so the types show that no step
      overflows, whatever the inputs and the weights. */
  function ComputeScorePure(i: Inputs, w: ScoringWeights): (score: u32)
    ensures MIN_SCORE <= score <= MAX_SCORE
  {
    Rescale(WeightedSum(i, w))
  }

  /** The documented formula on unbounded integers: no saturation and no final clamp. */
  function DocumentedScore(i: Inputs, w: ScoringWeights): int {
    var vcScore := Min(i.vcPoints, 100);
    var volumeScore := Min(Max(TruncDiv(i.volume, STROOPS), 0), 80);
    var txScore := volumeScore + Min(i.counterparties / 5, 20);
    var rate := if i.total == 0 then 0 else i.onTime * 10_000 / i.total / 100;
    var repayScore := (rate + Min(Max(TruncDiv(i.repaid, STROOPS), 0), 100)) / 2;
    var composite := (vcScore * w.vc + txScore * w.tx + repayScore * w.repayment) / 100;
    300 + composite * 550 / 100
  }

  lemma WeightedSumBound(i: Inputs, w: ScoringWeights)
    requires w.IsValid() && i.Consistent()
    ensures 0 <= WeightedSum(i, w) <= 10_000
  {
    MulBound(VcScore(i), w.vc, 100, w.vc);
    MulBound(TxScore(i), w.tx, 100, w.tx);
    MulBound(RepayScore(i), w.repayment, 100, w.repayment);
  }

  /** Under valid weights and consistent counters neither the saturations nor the final
      clamp ever bind: the contract computes the documented formula. */
  lemma ClampNeverBinds(i: Inputs, w: ScoringWeights)
    requires w.IsValid() && i.Consistent()
    ensures ComputeScorePure(i, w) == DocumentedScore(i, w)
    ensures MIN_SCORE <= DocumentedScore(i, w) <= MAX_SCORE
  {
    WeightedSumBound(i, w);
    if i.total > 0 {
      RateBound(i.onTime, i.total);
    }
    var composite := WeightedSum(i, w) / 100;
    assert 0 <= composite <= 100;
    assert SatMulU128(composite, 550) == composite * 550;
  }

  /** For any record and any weights, the contract computes the documented formula exactly
      when the weighted sum stays below 10,100; above that the clamp binds. */
  lemma ClampIsIdleIff(i: Inputs, w: ScoringWeights)
    ensures ComputeScorePure(i, w) == DocumentedScore(i, w) <==> WeightedSum(i, w) < 10_100
  {
    if i.total > 0 { RateBound(i.onTime, i.total); }
    var composite := WeightedSum(i, w) / 100;
    assert SatMulU128(composite, 550) == composite * 550;
    assert DocumentedScore(i, w) == 300 + composite * 550 / 100;
  }

  /** The clamp is needed without those conditions: an inconsistent record overshoots. */
  lemma ClampBindsOnInconsistentCounters()
    ensures var i := Inputs(100, 80 * STROOPS, 100, 3, 1, 100 * STROOPS);
            !i.Consistent() && DEFAULT_WEIGHTS.IsValid()
            && ComputeScorePure(i, DEFAULT_WEIGHTS) == 850 < DocumentedScore(i, DEFAULT_WEIGHTS)
  {
    var i := Inputs(100, 80 * STROOPS, 100, 3, 1, 100 * STROOPS);
    assert RateScore(3, 1) == 300;
    assert RepayScore(i) == 200;
    assert VcScore(i) == 100 && TxScore(i) == 100;
    assert WeightedSum(i, DEFAULT_WEIGHTS) == 13_000;
  }

  /** All three components are full exactly when every input reaches its own cap. */
  predicate Flawless(i: Inputs) {
    && i.vcPoints >= 100
    && i.volume >= 80 * STROOPS
    && i.counterparties >= 100
    && i.onTime == i.total > 0
    && i.repaid >= 100 * STROOPS
  }

  lemma FullRate(onTime: u32, total: u32)
    requires onTime <= total
    ensures RateScore(onTime, total) == 100 <==> onTime == total > 0
  {
    if total > 0 {
      RateBound(onTime, total);
      if onTime == total {
        assert onTime * 10_000 == 10_000 * total;
        DivAtLeast(onTime * 10_000, total, 10_000);
      } else {
        ProductGap(onTime, total, 10_000);
        DivAtMost(onTime * 10_000, total, 9_999);
      }
    }
  }

  /** 850 is reached exactly by a flawless record, for every valid choice of weights. */
  lemma PerfectScoreIff(i: Inputs, w: ScoringWeights)
    requires w.IsValid() && i.Consistent()
    ensures ComputeScorePure(i, w) == MAX_SCORE <==> Flawless(i)
  {
    ClampNeverBinds(i, w);
    WeightedSumBound(i, w);
    FullRate(i.onTime, i.total);
    var v, t, r := VcScore(i), TxScore(i), RepayScore(i);
    assert Flawless(i) <==> v == 100 && t == 100 && r == 100;
    if v == 100 && t == 100 && r == 100 {
      assert WeightedSum(i, w) == 100 * w.vc + 100 * w.tx + 100 * w.repayment;
    } else {
      MissingPoints(v, w.vc);
      MissingPoints(t, w.tx);
      MissingPoints(r, w.repayment);
      assert WeightedSum(i, w) < 10_000;
    }
  }

  lemma MissingPoints(component: nat, weight: nat)
    requires component <= 100 && weight >= MIN_COMPONENT_WEIGHT
    ensures component * weight <= 100 * weight
    ensures component < 100 ==> component * weight < 100 * weight
  {
    MulBound(component, weight, 100, weight);
    if component < 100 {
      MulBound(component, weight, 99, weight);
    }
  }

  /** One more credential point never lowers the score and raises it by at most six,
      also where the counters are inconsistent and the clamp binds. */
  lemma OneMorePoint(i: Inputs, w: ScoringWeights)
    requires w.IsValid() && i.vcPoints < U32_MAX
    ensures var j := i.(vcPoints := i.vcPoints + 1);
            ComputeScorePure(i, w) <= ComputeScorePure(j, w) <= ComputeScorePure(i, w) + 6
  {
    var j := i.(vcPoints := i.vcPoints + 1);
    StepBound(VcScore(i), VcScore(j), w.vc);
    assert VcScore(i) * w.vc == WeightedSum(i, w) - TxScore(i) * w.tx - RepayScore(i) * w.repayment;
    RescaleStep(WeightedSum(i, w), WeightedSum(j, w));
  }

  lemma RescaleStep(a: u128, b: u128)
    requires a <= b <= a + 80
    ensures Rescale(a) <= Rescale(b) <= Rescale(a) + 6
  {
    RescaleMonotone(a, b);
    if a < 10_000 {
      AffineStep(a, b);
    } else {
      RescaleMonotone(10_000, a);
    }
  }

  lemma StepBound(a: nat, b: nat, weight: nat)
    requires a <= b <= a + 1 && weight <= 80
    ensures 0 <= b * weight - a * weight <= 80
  {
    assert b == a || b * weight == a * weight + weight;
  }

  lemma AffineStep(a: nat, b: nat)
    requires a <= b <= a + 80
    ensures a / 100 * 550 / 100 <= b / 100 * 550 / 100 <= a / 100 * 550 / 100 + 6
  {
    assert a / 100 <= b / 100 <= a / 100 + 1;
  }

  /** j's record is at least as good as i's in every respect; repayment histories are
      compared by their on-time ratio. */
  predicate AtLeastAsGood(i: Inputs, j: Inputs) {
    && i.vcPoints <= j.vcPoints
    && i.volume <= j.volume
    && i.counterparties <= j.counterparties
    && i.repaid <= j.repaid
    && RatioAtMost(i.onTime, i.total, j.onTime, j.total)
  }

  predicate RatioAtMost(o: nat, t: nat, o': nat, t': nat) {
    t == 0 || (t' > 0 && o * t' <= o' * t)
  }

  /** Flooring to basis points preserves the order of two repayment ratios. */
  lemma BpsMonotone(o: nat, t: nat, o': nat, t': nat)
    requires t > 0 && t' > 0 && o * t' <= o' * t
    ensures o * 10_000 / t <= o' * 10_000 / t'
  {
    var q := o * 10_000 / t;
    assert q * t <= o * 10_000;
    assert (q * t') * t <= (o' * 10_000) * t by {
      MulBound(q * t, t', o * 10_000, t');
      assert (q * t') * t == (q * t) * t';
      assert (o * 10_000) * t' == (o * t') * 10_000;
      assert (o' * t) * 10_000 == (o' * 10_000) * t;
    }
    CancelFactor(q * t', o' * 10_000, t);
    DivAtLeast(o' * 10_000, t', q);
  }

  lemma ComponentsMonotone(i: Inputs, j: Inputs)
    requires AtLeastAsGood(i, j)
    ensures VcScore(i) <= VcScore(j) && TxScore(i) <= TxScore(j) && RepayScore(i) <= RepayScore(j)
  {
    TruncDivMonotone(i.volume, j.volume, STROOPS);
    TruncDivMonotone(i.repaid, j.repaid, STROOPS);
    assert RateScore(i.onTime, i.total) <= RateScore(j.onTime, j.total) by {
      if i.total > 0 {
        RateBound(i.onTime, i.total);
        RateBound(j.onTime, j.total);
        BpsMonotone(i.onTime, i.total, j.onTime, j.total);
      }
    }
  }

  lemma RescaleMonotone(a: u128, b: u128)
    requires a <= b
    ensures Rescale(a) <= Rescale(b)
  {
    SatMulMonotone(a / 100, b / 100, 550);
  }

  lemma SatMulMonotone(a: u128, b: u128, k: u128)
    requires a <= b && k > 0
    ensures SatMulU128(a, k) <= SatMulU128(b, k)
  {
    MulBound(a, k, b, k);
  }

  /** The score is monotone in the whole record, for any weights and any counters. */
  lemma ScoreMonotone(i: Inputs, j: Inputs, w: ScoringWeights)
    requires AtLeastAsGood(i, j)
    ensures ComputeScorePure(i, w) <= ComputeScorePure(j, w)
  {
    ComponentsMonotone(i, j);
    MulBound(VcScore(i), w.vc, VcScore(j), w.vc);
    MulBound(TxScore(i), w.tx, TxScore(j), w.tx);
    MulBound(RepayScore(i), w.repayment, RepayScore(j), w.repayment);
    RescaleMonotone(WeightedSum(i, w), WeightedSum(j, w));
  }

  // ---- telling two weighted sums apart ---------------------------------------------------

  /** A weighted sum that is a whole number of points loses a point when it shrinks. */
  lemma LosesAPoint(less: u128, full: u128)
    requires less < full <= 10_000 && full % 100 == 0
    ensures Rescale(less) < Rescale(full)
  {
    assert less / 100 < full / 100;
  }

  /** Points that bring a component up to a multiple of ten. */
  function Padding(component: nat): (points: u32)
    ensures points < 10 && (points + component) % 10 == 0
  {
    (10 - component % 10) % 10
  }

  lemma PaddedSum(points: nat, component: nat, hundreds: nat)
    requires (points + component) % 10 == 0 && hundreds % 100 == 0
    ensures (10 * (points + component) + hundreds) % 100 == 0
  {
  }
}
