/** The score the zk-wasm package recomputes in u32 before it proves a statement about
    it. It must equal the contract's score, or the proof is about another number. */
module ZkWasm {
  import opened Host
  import opened CreditOracleTypes
  import opened Arithmetic
  import opened Scoring

  const TWO_32 := U32_MAX + 1

  /** `(amount / 100_000_000).max(0) as u32`: the cast keeps the low 32 bits. */
  function WrappedUnits(amount: i128): u32 {
    Max(TruncDiv(amount, STROOPS), 0) % TWO_32
  }

  /** The rate is computed in u64, where it fits, and cast to u32. */
  function ZkRate(onTime: u32, total: u32): u32 {
    if total > 0 then onTime * 10_000 / total / 100 % TWO_32 else 0
  }

  /** The two halves of the repayment score, before they are averaged. */
  function ZkRepaySum(i: Inputs): nat {
    ZkRate(i.onTime, i.total) + Min(WrappedUnits(i.repaid), 100)
  }

  function ZkTxScore(i: Inputs): (r: u32)
    ensures r <= 100
  {
    Min(Min(WrappedUnits(i.volume), 80) + Min(i.counterparties / 5, 20), 100)
  }

  /** The weighted sum before any overflow is considered. */
  function ZkWeightedSum(i: Inputs, w: ScoringWeights): (r: nat)
    ensures r == VcScore(i) * w.vc + ZkTxScore(i) * w.tx + ZkRepaySum(i) / 2 * w.repayment
  {
    Product(VcScore(i), w.vc) + Product(ZkTxScore(i), w.tx) + Product(ZkRepaySum(i) / 2, w.repayment)
  }

  /** The score as the package computes it in checked u32; `None` when it aborts. No summand
      or factor is negative, so some partial sum or product overflows exactly when the
      whole one does. */
  function ZkScore(i: Inputs, w: ScoringWeights): Option<u32> {
    if ZkRepaySum(i) > U32_MAX || ZkWeightedSum(i, w) > U32_MAX then None
    else
      var composite: u32 := ZkWeightedSum(i, w) / 100;
      if composite * 550 > U32_MAX then None
      else
        var scaled: u32 := composite * 550;
        Some(Max(Min(300 + scaled / 100, 850), 300))
  }

  /** The cast is harmless for an amount whose whole units fit u32, or whose low 32 bits
      still reach the cap. */
  predicate CastIsHarmless(amount: i128, cap: nat) {
    TruncDiv(amount, STROOPS) < TWO_32 || WrappedUnits(amount) >= cap
  }

  lemma HarmlessIffSameUnits(amount: i128, cap: nat)
    requires 0 < cap <= 100
    ensures CastIsHarmless(amount, cap) <==> Min(WrappedUnits(amount), cap) == CappedUnits(amount, cap)
    ensures Min(WrappedUnits(amount), cap) <= CappedUnits(amount, cap)
  {
  }

  /** All three casts to u32 keep what the contract uses. */
  predicate CastsAreHarmless(i: Inputs) {
    CastIsHarmless(i.volume, 80) && CastIsHarmless(i.repaid, 100) && RateScore(i.onTime, i.total) <= U32_MAX
  }

  /** The contract's own quantities fit u32. */
  predicate FitsU32(i: Inputs, w: ScoringWeights) {
    && RateScore(i.onTime, i.total) + CappedUnits(i.repaid, 100) <= U32_MAX
    && WeightedSum(i, w) / 100 * 550 <= U32_MAX
  }

  lemma SameComponents(i: Inputs, w: ScoringWeights)
    requires CastsAreHarmless(i)
    ensures ZkTxScore(i) == TxScore(i)
    ensures ZkRepaySum(i) == RateScore(i.onTime, i.total) + CappedUnits(i.repaid, 100)
    ensures ZkWeightedSum(i, w) == WeightedSum(i, w)
  {
    HarmlessIffSameUnits(i.volume, 80);
    HarmlessIffSameUnits(i.repaid, 100);
    SameRate(i.onTime, i.total);
    assert ZkRepaySum(i) / 2 == RepayScore(i);
  }

  lemma SameRate(onTime: u32, total: u32)
    requires RateScore(onTime, total) <= U32_MAX
    ensures ZkRate(onTime, total) == RateScore(onTime, total)
  {
    if total > 0 { RateBound(onTime, total); }
  }

  /** For any record and any weights whose casts are harmless, the package computes the
      contract's score when the contract's quantities fit u32, and aborts otherwise. */
  lemma ZkScoreMatchesContract(i: Inputs, w: ScoringWeights)
    requires CastsAreHarmless(i)
    ensures ZkScore(i, w) == if FitsU32(i, w) then Some(ComputeScorePure(i, w)) else None
  {
    SameComponents(i, w);
    var composite := WeightedSum(i, w) / 100;
    assert composite * 550 <= U32_MAX ==> SatMulU128(composite, 550) == composite * 550;
  }

  /** Everything fits under valid weights and consistent counters, so nothing aborts. */
  lemma ValidRecordsFit(i: Inputs, w: ScoringWeights)
    requires w.IsValid() && i.Consistent()
    ensures FitsU32(i, w) && RateScore(i.onTime, i.total) <= U32_MAX
  {
    WeightedSumBound(i, w);
  }

  lemma BelowTwo32IsHarmless(amount: i128, cap: nat)
    requires amount < TWO_32 * STROOPS
    ensures CastIsHarmless(amount, cap)
  {
  }

  ghost predicate AlwaysAgree(volume: i128, repaid: i128) {
    forall i: Inputs, w: ScoringWeights {:trigger ZkScore(i, w)} ::
      w.IsValid() && i.Consistent() && i.volume == volume && i.repaid == repaid
      ==> ZkScore(i, w) == Some(ComputeScorePure(i, w))
  }

  /** A record with the two given amounts and nothing else but a few credential points. */
  function Probe(points: u32, volume: i128, repaid: i128): Inputs {
    Inputs(points, volume, 0, 0, 0, repaid)
  }

  lemma ProbeComponents(points: u32, volume: i128, repaid: i128)
    requires points <= 100
    ensures var i := Probe(points, volume, repaid);
            && VcScore(i) == points
            && TxScore(i) == CappedUnits(volume, 80) && ZkTxScore(i) == Min(WrappedUnits(volume), 80)
            && RepayScore(i) == CappedUnits(repaid, 100) / 2
            && ZkRepaySum(i) == Min(WrappedUnits(repaid), 100)
  {
  }

  /** Two probes differ once one component is full on chain and the weighted sums differ
      by at least the component that was lost. */
  lemma ProbeDiffers(i: Inputs, w: ScoringWeights)
    requires w.IsValid() && i.Consistent()
    requires ZkWeightedSum(i, w) < WeightedSum(i, w)
    requires WeightedSum(i, w) % 100 == 0
    ensures !AlwaysAgree(i.volume, i.repaid)
  {
    WeightedSumBound(i, w);
    LosesAPoint(ZkWeightedSum(i, w), WeightedSum(i, w));
    assert ZkScore(i, w).Some? ==> ZkScore(i, w).value == Rescale(ZkWeightedSum(i, w));
  }

  lemma VolumeProbeDiffers(volume: i128, repaid: i128)
    requires !CastIsHarmless(volume, 80)
    ensures !AlwaysAgree(volume, repaid)
  {
    HarmlessIffSameUnits(volume, 80);
    HarmlessIffSameUnits(repaid, 100);
    var r: nat := CappedUnits(repaid, 100) / 2;
    var points := Padding(r);
    ProbeComponents(points, volume, repaid);
    PaddedSum(points, r, 6400);
    var i, w := Probe(points, volume, repaid), ScoringWeights(10, 80, 10);
    assert WeightedSum(i, w) == 10 * (points + r) + 6400;
    assert ZkWeightedSum(i, w) <= 10 * (points + r) + 80 * 79;
    ProbeDiffers(i, w);
  }

  lemma RepaidProbeDiffers(volume: i128, repaid: i128)
    requires CastIsHarmless(volume, 80) && !CastIsHarmless(repaid, 100)
    ensures !AlwaysAgree(volume, repaid)
  {
    HarmlessIffSameUnits(volume, 80);
    HarmlessIffSameUnits(repaid, 100);
    var t: nat := CappedUnits(volume, 80);
    var points := Padding(t);
    ProbeComponents(points, volume, repaid);
    PaddedSum(points, t, 4000);
    var i, w := Probe(points, volume, repaid), ScoringWeights(10, 10, 80);
    assert WeightedSum(i, w) == 10 * (points + t) + 4000;
    assert ZkRepaySum(i) / 2 <= 49;
    assert ZkWeightedSum(i, w) <= 10 * (points + t) + 80 * 49;
    ProbeDiffers(i, w);
  }

  /** Exactly which amounts are safe: with a given volume and repaid sum, the package
      agrees with the contract on every record and under every valid weighting if and
      only if both casts are harmless. */
  lemma ZkAgreementIff(volume: i128, repaid: i128)
    ensures AlwaysAgree(volume, repaid) <==> CastIsHarmless(volume, 80) && CastIsHarmless(repaid, 100)
  {
    if !CastIsHarmless(volume, 80) {
      VolumeProbeDiffers(volume, repaid);
    } else if !CastIsHarmless(repaid, 100) {
      RepaidProbeDiffers(volume, repaid);
    } else {
      forall i: Inputs, w: ScoringWeights
        | w.IsValid() && i.Consistent() && i.volume == volume && i.repaid == repaid
        ensures ZkScore(i, w) == Some(ComputeScorePure(i, w))
      {
        ValidRecordsFit(i, w);
        ZkScoreMatchesContract(i, w);
      }
    }
  }

  /** The smallest amount that wraps to nothing. */
  lemma WrapExample()
    ensures ZkScore(Probe(0, TWO_32 * STROOPS, 0), ScoringWeights(10, 80, 10)) == Some(300)
    ensures ComputeScorePure(Probe(0, TWO_32 * STROOPS, 0), ScoringWeights(10, 80, 10)) == 652
  {
    var i, w := Probe(0, TWO_32 * STROOPS, 0), ScoringWeights(10, 80, 10);
    assert WrappedUnits(i.volume) == 0;
    assert TxScore(i) == 80 && RepayScore(i) == 0 && VcScore(i) == 0;
    assert WeightedSum(i, w) == 6400;
  }
}
