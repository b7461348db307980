/** Types shared by the credit-oracle, the identity-oracle and governance. */
module CreditOracleTypes {
  import opened Host

  const MIN_COMPONENT_WEIGHT := 10

  datatype ScoringWeights = ScoringWeights(vc: u32, tx: u32, repayment: u32) {
    function Total(): int { vc + tx + repayment }

    predicate LargeEnough() {
      && vc >= MIN_COMPONENT_WEIGHT
      && tx >= MIN_COMPONENT_WEIGHT
      && repayment >= MIN_COMPONENT_WEIGHT
    }

    predicate IsValid() {
      LargeEnough() && Total() == 100
    }

    /** The u32 sum is evaluated only when the three comparisons before it hold,
        and then it may overflow. */
    predicate ValidityCheckOverflows() {
      LargeEnough() && Total() > U32_MAX
    }
  }

  datatype PendingWeightsRecord = PendingWeightsRecord(weights: ScoringWeights, effectiveLedger: u32)

  const DEFAULT_WEIGHTS := ScoringWeights(40, 30, 30)

  /** An anchored credential (`IdentityVCRecord`). */
  datatype VcRecord = VcRecord(hash: Hash, issuer: Address, anchoredAt: u64, revoked: bool)

  datatype CreditOracleError =
    | NotAuthorized
    | FeederNotRegistered
    | LenderNotRegistered
    | InvalidWeights
    | ComputeCooldownActive
    | ContractPaused
    | InvalidRecencyConfig
    | TimelockNotExpired
    | NoPendingWeights
    | InvalidAmount
    | InvalidComputeCooldown
}
