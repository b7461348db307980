# Verified model of the credit contracts

Four Soroban contracts share state across contract boundaries: **governance** votes on
scoring weights, the **credit oracle** queues and applies them and computes scores, the
**identity oracle** keeps each subject's credentials, and the **revocation registry** keeps
four redundant indexes of revoked hashes. This project models the four contracts and the
scoring arithmetic (also in its zk-wasm form), and proves what holds in every reachable
state and over every run.

## How the model is built

- `Host.dfy` has the fixed-width integers (subset types, so each intermediate value is
  shown to fit), Rust's truncating division, and `Verdict`: `Ok`, a typed error, or `Trap`
  for an aborted call (checked-arithmetic overflow, missing authorization, failed callee).
  A call that does not end in `Ok` leaves all storage as it was.
- Each contract has a value-level specification (`RegistrySpec`, `IdentitySpec`,
  `CreditSpec` with `WeightQueue`, `GovernanceSpec`): for every call a `Check…` function with
  the error conditions in the contract's own order, an `After…` function with the new state,
  and `Step` and `Run` over sequences of calls. Time is the ledger number carried by each
  call. The set `R` of an identity call is what the linked registry reports revoked.
- Each contract is also a class whose methods follow the Rust code statement by statement
  (`IdentityContracts`, `CreditOracleContract`, `GovernanceContract`), with its loops, its
  rolled-back writes and its calls into the other contracts. Every method is proved against
  the specification of its call, so the theorems about runs are theorems about the classes.
  A few plain calls exist in the value-level specification only: `anchor_did`, the
  `deactivate_identity` entry point, and the admin setters of the registry and of the two
  oracles, except for the credit oracle's pause flag and weights.
- The specifications say how the code decides; three modules prove what it decides. In every
  run the outcome of each call (`GovernanceCalls`), the identity oracle's records, flags and
  switches (`IdentityHistory`), and every score and report (`ScoreHistory`) are determined by
  the earlier calls: the votes cast, the signatures given, the repayments reported.
- Where a property speaks about the past (which proposal queued the weights, the largest
  weight a voter ever held, successive rewrites of a score), an observer's log is computed
  from the run; it has no influence on the contracts.

## Where the code and its documentation disagree

The model follows the code.

- `execute` is documented to mark a proposal executed when the vote failed; the code returns
  `ProposalRejected` or `QuorumNotMet` and leaves it unexecuted. `LostVotesStayLost` shows it
  can nevertheless never be executed later: each later `execute` fails in the same way.
- `docs/governance.md` section 5.7 says tallies saturate; the code adds with a check and
  returns `VoteTallyOverflow`. The check in `vote` covers each side only: `execute` adds the
  two sides, and that sum can overflow (see below).
- `docs/governance.md` computes its minimum delay with a voting period of zero, which
  `create_proposal` rejects, and with non-strict comparisons. The delay proved here is voting
  period + execution delay + 17,281 ledgers.
- `update_voter_weight` says weights must be positive; zero is accepted and deregisters.
- `compute_score` is described as reading `get_active_vc_count`; it reads `get_vc_details`,
  `verify_vc` and `get_vc_credential_type`. `InnerCheckNeverRejects` shows that `verify_vc`
  accepts everything `get_vc_details` returns.
- `docs/security-reentrancy.md` describes the call back from `mark_vc_revoked` into the
  registry during `revoke`. It happens only when the active count is not cached, and
  `NoCallbackWhileRevoking` shows that a subject with records always has its cache, in every
  run of the two linked contracts.

## Properties that hold only under a condition

- `execute` adds the two tallies in checked i128 and may abort. `ExecuteAbortsIff` says exactly
  when: the proposal is past both periods, undecided and ahead, and the weight spent on it
  exceeds i128. `OverflowIsPermanent` shows that such a proposal is never executed in any
  continuation, `ExecuteOverflowNeedsLoweredWeight` that some weight was lowered during its
  life, and `LoweredWeightsCanBlockExecution` is a run that gets there.
- With a registry linked, the identity oracle's cached counts are not always right.
  `CachesAlwaysAgreeIff` is the exact condition for a whole run, batches and repeated hashes
  included: every cache is right throughout if and only if every call is harmless where it is
  made. A mark or a revocation must not hit an unflagged record that is already reported (it
  was never counted), a revocation must not concern another active record, and a batch must
  not name an active credential. `MarkCanOutdateCache`, `RevokeCanOutdateCache` and
  `BatchCanOutdateCache` are runs that break one each. `MarkAbortsIff` says when the decrement
  underflows. `ReportedCredentialCannotBeMarked` is a run that ends in such a state, where
  neither `mark_vc_revoked` nor `revoke` goes through while the subject's own deactivation
  still flags the record (`DeactivationStillFlags`).
- Anchoring a hash the subject already carries under another issuer replaces its type, and the
  score may fall. `AnchoringNeverHurtsIff` says exactly when it cannot, whatever the credit
  oracle's configuration; `AnchoringCanHurt` is a run in which it does.
- The final clamp of the score is idle exactly below a weighted sum of 10,100
  (`ClampIsIdleIff`), which valid weights and consistent counters guarantee.
- zk-wasm casts whole units to u32. `ZkAgreementIff` gives the exact set of amounts for which
  it always agrees with the contract; `WrapExample` is an amount where it is 352 points off.
- Walking `list_revoked` ends in an overflow abort exactly when the last page would end
  beyond u32 (`WalkIsComplete`); `PageCanAbort` is a list of two where it does.
- An executed proposal need not take effect. `ExecutedTakesEffectIff` says exactly when it
  does after a hand-over of an unpaused oracle: if and only if somebody calls apply at least
  17,280 ledgers later and before the next accepted `execute`. `LaterExecutionSupersedes` is
  a run in which a second execution comes first. The oracle can also be handed over paused,
  since the admin transfer does not look at the flag. Governance has no call that reaches
  `pause` or `unpause`, so the flag is then frozen (`PauseIsFrozen`) and no proposal takes
  effect any more (`PausedNeverApplies`); `PausedHandOverFreezesWeights` is the three-call run
  that gets there and `ExecutedWhilePaused` a proposal executed after it.
- A score that is not flagged as stale was computed from the subject's present identity state,
  but registry revocations that bypass the oracle are not stamped.
  `UnflaggedCredentialsAreCurrentIff` says exactly when its credentials are still the active
  ones: the registry has not since reported a hash that one of them carries.

## Model

| member | source | states |
|---|---|---|
| DoubleTimelock.GovernedWeights | contracts/governance/src/lib.rs:461-626 | From any moment at which governance is the oracle's admin, in any run: it stays admin, active weights stay valid, and every later change carries the weights of an executed proposal, a different one each time, at least voting period + delay + 17,281 ledgers after its creation; only a change already queued at that moment is exempt |
| DoubleTimelock.LogAccountsForWeights | contracts/credit-oracle/src/lib.rs:1346-1419 | In every reachable state the active weights are those of the last change in the log, each logged change that came from a proposal waited for both delays, and a proposal is the source of at most one change |
| DoubleTimelock.RoleIsKept | contracts/credit-oracle/src/lib.rs:1509-1552 | Governance never offers the admin role, so once it holds it no run takes it away |
| DoubleTimelock.OnlyInheritedLacksSource | contracts/credit-oracle/src/lib.rs:1346-1376 | While governance is admin only `execute` queues weights; a change without a proposal can only be the inherited one |
| DoubleTimelock.WeightsChangeOnlyByApplying | contracts/credit-oracle/src/lib.rs:1384-1419 | No other call changes the active weights, so the log misses nothing |
| DoubleTimelock.StepShowsInQueue | contracts/governance/src/lib.rs:461-519 | Queueing happens only for an unexecuted proposal past expiry and delay, which it marks executed, and sets the effective ledger 17,280 ahead; applying needs that ledger |
| ExecutionOutcomes.EveryExecutionHasOneFate | contracts/credit-oracle/src/lib.rs:1346-1419 | In every reachable state each executed proposal is the source of exactly one change, or is the one in the queue, or was overwritten there by a later execution or a direct proposal and is the source of none |
| QueueDecisions.ExecutedTakesEffectIff | contracts/credit-oracle/src/lib.rs:1384-1419 | After an unpaused hand-over the weights of an executed proposal become active if and only if somebody calls apply at least 17,280 ledgers later and before the next accepted `execute` |
| QueueDecisions.QueuedTakesEffectIff | contracts/credit-oracle/src/lib.rs:1384-1419 | The same for a proposal found in the queue, with its effective ledger |
| QueueDecisions.FirstTouchDecides | contracts/credit-oracle/src/lib.rs:1346-1419 | From any reachable state the first later call that touches the queue decides the queued proposal's fate: applied at its ledger, or superseded by what it queues; without one it waits |
| QueueDecisions.DecidedFateIsFinal | contracts/credit-oracle/src/lib.rs:1406-1411 | An applied or superseded proposal never changes its fate again |
| QueueDecisions.ApplySucceedsIff | contracts/credit-oracle/src/lib.rs:1384-1404 | Applying succeeds exactly when the oracle is not paused, something is queued and the ledger has reached its effective one |
| QueueDecisions.PauseIsFrozen | contracts/credit-oracle/src/lib.rs:676-707 | After the hand-over the pause flag never changes, and if it is set neither do the active weights |
| QueueDecisions.PausedNeverApplies | contracts/credit-oracle/src/lib.rs:1385 | After a paused hand-over no proposal is applied any more |
| QueueRuns.LaterExecutionSupersedes | contracts/governance/src/lib.rs:461-519 | A run in which a second execution overwrites the first before it is applied, for good |
| QueueRuns.PausedHandOverFreezesWeights | contracts/credit-oracle/src/lib.rs:1509-1552 | A three-call run that hands over a paused oracle; in every continuation the weights stay the default ones |
| QueueRuns.ExecutedWhilePaused | contracts/governance/src/lib.rs:461-519 | A proposal accepted by `execute` after it, which no continuation applies |
| ExecutionOutcomes.GovernedExecutions | contracts/credit-oracle/src/lib.rs:1346-1376 | After the hand-over an executed proposal loses its place only to a later execution |
| ExecutionOutcomes.StepExecutes | contracts/governance/src/lib.rs:504-511 | A proposal becomes executed exactly by the call that queues its weights |
| GovernanceInvariants.WeightsAlwaysValid | contracts/credit-oracle-types/src/lib.rs:107-112 | In every reachable state active and queued weights sum to 100 with each at least 10, and queued weights and effective ledger are both present or both absent |
| GovernanceInvariants.EveryStateIsSound | contracts/governance/src/lib.rs:345-445 | In every reachable state an unexecuted proposal's tally is the sum of the weight its voters have used on it, the registered total is the sum of the voters' weights, ids are 1 to next-1, executed and cancelled exclude each other, and an executed proposal had a majority and its quorum |
| GovernanceInvariants.DecisionsAreFinal | contracts/governance/src/lib.rs:396-437 | In every continuation a decided proposal keeps its whole record; terms never change, tallies never shrink, and after expiry they are fixed |
| GovernanceInvariants.LostVotesStayLost | contracts/governance/src/lib.rs:486-492 | A proposal that `execute` turns down for its votes (rejected, short of quorum, or aborting in the tally addition) stays unexecuted in every continuation, and every later `execute` fails in the same way, or as cancelled |
| GovernanceInvariants.ExecuteAbortsIff | contracts/governance/src/lib.rs:490-492 | `execute` aborts in its own checks exactly for a proposal past both periods, undecided and ahead, whose two tallies, which are the weight spent on it, exceed i128 |
| GovernanceInvariants.OverflowIsPermanent | contracts/governance/src/lib.rs:490-492 | Once the weight spent on an unexecuted proposal exceeds i128, no call of any continuation executes it |
| GovernanceInvariants.OnlyExecutedBySuccess | contracts/governance/src/lib.rs:461-511 | Only a call that passes every check of `execute` marks a proposal executed |
| GovernanceInvariants.CleanupNeverRevivesVotes | contracts/governance/src/lib.rs:531-571 | Once a proposal is executed, the precondition for cleanup, every later vote on it fails and its record never changes |
| GovernanceInvariants.CleanupKeepsInv | contracts/governance/src/lib.rs:556-565 | Removing used-weight entries keeps vote conservation on every proposal |
| GovernanceInvariants.VoteIsConserved | contracts/governance/src/lib.rs:408-437 | A vote raises its proposal's tally and the weight spent on it by the same amount |
| GovernanceInvariants.VoteTouchesNoOther | contracts/governance/src/lib.rs:408-437 | A vote leaves the record of every other proposal, and the weight spent on it, alone |
| GovernanceInvariants.VoteKeepsInv | contracts/governance/src/lib.rs:345-445 | A vote keeps conservation on every proposal, the id range and the terminal states |
| GovernanceInvariants.SetWeightKeepsInv | contracts/governance/src/lib.rs:655-677 | Replacing or removing a weight keeps the total equal to the sum of all weights |
| GovernanceInvariants.QuorumSnapshotBounds | contracts/governance/src/lib.rs:300-306 | A percentage snapshot lies between zero and the registered total; every snapshot is non-negative |
| GovernanceInvariants.TimelockIsUnbounded | contracts/governance/src/lib.rs:473-478 | The saturating delay check is the check on unbounded integers |
| GovernanceInvariants.WalkVisitsEveryProposal | contracts/governance/src/lib.rs:842-879 | Walking `list_proposals` from id 1 with any limit yields every proposal ever created once, in order |
| GovernanceInvariants.WalkIsListing | contracts/governance/src/lib.rs:856-878 | From any start and with either filter, the pages together are the one unbounded listing |
| GovernanceInvariants.ProposalsAreCounted | contracts/governance/src/lib.rs:294-329 | The number of proposals is next id minus one |
| VoteAccounting.AccountsAlwaysHold | contracts/governance/src/lib.rs:366-393 | In every reachable state no used weight exceeds the largest weight that voter ever held, and a tally that saw no weight lowered stays within the registered total |
| VoteAccounting.ExecuteOverflowNeedsLoweredWeight | contracts/governance/src/lib.rs:490-492 | The addition in `execute` overflows only for a proposal during whose life some weight was lowered |
| VoteAccounting.LoweredWeightsCanBlockExecution | contracts/governance/src/lib.rs:490-492 | A concrete run after which `execute` aborts at every ledger past expiry, and fails after any further calls, so that the proposal is never executed |
| VoteAccounting.CoveredVotesSum | contracts/governance/src/lib.rs:382-390 | Votes each covered by the voter's weight are covered in total |
| IdentityInvariants.CacheAlwaysAgrees | contracts/identity-oracle/src/lib.rs:324-355 | Without a registry, in every reachable state each cached count equals the recomputation, no count exceeds 100 and no (issuer, hash) pair repeats |
| IdentityInvariants.StepKeepsCacheInv | contracts/identity-oracle/src/lib.rs:769-908 | Every call keeps that, also with a registry whose revocations are flagged locally, unless it anchors a new pair whose hash the registry already reports |
| IdentityInvariants.CacheArithmeticIsSafe | contracts/identity-oracle/src/lib.rs:828-890 | The checked decrement never underflows, the checked increment stays within 100 |
| IdentityInvariants.CountersAlwaysAgree | contracts/identity-oracle/src/lib.rs:267-283 | In every run, whatever the registry reports, the two global counters are the total length of all lists and the total number of locally revoked records |
| IdentityInvariants.ActiveTotalIsConserved | contracts/identity-oracle/src/lib.rs:387-434 | Without a registry anchored minus revoked is the sum of all active counts, recomputed or cached |
| IdentityInvariants.MarkIsOneWrite | contracts/identity-oracle/src/lib.rs:865-877 | With unique pairs the rebuilt list differs in one position |
| LinkedRegistry.LinkedCachesAlwaysAgree | contracts/identity-oracle/src/lib.rs:303-355 | With a registry linked from the start, revocations through `revoke` and each hash anchored by one issuer for one subject, every cache equals the recomputation in every reachable state |
| LinkedRegistry.RevokeIsMark | contracts/revocation-registry/src/lib.rs:263-281 | An accepted `revoke` leaves in the oracle what a direct `mark_vc_revoked` would, and reports one hash more |
| LinkedCaches.CachesAlwaysAgreeIff | contracts/identity-oracle/src/lib.rs:303-355 | Any linked run keeps every cache right throughout if and only if every call in it is harmless where it is made |
| LinkedCaches.StepKeepsCachesIff | contracts/identity-oracle/src/lib.rs:769-908 | From right caches, any call of either contract leaves them right if and only if it is harmless |
| LinkedCaches.MarkKeepsCachesIff | contracts/identity-oracle/src/lib.rs:882-905 | A mark leaves the caches right if and only if the matched record was already flagged or its hash is not reported |
| LinkedCaches.MarkAbortsIff | contracts/identity-oracle/src/lib.rs:885-890 | With a right cache the decrement underflows exactly for an unflagged record that is already reported, when no active record is left |
| LinkedCaches.RevokeKeepsCachesIff | contracts/revocation-registry/src/lib.rs:230-308 | `revoke` leaves the caches right if and only if the record is not yet reported or already flagged, and no further active record carries the hash |
| LinkedCaches.BatchKeepsCachesIff | contracts/revocation-registry/src/lib.rs:362-441 | `batch_revoke` leaves the caches right if and only if the batch names no active credential |
| LinkedCaches.CachesSurviveGrowthIff | contracts/identity-oracle/src/lib.rs:303-339 | A growing registry leaves right caches right if and only if no active record carries a newly reported hash |
| LinkedCaches.EveryLinkedStateIsShaped | contracts/identity-oracle/src/lib.rs:795-808 | In every linked run, batches and repeated hashes included, no subject has more than 100 active records, no pair is listed twice, and a subject with records has a cache |
| LinkedCaches.NoCallbackWhileRevoking | contracts/identity-oracle/src/lib.rs:884-904 | In every linked run the call back into the registry during `revoke`, which needs a missing cache, cannot occur |
| LinkedCacheRuns.BatchCanOutdateCache | contracts/revocation-registry/src/lib.rs:362-441 | A run in which the cache counts a credential the registry reports revoked |
| LinkedCacheRuns.MarkCanOutdateCache | contracts/identity-oracle/src/lib.rs:885-890 | A run anchoring every hash once, in which a mark leaves the cache at zero while one credential is active |
| LinkedCacheRuns.EarlyBatchIsHarmless | contracts/revocation-registry/src/lib.rs:385-429 | In that run the batch, of a hash nobody carries, and the late anchoring leave every cache right |
| LinkedCacheRuns.RevokeCanOutdateCache | contracts/revocation-registry/src/lib.rs:263-281 | A run in which `revoke` for one subject leaves another subject's cache counting the hash |
| LinkedCacheRuns.ReportedCredentialCannotBeMarked | contracts/identity-oracle/src/lib.rs:885-890 | A run ending in a state in which neither `mark_vc_revoked` nor `revoke` can flag a subject's only credential |
| LinkedCacheRuns.DeactivationStillFlags | contracts/identity-oracle/src/lib.rs:403-411 | In that state the subject's deactivation is accepted and flags it |
| RegistrySpec.BatchIsFold | contracts/revocation-registry/src/lib.rs:362-441 | `batch_revoke` has the verdict, maps and list order of `revoke` on each hash in turn, repeats included, and fails on a mismatch exactly when some hash belongs to another issuer |
| RegistrySpec.FoldIsBatch | contracts/revocation-registry/src/lib.rs:230-308 | Folding `revoke` over a list stops at the first foreign hash and otherwise is the batch, at any length |
| RegistrySpec.RunKeepsIndexes | contracts/revocation-registry/src/lib.rs:239-304 | In every reachable state status, registered issuer and revoking issuer agree, and a hash stands once in its issuer's list and in no other |
| RegistrySpec.RevocationIsPermanent | contracts/revocation-registry/src/lib.rs:378-436 | Later states only add; lists keep what they had as their beginning |
| RegistrySpec.WalkIsComplete | contracts/revocation-registry/src/lib.rs:333-353 | Walking the pages yields the rest of the list, each entry once, exactly when the last page ends within u32, and aborts otherwise |
| RegistrySpec.PageCanAbort | contracts/revocation-registry/src/lib.rs:347 | A list of two hashes on which a page and a walk abort |
| RegistrySpec.FullPagesAreStable | contracts/revocation-registry/src/lib.rs:333-353 | A full page reads the same after any further calls |
| RegistrySpec.BatchAdvances | contracts/revocation-registry/src/lib.rs:385-429 | One round of the batch loop: a hash is foreign to the maps written so far exactly when it was before the batch |
| Scoring.ComputeScorePure | contracts/credit-oracle/src/lib.rs:177-205 | For all inputs and weights the score is in 300..850 and every intermediate fits u128 |
| Scoring.ClampNeverBinds | contracts/credit-oracle/src/lib.rs:188-204 | With valid weights and on_time at most total the result is the documented formula on unbounded integers |
| Scoring.ClampIsIdleIff | contracts/credit-oracle/src/lib.rs:199-204 | For any record and weights the result is the documented formula exactly when the weighted sum is below 10,100 |
| Scoring.ClampBindsOnInconsistentCounters | contracts/credit-oracle/src/lib.rs:204 | A record with inconsistent counters on which the clamp acts |
| Scoring.PerfectScoreIff | contracts/credit-oracle/src/lib.rs:188-204 | The score is 850 exactly when every input reaches its own cap |
| Scoring.OneMorePoint | contracts/credit-oracle/src/lib.rs:188-204 | One more credential point never lowers the score and raises it by at most 6 |
| Scoring.ScoreMonotone | zk/circuit/src/score.rs:13-41 | The score is monotone in the whole record, comparing repayment histories by ratio, for any weights |
| ZkWasm.ZkScoreMatchesContract | packages/zk-wasm/src/lib.rs:37-63 | For any record and any weights with harmless casts the u32 score is the contract's when the contract's quantities fit u32, and the package aborts otherwise |
| ZkWasm.ValidRecordsFit | packages/zk-wasm/src/lib.rs:46-62 | With valid weights and on_time at most total they fit, so nothing overflows |
| ZkWasm.BelowTwo32IsHarmless | packages/zk-wasm/src/lib.rs:38 | Casts of amounts below 2^32 whole units are harmless |
| ZkWasm.HarmlessIffSameUnits | packages/zk-wasm/src/lib.rs:38-39 | A cast is harmless if and only if the capped units are the contract's |
| ZkWasm.ZkAgreementIff | packages/zk-wasm/src/lib.rs:37-63 | The two scores agree on every record and valid weighting with given amounts if and only if both casts are harmless |
| ZkWasm.WrapExample | packages/zk-wasm/src/lib.rs:38 | 2^32 whole units score 300 in u32 and 652 on chain |
| CredentialPoints.LoopRefinesExactSum | contracts/credit-oracle/src/lib.rs:1125-1194 | The saturating loop and the cap give min(100, exact sum) for all weights, ages and lengths |
| CredentialPoints.LoopOrderFree | contracts/credit-oracle/src/lib.rs:1125-1194 | The capped points do not depend on list order |
| CredentialPoints.ExactTotalOrderFree | contracts/credit-oracle/src/lib.rs:1125-1164 | Neither does the exact sum |
| CredentialPoints.PointsAgreeUpToCap | contracts/credit-oracle/src/lib.rs:1146-1162 | One credential's saturated points differ from the exact ones only beyond the cap |
| CredentialPoints.MultiplierIsExact | contracts/credit-oracle/src/lib.rs:149-160 | The saturating multiplier is the exact one |
| CredentialPoints.ScalingIsExact | contracts/credit-oracle/src/lib.rs:167-169 | Scaling neither saturates nor truncates and never raises the points |
| CredentialPoints.TotalFadesWithAge | contracts/credit-oracle/src/lib.rs:149-169 | An older list is never worth more |
| ScoringRuns.RepaymentsAlwaysSound | contracts/credit-oracle/src/lib.rs:740-805 | In every reachable state on_time is at most total and total repaid is non-negative, at saturation too |
| ScoringRuns.RateIsLossless | contracts/credit-oracle/src/lib.rs:1218-1220 | The stored rate is at most 10,000 and its cast loses nothing |
| ScoringRuns.OnTimeRepaymentNeverHurts | contracts/credit-oracle/src/lib.rs:788-798 | An on-time repayment never lowers the next score, at saturation too |
| ScoringRuns.InnerCheckNeverRejects | contracts/identity-oracle/src/lib.rs:1036-1152 | `verify_vc` accepts every record of `get_vc_details`, whose number is the active count |
| ScoringRuns.StoredScoreIsCoherent | contracts/credit-oracle/src/lib.rs:1222-1267 | After a successful computation the stored values are the fresh ones, also when the write is skipped |
| ScoringRuns.ScoresAlwaysChained | contracts/credit-oracle/src/lib.rs:1222-1296 | In every run the scored-subjects counter is the number of stored records, and successive rewrites are chained through previous_score and at least the cooldown apart |
| ScoringRuns.UnflaggedScoreIsCurrent | contracts/credit-oracle/src/lib.rs:1310-1342 | A record reported not stale is at most 86,400 ledgers old, and the subject's local identity state is the one at the end of the ledger it was computed in |
| ScoringRuns.EveryChangeIsStamped | contracts/identity-oracle/src/lib.rs:364-371 | Every identity call stamps the subject with the current ledger or changes neither its state nor its stamp |
| ScoringRuns.UnflaggedCredentialsAreCurrentIff | contracts/credit-oracle/src/lib.rs:1310-1342 | The credentials and types behind a record reported not stale are still what the scoring loop would read if and only if the registry has not since reported a hash one of them carries |
| AnchoringScores.AnchoringNeverHurts | contracts/identity-oracle/src/lib.rs:769-847 | Under any configuration, anchoring never lowers the computed score of a deactivated subject, or when the pair is already there, no active record carries the hash, or the hash keeps its type |
| AnchoringScores.AnchoringNeverHurtsIff | contracts/identity-oracle/src/lib.rs:794-818 | For a given state and call no configuration's score is lowered if and only if one of these holds |
| AnchoringScores.AnchoringCanHurt | contracts/identity-oracle/src/lib.rs:818 | A run in which a second issuer's type for a known hash takes a score from 344 to 300 |
| ScoringRuns.RevokingNeverHelps | contracts/identity-oracle/src/lib.rs:850-908 | A local revocation never raises it |
| ScoringRuns.TimeNeverHelps | contracts/credit-oracle/src/lib.rs:1146-1162 | The passing of time never raises it |
| GovernanceCalls.ExecutesIffEarned | contracts/governance/src/lib.rs:461-519 | In every reachable state `execute` turns a proposal from unexecuted to executed if and only if it exists, both periods are over, it is undecided, more votes are for than against, the weight spent on it reaches its quorum and fits i128, and the oracle accepts (governance or the caller's authorization is its admin, ledger + 17,280 fits u32); then it queues the weights for exactly that ledger, and otherwise nothing changes |
| GovernanceCalls.ExecuteRefusals | contracts/governance/src/lib.rs:466-502 | Each error of `execute`, and the abort, occurs exactly in its own case, the quorum case against the weight spent |
| GovernanceCalls.VoteCountsIff | contracts/governance/src/lib.rs:345-437 | In every reachable state a vote counts if and only if it is signed, positive, within what the voter has left on an open undecided proposal, and keeps its side within i128; it raises that side and the used weight by its weight and nothing else |
| GovernanceCalls.VoteRefusals | contracts/governance/src/lib.rs:352-417 | Each error of `vote` occurs exactly in its own case; no arithmetic abort is reachable |
| GovernanceCalls.VotesSplit | contracts/governance/src/lib.rs:366-437 | Voting a and then b on one side is accepted exactly when voting a + b is, and leaves the same state |
| GovernanceCalls.TalliesAreVotesCast | contracts/governance/src/lib.rs:408-417 | In every run each side of a proposal is the sum of the accepted votes for that side |
| GovernanceCalls.UsedIsCast | contracts/governance/src/lib.rs:420-424 | In every run the weight a voter has used on an unexecuted proposal is what that voter's accepted votes cast on it; an executed one may have been cleaned up to zero |
| GovernanceCalls.CreatesIff | contracts/governance/src/lib.rs:279-335 | In every reachable state `create_proposal` succeeds exactly for a signed proposer, weights summing to 100 with each at least 10, a positive period ending within u32, and no overflow of percentage or id; the quorum is the amount in force or the percentage of all registered weight rounded down |
| GovernanceCalls.CreateRefusals | contracts/governance/src/lib.rs:286-306 | In every reachable state each error of `create_proposal` occurs exactly in its own case |
| GovernanceCalls.EveryProposalWasProposed | contracts/governance/src/lib.rs:294-329 | In every run each proposal goes back to one call its proposer signed, and still has that call's terms and the quorum in force at that moment |
| GovernanceCalls.CancelsIff | contracts/governance/src/lib.rs:897-944 | In every reachable state a proposal is cancelled exactly when the admin or its own proposer signs and it is undecided; only the flag changes |
| GovernanceCalls.CancelRefusals | contracts/governance/src/lib.rs:902-936 | In every reachable state each error of `cancel_proposal` occurs exactly in its own case |
| GovernanceCalls.CleanupFrees | contracts/governance/src/lib.rs:531-571 | In every reachable state cleanup zeroes exactly the listed voters' entries on an executed proposal, for the signing admin, and nothing else |
| GovernanceCalls.WeightIsSetIff | contracts/governance/src/lib.rs:633-790 | In every reachable state the three weight calls succeed exactly for the signing admin, an admissible weight and a sum of all weights within i128, and then move that voter's weight only |
| GovernanceCalls.QuorumIsSetIff | contracts/governance/src/lib.rs:199-247 | In every reachable state a quorum amount is accepted from the signing admin exactly between 1 and the sum of all weights, a percentage exactly from 1 to 100 |
| GovernanceCalls.SettingRefusals | contracts/governance/src/lib.rs:199-247 | In every reachable state each error of the weight and quorum calls occurs exactly in its own case |
| GovernanceCalls.RolePassesIff | contracts/credit-oracle/src/lib.rs:1525-1552 | The oracle's role passes exactly to the address it was offered to, with that address's signature (for governance, its admin's), and governance is recorded exactly for a contract |
| GovernanceCalls.RoleComesByOffer | contracts/credit-oracle/src/lib.rs:1509-1552 | In every run the present oracle admin is the first one or took the role after the admin of that moment had signed an offer to exactly that address |
| GovernanceCalls.OffersComeFromAdmin | contracts/credit-oracle/src/lib.rs:1509-1521 | In every run a standing offer was signed by the present admin |
| GovernanceCalls.DirectCallSucceedsIff | contracts/credit-oracle/src/lib.rs:1346-1376 | Queueing weights, offering the role and pausing need the oracle admin's signature; weights must be balanced and their effective ledger fit u32 |
| GovernanceCalls.QueueRefusals | contracts/credit-oracle/src/lib.rs:1346-1419 | Each error of the oracle's queue, role and pause calls occurs exactly in its own case |
| GovernanceCalls.ApplyRefusals | contracts/governance/src/lib.rs:582-600 | In every reachable state governance reports a paused oracle, an empty queue and an early call exactly in these cases |
| GovernanceInvariants.PageHolds | contracts/governance/src/lib.rs:842-879 | A page of `list_proposals` with everything included holds the next 20 proposals, or as many as were asked for and exist |
| IdentityHistory.EveryRecordWasIssued | contracts/identity-oracle/src/lib.rs:769-826 | In every run every record of every subject goes back to a call its issuer signed, on an unpaused oracle, while the admin's last word on that issuer was trust, at the record's date |
| IdentityHistory.AnchorsIff | contracts/identity-oracle/src/lib.rs:769-847 | In every run an anchoring adds exactly its record at the end of the list if and only if such an issuer signs on an unpaused oracle, the pair is new, fewer than 100 records are active and the counters have room; otherwise the list stays |
| IdentityHistory.RoomWithoutRegistry | contracts/identity-oracle/src/lib.rs:828-840 | Without a registry the cached count always has that room |
| IdentityHistory.AnchorRefusals | contracts/identity-oracle/src/lib.rs:776-812 | Each error of `anchor_vc_typed` occurs exactly in its own case, and a known pair is accepted without effect |
| IdentityHistory.StandingIsLastWord | contracts/identity-oracle/src/lib.rs:558-640 | In every run trust and pause are what the admin last signed |
| IdentityHistory.FlagIsHistory | contracts/identity-oracle/src/lib.rs:850-883 | In every run a record is flagged if and only if, since it was anchored, its issuer's mark or its subject's deactivation was accepted |
| IdentityHistory.MarksIff | contracts/identity-oracle/src/lib.rs:850-890 | In every run a mark goes through exactly for a signing issuer of a listed pair on an unpaused oracle, with room in both counters where it flags something |
| IdentityHistory.SwitchesAreHistory | contracts/identity-oracle/src/lib.rs:739-755 | In every run a subject is deactivated exactly when its last accepted switch was a deactivation, and its document is the last one anchored unless `deactivate_did` came after |
| IdentityHistory.SwitchesIff | contracts/identity-oracle/src/lib.rs:944-977 | Only the subject's signature switches it; a deactivation needs room in the counter of revocations for the records it flags |
| IdentityHistory.AnchorsDidIff | contracts/identity-oracle/src/lib.rs:672-712 | In every run a document is accepted exactly for a signing subject on an unpaused oracle, with 7 to 128 characters and one of three beginnings |
| IdentityHistory.ListsPartition | contracts/identity-oracle/src/lib.rs:1036-1075 | `get_vc_details` and `list_revoked_for_subject` split the list, each entry in exactly one of them |
| IdentityHistory.StampMoves | contracts/identity-oracle/src/lib.rs:364-371 | The stamp moves, to the current ledger, exactly with an accepted call that changes the subject's state |
| LinkedRegistry.LinkedRunsProject | contracts/revocation-registry/src/lib.rs:263-281 | In every linked run each contract is where its own calls, with a mark for each accepted `revoke`, lead it alone |
| ScoreHistory.ScoreIsDocumented | contracts/credit-oracle/src/lib.rs:1043-1212 | In every run the score is the documented formula over valid active weights, the exact worth of the standing credentials, the fed volume and counterparties, and the repayments the run reported; a deactivated subject of a linked oracle gets 300 |
| ScoreHistory.FlawlessGets850 | contracts/credit-oracle/src/lib.rs:1043-1212 | In every run the score is 850 if and only if the subject is not deactivated, the credentials are worth 100, 80 units and 100 counterparties were fed, repayments were reported and none late as far as the counter reaches, and 100 units were repaid |
| ScoreHistory.RepaymentAloneScores465 | contracts/credit-oracle/src/lib.rs:1202-1212 | A run with one punctual repayment of 100 units and nothing else scores 465 |
| ScoreHistory.RepaymentsAreReported | contracts/credit-oracle/src/lib.rs:740-805 | In every run the stored figures are the exact numbers and sum of the reports that trusted lenders signed while the oracle ran, cut off at u32 and i128 |
| ScoreHistory.ReportsAreCounted | contracts/credit-oracle/src/lib.rs:803 | In every run the global counter is the number of accepted reports |
| ScoreHistory.ReportRefusals | contracts/credit-oracle/src/lib.rs:740-759 | Each error of `record_repayment` occurs exactly in its own case |
| ScoreHistory.ComputesIff | contracts/credit-oracle/src/lib.rs:1043-1084 | In every run `compute_score` scores its subject exactly when the oracle runs, the cooldown of the stored record is over, the subject is not deactivated and the counters have room, and otherwise stores nothing |
| ScoreHistory.StoredIsLastRewrite | contracts/credit-oracle/src/lib.rs:1222-1267 | In every run the stored record has the documented values of the last computation that went through, the ledger and time of the first one that agreed on them, and the score they replaced |
| ScoreHistory.StaleIff | contracts/credit-oracle/src/lib.rs:1310-1342 | In every run `get_score` returns that record, stale if and only if it is more than 86,400 ledgers old or an accepted call changed the subject's identity state at a later ledger than the record's |
| ScoreHistory.StampsShowChanges | contracts/credit-oracle/src/lib.rs:1319-1334 | In every run the stamp is later than a ledger exactly when such a change was made after it |
| ScoreHistory.DecayIsOptIn | contracts/credit-oracle/src/lib.rs:379-397 | While nobody has configured the oracle, the time of computation makes no difference to the score |
| ScoreHistory.SettingsAreAcceptedIff | contracts/credit-oracle/src/lib.rs:472-487 | A cooldown is accepted exactly from 1 to 86,400 ledgers |
| ScoreHistory.IdentityRunsAlone | contracts/credit-oracle/src/lib.rs:1086-1115 | In every run of the two oracles the identity oracle is where its own calls lead it alone |
| RegistrySpec.RevokesIff | contracts/revocation-registry/src/lib.rs:230-308 | In every run `revoke` goes through exactly for a signing issuer on an unpaused registry, a hash that is free or on that issuer's list, and a willing oracle; exactly that hash is then reported, and a foreign hash is a mismatch |
| RegistrySpec.BatchRevokesIff | contracts/revocation-registry/src/lib.rs:362-441 | In every run `batch_revoke` goes through exactly when the same holds of all its hashes and there are at most as many as the limit in force, which is 100 until set |
| RegistrySpec.EveryRevocationIsSigned | contracts/revocation-registry/src/lib.rs:237-249 | In every run each registered hash goes back to a call its issuer signed |
| GovernanceContract.Governance.SnapshotQuorum | contracts/governance/src/lib.rs:300-306 | The quorum a new proposal is given, or the overflow |
| GovernanceContract.Governance.CreateProposal | contracts/governance/src/lib.rs:279-335 | Is one step of the transition system and returns the id it used |
| GovernanceContract.Governance.Vote | contracts/governance/src/lib.rs:345-445 | Is one step: error order, tally and used weight |
| GovernanceContract.Governance.AdmitExecution | contracts/governance/src/lib.rs:461-492 | The checks of `execute`, in order |
| GovernanceContract.Governance.Execute | contracts/governance/src/lib.rs:461-519 | Is one step of both contracts: queued in the oracle and marked executed, or neither |
| GovernanceContract.Governance.CleanupProposalVotes | contracts/governance/src/lib.rs:531-571 | Is one step: removes exactly the listed entries of an executed proposal |
| GovernanceContract.Governance.CancelProposal | contracts/governance/src/lib.rs:897-944 | Is one step: who may cancel what |
| GovernanceContract.Governance.NewTotal | contracts/governance/src/lib.rs:669-677 | The checked left-to-right total, or the overflow |
| GovernanceContract.Governance.RegisterVoter | contracts/governance/src/lib.rs:633-683 | Is one step: replaces the weight |
| GovernanceContract.Governance.UpdateVoterWeight | contracts/governance/src/lib.rs:691-744 | Is one step: zero removes the voter |
| GovernanceContract.Governance.DeregisterVoter | contracts/governance/src/lib.rs:752-790 | Is one step: the weight leaves the total |
| GovernanceContract.Governance.SetQuorum | contracts/governance/src/lib.rs:199-231 | Is one step: at most the registered total, and ends percentage mode |
| GovernanceContract.Governance.SetQuorumPercent | contracts/governance/src/lib.rs:235-247 | Is one step: 1 to 100 |
| GovernanceContract.Governance.ApplyWeights | contracts/governance/src/lib.rs:582-600 | Is one step, with the oracle's errors translated |
| GovernanceContract.Governance.AcceptOracleAdmin | contracts/governance/src/lib.rs:606-626 | Is one step: governance takes the offered role |
| GovernanceContract.Governance.ListProposals | contracts/governance/src/lib.rs:842-879 | The loop returns the page of the listing |
| CreditOracleContract.CreditOracle.RecordRepayment | contracts/credit-oracle/src/lib.rs:740-805 | Verdict and saturating counters; an overflow of the global counter undoes the record |
| CreditOracleContract.CreditOracle.LinkedPoints | contracts/credit-oracle/src/lib.rs:1125-1164 | The scoring loop yields the exact capped sum over the active records and their number |
| CreditOracleContract.CreditOracle.ListedPoints | contracts/credit-oracle/src/lib.rs:1173-1182 | The fallback loop yields the exact capped sum, undecayed |
| CreditOracleContract.CreditOracle.GatherPoints | contracts/credit-oracle/src/lib.rs:1105-1194 | The three sources of points and counts |
| CreditOracleContract.CreditOracle.CheckComputeCooldown | contracts/credit-oracle/src/lib.rs:1276-1296 | Active exactly within the cooldown of a stored record |
| CreditOracleContract.CreditOracle.StoreScore | contracts/credit-oracle/src/lib.rs:1222-1267 | What is written and when nothing is |
| CreditOracleContract.CreditOracle.ComputeScore | contracts/credit-oracle/src/lib.rs:1043-1273 | Verdict, returned score and new state of the whole computation, reading the linked identity oracle |
| CreditOracleContract.CreditOracle.GetScore | contracts/credit-oracle/src/lib.rs:1310-1342 | The record with its staleness flag |
| CreditOracleContract.CreditOracle.ProposeWeights | contracts/credit-oracle/src/lib.rs:1346-1376 | Is one step of the weight queue |
| CreditOracleContract.CreditOracle.ApplyWeights | contracts/credit-oracle/src/lib.rs:1384-1419 | Is one step of the weight queue |
| CreditOracleContract.CreditOracle.GetPendingWeights | contracts/credit-oracle/src/lib.rs:1491-1505 | Its `expect` fails exactly on weights without a ledger, which no reachable state has |
| CreditOracleContract.CreditOracle.ProposeNewAdmin | contracts/credit-oracle/src/lib.rs:1509-1521 | Is one step of the admin role |
| CreditOracleContract.CreditOracle.AcceptAdmin | contracts/credit-oracle/src/lib.rs:1525-1552 | Is one step of the admin role; a contract is recorded as governance |
| CreditOracleContract.CreditOracle.SetPaused | contracts/credit-oracle/src/lib.rs:676-707 | Is one step: only the admin |
| IdentityContracts.IdentityOracle.IsRecordRevoked | contracts/identity-oracle/src/lib.rs:303-322 | Local flag or registry report |
| IdentityContracts.IdentityOracle.CountUnrevoked | contracts/identity-oracle/src/lib.rs:324-339 | The loop is the recomputed count |
| IdentityContracts.IdentityOracle.SeedActiveCount | contracts/identity-oracle/src/lib.rs:341-349 | Stores the recomputed count |
| IdentityContracts.IdentityOracle.FindRecord | contracts/identity-oracle/src/lib.rs:794-800 | Finds the pair exactly when it is there |
| IdentityContracts.IdentityOracle.AnchorVcTyped | contracts/identity-oracle/src/lib.rs:769-847 | Verdict and new state, duplicates included |
| IdentityContracts.IdentityOracle.MarkMatching | contracts/identity-oracle/src/lib.rs:865-877 | The rebuilt list, whether the pair was found, whether a record changed |
| IdentityContracts.IdentityOracle.MarkVcRevoked | contracts/identity-oracle/src/lib.rs:850-908 | Verdict and new state; counter and stamp move only when a record changes, and a missing cache is seeded either way |
| IdentityContracts.IdentityOracle.RevokeEach | contracts/identity-oracle/src/lib.rs:403-411 | The flagged list and the number of transitions |
| IdentityContracts.IdentityOracle.AdmitDeactivation | contracts/identity-oracle/src/lib.rs:387-422 | The verdict, the rebuilt list and how many records it flags |
| IdentityContracts.IdentityOracle.DeactivateCore | contracts/identity-oracle/src/lib.rs:387-434 | Verdict and new state |
| IdentityContracts.IdentityOracle.DeactivateDid | contracts/identity-oracle/src/lib.rs:739-755 | Is one step |
| IdentityContracts.IdentityOracle.ReactivateIdentity | contracts/identity-oracle/src/lib.rs:966-977 | Is one step |
| IdentityContracts.IdentityOracle.GetActiveVcCount | contracts/identity-oracle/src/lib.rs:1020-1030 | The cached count, seeded when missing |
| IdentityContracts.IdentityOracle.GetVcDetails | contracts/identity-oracle/src/lib.rs:1036-1051 | The active records in order |
| IdentityContracts.IdentityOracle.ListRevokedForSubject | contracts/identity-oracle/src/lib.rs:1060-1075 | The revoked hashes in order |
| IdentityContracts.IdentityOracle.VerifyVc | contracts/identity-oracle/src/lib.rs:1138-1152 | True exactly for a hash with an active record |
| IdentityContracts.IdentityOracle.IsVerified | contracts/identity-oracle/src/lib.rs:983-1007 | True exactly for an active record and no deactivation |
| ScoringRuns.UnstampedMeansUnchanged | contracts/identity-oracle/src/lib.rs:1287-1291 | When the stamp that `get_last_state_change_ledger` returns is absent or at most L, the subject's local state is the one at the end of ledger L |
| IdentityInvariants.TypeIsLastAnchored | contracts/identity-oracle/src/lib.rs:1078-1080 | In every run the type read for a hash is the one of the last call that added a record of it, and generic without one |
| IdentityContracts.RevocationRegistry.WriteStatus | contracts/revocation-registry/src/lib.rs:239-262 | Refuses a foreign hash and otherwise writes the three hash-keyed maps |
| IdentityContracts.RevocationRegistry.WriteAndForward | contracts/revocation-registry/src/lib.rs:239-281 | Status written, oracle called, writes rolled back when it refuses |
| IdentityContracts.RevocationRegistry.Revoke | contracts/revocation-registry/src/lib.rs:230-308 | Verdict and new state of both contracts, rolled back when the oracle refuses; is one step of the linked system |
| IdentityContracts.RevocationRegistry.RevokeEach | contracts/revocation-registry/src/lib.rs:385-429 | The batch loop: stops exactly on a foreign hash, otherwise the maps and the local list are complete and the flag says whether the list changed |
| IdentityContracts.RevocationRegistry.BatchRevoke | contracts/revocation-registry/src/lib.rs:362-441 | Verdict and new state, rolled back on a mismatch; is one step of the linked system |
| IdentityContracts.RevocationRegistry.IsRevoked | contracts/revocation-registry/src/lib.rs:310-315 | Membership in the reported set |
| IdentityContracts.RevocationRegistry.GetRevocationRecord | contracts/revocation-registry/src/lib.rs:317-321 | In every state whose indexes agree it names an issuer exactly for a revoked hash, and that issuer is the only one whose list holds the hash |
| IdentityContracts.RevocationRegistry.ListRevoked | contracts/revocation-registry/src/lib.rs:333-353 | The page, or the overflow of cursor + limit |

## Left out

- LinkedRegistry.LinkedCachesAlwaysAgree: covers runs without `batch_revoke` and without a hash anchored twice, a condition on the calls alone; LinkedCaches.CachesAlwaysAgreeIff is the exact condition for all runs.
- ZkWasm.ZkScoreMatchesContract: covers records whose three casts to u32 are harmless; an on_time count more than 42 million times total would also wrap the rate. The conversion of the two amounts from floating point to integers is not modelled.
- ScoringRuns.UnflaggedScoreIsCurrent: covers the oracle's own state with one identity oracle linked throughout and its lookup succeeding, at the end of the computing ledger. A later change within that ledger is not flagged, and neither is a registry revocation that reaches a record without `mark_vc_revoked`, by `batch_revoke` or by `revoke` for another subject or issuer; the registry part is what ScoringRuns.UnflaggedCredentialsAreCurrentIff is about.
- Calls back into a contract that is already running, which the host refuses: the model lets `mark_vc_revoked` ask the registry during `revoke`; LinkedCaches.NoCallbackWhileRevoking shows that this cannot occur when the two are linked from the start. The reentrancy lock is only ever set within one call.
- The circuit crate's `compute_score_pure`: the same expressions as the contract's, so Scoring.ComputeScorePure stands for both; the circuit itself is not part of this model.
- Signatures: a call carries the set of addresses that authorized it; a contract address authorizes only its own calls.
- Storage lifetimes, archival and upgrades: storage is permanent; `migrate` and the older repayment layout are not part of this model.
- `initialize` and the states before it, and re-linking an oracle or a registry in the middle of a run.
- The host's limit of 2^32-1 elements in a vector: sequences are unbounded.
- Events, DID document contents beyond the prefix check, issuer tiers, disputes, and the index lists of issuers, feeders and lenders.
- Admin setters of the credit oracle and the registry: folded into the calls `Reconfigure` and `Configure`; of the cooldown setter the range is kept.
- `get_available_vote_weight`: an admin may lower a weight after votes are cast, so no bound is claimed for it.
- Groth16 proofs, commitments and hashing, the SDK, the command line tools and the feeder.
