/** The credit oracle as the contract is written: storage fields updated in place, the
    scoring loop over the identity oracle's records, the skipped write, the weight queue.
    Every method is tied to the value-level specification of its call. */
module CreditOracleContract {
  import opened Host
  import opened CreditOracleTypes
  import opened CredentialPoints
  import opened IdentitySpec
  import opened IdentityContracts
  import opened CreditSpec
  import Scoring
  import ScoringRuns
  import Queue = WeightQueue

  class CreditOracle {
    var admin: Address
    var pendingAdmin: Option<Address>
    var governance: Option<Address>
    var paused: bool
    var config: ScoringWeights
    var pendingWeights: Option<ScoringWeights>
    var pendingEffective: Option<u32>
    var settings: Settings
    var repayments: map<Address, Repayment>
    var scores: map<Address, ScoreRecord>
    var totalScored: u64
    var totalRepayments: u64
    var identityOracle: IdentityOracle?

    ghost function Control(): Queue.Control
      reads this
    {
      Queue.Control(admin, pendingAdmin, governance, paused, config, pendingWeights, pendingEffective)
    }

    ghost function View(): Credit
      reads this
    {
      Credit(Control(), identityOracle != null, settings, repayments, scores, totalScored, totalRepayments)
    }

    /** The linked identity oracle; an empty one when none is linked. */
    ghost function Linked(): Identity
      reads this, identityOracle
    {
      if identityOracle == null then Deployed(admin) else identityOracle.View()
    }

    ghost function Ctx(env: Env): Context
      reads this, identityOracle, if identityOracle == null then {} else {identityOracle.registry}
    {
      if identityOracle == null then Context(env.ledger, env.timestamp, env.auth, {}) else identityOracle.Ctx(env)
    }

    constructor (admin: Address)
      ensures View() == DeployedCredit(admin, false) && identityOracle == null
    {
      this.admin, pendingAdmin, governance, paused := admin, None, None, false;
      config, pendingWeights, pendingEffective := DEFAULT_WEIGHTS, None, None;
      settings, repayments, scores := DEFAULT_SETTINGS, map[], map[];
      totalScored, totalRepayments, identityOracle := 0, 0, null;
    }

    // ---- repayments --------------------------------------------------------------------

    /** `record_repayment`. The counter is incremented last; when that overflows, the
        record written before it is rolled back. */
    method RecordRepayment(env: Env, lender: Address, subject: Address, amount: i128, onTime: bool)
      returns (v: Verdict<CreditOracleError>)
      modifies this`repayments, this`totalRepayments
      ensures v == CheckRepayment(old(View()), env.auth, lender, amount)
      ensures View() == if v == Ok then AfterRepayment(old(View()), subject, amount, onTime) else old(View())
    {
      if amount <= 0 { return Err(InvalidAmount); }
      if paused { return Err(CreditOracleError.ContractPaused); }
      if lender !in env.auth { return Trap; }
      if !GetOr(settings.lenders, lender, false) { return Err(LenderNotRegistered); }
      var frame := repayments;
      var record := GetOr(repayments, subject, NO_REPAYMENT);
      if onTime {
        record := record.(onTime := SatAddU32(record.onTime, 1));
      }
      record := record.(total := SatAddU32(record.total, 1));
      record := record.(repaid := SatAddI128(record.repaid, amount));
      repayments := repayments[subject := record];
      if totalRepayments == U64_MAX {
        repayments := frame;
        return Trap;
      }
      totalRepayments := totalRepayments + 1;
      v := Ok;
    }

    // ---- compute_score -----------------------------------------------------------------

    /** The points one credential of the linked oracle is worth. */
    method PointsOf(env: Env, subject: Address, r: VcRecord) returns (points: u32)
      requires identityOracle != null
      ensures points == LoopPoints(Credential(settings.WeightOf(Linked().TypeOf(subject, r.hash)), r.anchoredAt),
                                   env.timestamp, settings.decay)
    {
      var kind := identityOracle.GetVcCredentialType(subject, r.hash);
      var weight := GetOr(settings.typeWeights, kind, 100);
      points := Min(BASE_POINTS * weight, U32_MAX) / 100;
      if settings.decay.enabled {
        var bps := RecencyMultiplierBps(r.anchoredAt, env.timestamp, settings.decay.perDay, settings.decay.minBps);
        points := ApplyRecencyBps(points, bps);
      }
    }

    /** The loop over `get_vc_details`, with its `verify_vc` call per record; `counted` is
        false when the u32 count overflows. */
    method LinkedPoints(env: Env, subject: Address) returns (counted: bool, points: u32, count: nat)
      requires identityOracle != null
      ensures counted <==> VcCount(View(), Linked(), Ctx(env), subject) <= U32_MAX
      ensures counted ==> Min(points, VC_CAP) == VcPoints(View(), Linked(), Ctx(env), subject)
                          && count == VcCount(View(), Linked(), Ctx(env), subject)
    {
      hide VerifiesVc;
      var vcs := identityOracle.GetVcDetails(subject);
      ghost var rs, R := Linked().Records(subject), Ctx(env).R;
      ghost var cs := CredentialsOf(settings, Linked(), subject, vcs);
      ScoringRuns.ActiveRecordsAreActive(rs, R);
      points, count := 0, 0;
      for i := 0 to |vcs|
        invariant count == i && count <= U32_MAX
        invariant points == LoopTotal(cs[..i], env.timestamp, settings.decay)
      {
        var verified := identityOracle.VerifyVc(subject, vcs[i].hash);
        ScoringRuns.InnerCheckNeverRejects(rs, R, i);
        if verified {
          if count == U32_MAX { return false, 0, 0; }
          count := count + 1;
          var more := PointsOf(env, subject, vcs[i]);
          assert cs[..i + 1][..i] == cs[..i];
          points := SatAddU32(points, more);
        }
      }
      assert cs[..|vcs|] == cs;
      LoopRefinesExactSum(cs, env.timestamp, settings.decay);
      counted := true;
    }

    /** The loop over the locally stored list. */
    method ListedPoints(entries: seq<VcEntry>) returns (points: u32)
      ensures Min(points, VC_CAP)
           == Min(ExactTotal(EntriesAsCredentials(settings, entries), 0, settings.decay.(enabled := false)), VC_CAP)
    {
      ghost var cs, d := EntriesAsCredentials(settings, entries), settings.decay.(enabled := false);
      points := 0;
      for i := 0 to |entries|
        invariant points == LoopTotal(cs[..i], 0, d)
      {
        var kind := entries[i].kind;
        var weight := if kind.Some? then GetOr(settings.typeWeights, kind.value, 100) else 100;
        assert cs[..i + 1][..i] == cs[..i];
        points := SatAddU32(points, Min(BASE_POINTS * weight, U32_MAX) / 100);
      }
      assert cs[..|entries|] == cs;
      LoopRefinesExactSum(cs, 0, d);
    }

    /** The three sources of credential points, capped. */
    method GatherPoints(env: Env, subject: Address) returns (counted: bool, points: u32, count: nat)
      ensures counted <==> VcCount(View(), Linked(), Ctx(env), subject) <= U32_MAX
      ensures counted ==> points == VcPoints(View(), Linked(), Ctx(env), subject)
                          && count == VcCount(View(), Linked(), Ctx(env), subject)
    {
      if identityOracle != null {
        counted, points, count := LinkedPoints(env, subject);
      } else {
        var entries := GetOr(settings.vcLists, subject, []);
        if entries != [] {
          count := |entries|;
          counted := count <= U32_MAX;
          points := ListedPoints(entries);
        } else {
          count := GetOr(settings.vcCounts, subject, 0);
          counted := true;
          points := Min(Min(count * BASE_POINTS, U32_MAX), VC_CAP);
        }
      }
      points := Min(points, VC_CAP);
    }

    /** `check_compute_cooldown`. */
    method CheckComputeCooldown(ledger: u32, subject: Address) returns (active: bool)
      ensures active == CooldownActive(View(), ledger, subject)
    {
      active := false;
      if settings.cooldown > 0 {
        if subject in scores {
          active := SatSub(ledger, scores[subject].computedAt) < settings.cooldown;
        }
      }
    }

    /** The values to store, before anything is written; `computed` is false when the call
        ends in an abort. */
    method FreshScore(env: Env, subject: Address) returns (computed: bool, f: Fresh)
      ensures computed <==> VcCount(View(), Linked(), Ctx(env), subject) <= U32_MAX
      ensures computed ==> f == FreshValues(View(), Linked(), Ctx(env), subject)
    {
      var tx := GetOr(settings.txStats, subject, NO_STATS);
      var repayment := GetOr(repayments, subject, NO_REPAYMENT);
      var points, count;
      computed, points, count := GatherPoints(env, subject);
      var score := Scoring.ComputeScorePure(
        Scoring.Inputs(points, tx.volume, tx.counterparties, repayment.onTime, repayment.total, repayment.repaid),
        config);
      var rate := RateBps(repayment);
      f := Fresh(score, count, rate, tx.volume);
    }

    /** The end of `compute_score`: nothing is written when all four values are unchanged,
        and only a first record is counted. */
    method StoreScore(env: Env, subject: Address, f: Fresh) returns (v: Verdict<CreditOracleError>)
      modifies this`scores, this`totalScored
      ensures v == if subject !in old(scores) && old(totalScored) == U64_MAX then Trap else Ok
      ensures v != Ok ==> scores == old(scores) && totalScored == old(totalScored)
      ensures v == Ok && subject in old(scores) && SameValues(old(scores)[subject], f)
              ==> scores == old(scores) && totalScored == old(totalScored)
      ensures v == Ok && !(subject in old(scores) && SameValues(old(scores)[subject], f))
              ==> scores == old(scores)[subject := CreditSpec.NewRecord(old(View()), old(Ctx(env)), subject, f)]
                  && totalScored == old(totalScored) + if subject in old(scores) then 0 else 1
    {
      var previous, needsWrite, isFirst := None, true, true;
      if subject in scores {
        var prev := scores[subject];
        if prev.score == f.score && prev.vcCount == f.vcCount && prev.rate == f.rate && prev.volume == f.volume {
          needsWrite := false;
        }
        previous := Some(prev.score);
        isFirst := false;
      }
      if needsWrite {
        if isFirst {
          if totalScored == U64_MAX { return Trap; }
          totalScored := totalScored + 1;
        }
        scores := scores[subject :=
          ScoreRecord(f.score, env.timestamp, f.vcCount, f.rate, f.volume, previous, env.ledger, false)];
      }
      v := Ok;
    }

    /** What `compute_score` finds out before it may write: the verdict so far, whether the
        subject is deactivated, and the values to store. */
    method AdmitCompute(env: Env, subject: Address)
      returns (v: Verdict<CreditOracleError>, suppressed: bool, f: Fresh)
      ensures v == if View().control.paused then Err(CreditOracleError.ContractPaused)
                   else if CooldownActive(View(), env.ledger, subject) then Err(ComputeCooldownActive)
                   else if Suppressed(View(), Linked(), subject) then Ok
                   else if VcCount(View(), Linked(), Ctx(env), subject) > U32_MAX then Trap
                   else Ok
      ensures v == Ok ==> suppressed == Suppressed(View(), Linked(), subject)
      ensures v == Ok && !suppressed ==> f == FreshValues(View(), Linked(), Ctx(env), subject)
    {
      suppressed, f := false, Fresh(0, 0, 0, 0);
      if paused { return Err(CreditOracleError.ContractPaused), suppressed, f; }
      var cooling := CheckComputeCooldown(env.ledger, subject);
      if cooling { return Err(ComputeCooldownActive), suppressed, f; }
      if identityOracle != null {
        suppressed := identityOracle.IsDeactivated(subject);
        if suppressed { return Ok, suppressed, f; }
      }
      var computed;
      computed, f := FreshScore(env, subject);
      v := if computed then Ok else Trap;
    }

    /** `compute_score`: a deactivated subject gets the minimum and nothing is stored. */
    method ComputeScore(env: Env, subject: Address) returns (v: Verdict<CreditOracleError>, score: u32)
      modifies this`scores, this`totalScored
      ensures v == CheckCompute(old(View()), old(Linked()), old(Ctx(env)), subject)
      ensures View() == if v == Ok then AfterCompute(old(View()), old(Linked()), old(Ctx(env)), subject)
                        else old(View())
      ensures v == Ok ==> score == ScoreResult(old(View()), old(Linked()), old(Ctx(env)), subject)
    {
      var suppressed, f;
      v, suppressed, f := AdmitCompute(env, subject);
      score := Scoring.MIN_SCORE;
      if v == Ok && !suppressed {
        score := f.score;
        v := StoreScore(env, subject, f);
      }
    }

    // ---- get_score ---------------------------------------------------------------------

    /** `get_score`. */
    method GetScore(subject: Address, ledger: u32) returns (got: Option<ScoreRecord>)
      ensures got == CreditSpec.GetScore(View(), Linked(), subject, ledger)
    {
      if subject !in scores { return None; }
      var record := scores[subject];
      record := record.(stale := SatSub(ledger, record.computedAt) > STALE_LEDGER_AGE);
      if !record.stale && identityOracle != null {
        var change := identityOracle.GetLastStateChangeLedger(subject);
        if change.Some? && record.computedAt < change.value {
          record := record.(stale := true);
        }
      }
      got := Some(record);
    }

    // ---- the weight queue and the admin role ---------------------------------------------

    /** `propose_weights`; the validity check may abort in its u32 sum. */
    method ProposeWeights(env: Env, w: ScoringWeights) returns (v: Verdict<CreditOracleError>)
      modifies this`pendingWeights, this`pendingEffective
      ensures v == Queue.VerdictOf(old(Control()), env.ledger, env.auth, Queue.ProposeWeights(w))
      ensures Control() == Queue.Step(old(Control()), env.ledger, env.auth, Queue.ProposeWeights(w))
    {
      if w.ValidityCheckOverflows() { return Trap; }
      if !w.IsValid() { return Err(InvalidWeights); }
      if admin !in env.auth { return Trap; }
      if env.ledger + Queue.TIMELOCK_LEDGERS > U32_MAX { return Trap; }
      pendingWeights := Some(w);
      pendingEffective := Some(env.ledger + Queue.TIMELOCK_LEDGERS);
      v := Ok;
    }

    /** `apply_weights`. */
    method ApplyWeights(env: Env) returns (v: Verdict<CreditOracleError>)
      modifies this`config, this`pendingWeights, this`pendingEffective
      ensures v == Queue.VerdictOf(old(Control()), env.ledger, env.auth, Queue.ApplyWeights)
      ensures Control() == Queue.Step(old(Control()), env.ledger, env.auth, Queue.ApplyWeights)
    {
      if paused { return Err(CreditOracleError.ContractPaused); }
      if pendingEffective.None? { return Err(NoPendingWeights); }
      if env.ledger < pendingEffective.value { return Err(TimelockNotExpired); }
      if pendingWeights.None? { return Err(NoPendingWeights); }
      config := pendingWeights.value;
      pendingWeights, pendingEffective := None, None;
      v := Ok;
    }

    /** `get_pending_weights`; `None` when it aborts on weights without an effective ledger,
        which the queue's invariant rules out. */
    method GetPendingWeights() returns (r: Option<Option<PendingWeightsRecord>>)
      ensures Queue.ControlInv(Control()) ==> r.Some?
      ensures r.None? <==> pendingWeights.Some? && pendingEffective.None?
      ensures r.Some? ==> (r.value.Some? <==> pendingWeights.Some?)
      ensures r.Some? && r.value.Some? ==>
        r.value.value == PendingWeightsRecord(Control().queued.value, Control().effective.value)
    {
      if pendingWeights.None? { return Some(None); }
      if pendingEffective.None? { return None; }
      r := Some(Some(PendingWeightsRecord(pendingWeights.value, pendingEffective.value)));
    }

    /** `propose_new_admin`. */
    method ProposeNewAdmin(env: Env, newAdmin: Address) returns (v: Verdict<CreditOracleError>)
      modifies this`pendingAdmin
      ensures v == Queue.VerdictOf(old(Control()), env.ledger, env.auth, Queue.ProposeNewAdmin(newAdmin))
      ensures Control() == Queue.Step(old(Control()), env.ledger, env.auth, Queue.ProposeNewAdmin(newAdmin))
    {
      if admin !in env.auth { return Trap; }
      pendingAdmin := Some(newAdmin);
      v := Ok;
    }

    /** `accept_admin`: a contract that takes the role is recorded as governance. */
    method AcceptAdmin(env: Env, newAdmin: Address) returns (v: Verdict<CreditOracleError>)
      modifies this`admin, this`pendingAdmin, this`governance
      ensures v == Queue.VerdictOf(old(Control()), env.ledger, env.auth, Queue.AcceptAdmin(newAdmin))
      ensures Control() == Queue.Step(old(Control()), env.ledger, env.auth, Queue.AcceptAdmin(newAdmin))
    {
      if newAdmin !in env.auth || pendingAdmin.None? { return Trap; }
      if newAdmin != pendingAdmin.value { return Err(NotAuthorized); }
      admin, pendingAdmin := newAdmin, None;
      governance := if newAdmin.Contract? then Some(newAdmin) else None;
      v := Ok;
    }

    /** `pause` and `unpause`. */
    method SetPaused(env: Env, caller: Address, flag: bool) returns (v: Verdict<CreditOracleError>)
      modifies this`paused
      ensures v == Queue.VerdictOf(old(Control()), env.ledger, env.auth, Queue.SetPaused(caller, flag))
      ensures Control() == Queue.Step(old(Control()), env.ledger, env.auth, Queue.SetPaused(caller, flag))
    {
      if caller != admin { return Err(NotAuthorized); }
      if caller !in env.auth { return Trap; }
      paused := flag;
      v := Ok;
    }
  }
}
