/** What `compute_score` and `get_score` answer, as a function of the calls of a run: the
    repayments reported, the credentials standing, and the computations made before. */
module ScoreHistory {
  import opened Host
  import opened Arithmetic
  import opened CreditOracleTypes
  import opened CredentialPoints
  import opened IdentitySpec
  import opened IdentityInvariants
  import opened CreditSpec
  import opened Scoring
  import opened ScoringRuns
  import IdentityHistory
  import Queue = WeightQueue

  function StateAfter(admin: Address, linked: bool, es: seq<OracleEntry>): Oracles {
    OracleRun(DeployedOracles(admin, linked), es)
  }

  // ---- repayments reported -----------------------------------------------------------------

  /** Exact, unbounded figures. */
  datatype Repaid = Repaid(onTime: nat, total: nat, amount: nat)

  /** A trusted lender signs a positive amount while the oracle runs and can count on. */
  predicate Reports(c: Credit, e: OracleEntry, t: Address) {
    && e.call.RecordRepayment? && e.call.subject == t && e.call.amount > 0
    && !c.control.paused
    && e.call.lender in e.context.auth && GetOr(c.settings.lenders, e.call.lender, false)
    && c.totalRepayments < U64_MAX
  }

  /** Everything a run's accepted reports say about one subject. */
  function RepaidIn(admin: Address, linked: bool, es: seq<OracleEntry>, t: Address): Repaid {
    if es == [] then Repaid(0, 0, 0)
    else
      var front, e := es[..|es| - 1], es[|es| - 1];
      var before := RepaidIn(admin, linked, front, t);
      if Reports(StateAfter(admin, linked, front).credit, e, t)
      then Repaid(before.onTime + (if e.call.onTime then 1 else 0), before.total + 1, before.amount + e.call.amount)
      else before
  }

  /** The stored record is the exact figures, each cut off at its width. */
  predicate CutOff(r: Repayment, h: Repaid) {
    r.onTime == Min(h.onTime, U32_MAX) && r.total == Min(h.total, U32_MAX) && r.repaid == Min(h.amount, I128_MAX)
  }

  lemma RepaymentMoves(o: Oracles, e: OracleEntry, t: Address, h: Repaid)
    requires CutOff(GetOr(o.credit.repayments, t, NO_REPAYMENT), h)
    ensures CutOff(GetOr(OracleStep(o, e).credit.repayments, t, NO_REPAYMENT),
                   if Reports(o.credit, e, t)
                   then Repaid(h.onTime + (if e.call.onTime then 1 else 0), h.total + 1, h.amount + e.call.amount)
                   else h)
  {
  }

  /** In every run the stored repayment figures are those of the accepted reports: how many
      were on time, how many there were, and their exact sum, cut off at u32 and i128. */
  lemma {:induction false} RepaymentsAreReported(admin: Address, linked: bool, es: seq<OracleEntry>, t: Address)
    ensures CutOff(GetOr(StateAfter(admin, linked, es).credit.repayments, t, NO_REPAYMENT),
                   RepaidIn(admin, linked, es, t))
    ensures RepaidIn(admin, linked, es, t).onTime <= RepaidIn(admin, linked, es, t).total
  {
    if es != [] {
      var front := es[..|es| - 1];
      RepaymentsAreReported(admin, linked, front, t);
      RepaymentMoves(StateAfter(admin, linked, front), es[|es| - 1], t, RepaidIn(admin, linked, front, t));
    }
  }

  /** All accepted reports together. */
  function ReportsIn(admin: Address, linked: bool, es: seq<OracleEntry>): nat {
    if es == [] then 0
    else
      var front, e := es[..|es| - 1], es[|es| - 1];
      ReportsIn(admin, linked, front)
      + (if e.call.RecordRepayment? && Reports(StateAfter(admin, linked, front).credit, e, e.call.subject) then 1 else 0)
  }

  /** `total_repayments_recorded` is their number. */
  lemma {:induction false} ReportsAreCounted(admin: Address, linked: bool, es: seq<OracleEntry>)
    ensures StateAfter(admin, linked, es).credit.totalRepayments == ReportsIn(admin, linked, es)
  {
    if es != [] { ReportsAreCounted(admin, linked, es[..|es| - 1]); }
  }

  /** A report is accepted exactly in these cases and refused by name otherwise. */
  lemma ReportRefusals(c: Credit, e: OracleEntry)
    requires e.call.RecordRepayment?
    ensures var v := CheckRepayment(c, e.context.auth, e.call.lender, e.call.amount);
            var paying := e.call.amount > 0 && !c.control.paused;
            && (v == Ok <==> Reports(c, e, e.call.subject))
            && (v == Err(InvalidAmount) <==> e.call.amount <= 0)
            && (v == Err(CreditOracleError.ContractPaused) <==> e.call.amount > 0 && c.control.paused)
            && (v == Err(LenderNotRegistered) <==>
                  paying && e.call.lender in e.context.auth && !GetOr(c.settings.lenders, e.call.lender, false))
  {
  }

  // ---- credentials standing ------------------------------------------------------------------

  /** The exact worth of the records that are neither flagged nor reported, each under the
      type its hash was last anchored with. */
  function RecordsWorth(o: Oracles, ctx: Context, t: Address, rs: seq<VcRecord>): nat {
    if rs == [] then 0
    else
      var r := rs[|rs| - 1];
      RecordsWorth(o, ctx, t, rs[..|rs| - 1])
      + (if r.revoked || r.hash in ctx.R then 0
         else ExactPoints(Credential(GetOr(o.credit.settings.typeWeights, o.identity.TypeOf(t, r.hash), 100),
                                     r.anchoredAt),
                          ctx.timestamp, o.credit.settings.decay))
  }

  function RecordsStanding(ctx: Context, rs: seq<VcRecord>): nat {
    if rs == [] then 0
    else
      var r := rs[|rs| - 1];
      RecordsStanding(ctx, rs[..|rs| - 1]) + (if r.revoked || r.hash in ctx.R then 0 else 1)
  }

  /** The exact worth of the listed entries; they carry no date and do not fade. */
  function EntriesWorth(st: Settings, entries: seq<VcEntry>): nat {
    if entries == [] then 0
    else
      var kind := entries[|entries| - 1].kind;
      var weight: nat := if kind.Some? then GetOr(st.typeWeights, kind.value, 100) else 100;
      EntriesWorth(st, entries[..|entries| - 1]) + 20 * weight / 100
  }

  /** A linked oracle counts the identity oracle's records, an unlinked one its own list, and
      without a list the number it was given. */
  function CredentialsWorth(o: Oracles, ctx: Context, t: Address): nat {
    var entries, count: nat := GetOr(o.credit.settings.vcLists, t, []), GetOr(o.credit.settings.vcCounts, t, 0);
    if o.credit.linked then RecordsWorth(o, ctx, t, o.identity.Records(t))
    else if entries != [] then EntriesWorth(o.credit.settings, entries)
    else 20 * count
  }

  function CredentialsStanding(o: Oracles, ctx: Context, t: Address): nat {
    var entries := GetOr(o.credit.settings.vcLists, t, []);
    if o.credit.linked then RecordsStanding(ctx, o.identity.Records(t))
    else if entries != [] then |entries|
    else GetOr(o.credit.settings.vcCounts, t, 0)
  }

  lemma {:induction false} RecordsWorthIsTotal(o: Oracles, ctx: Context, t: Address, rs: seq<VcRecord>)
    ensures RecordsWorth(o, ctx, t, rs) == ActiveTotal(o.credit.settings, o.identity, t, rs, ctx)
    ensures RecordsStanding(ctx, rs) == CountActive(rs, ctx.R)
  {
    if rs != [] {
      RecordsWorthIsTotal(o, ctx, t, rs[..|rs| - 1]);
      ActiveTotalSnoc(o.credit.settings, o.identity, t, rs, ctx);
    }
  }

  lemma {:induction false} EntriesWorthIsTotal(st: Settings, entries: seq<VcEntry>)
    ensures EntriesWorth(st, entries)
         == ExactTotal(EntriesAsCredentials(st, entries), 0, st.decay.(enabled := false))
  {
    if entries != [] {
      var front, cs := entries[..|entries| - 1], EntriesAsCredentials(st, entries);
      EntriesWorthIsTotal(st, front);
      assert cs[..|cs| - 1] == EntriesAsCredentials(st, front);
    }
  }

  lemma WorthIsPoints(o: Oracles, ctx: Context, t: Address)
    ensures VcPoints(o.credit, o.identity, ctx, t) == Min(CredentialsWorth(o, ctx, t), 100)
    ensures VcCount(o.credit, o.identity, ctx, t) == CredentialsStanding(o, ctx, t)
  {
    RecordsWorthIsTotal(o, ctx, t, o.identity.Records(t));
    EntriesWorthIsTotal(o.credit.settings, GetOr(o.credit.settings.vcLists, t, []));
  }

  // ---- the score --------------------------------------------------------------------------------

  lemma {:induction false} WeightsStayValid(admin: Address, linked: bool, es: seq<OracleEntry>)
    ensures Queue.ControlInv(StateAfter(admin, linked, es).credit.control)
    ensures StateAfter(admin, linked, es).credit.linked == linked
  {
    if es != [] {
      WeightsStayValid(admin, linked, es[..|es| - 1]);
      var o, e := StateAfter(admin, linked, es[..|es| - 1]), es[|es| - 1];
      if e.call.OnWeights? {
        Queue.StepKeepsControl(o.credit.control, e.context.ledger, e.context.auth, e.call.queue);
      }
    }
  }

  /** What the score is documented to depend on, with the run's own figures. */
  function HistoryOf(admin: Address, linked: bool, es: seq<OracleEntry>, ctx: Context, t: Address): Inputs {
    var o, h := StateAfter(admin, linked, es), RepaidIn(admin, linked, es, t);
    var tx := GetOr(o.credit.settings.txStats, t, NO_STATS);
    Inputs(Min(CredentialsWorth(o, ctx, t), 100), tx.volume, tx.counterparties,
           Min(h.onTime, U32_MAX), Min(h.total, U32_MAX), Min(h.amount, I128_MAX))
  }

  lemma HistoryIsRead(admin: Address, linked: bool, es: seq<OracleEntry>, ctx: Context, t: Address)
    ensures var o := StateAfter(admin, linked, es);
            ScoreInputs(o.credit, o.identity, ctx, t) == HistoryOf(admin, linked, es, ctx, t)
    ensures HistoryOf(admin, linked, es, ctx, t).Consistent()
  {
    RepaymentsAreReported(admin, linked, es, t);
    WorthIsPoints(StateAfter(admin, linked, es), ctx, t);
  }

  /** In every run `compute_score` returns the documented formula over the active weights, the
      exact worth of the subject's standing credentials, the fed volume and counterparties
      and the repayments reported so far; a deactivated subject of a linked oracle gets 300. */
  lemma ScoreIsDocumented(admin: Address, linked: bool, es: seq<OracleEntry>, ctx: Context, t: Address)
    ensures var o := StateAfter(admin, linked, es);
            ScoreResult(o.credit, o.identity, ctx, t)
            == if linked && t in o.identity.deactivated then 300
               else DocumentedScore(HistoryOf(admin, linked, es, ctx, t), o.credit.control.active)
    ensures var w := StateAfter(admin, linked, es).credit.control.active;
            w.vc + w.tx + w.repayment == 100 && w.vc >= 10 && w.tx >= 10 && w.repayment >= 10
  {
    WeightsStayValid(admin, linked, es);
    HistoryIsRead(admin, linked, es, ctx, t);
    ClampNeverBinds(HistoryOf(admin, linked, es, ctx, t), StateAfter(admin, linked, es).credit.control.active);
  }

  /** In every run `compute_score` returns 850 if and only if the subject is not deactivated,
      its credentials are worth 100 points, 80 whole units of volume and 100 counterparties
      were fed, at least one repayment was reported and none late, as far as the counters
      reach, and 100 whole units were repaid. */
  lemma FlawlessGets850(admin: Address, linked: bool, es: seq<OracleEntry>, ctx: Context, t: Address)
    ensures var o, h := StateAfter(admin, linked, es), RepaidIn(admin, linked, es, t);
            var tx := GetOr(o.credit.settings.txStats, t, NO_STATS);
            ScoreResult(o.credit, o.identity, ctx, t) == 850 <==>
              && !(linked && t in o.identity.deactivated)
              && CredentialsWorth(o, ctx, t) >= 100
              && tx.volume >= 80 * 100_000_000 && tx.counterparties >= 100
              && h.total > 0 && (h.onTime == h.total || h.onTime >= U32_MAX)
              && h.amount >= 100 * 100_000_000
  {
    ScoreIsDocumented(admin, linked, es, ctx, t);
    RepaymentsAreReported(admin, linked, es, t);
    WeightsStayValid(admin, linked, es);
    HistoryIsRead(admin, linked, es, ctx, t);
    var i, w := HistoryOf(admin, linked, es, ctx, t), StateAfter(admin, linked, es).credit.control.active;
    ClampNeverBinds(i, w);
    PerfectScoreIff(i, w);
  }

  // ---- an example and the range of the cooldown ------------------------------------------------------

  const ADMIN := Account(1)
  const LENDER := Account(2)
  const SUBJECT := Account(3)
  const NOW := Context(1, 0, {ADMIN, LENDER}, {})

  const TRUST_LENDER := OracleEntry(NOW, Reconfigure(DEFAULT_SETTINGS.(lenders := map[LENDER := true])))
  const REPAY := OracleEntry(NOW, RecordRepayment(LENDER, SUBJECT, 100 * STROOPS, true))

  lemma LenderTrusted(linked: bool)
    ensures var o := StateAfter(ADMIN, linked, [TRUST_LENDER]);
            o == DeployedOracles(ADMIN, linked).(credit := DeployedCredit(ADMIN, linked).(settings := TRUST_LENDER.call.settings))
    ensures RepaidIn(ADMIN, linked, [TRUST_LENDER], SUBJECT) == Repaid(0, 0, 0)
  {
    assert [TRUST_LENDER][..0] == [];
    assert StateAfter(ADMIN, linked, []) == DeployedOracles(ADMIN, linked);
  }

  lemma Repaying(linked: bool)
    ensures var o := StateAfter(ADMIN, linked, [TRUST_LENDER] + [REPAY]);
            && o.identity == Deployed(ADMIN) && o.credit.control.active == ScoringWeights(40, 30, 30)
            && o.credit.settings == TRUST_LENDER.call.settings
    ensures RepaidIn(ADMIN, linked, [TRUST_LENDER] + [REPAY], SUBJECT) == Repaid(1, 1, 100 * STROOPS)
  {
    LenderTrusted(linked);
    assert ([TRUST_LENDER] + [REPAY])[..1] == [TRUST_LENDER];
    assert Reports(StateAfter(ADMIN, linked, [TRUST_LENDER]).credit, REPAY, SUBJECT);
  }

  /** One repayment of 100 units on time, and nothing else, scores 465 under the weights an
      oracle is deployed with. */
  lemma RepaymentAloneScores465(linked: bool)
    ensures var o := StateAfter(ADMIN, linked, [TRUST_LENDER] + [REPAY]);
            ScoreResult(o.credit, o.identity, NOW, SUBJECT) == 465
  {
    hide StateAfter, RepaidIn, ScoreResult;
    var es := [TRUST_LENDER] + [REPAY];
    Repaying(linked);
    ScoreIsDocumented(ADMIN, linked, es, NOW, SUBJECT);
    assert HistoryOf(ADMIN, linked, es, NOW, SUBJECT) == Inputs(0, 0, 0, 1, 1, 100 * STROOPS);
  }

  /** The cooldown may be anything from 1 to 86,400 ledgers; other settings are refused. */
  lemma SettingsAreAcceptedIff(o: Oracles, e: OracleEntry)
    requires e.call.Reconfigure?
    ensures OracleStep(o, e) == if 1 <= e.call.settings.cooldown <= 86_400
                                then o.(credit := o.credit.(settings := e.call.settings)) else o
  {
  }

  lemma {:induction false} NothingFades(o: Oracles, ctx: Context, later: Context, t: Address, rs: seq<VcRecord>)
    requires !o.credit.settings.decay.enabled && later.R == ctx.R
    ensures RecordsWorth(o, later, t, rs) == RecordsWorth(o, ctx, t, rs)
  {
    if rs != [] { NothingFades(o, ctx, later, t, rs[..|rs| - 1]); }
  }

  lemma {:induction false} SettingsStay(admin: Address, linked: bool, es: seq<OracleEntry>)
    requires forall k :: 0 <= k < |es| ==> !es[k].call.Reconfigure?
    ensures StateAfter(admin, linked, es).credit.settings == DEFAULT_SETTINGS
  {
    if es != [] {
      SettingsStay(admin, linked, es[..|es| - 1]);
      assert !es[|es| - 1].call.Reconfigure?;
    }
  }

  /** Recency decay is opt-in: while nobody has configured the oracle, when a score is computed
      makes no difference to it. */
  lemma DecayIsOptIn(admin: Address, linked: bool, es: seq<OracleEntry>, ctx: Context, later: Context, t: Address)
    requires forall k :: 0 <= k < |es| ==> !es[k].call.Reconfigure?
    requires later.R == ctx.R
    ensures var o := StateAfter(admin, linked, es);
            ScoreResult(o.credit, o.identity, later, t) == ScoreResult(o.credit, o.identity, ctx, t)
  {
    hide StateAfter;
    var o := StateAfter(admin, linked, es);
    SettingsStay(admin, linked, es);
    NothingFades(o, ctx, later, t, o.identity.Records(t));
    ScoreIsDocumented(admin, linked, es, ctx, t);
    ScoreIsDocumented(admin, linked, es, later, t);
  }

  // ---- computations made ----------------------------------------------------------------------------

  /** When the call goes through and its subject is scored: the oracle runs, the cooldown of
      the stored record is over, the subject is not deactivated, and the counters have room. */
  predicate Computes(o: Oracles, e: OracleEntry, t: Address) {
    && e.call == Compute(t) && !o.credit.control.paused
    && !(o.credit.linked && t in o.identity.deactivated)
    && (t in o.credit.scores ==>
          e.context.ledger >= o.credit.scores[t].computedAt + o.credit.settings.cooldown)
    && CredentialsStanding(o, e.context, t) <= U32_MAX
    && (t in o.credit.scores || o.credit.totalScored < U64_MAX)
  }

  /** What one computation comes to. */
  datatype Values = Values(score: int, standing: nat, rate: nat, volume: i128)

  function ValuesAt(admin: Address, linked: bool, es: seq<OracleEntry>, ctx: Context, t: Address): Values {
    var o, i := StateAfter(admin, linked, es), HistoryOf(admin, linked, es, ctx, t);
    Values(DocumentedScore(i, o.credit.control.active), CredentialsStanding(o, ctx, t),
           if i.total == 0 then 0 else i.onTime * 10_000 / i.total, i.volume)
  }

  /** A computation that changed something: its values, when it was made, and the score before. */
  datatype Rewrite = Rewrite(values: Values, ledger: u32, timestamp: u64, previous: Option<int>)

  /** A computation with the old values rewrites nothing. */
  function Recomputed(before: Option<Rewrite>, now: Values, ctx: Context): Rewrite {
    if before.Some? && before.value.values == now then before.value
    else Rewrite(now, ctx.ledger, ctx.timestamp, if before.Some? then Some(before.value.values.score) else None)
  }

  function LastRewrite(admin: Address, linked: bool, es: seq<OracleEntry>, t: Address): Option<Rewrite> {
    if es == [] then None
    else
      var front, e := es[..|es| - 1], es[|es| - 1];
      var before := LastRewrite(admin, linked, front, t);
      if Computes(StateAfter(admin, linked, front), e, t)
      then Some(Recomputed(before, ValuesAt(admin, linked, front, e.context, t), e.context))
      else before
  }

  predicate Holds(r: ScoreRecord, w: Rewrite) {
    && r.score == w.values.score && r.vcCount == w.values.standing
    && r.rate == w.values.rate && r.volume == w.values.volume
    && r.computedAt == w.ledger && r.lastUpdated == w.timestamp
    && (r.previous.Some? <==> w.previous.Some?) && (r.previous.Some? ==> r.previous.value == w.previous.value)
  }

  lemma FreshIsValues(admin: Address, linked: bool, es: seq<OracleEntry>, ctx: Context, t: Address)
    ensures var o, v := StateAfter(admin, linked, es), ValuesAt(admin, linked, es, ctx, t);
            var f := FreshValues(o.credit, o.identity, ctx, t);
            f.score == v.score && f.vcCount == v.standing && f.rate == v.rate && f.volume == v.volume
  {
    WeightsStayValid(admin, linked, es);
    HistoryIsRead(admin, linked, es, ctx, t);
    WorthIsPoints(StateAfter(admin, linked, es), ctx, t);
    ClampNeverBinds(HistoryOf(admin, linked, es, ctx, t), StateAfter(admin, linked, es).credit.control.active);
    RepaymentsAlwaysSound(admin, linked, es);
    RateIsLossless(GetOr(StateAfter(admin, linked, es).credit.repayments, t, NO_REPAYMENT));
  }

  /** In every run a call of `compute_score` scores its subject exactly in these cases. */
  lemma ComputesIff(admin: Address, linked: bool, es: seq<OracleEntry>, e: OracleEntry, t: Address)
    requires e.call == Compute(t)
    ensures var o := StateAfter(admin, linked, es);
            && (Computes(o, e, t) <==>
                  CheckCompute(o.credit, o.identity, e.context, t) == Ok && !(linked && t in o.identity.deactivated))
            && (!Computes(o, e, t) ==> OracleStep(o, e) == o)
            && (CheckCompute(o.credit, o.identity, e.context, t) == Err(CreditOracleError.ContractPaused)
                <==> o.credit.control.paused)
            && (CheckCompute(o.credit, o.identity, e.context, t) == Err(ComputeCooldownActive) <==>
                  !o.credit.control.paused && t in o.credit.scores
                  && e.context.ledger < o.credit.scores[t].computedAt + o.credit.settings.cooldown)
  {
    var o := StateAfter(admin, linked, es);
    WeightsStayValid(admin, linked, es);
    ScoresAlwaysChained(admin, linked, es);
    WorthIsPoints(o, e.context, t);
  }

  /** The stored record of t is this rewrite. */
  predicate Stores(c: Credit, t: Address, last: Option<Rewrite>) {
    && (t in c.scores <==> last.Some?)
    && (t in c.scores ==> Holds(c.scores[t], last.value) && !c.scores[t].stale)
  }

  lemma OtherScoresStay(o: Oracles, e: OracleEntry, t: Address)
    requires e.call != Compute(t) && o.credit.settings.Valid() && RepaymentsInv(o.credit)
    ensures var c, c' := o.credit, OracleStep(o, e).credit;
            (t in c'.scores <==> t in c.scores) && (t in c.scores ==> c'.scores[t] == c.scores[t])
  {
    if !e.call.Compute? { OtherCallsTouchNoScore(o, e); }
  }

  lemma ComputeMoves(o: Oracles, e: OracleEntry, t: Address, before: Option<Rewrite>, now: Values)
    requires e.call == Compute(t) && CheckCompute(o.credit, o.identity, e.context, t) == Ok
    requires !Suppressed(o.credit, o.identity, t) && Stores(o.credit, t, before)
    requires var f := FreshValues(o.credit, o.identity, e.context, t);
             f.score == now.score && f.vcCount == now.standing && f.rate == now.rate && f.volume == now.volume
    ensures Stores(OracleStep(o, e).credit, t, Some(Recomputed(before, now, e.context)))
  {
  }

  /** In every run the stored record is the last rewrite: the values of the last computation
      that went through, documented score, standing credentials, exact repayment rate and fed
      volume, with the ledger and time of the first of the computations that agreed on them
      and the score they replaced. */
  lemma {:induction false} StoredIsLastRewrite(admin: Address, linked: bool, es: seq<OracleEntry>, t: Address)
    ensures Stores(StateAfter(admin, linked, es).credit, t, LastRewrite(admin, linked, es, t))
  {
    if es != [] {
      hide ValuesAt, Recomputed, Stores, FreshValues, CheckCompute, OracleStep;
      var front, e := es[..|es| - 1], es[|es| - 1];
      StoredIsLastRewrite(admin, linked, front, t);
      var o, before := StateAfter(admin, linked, front), LastRewrite(admin, linked, front, t);
      ScoresAlwaysChained(admin, linked, front);
      if e.call == Compute(t) {
        ComputesIff(admin, linked, front, e, t);
        WeightsStayValid(admin, linked, front);
        if Computes(o, e, t) {
          FreshIsValues(admin, linked, front, e.context, t);
          ComputeMoves(o, e, t, before, ValuesAt(admin, linked, front, e.context, t));
        }
      } else {
        OtherScoresStay(o, e, t);
        StoresSame(o.credit, OracleStep(o, e).credit, t, before);
        assert !Computes(o, e, t);
      }
    }
  }

  lemma StoresSame(c: Credit, c': Credit, t: Address, last: Option<Rewrite>)
    requires (t in c'.scores <==> t in c.scores) && (t in c.scores ==> c'.scores[t] == c.scores[t])
    ensures Stores(c', t, last) <==> Stores(c, t, last)
  {
  }

  // ---- the identity oracle inside a run --------------------------------------------------------------

  /** The calls of a run that go to the identity oracle. */
  function IdentityCalls(es: seq<OracleEntry>): seq<Entry> {
    if es == [] then []
    else
      var front, e := IdentityCalls(es[..|es| - 1]), es[|es| - 1];
      if e.call.OnIdentity? then front + [Entry(e.context, e.call.call)] else front
  }

  /** In every run of the two oracles the identity oracle is where these calls alone lead it, so
      what is proved about its own runs holds here. */
  lemma {:induction false} IdentityRunsAlone(admin: Address, linked: bool, es: seq<OracleEntry>)
    ensures StateAfter(admin, linked, es).identity == IdentityHistory.StateAfter(admin, IdentityCalls(es))
  {
    if es != [] {
      var front, calls := es[..|es| - 1], IdentityCalls(es);
      IdentityRunsAlone(admin, linked, front);
      if es[|es| - 1].call.OnIdentity? { assert calls[..|calls| - 1] == IdentityCalls(front); }
    }
  }

  // ---- staleness --------------------------------------------------------------------------------------

  /** The k-th call is an accepted one that changes the subject's identity state. */
  predicate ChangesAt(admin: Address, linked: bool, es: seq<OracleEntry>, t: Address, k: nat) {
    && k < |es| && es[k].call.OnIdentity?
    && IdentityHistory.ChangesState(StateAfter(admin, linked, es[..k]).identity, es[k].context, es[k].call.call, t)
  }

  /** Such a call was made at a later ledger. */
  ghost predicate ChangedSince(admin: Address, linked: bool, es: seq<OracleEntry>, t: Address, ledger: u32) {
    exists k: nat :: ChangesAt(admin, linked, es, t, k) && es[k].context.ledger > ledger
  }

  lemma ChangedSinceSnoc(admin: Address, linked: bool, es: seq<OracleEntry>, e: OracleEntry, t: Address, ledger: u32)
    ensures ChangedSince(admin, linked, es + [e], t, ledger)
            <==> || ChangedSince(admin, linked, es, t, ledger)
                 || (e.context.ledger > ledger && e.call.OnIdentity?
                     && IdentityHistory.ChangesState(StateAfter(admin, linked, es).identity, e.context, e.call.call, t))
  {
    hide StateAfter, IdentityHistory.ChangesState;
    var all := es + [e];
    forall k: nat | k < |es| ensures ChangesAt(admin, linked, all, t, k) <==> ChangesAt(admin, linked, es, t, k) {
      ChangesAtSnoc(admin, linked, es, e, t, k);
    }
    NewChange(admin, linked, es, e, t);
    if k: nat :| ChangesAt(admin, linked, es, t, k) && es[k].context.ledger > ledger {
      assert ChangesAt(admin, linked, all, t, k) && all[k].context.ledger > ledger;
    }
    if k: nat :| ChangesAt(admin, linked, all, t, k) && all[k].context.ledger > ledger {
      assert k == |es| || (ChangesAt(admin, linked, es, t, k) && es[k].context.ledger > ledger);
    }
  }

  lemma ChangesAtSnoc(admin: Address, linked: bool, es: seq<OracleEntry>, e: OracleEntry, t: Address, k: nat)
    requires k < |es|
    ensures ChangesAt(admin, linked, es + [e], t, k) <==> ChangesAt(admin, linked, es, t, k)
  {
    hide StateAfter, IdentityHistory.ChangesState;
    assert (es + [e])[..k] == es[..k] && (es + [e])[k] == es[k];
  }

  lemma NewChange(admin: Address, linked: bool, es: seq<OracleEntry>, e: OracleEntry, t: Address)
    ensures ChangesAt(admin, linked, es + [e], t, |es|) <==>
              e.call.OnIdentity?
              && IdentityHistory.ChangesState(StateAfter(admin, linked, es).identity, e.context, e.call.call, t)
  {
    hide StateAfter, IdentityHistory.ChangesState;
    assert (es + [e])[..|es|] == es && (es + [e])[|es|] == e;
  }

  lemma OracleStampMoves(o: Oracles, e: OracleEntry, t: Address)
    ensures var s, s' := o.identity, OracleStep(o, e).identity;
            if e.call.OnIdentity? && IdentityHistory.ChangesState(s, e.context, e.call.call, t)
            then Stamped(s', t, e.context.ledger) else SameStamp(s, s', t)
  {
    hide IdentityHistory.ChangesState, Step;
    if e.call.OnIdentity? { IdentityHistory.StampMoves(o.identity, e.context, e.call.call, t); }
  }

  /** A stamp is later than a ledger exactly when a change was made after it. */
  lemma {:induction false} StampsShowChanges(admin: Address, linked: bool, es: seq<OracleEntry>, t: Address, ledger: u32)
    requires InLedgerOrder(es)
    ensures var stamps := StateAfter(admin, linked, es).identity.lastChange;
            t in stamps && stamps[t] > ledger <==> ChangedSince(admin, linked, es, t, ledger)
  {
    if es != [] {
      hide IdentityHistory.ChangesState, OracleStep, ChangedSince;
      var front, e := es[..|es| - 1], es[|es| - 1];
      assert es == front + [e];
      StampsShowChanges(admin, linked, front, t, ledger);
      ChangedSinceSnoc(admin, linked, front, e, t, ledger);
      OracleStampMoves(StateAfter(admin, linked, front), e, t);
      if ChangedSince(admin, linked, front, t, ledger) { ChangesAreNotLater(admin, linked, front, e, t, ledger); }
    }
  }

  lemma ChangesAreNotLater(admin: Address, linked: bool, es: seq<OracleEntry>, e: OracleEntry, t: Address, ledger: u32)
    requires InLedgerOrder(es + [e]) && ChangedSince(admin, linked, es, t, ledger)
    ensures e.context.ledger > ledger
  {
    var k: nat :| ChangesAt(admin, linked, es, t, k) && es[k].context.ledger > ledger;
    assert (es + [e])[k] == es[k] && (es + [e])[|es|] == e;
  }

  /** In every run `get_score` returns the last rewrite, and reports it as stale if and only if
      it is more than 86,400 ledgers old or, on a linked oracle, an accepted call has changed
      the subject's identity state at a ledger later than the computation's. */
  lemma StaleIff(admin: Address, linked: bool, es: seq<OracleEntry>, t: Address, ledger: u32)
    requires InLedgerOrder(es)
    ensures var o, last := StateAfter(admin, linked, es), LastRewrite(admin, linked, es, t);
            var got := CreditSpec.GetScore(o.credit, o.identity, t, ledger);
            && (got.Some? <==> last.Some?)
            && (got.Some? ==>
                  && Holds(got.value, last.value)
                  && (got.value.stale <==>
                        || ledger > last.value.ledger + 86_400
                        || (linked && ChangedSince(admin, linked, es, t, last.value.ledger))))
  {
    StoredIsLastRewrite(admin, linked, es, t);
    WeightsStayValid(admin, linked, es);
    var last := LastRewrite(admin, linked, es, t);
    if last.Some? { StampsShowChanges(admin, linked, es, t, last.value.ledger); }
  }
}
