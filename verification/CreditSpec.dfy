/** The credit oracle's scoring side as values, on top of an identity oracle it may be
    linked to: repayments, `compute_score` with its cooldown and skipped writes, and
    `get_score` with its staleness flag. */
module CreditSpec {
  import opened Host
  import opened CreditOracleTypes
  import opened CredentialPoints
  import opened IdentitySpec
  import Scoring
  import Queue = WeightQueue

  const STALE_LEDGER_AGE := 86_400
  const MAX_COMPUTE_COOLDOWN := 86_400

  datatype TxStats = TxStats(volume: i128, txCount: u32, counterparties: u32)

  const NO_STATS := TxStats(0, 0, 0)

  datatype Repayment = Repayment(onTime: u32, total: u32, repaid: i128)

  const NO_REPAYMENT := Repayment(0, 0, 0)

  datatype VcEntry = VcEntry(id: Hash, kind: Option<Symbol>)

  datatype ScoreRecord = ScoreRecord(
    score: u32,
    lastUpdated: u64,
    vcCount: nat,
    rate: u32,
    volume: i128,
    previous: Option<u32>,
    computedAt: u32,
    stale: bool)

  /** What the admin and the feeders write. */
  datatype Settings = Settings(
    lenders: map<Address, bool>,
    cooldown: u32,
    txStats: map<Address, TxStats>,
    vcCounts: map<Address, u32>,
    vcLists: map<Address, seq<VcEntry>>,
    typeWeights: map<Symbol, u32>,
    decay: RecencyDecay)
  {
    /** The range `set_compute_cooldown_ledgers` enforces. */
    predicate Valid() { 1 <= cooldown <= MAX_COMPUTE_COOLDOWN }

    function WeightOf(kind: Symbol): u32 { GetOr(typeWeights, kind, 100) }
  }

  const DEFAULT_SETTINGS := Settings(map[], 1, map[], map[], map[], map[], DEFAULT_DECAY)

  datatype Credit = Credit(
    control: Queue.Control,
    linked: bool,
    settings: Settings,
    repayments: map<Address, Repayment>,
    scores: map<Address, ScoreRecord>,
    totalScored: u64,
    totalRepayments: u64)

  function DeployedCredit(admin: Address, linked: bool): Credit {
    Credit(Queue.Deployed(admin), linked, DEFAULT_SETTINGS, map[], map[], 0, 0)
  }

  // ---- repayments ---------------------------------------------------------------------

  function CheckRepayment(c: Credit, auth: set<Address>, lender: Address, amount: i128)
    : Verdict<CreditOracleError>
  {
    if amount <= 0 then Err(InvalidAmount)
    else if c.control.paused then Err(CreditOracleError.ContractPaused)
    else if lender !in auth then Trap
    else if !GetOr(c.settings.lenders, lender, false) then Err(LenderNotRegistered)
    else if c.totalRepayments == U64_MAX then Trap
    else Ok
  }

  function AddRepayment(r: Repayment, amount: i128, onTime: bool): Repayment {
    Repayment(if onTime then SatAddU32(r.onTime, 1) else r.onTime,
              SatAddU32(r.total, 1),
              SatAddI128(r.repaid, amount))
  }

  function AfterRepayment(c: Credit, subject: Address, amount: i128, onTime: bool): Credit
    requires c.totalRepayments < U64_MAX
  {
    var r := GetOr(c.repayments, subject, NO_REPAYMENT);
    c.(repayments := c.repayments[subject := AddRepayment(r, amount, onTime)],
       totalRepayments := c.totalRepayments + 1)
  }

  // ---- what a computation reads ---------------------------------------------------------

  /** What the scoring loop reads of a list of identity records. */
  function CredentialsOf(st: Settings, id: Identity, subject: Address, rs: seq<VcRecord>): seq<Credential> {
    seq(|rs|, i requires 0 <= i < |rs| =>
      Credential(st.WeightOf(id.TypeOf(subject, rs[i].hash)), rs[i].anchoredAt))
  }

  /** What the fallback loop reads of the locally stored list; entries never decay. */
  function EntriesAsCredentials(st: Settings, entries: seq<VcEntry>): seq<Credential> {
    seq(|entries|, i requires 0 <= i < |entries| =>
      Credential(if entries[i].kind.Some? then st.WeightOf(entries[i].kind.value) else 100, 0))
  }

  /** The exact capped credential points, on each of the three paths. */
  function VcPoints(c: Credit, id: Identity, ctx: Context, subject: Address): (points: u32)
    ensures points <= VC_CAP
  {
    var st := c.settings;
    var entries := GetOr(st.vcLists, subject, []);
    if c.linked then
      var active := ActiveRecords(id.Records(subject), ctx.R);
      Min(ExactTotal(CredentialsOf(st, id, subject, active), ctx.timestamp, st.decay), VC_CAP)
    else if entries != [] then
      Min(ExactTotal(EntriesAsCredentials(st, entries), 0, st.decay.(enabled := false)), VC_CAP)
    else
      Min(GetOr(st.vcCounts, subject, 0) * BASE_POINTS, VC_CAP)
  }

  function VcCount(c: Credit, id: Identity, ctx: Context, subject: Address): nat {
    var entries := GetOr(c.settings.vcLists, subject, []);
    if c.linked then CountActive(id.Records(subject), ctx.R)
    else if entries != [] then |entries|
    else GetOr(c.settings.vcCounts, subject, 0)
  }

  function ScoreInputs(c: Credit, id: Identity, ctx: Context, subject: Address): Scoring.Inputs {
    var tx := GetOr(c.settings.txStats, subject, NO_STATS);
    var rep := GetOr(c.repayments, subject, NO_REPAYMENT);
    Scoring.Inputs(VcPoints(c, id, ctx, subject), tx.volume, tx.counterparties, rep.onTime, rep.total, rep.repaid)
  }

  /** The repayment rate in basis points; the final cast keeps the low 32 bits. */
  function RateBps(r: Repayment): u32 {
    if r.total == 0 then 0 else r.onTime * 10_000 / r.total % (U32_MAX + 1)
  }

  /** The values a computation arrives at, before it decides whether to store them. */
  datatype Fresh = Fresh(score: u32, vcCount: nat, rate: u32, volume: i128)

  function FreshValues(c: Credit, id: Identity, ctx: Context, subject: Address): Fresh {
    var i := ScoreInputs(c, id, ctx, subject);
    Fresh(Scoring.ComputeScorePure(i, c.control.active),
          VcCount(c, id, ctx, subject),
          RateBps(GetOr(c.repayments, subject, NO_REPAYMENT)),
          i.volume)
  }

  predicate Suppressed(c: Credit, id: Identity, subject: Address) {
    c.linked && subject in id.deactivated
  }

  /** What `compute_score` returns. */
  function ScoreResult(c: Credit, id: Identity, ctx: Context, subject: Address): u32 {
    if Suppressed(c, id, subject) then Scoring.MIN_SCORE else FreshValues(c, id, ctx, subject).score
  }

  // ---- compute_score ----------------------------------------------------------------------

  predicate CooldownActive(c: Credit, ledger: u32, subject: Address) {
    c.settings.cooldown > 0 && subject in c.scores
    && SatSub(ledger, c.scores[subject].computedAt) < c.settings.cooldown
  }

  function CheckCompute(c: Credit, id: Identity, ctx: Context, subject: Address): Verdict<CreditOracleError> {
    if c.control.paused then Err(CreditOracleError.ContractPaused)
    else if CooldownActive(c, ctx.ledger, subject) then Err(ComputeCooldownActive)
    else if Suppressed(c, id, subject) then Ok
    else if VcCount(c, id, ctx, subject) > U32_MAX then Trap
    else if subject !in c.scores && c.totalScored == U64_MAX then Trap
    else Ok
  }

  predicate SameValues(r: ScoreRecord, f: Fresh) {
    r.score == f.score && r.vcCount == f.vcCount && r.rate == f.rate && r.volume == f.volume
  }

  /** Whether a successful computation rewrites the stored record. */
  predicate Rewrites(c: Credit, id: Identity, ctx: Context, subject: Address) {
    && !Suppressed(c, id, subject)
    && (subject in c.scores ==> !SameValues(c.scores[subject], FreshValues(c, id, ctx, subject)))
  }

  function NewRecord(c: Credit, ctx: Context, subject: Address, f: Fresh): ScoreRecord {
    ScoreRecord(f.score, ctx.timestamp, f.vcCount, f.rate, f.volume,
                if subject in c.scores then Some(c.scores[subject].score) else None,
                ctx.ledger, false)
  }

  function AfterCompute(c: Credit, id: Identity, ctx: Context, subject: Address): Credit
    requires CheckCompute(c, id, ctx, subject) == Ok
  {
    if !Rewrites(c, id, ctx, subject) then c
    else
      c.(scores := c.scores[subject := NewRecord(c, ctx, subject, FreshValues(c, id, ctx, subject))],
         totalScored := if subject in c.scores then c.totalScored else c.totalScored + 1)
  }

  // ---- get_score ----------------------------------------------------------------------------

  /** `get_score`, with the lookup of the last state change succeeding. */
  function GetScore(c: Credit, id: Identity, subject: Address, ledger: u32): Option<ScoreRecord> {
    if subject !in c.scores then None
    else
      var r := c.scores[subject];
      var tooOld := SatSub(ledger, r.computedAt) > STALE_LEDGER_AGE;
      var outdated := c.linked && subject in id.lastChange && r.computedAt < id.lastChange[subject];
      Some(r.(stale := tooOld || outdated))
  }

  // ---- the two oracles together ---------------------------------------------------------------

  datatype Oracles = Oracles(credit: Credit, identity: Identity)

  datatype OracleCall =
    | OnIdentity(call: IdentityCall)
    | RecordRepayment(lender: Address, subject: Address, amount: i128, onTime: bool)
    | Compute(subject: Address)
    | Reconfigure(settings: Settings)
    | OnWeights(queue: Queue.QueueCall)

  datatype OracleEntry = OracleEntry(context: Context, call: OracleCall)

  function OracleStep(o: Oracles, e: OracleEntry): Oracles {
    var ctx := e.context;
    match e.call
    case OnIdentity(call) => o.(identity := Step(o.identity, ctx, call))
    case RecordRepayment(lender, subject, amount, onTime) =>
      if CheckRepayment(o.credit, ctx.auth, lender, amount) != Ok then o
      else o.(credit := AfterRepayment(o.credit, subject, amount, onTime))
    case Compute(subject) =>
      if CheckCompute(o.credit, o.identity, ctx, subject) != Ok then o
      else o.(credit := AfterCompute(o.credit, o.identity, ctx, subject))
    case Reconfigure(settings) =>
      if settings.Valid() then o.(credit := o.credit.(settings := settings)) else o
    case OnWeights(q) =>
      o.(credit := o.credit.(control := Queue.Step(o.credit.control, ctx.ledger, ctx.auth, q)))
  }

  function OracleRun(o: Oracles, es: seq<OracleEntry>): Oracles {
    if es == [] then o else OracleStep(OracleRun(o, es[..|es| - 1]), es[|es| - 1])
  }

  function DeployedOracles(admin: Address, linked: bool): Oracles {
    Oracles(DeployedCredit(admin, linked), Deployed(admin))
  }
}
