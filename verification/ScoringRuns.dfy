/** Runs of the two oracles: repayment counters stay consistent, stored scores are coherent
    and chained, an unflagged score is not outdated, and the score moves the right way. */
module ScoringRuns {
  import opened Host
  import opened Arithmetic
  import opened CreditOracleTypes
  import opened CredentialPoints
  import opened IdentitySpec
  import opened IdentityInvariants
  import opened CreditSpec
  import opened Scoring

  // ---- repayments ------------------------------------------------------------------------

  predicate SoundRepayment(r: Repayment) { r.onTime <= r.total && r.repaid >= 0 }

  ghost predicate RepaymentsInv(c: Credit) {
    forall t :: t in c.repayments ==> SoundRepayment(c.repayments[t])
  }

  lemma {:induction false} RepaymentsAlwaysSound(admin: Address, linked: bool, es: seq<OracleEntry>)
    ensures RepaymentsInv(OracleRun(DeployedOracles(admin, linked), es).credit)
  {
    if es != [] {
      RepaymentsAlwaysSound(admin, linked, es[..|es| - 1]);
    }
  }

  /** The stored rate is at most 10,000 and its cast to u32 loses nothing. */
  lemma RateIsLossless(r: Repayment)
    requires SoundRepayment(r)
    ensures RateBps(r) <= 10_000
    ensures r.total > 0 ==> RateBps(r) == r.onTime * 10_000 / r.total
  {
    if r.total > 0 {
      var scaled: nat := r.onTime * 10_000;
      assert scaled <= 10_000 * r.total;
      DivAtMost(scaled, r.total, 10_000);
      DivShrinks(scaled, r.total);
    }
  }

  lemma OnTimeRaisesRatio(r: Repayment, amount: i128)
    requires SoundRepayment(r) && amount > 0
    ensures var r' := AddRepayment(r, amount, true);
            SoundRepayment(r') && r.repaid <= r'.repaid
            && RatioAtMost(r.onTime, r.total, r'.onTime, r'.total)
  {
    var r' := AddRepayment(r, amount, true);
    if r'.total == r.total {
      MulBound(r.onTime, r.total, r'.onTime, r.total);
    } else {
      assert r'.onTime == r.onTime + 1 && r'.total == r.total + 1;
      assert r.onTime * r'.total == r.onTime * r.total + r.onTime;
      assert r'.onTime * r.total == r.onTime * r.total + r.total;
    }
  }

  /** Recording an on-time repayment never lowers the next computed score, at saturation
      of the counters or not. */
  lemma OnTimeRepaymentNeverHurts(c: Credit, id: Identity, ctx: Context, subject: Address, amount: i128)
    requires RepaymentsInv(c) && amount > 0 && c.totalRepayments < U64_MAX
    ensures ScoreResult(c, id, ctx, subject)
         <= ScoreResult(AfterRepayment(c, subject, amount, true), id, ctx, subject)
  {
    var c' := AfterRepayment(c, subject, amount, true);
    var r := GetOr(c.repayments, subject, NO_REPAYMENT);
    OnTimeRaisesRatio(r, amount);
    assert VcPoints(c', id, ctx, subject) == VcPoints(c, id, ctx, subject);
    ScoreMonotone(ScoreInputs(c, id, ctx, subject), ScoreInputs(c', id, ctx, subject), c.control.active);
  }

  // ---- the inner verification -------------------------------------------------------------

  lemma {:induction false} ActiveRecordsAreActive(rs: seq<VcRecord>, R: set<Hash>)
    ensures |ActiveRecords(rs, R)| == CountActive(rs, R)
    ensures forall r :: r in ActiveRecords(rs, R) <==> r in rs && !IsRevoked(r, R)
  {
    if rs != [] {
      assert rs == rs[..|rs| - 1] + [rs[|rs| - 1]];
      ActiveRecordsAreActive(rs[..|rs| - 1], R);
    }
  }

  /** `verify_vc` accepts every record that `get_vc_details` returned, so the inner check of
      the scoring loop never rejects and `vc_count` is the number of active records. */
  lemma InnerCheckNeverRejects(rs: seq<VcRecord>, R: set<Hash>, k: nat)
    requires k < |ActiveRecords(rs, R)|
    ensures VerifiesVc(rs, ActiveRecords(rs, R)[k].hash, R)
    ensures |ActiveRecords(rs, R)| == CountActive(rs, R)
  {
    ActiveRecordsAreActive(rs, R);
    var r := ActiveRecords(rs, R)[k];
    assert r in ActiveRecords(rs, R);
    var j :| 0 <= j < |rs| && rs[j] == r;
  }

  // ---- stored scores ------------------------------------------------------------------------

  /** After a successful computation for a subject that is not deactivated, the stored
      values are the fresh ones, also when the write is skipped. */
  lemma StoredScoreIsCoherent(c: Credit, id: Identity, ctx: Context, subject: Address)
    requires CheckCompute(c, id, ctx, subject) == Ok && !Suppressed(c, id, subject)
    ensures var c' := AfterCompute(c, id, ctx, subject);
            subject in c'.scores
            && SameValues(c'.scores[subject], FreshValues(c, id, ctx, subject))
            && c'.scores[subject].score == ScoreResult(c, id, ctx, subject)
  {
  }

  /** One rewrite of a stored record, and the cooldown in force at that moment. */
  datatype Write = Write(record: ScoreRecord, cooldown: u32)

  type WriteLog = map<Address, seq<Write>>

  function WritesOf(log: WriteLog, t: Address): seq<Write> { GetOr(log, t, []) }

  function ObserveWrites(log: WriteLog, o: Oracles, e: OracleEntry): WriteLog {
    if e.call.Compute?
       && CheckCompute(o.credit, o.identity, e.context, e.call.subject) == Ok
       && Rewrites(o.credit, o.identity, e.context, e.call.subject)
    then
      var t := e.call.subject;
      log[t := WritesOf(log, t) + [Write(OracleStep(o, e).credit.scores[t], o.credit.settings.cooldown)]]
    else log
  }

  function LogOf(o: Oracles, es: seq<OracleEntry>): WriteLog {
    if es == [] then map[]
    else ObserveWrites(LogOf(o, es[..|es| - 1]), OracleRun(o, es[..|es| - 1]), es[|es| - 1])
  }

  /** Successive records name their predecessor's score and lie at least the cooldown, and
      so at least one ledger, apart. */
  predicate Linked(w: Write, w': Write) {
    && w'.record.previous == Some(w.record.score)
    && w'.record.computedAt >= w.record.computedAt + w'.cooldown
    && w'.cooldown >= 1
  }

  predicate Chained(ws: seq<Write>) {
    && (ws != [] ==> ws[0].record.previous == None)
    && (forall i :: 0 <= i < |ws| - 1 ==> Linked(ws[i], ws[i + 1]))
  }

  predicate SoundRecord(r: ScoreRecord) {
    MIN_SCORE <= r.score <= MAX_SCORE && r.rate <= 10_000 && !r.stale
  }

  ghost predicate ScoresInv(c: Credit, log: WriteLog) {
    && c.settings.Valid()
    && RepaymentsInv(c)
    && c.totalScored == |c.scores|
    && (forall t :: t in c.scores <==> WritesOf(log, t) != [])
    && (forall t :: t in c.scores ==>
          c.scores[t] == WritesOf(log, t)[|WritesOf(log, t)| - 1].record && SoundRecord(c.scores[t]))
    && (forall t :: Chained(WritesOf(log, t)))
  }

  lemma ChainGrows(ws: seq<Write>, w: Write)
    requires Chained(ws)
    requires if ws == [] then w.record.previous == None else Linked(ws[|ws| - 1], w)
    ensures Chained(ws + [w])
  {
    forall i | 0 <= i < |ws| ensures i < |ws| - 1 ==> Linked(ws[i], ws[i + 1]) {}
  }

  /** The record a computation writes is sound and continues the chain. */
  lemma NewRecordContinues(c: Credit, id: Identity, ctx: Context, t: Address, ws: seq<Write>)
    requires CheckCompute(c, id, ctx, t) == Ok && c.settings.Valid() && RepaymentsInv(c)
    requires t in c.scores <==> ws != []
    requires t in c.scores ==> c.scores[t] == ws[|ws| - 1].record
    requires !Suppressed(c, id, t)
    ensures var w := Write(CreditSpec.NewRecord(c, ctx, t, FreshValues(c, id, ctx, t)), c.settings.cooldown);
            SoundRecord(w.record)
            && (if ws == [] then w.record.previous == None else Linked(ws[|ws| - 1], w))
  {
    RateIsLossless(GetOr(c.repayments, t, NO_REPAYMENT));
  }

  lemma ComputeKeepsScores(o: Oracles, log: WriteLog, e: OracleEntry)
    requires ScoresInv(o.credit, log) && e.call.Compute?
    requires CheckCompute(o.credit, o.identity, e.context, e.call.subject) == Ok
    requires Rewrites(o.credit, o.identity, e.context, e.call.subject)
    ensures ScoresInv(OracleStep(o, e).credit, ObserveWrites(log, o, e))
  {
    var t, c := e.call.subject, o.credit;
    var record := CreditSpec.NewRecord(c, e.context, t, FreshValues(c, o.identity, e.context, t));
    var c' := AfterCompute(c, o.identity, e.context, t);
    assert c'.scores == c.scores[t := record];
    assert OracleStep(o, e).credit == c';
    var w := Write(record, c.settings.cooldown);
    NewRecordContinues(c, o.identity, e.context, t, WritesOf(log, t));
    ChainGrows(WritesOf(log, t), w);
    assert ObserveWrites(log, o, e) == log[t := WritesOf(log, t) + [w]];
    WriteKeepsScores(c, c', log, t, w);
  }

  lemma WriteKeepsScores(c: Credit, c': Credit, log: WriteLog, t: Address, w: Write)
    requires ScoresInv(c, log)
    requires c'.scores == c.scores[t := w.record] && c'.settings == c.settings && c'.repayments == c.repayments
    requires c'.totalScored == c.totalScored + (if t in c.scores then 0 else 1)
    requires SoundRecord(w.record) && Chained(WritesOf(log, t) + [w])
    ensures ScoresInv(c', log[t := WritesOf(log, t) + [w]])
  {
    var log' := log[t := WritesOf(log, t) + [w]];
    assert WritesOf(log', t) == WritesOf(log, t) + [w];
    assert forall u :: u != t ==> WritesOf(log', u) == WritesOf(log, u);
  }

  lemma SameScoresKeepInv(c: Credit, c': Credit, log: WriteLog)
    requires ScoresInv(c, log) && c'.settings.Valid() && RepaymentsInv(c')
    requires c'.scores == c.scores && c'.totalScored == c.totalScored
    ensures ScoresInv(c', log)
  {
  }

  lemma OtherCallsKeepScores(o: Oracles, log: WriteLog, e: OracleEntry)
    requires ScoresInv(o.credit, log) && !e.call.Compute?
    ensures ScoresInv(OracleStep(o, e).credit, log)
  {
    OtherCallsTouchNoScore(o, e);
    SameScoresKeepInv(o.credit, OracleStep(o, e).credit, log);
  }

  lemma OtherCallsTouchNoScore(o: Oracles, e: OracleEntry)
    requires !e.call.Compute? && o.credit.settings.Valid() && RepaymentsInv(o.credit)
    ensures var c' := OracleStep(o, e).credit;
            c'.scores == o.credit.scores && c'.totalScored == o.credit.totalScored
            && c'.settings.Valid() && RepaymentsInv(c')
  {
  }

  lemma StepKeepsScores(o: Oracles, log: WriteLog, e: OracleEntry)
    requires ScoresInv(o.credit, log)
    ensures ScoresInv(OracleStep(o, e).credit, ObserveWrites(log, o, e))
  {
    if !e.call.Compute? {
      OtherCallsKeepScores(o, log, e);
    } else if CheckCompute(o.credit, o.identity, e.context, e.call.subject) == Ok {
      if Rewrites(o.credit, o.identity, e.context, e.call.subject) {
        ComputeKeepsScores(o, log, e);
      }
    }
  }

  /** In every run the number of scored subjects is the number of stored records, and each
      subject's successive records are chained through `previous_score` and separated by at
      least the cooldown then in force. */
  lemma {:induction false} ScoresAlwaysChained(admin: Address, linked: bool, es: seq<OracleEntry>)
    ensures var start := DeployedOracles(admin, linked);
            ScoresInv(OracleRun(start, es).credit, LogOf(start, es))
  {
    if es != [] {
      var start, front := DeployedOracles(admin, linked), es[..|es| - 1];
      ScoresAlwaysChained(admin, linked, front);
      StepKeepsScores(OracleRun(start, front), LogOf(start, front), es[|es| - 1]);
    }
  }

  // ---- staleness ----------------------------------------------------------------------------

  /** Everything about one subject that the identity oracle keeps itself. */
  datatype LocalView = LocalView(
    did: Option<string>,
    records: seq<VcRecord>,
    types: map<(Address, Hash), Symbol>,
    deactivated: bool)

  /** The credential types set for one subject. */
  function TypesOf(types: map<(Address, Hash), Symbol>, t: Address): map<(Address, Hash), Symbol> {
    map k | k in types && k.0 == t :: types[k]
  }

  function ViewOf(s: Identity, t: Address): LocalView {
    LocalView(if t in s.dids then Some(s.dids[t]) else None, s.Records(t), TypesOf(s.types, t), t in s.deactivated)
  }

  /** The subject carries the ledger of this very call. */
  predicate Stamped(s: Identity, t: Address, ledger: u32) {
    t in s.lastChange && s.lastChange[t] == ledger
  }

  predicate SameStamp(s: Identity, s': Identity, t: Address) {
    && (t in s'.lastChange <==> t in s.lastChange)
    && (t in s.lastChange ==> s'.lastChange[t] == s.lastChange[t])
  }

  lemma SettingAnothersType(types: map<(Address, Hash), Symbol>, subject: Address, h: Hash, kind: Symbol, t: Address)
    requires t != subject
    ensures TypesOf(types[(subject, h) := kind], t) == TypesOf(types, t)
  {
    assert forall k: (Address, Hash) :: k.0 == t ==> k != (subject, h);
  }

  lemma TypesAfterStep(s: Identity, c: Context, call: IdentityCall)
    ensures Step(s, c, call).types == s.types
            || (call.AnchorVc? && Step(s, c, call).types == s.types[(call.subject, call.hash) := call.kind])
  {
  }

  lemma OtherTypesUnchanged(s: Identity, c: Context, call: IdentityCall, t: Address)
    requires !call.SetIssuer? && !call.SetPaused? && t != call.subject
    ensures TypesOf(Step(s, c, call).types, t) == TypesOf(s.types, t)
  {
    TypesAfterStep(s, c, call);
    if call.AnchorVc? { SettingAnothersType(s.types, call.subject, call.hash, call.kind, t); }
  }

  lemma OtherFieldsUnchanged(s: Identity, c: Context, call: IdentityCall, t: Address)
    requires !call.SetIssuer? && !call.SetPaused? && t != call.subject
    ensures var s' := Step(s, c, call);
            && (t in s'.dids <==> t in s.dids) && (t in s.dids ==> s'.dids[t] == s.dids[t])
            && (t in s'.deactivated <==> t in s.deactivated)
  {
  }

  lemma OtherStampsUnchanged(s: Identity, c: Context, call: IdentityCall, t: Address)
    requires !call.SetIssuer? && !call.SetPaused? && t != call.subject
    ensures SameStamp(s, Step(s, c, call), t)
  {
  }

  lemma OthersAreUnchanged(s: Identity, c: Context, call: IdentityCall, t: Address)
    requires !call.SetIssuer? && !call.SetPaused? && t != call.subject
    ensures ViewOf(Step(s, c, call), t) == ViewOf(s, t) && SameStamp(s, Step(s, c, call), t)
  {
    OtherSubjectsUntouched(s, c, call, t);
    OtherTypesUnchanged(s, c, call, t);
    OtherFieldsUnchanged(s, c, call, t);
    OtherStampsUnchanged(s, c, call, t);
  }

  lemma RepeatedMarkChangesNothing(s: Identity, c: Context, call: IdentityCall)
    requires call.MarkRevoked? && VerdictOf(s, c, call) == Ok
    requires !HasUnrevokedRecord(s.Records(call.subject), call.issuer, call.hash)
    ensures ViewOf(Step(s, c, call), call.subject) == ViewOf(s, call.subject)
    ensures SameStamp(s, Step(s, c, call), call.subject)
  {
    assert MarkAll(s.Records(call.subject), call.issuer, call.hash) == s.Records(call.subject);
  }

  lemma OwnChangesAreStamped(s: Identity, c: Context, call: IdentityCall)
    requires VerdictOf(s, c, call) == Ok && !call.SetIssuer? && !call.SetPaused?
    requires call.MarkRevoked? ==> HasUnrevokedRecord(s.Records(call.subject), call.issuer, call.hash)
    ensures var t, s' := call.subject, Step(s, c, call);
            Stamped(s', t, c.ledger) || (ViewOf(s', t) == ViewOf(s, t) && SameStamp(s, s', t))
  {
  }

  /** A call either stamps the subject with the current ledger or changes neither the
      subject's state nor its stamp. */
  lemma EveryChangeIsStamped(s: Identity, c: Context, call: IdentityCall, t: Address)
    ensures var s' := Step(s, c, call);
            Stamped(s', t, c.ledger) || (ViewOf(s', t) == ViewOf(s, t) && SameStamp(s, s', t))
  {
    if VerdictOf(s, c, call) == Ok && !call.SetIssuer? && !call.SetPaused? {
      if call.subject != t {
        OthersAreUnchanged(s, c, call, t);
      } else if call.MarkRevoked? && !HasUnrevokedRecord(s.Records(t), call.issuer, call.hash) {
        RepeatedMarkChangesNothing(s, c, call);
      } else {
        OwnChangesAreStamped(s, c, call);
      }
    }
  }

  /** Entries are in ledger order. */
  predicate InLedgerOrder(es: seq<OracleEntry>) {
    forall i, j :: 0 <= i < j < |es| ==> es[i].context.ledger <= es[j].context.ledger
  }

  /** How many entries happened up to and including a ledger. */
  function UpTo(es: seq<OracleEntry>, ledger: u32): (n: nat)
    ensures n <= |es|
  {
    if es == [] || es[|es| - 1].context.ledger <= ledger then |es|
    else UpTo(es[..|es| - 1], ledger)
  }

  /** If the last stamp is no later than `ledger`, nothing about the subject has changed
      since the end of that ledger. */
  lemma {:induction false} UnstampedMeansUnchanged(o: Oracles, es: seq<OracleEntry>, t: Address, ledger: u32)
    requires var s := OracleRun(o, es).identity;
             t in s.lastChange ==> s.lastChange[t] <= ledger
    ensures ViewOf(OracleRun(o, es).identity, t)
         == ViewOf(OracleRun(o, es[..UpTo(es, ledger)]).identity, t)
  {
    if es == [] || es[|es| - 1].context.ledger <= ledger {
      assert es[..UpTo(es, ledger)] == es;
    } else {
      var front, e := es[..|es| - 1], es[|es| - 1];
      var s := OracleRun(o, front).identity;
      if e.call.OnIdentity? {
        EveryChangeIsStamped(s, e.context, e.call.call, t);
      }
      UnstampedMeansUnchanged(o, front, t, ledger);
      assert es[..UpTo(es, ledger)] == front[..UpTo(front, ledger)];
    }
  }

  lemma {:induction false} StaysLinked(o: Oracles, es: seq<OracleEntry>)
    ensures OracleRun(o, es).credit.linked == o.credit.linked
  {
    if es != [] { StaysLinked(o, es[..|es| - 1]); }
  }

  /** Staleness is sound: when `get_score` reports a record as not stale, the record is at
      most 86,400 ledgers old and the subject's local identity state (DID, records and
      flags, types, deactivation) is the one at the end of the ledger it was computed in. */
  lemma UnflaggedScoreIsCurrent(admin: Address, es: seq<OracleEntry>, t: Address, ledger: u32)
    requires InLedgerOrder(es)
    ensures var start := DeployedOracles(admin, true);
            var o := OracleRun(start, es);
            var got := GetScore(o.credit, o.identity, t, ledger);
            got.Some? && !got.value.stale ==>
              && ledger <= got.value.computedAt + 86_400
              && ViewOf(o.identity, t)
                 == ViewOf(OracleRun(start, es[..UpTo(es, got.value.computedAt)]).identity, t)
              && (forall k :: 0 <= k < |es| ==>
                    (k < UpTo(es, got.value.computedAt) <==> es[k].context.ledger <= got.value.computedAt))
  {
    var start := DeployedOracles(admin, true);
    var o := OracleRun(start, es);
    StaysLinked(start, es);
    var got := GetScore(o.credit, o.identity, t, ledger);
    if got.Some? && !got.value.stale {
      UnstampedMeansUnchanged(start, es, t, got.value.computedAt);
      UpToIsACut(es, got.value.computedAt);
    }
  }

  lemma {:induction false} UpToIsACut(es: seq<OracleEntry>, ledger: u32)
    requires InLedgerOrder(es)
    ensures forall k :: 0 <= k < |es| ==> (k < UpTo(es, ledger) <==> es[k].context.ledger <= ledger)
  {
    if es != [] && es[|es| - 1].context.ledger > ledger {
      UpToIsACut(es[..|es| - 1], ledger);
    }
  }

  /** A growing registry leaves the active records as they are exactly when it reports none
      of their hashes. */
  lemma {:induction false} ActiveSurviveGrowthIff(rs: seq<VcRecord>, R: set<Hash>, R': set<Hash>)
    requires R <= R'
    ensures ActiveRecords(rs, R') == ActiveRecords(rs, R)
            <==> forall r :: r in ActiveRecords(rs, R) ==> r.hash !in R'
  {
    ActiveRecordsAreActive(rs, R);
    ActiveRecordsAreActive(rs, R');
    if rs != [] && forall r :: r in ActiveRecords(rs, R) ==> r.hash !in R' {
      var front := rs[..|rs| - 1];
      ActiveRecordsAreActive(front, R);
      forall r | r in ActiveRecords(front, R) ensures r.hash !in R' {
        assert r in rs;
        assert r in ActiveRecords(rs, R);
      }
      ActiveSurviveGrowthIff(front, R, R');
      var x := rs[|rs| - 1];
      assert x in rs;
      assert !IsRevoked(x, R) ==> x in ActiveRecords(rs, R);
    }
  }

  lemma SameTypesReadAlike(s: Identity, s': Identity, t: Address, h: Hash)
    requires TypesOf(s.types, t) == TypesOf(s'.types, t)
    ensures s.TypeOf(t, h) == s'.TypeOf(t, h)
  {
    assert (t, h) in TypesOf(s.types, t) <==> (t, h) in s.types;
    assert (t, h) in TypesOf(s'.types, t) <==> (t, h) in s'.types;
    if (t, h) in s.types {
      assert TypesOf(s.types, t)[(t, h)] == s.types[(t, h)];
      assert TypesOf(s'.types, t)[(t, h)] == s'.types[(t, h)];
    }
  }

  lemma SameViewReadsAlike(st: Settings, s: Identity, s': Identity, t: Address, rs: seq<VcRecord>)
    requires ViewOf(s, t) == ViewOf(s', t)
    ensures s.Records(t) == s'.Records(t)
    ensures CredentialsOf(st, s, t, rs) == CredentialsOf(st, s', t, rs)
  {
    forall i | 0 <= i < |rs| ensures s.TypeOf(t, rs[i].hash) == s'.TypeOf(t, rs[i].hash) {
      SameTypesReadAlike(s, s', t, rs[i].hash);
    }
  }

  /** Registry revocations that bypass the oracle set no stamp. What the scoring loop would
      read for a record that is not stale, the active records with their types, is what it
      would have read at the end of the ledger the score was computed in, if and only if
      the registry has not since reported a hash that one of those records carries. */
  lemma UnflaggedCredentialsAreCurrentIff(admin: Address, es: seq<OracleEntry>, t: Address, ledger: u32,
                                          reported: set<Hash>, now: set<Hash>)
    requires InLedgerOrder(es) && reported <= now
    ensures var start := DeployedOracles(admin, true);
            var o := OracleRun(start, es);
            var got := GetScore(o.credit, o.identity, t, ledger);
            got.Some? && !got.value.stale ==>
              var past := OracleRun(start, es[..UpTo(es, got.value.computedAt)]).identity;
              var active := ActiveRecords(past.Records(t), reported);
              && (ActiveRecords(o.identity.Records(t), now) == active <==> forall r :: r in active ==> r.hash !in now)
              && (forall st: Settings :: CredentialsOf(st, o.identity, t, active) == CredentialsOf(st, past, t, active))
  {
    var start := DeployedOracles(admin, true);
    var o := OracleRun(start, es);
    UnflaggedScoreIsCurrent(admin, es, t, ledger);
    var got := GetScore(o.credit, o.identity, t, ledger);
    if got.Some? && !got.value.stale {
      var past := OracleRun(start, es[..UpTo(es, got.value.computedAt)]).identity;
      var active := ActiveRecords(past.Records(t), reported);
      ActiveSurviveGrowthIff(past.Records(t), reported, now);
      forall st: Settings ensures CredentialsOf(st, o.identity, t, active) == CredentialsOf(st, past, t, active) {
        SameViewReadsAlike(st, o.identity, past, t, active);
      }
      SameViewReadsAlike(DEFAULT_SETTINGS, o.identity, past, t, active);
    }
  }

  // ---- the score moves the right way -----------------------------------------------------------

  lemma MorePointsNeverHurt(c: Credit, id: Identity, id': Identity, ctx: Context, ctx': Context, subject: Address)
    requires VcPoints(c, id, ctx, subject) <= VcPoints(c, id', ctx', subject)
    ensures FreshValues(c, id, ctx, subject).score <= FreshValues(c, id', ctx', subject).score
  {
    var i := ScoreInputs(c, id, ctx, subject);
    MulBound(i.onTime, i.total, i.onTime, i.total);
    ScoreMonotone(i, ScoreInputs(c, id', ctx', subject), c.control.active);
  }

  function ActiveTotal(st: Settings, id: Identity, subject: Address, rs: seq<VcRecord>, ctx: Context): nat {
    ExactTotal(CredentialsOf(st, id, subject, ActiveRecords(rs, ctx.R)), ctx.timestamp, st.decay)
  }

  /** The total of the active records grows record by record. */
  lemma ActiveTotalSnoc(st: Settings, id: Identity, subject: Address, rs: seq<VcRecord>, ctx: Context)
    requires rs != []
    ensures var x, front := rs[|rs| - 1], rs[..|rs| - 1];
            ActiveTotal(st, id, subject, rs, ctx)
            == ActiveTotal(st, id, subject, front, ctx)
               + (if IsRevoked(x, ctx.R) then 0
                  else ExactPoints(Credential(st.WeightOf(id.TypeOf(subject, x.hash)), x.anchoredAt),
                                   ctx.timestamp, st.decay))
  {
    var x, front := rs[|rs| - 1], rs[..|rs| - 1];
    if !IsRevoked(x, ctx.R) {
      var cs := CredentialsOf(st, id, subject, ActiveRecords(rs, ctx.R));
      assert cs[..|cs| - 1] == CredentialsOf(st, id, subject, ActiveRecords(front, ctx.R));
    }
  }

  /** Flagging records revoked can only remove points. */
  lemma {:induction false} MarkingRemovesPoints(st: Settings, id: Identity, id': Identity, subject: Address,
                                                rs: seq<VcRecord>, issuer: Address, h: Hash, ctx: Context)
    requires id'.types == id.types
    ensures ActiveTotal(st, id', subject, MarkAll(rs, issuer, h), ctx) <= ActiveTotal(st, id, subject, rs, ctx)
  {
    if rs == [] {
      assert MarkAll(rs, issuer, h) == rs;
    } else {
      var front := rs[..|rs| - 1];
      assert MarkAll(rs, issuer, h)[..|rs| - 1] == MarkAll(front, issuer, h);
      MarkingRemovesPoints(st, id, id', subject, front, issuer, h, ctx);
      ActiveTotalSnoc(st, id, subject, rs, ctx);
      ActiveTotalSnoc(st, id', subject, MarkAll(rs, issuer, h), ctx);
    }
  }

  /** A local revocation never raises the score computed next. */
  lemma RevokingNeverHelps(c: Credit, id: Identity, ctx: Context, issuer: Address, subject: Address, h: Hash)
    requires CheckMark(id, ctx, issuer, subject, h) == Ok
    ensures ScoreResult(c, AfterMark(id, ctx, issuer, subject, h), ctx, subject)
         <= ScoreResult(c, id, ctx, subject)
  {
    var id' := AfterMark(id, ctx, issuer, subject, h);
    assert id'.Records(subject) == MarkAll(id.Records(subject), issuer, h);
    MarkingRemovesPoints(c.settings, id, id', subject, id.Records(subject), issuer, h, ctx);
    MorePointsNeverHurt(c, id', id, ctx, ctx, subject);
  }

  /** With everything else fixed, the passing of time never raises the score. */
  lemma TimeNeverHelps(c: Credit, id: Identity, ctx: Context, later: Context, subject: Address)
    requires later.R == ctx.R && ctx.timestamp <= later.timestamp
    ensures ScoreResult(c, id, later, subject) <= ScoreResult(c, id, ctx, subject)
  {
    var active := ActiveRecords(id.Records(subject), ctx.R);
    TotalFadesWithAge(CredentialsOf(c.settings, id, subject, active), ctx.timestamp, later.timestamp, c.settings.decay);
    MorePointsNeverHurt(c, id, id, later, ctx, subject);
  }
}
