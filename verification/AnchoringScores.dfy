/** What anchoring a credential does to the score. A new record only adds points, but a
    known hash anchored under another issuer also replaces the type of the records that
    carry it, and so may take points away. */
module AnchoringScores {
  import opened Host
  import opened CreditOracleTypes
  import opened CredentialPoints
  import opened IdentitySpec
  import opened IdentityInvariants
  import opened CreditSpec
  import opened Scoring
  import opened ScoringRuns
  import Queue = WeightQueue

  // ---- when the score cannot fall ----------------------------------------------------------

  /** The call changes nothing, or no active record carries the hash, or its type stays. */
  predicate KeepsTypes(id: Identity, ctx: Context, issuer: Address, subject: Address, h: Hash, kind: Symbol) {
    || HasRecord(id.Records(subject), issuer, h)
    || !VerifiesVc(id.Records(subject), h, ctx.R)
    || kind == id.TypeOf(subject, h)
  }

  /** The loop reads the same of a list whose types are the same. */
  lemma SameTypesSameCredentials(st: Settings, id: Identity, id': Identity, subject: Address, rs: seq<VcRecord>)
    requires forall r :: r in rs ==> id'.TypeOf(subject, r.hash) == id.TypeOf(subject, r.hash)
    ensures CredentialsOf(st, id', subject, rs) == CredentialsOf(st, id, subject, rs)
  {
    forall i | 0 <= i < |rs|
      ensures id'.TypeOf(subject, rs[i].hash) == id.TypeOf(subject, rs[i].hash)
    {
      assert rs[i] in rs;
    }
  }

  lemma ActiveTypesStay(id: Identity, ctx: Context, issuer: Address, subject: Address, h: Hash, kind: Symbol)
    requires CheckAnchor(id, ctx, issuer, subject, h) == Ok && KeepsTypes(id, ctx, issuer, subject, h, kind)
    ensures var id' := AfterAnchor(id, ctx, issuer, subject, h, kind);
            forall r :: r in ActiveRecords(id.Records(subject), ctx.R) ==>
              id'.TypeOf(subject, r.hash) == id.TypeOf(subject, r.hash)
  {
    var id', rs := AfterAnchor(id, ctx, issuer, subject, h, kind), id.Records(subject);
    ActiveRecordsAreActive(rs, ctx.R);
    forall r | r in ActiveRecords(rs, ctx.R)
      ensures id'.TypeOf(subject, r.hash) == id.TypeOf(subject, r.hash)
    {
      var k :| 0 <= k < |rs| && rs[k] == r;
      assert r.hash == h ==> VerifiesVc(rs, h, ctx.R);
    }
  }

  /** A new record only adds to the points of the old ones. */
  lemma AnchoringAddsPoints(c: Credit, id: Identity, ctx: Context, issuer: Address, subject: Address,
                            h: Hash, kind: Symbol)
    requires CheckAnchor(id, ctx, issuer, subject, h) == Ok && KeepsTypes(id, ctx, issuer, subject, h, kind)
    ensures var id' := AfterAnchor(id, ctx, issuer, subject, h, kind);
            ActiveTotal(c.settings, id, subject, id.Records(subject), ctx)
            <= ActiveTotal(c.settings, id', subject, id'.Records(subject), ctx)
  {
    var id', rs := AfterAnchor(id, ctx, issuer, subject, h, kind), id.Records(subject);
    ActiveTypesStay(id, ctx, issuer, subject, h, kind);
    SameTypesSameCredentials(c.settings, id, id', subject, ActiveRecords(rs, ctx.R));
    assert ActiveTotal(c.settings, id', subject, rs, ctx) == ActiveTotal(c.settings, id, subject, rs, ctx);
    if !HasRecord(rs, issuer, h) {
      var more := rs + [IdentitySpec.NewRecord(ctx, issuer, h)];
      assert id'.Records(subject) == more && more[..|rs|] == rs;
      ActiveTotalSnoc(c.settings, id', subject, more, ctx);
    }
  }

  /** Anchoring never lowers the score computed next, under any configuration of the credit
      oracle, for a deactivated subject or when no active credential changes its type. */
  lemma AnchoringNeverHurts(c: Credit, id: Identity, ctx: Context, issuer: Address, subject: Address,
                            h: Hash, kind: Symbol)
    requires CheckAnchor(id, ctx, issuer, subject, h) == Ok
    requires subject in id.deactivated || KeepsTypes(id, ctx, issuer, subject, h, kind)
    ensures ScoreResult(c, id, ctx, subject)
         <= ScoreResult(c, AfterAnchor(id, ctx, issuer, subject, h, kind), ctx, subject)
  {
    var id' := AfterAnchor(id, ctx, issuer, subject, h, kind);
    assert Suppressed(c, id', subject) == Suppressed(c, id, subject);
    if !Suppressed(c, id, subject) {
      if c.linked { AnchoringAddsPoints(c, id, ctx, issuer, subject, h, kind); }
      MorePointsNeverHurt(c, id, id', ctx, ctx, subject);
    }
  }

  // ---- when it can ------------------------------------------------------------------------------

  /** Weights that tell the old type from all others: every record counts one or nothing,
      and those carrying h count one before the call and nothing after it. */
  predicate TellsApart(st: Settings, id: Identity, id': Identity, subject: Address, rs: seq<VcRecord>, h: Hash) {
    && !st.decay.enabled
    && (forall k :: 0 <= k < |rs| ==>
          var before := st.WeightOf(id.TypeOf(subject, rs[k].hash));
          var after := st.WeightOf(id'.TypeOf(subject, rs[k].hash));
          && (before == 5 || before == 0)
          && (if rs[k].hash == h then before == 5 && after == 0 else after == before))
  }

  lemma UndecayedPoints(st: Settings, kind: Symbol, anchoredAt: u64, now: u64)
    requires !st.decay.enabled
    ensures st.WeightOf(kind) == 5 ==> ExactPoints(Credential(st.WeightOf(kind), anchoredAt), now, st.decay) == 1
    ensures st.WeightOf(kind) == 0 ==> ExactPoints(Credential(st.WeightOf(kind), anchoredAt), now, st.decay) == 0
  {
  }

  lemma {:induction false} RetypingTakesPoints(st: Settings, id: Identity, id': Identity, subject: Address,
                                               rs: seq<VcRecord>, h: Hash, ctx: Context)
    requires TellsApart(st, id, id', subject, rs, h)
    ensures ActiveTotal(st, id', subject, rs, ctx) <= ActiveTotal(st, id, subject, rs, ctx) <= CountActive(rs, ctx.R)
    ensures VerifiesVc(rs, h, ctx.R) ==>
              ActiveTotal(st, id', subject, rs, ctx) < ActiveTotal(st, id, subject, rs, ctx)
  {
    if rs == [] {
    } else {
      var x, front := rs[|rs| - 1], rs[..|rs| - 1];
      RetypingTakesPoints(st, id, id', subject, front, h, ctx);
      ActiveTotalSnoc(st, id, subject, rs, ctx);
      ActiveTotalSnoc(st, id', subject, rs, ctx);
      UndecayedPoints(st, id.TypeOf(subject, x.hash), x.anchoredAt, ctx.timestamp);
      UndecayedPoints(st, id'.TypeOf(subject, x.hash), x.anchoredAt, ctx.timestamp);
      if VerifiesVc(rs, h, ctx.R) && !(x.hash == h && !IsRevoked(x, ctx.R)) {
        var k :| 0 <= k < |rs| && rs[k].hash == h && !IsRevoked(rs[k], ctx.R);
        assert front[k].hash == h;
      }
    }
  }

  function KindsOf(id: Identity, subject: Address, rs: seq<VcRecord>): set<Symbol> {
    set r | r in rs :: id.TypeOf(subject, r.hash)
  }

  function Telling(kinds: set<Symbol>, old_: Symbol): map<Symbol, u32> {
    map k | k in kinds :: if k == old_ then 5 else 0
  }

  /** The weights that do so for one call. */
  function TellingWeights(id: Identity, subject: Address, rs: seq<VcRecord>, h: Hash, kind: Symbol): map<Symbol, u32> {
    Telling(KindsOf(id, subject, rs) + {kind}, id.TypeOf(subject, h))
  }

  /** The points before the call under those weights. */
  function TellingPoints(id: Identity, ctx: Context, subject: Address, h: Hash, kind: Symbol): nat {
    var rs := id.Records(subject);
    ActiveTotal(DEFAULT_SETTINGS.(typeWeights := TellingWeights(id, subject, rs, h, kind)), id, subject, rs, ctx)
  }

  /** An ordinary configuration with those weights, and a transaction volume that makes the
      weighted sum before the call a whole number of points. */
  function TellingConfiguration(id: Identity, ctx: Context, subject: Address, h: Hash, kind: Symbol): Credit {
    var volume := Padding(8 * TellingPoints(id, ctx, subject, h, kind)) * STROOPS;
    DeployedCredit(id.admin, true).(
      control := Queue.Deployed(id.admin).(active := ScoringWeights(80, 10, 10)),
      settings := DEFAULT_SETTINGS.(
        typeWeights := TellingWeights(id, subject, id.Records(subject), h, kind),
        txStats := map[subject := TxStats(volume, 0, 0)]))
  }

  /** Whatever points are lost below the cap cost score points there. */
  lemma LostPointsShow(fewer: u32, points: u32)
    requires fewer < points <= 100
    ensures var volume, w := Padding(8 * points) * STROOPS, ScoringWeights(80, 10, 10);
            ComputeScorePure(Inputs(fewer, volume, 0, 0, 0, 0), w)
            < ComputeScorePure(Inputs(points, volume, 0, 0, 0, 0), w)
  {
    var pad, w := Padding(8 * points), ScoringWeights(80, 10, 10);
    var i, j := Inputs(fewer, pad * STROOPS, 0, 0, 0, 0), Inputs(points, pad * STROOPS, 0, 0, 0, 0);
    assert TruncDiv(pad * STROOPS, STROOPS) == pad;
    assert TxScore(i) == pad && TxScore(j) == pad && RepayScore(i) == 0 && RepayScore(j) == 0;
    assert WeightedSum(i, w) == 80 * fewer + 10 * pad && WeightedSum(j, w) == 10 * (8 * points + pad);
    PaddedSum(pad, 8 * points, 0);
    LosesAPoint(WeightedSum(i, w), WeightedSum(j, w));
  }

  lemma TellingWeightsTellApart(st: Settings, id: Identity, ctx: Context, issuer: Address, subject: Address,
                                h: Hash, kind: Symbol)
    requires CheckAnchor(id, ctx, issuer, subject, h) == Ok && !KeepsTypes(id, ctx, issuer, subject, h, kind)
    requires !st.decay.enabled && st.typeWeights == TellingWeights(id, subject, id.Records(subject), h, kind)
    ensures TellsApart(st, id, AfterAnchor(id, ctx, issuer, subject, h, kind), subject, id.Records(subject), h)
    ensures st.WeightOf(kind) == 0
  {
    var rs, id' := id.Records(subject), AfterAnchor(id, ctx, issuer, subject, h, kind);
    forall k | 0 <= k < |rs|
      ensures id.TypeOf(subject, rs[k].hash) in st.typeWeights
      ensures id'.TypeOf(subject, rs[k].hash) == if rs[k].hash == h then kind else id.TypeOf(subject, rs[k].hash)
    {
      assert rs[k] in rs && id.TypeOf(subject, rs[k].hash) in KindsOf(id, subject, rs);
    }
    var k :| 0 <= k < |rs| && rs[k].hash == h;
    assert kind in st.typeWeights;
  }

  /** The active points before and after such a call, under those weights. */
  lemma PointsAreLost(st: Settings, id: Identity, ctx: Context, issuer: Address, subject: Address,
                      h: Hash, kind: Symbol)
    requires CheckAnchor(id, ctx, issuer, subject, h) == Ok && !KeepsTypes(id, ctx, issuer, subject, h, kind)
    requires !st.decay.enabled && st.typeWeights == TellingWeights(id, subject, id.Records(subject), h, kind)
    ensures var id' := AfterAnchor(id, ctx, issuer, subject, h, kind);
            ActiveTotal(st, id', subject, id'.Records(subject), ctx)
            < ActiveTotal(st, id, subject, id.Records(subject), ctx) < 100
  {
    var rs, id' := id.Records(subject), AfterAnchor(id, ctx, issuer, subject, h, kind);
    TellingWeightsTellApart(st, id, ctx, issuer, subject, h, kind);
    RetypingTakesPoints(st, id, id', subject, rs, h, ctx);
    var more := rs + [IdentitySpec.NewRecord(ctx, issuer, h)];
    assert id'.Records(subject) == more && more[..|rs|] == rs;
    ActiveTotalSnoc(st, id', subject, more, ctx);
    UndecayedPoints(st, kind, ctx.timestamp, ctx.timestamp);
  }

  lemma SameWeightsSameTotal(st: Settings, st': Settings, id: Identity, subject: Address, rs: seq<VcRecord>,
                             ctx: Context)
    requires st'.typeWeights == st.typeWeights && st'.decay == st.decay
    ensures ActiveTotal(st', id, subject, rs, ctx) == ActiveTotal(st, id, subject, rs, ctx)
  {
    var active := ActiveRecords(rs, ctx.R);
    assert CredentialsOf(st', id, subject, active) == CredentialsOf(st, id, subject, active);
  }

  /** A configuration the credit oracle can be in. */
  ghost predicate Sensible(c: Credit) {
    Queue.ControlInv(c.control) && c.settings.Valid() && RepaymentsInv(c)
  }

  ghost predicate NeverLowers(id: Identity, ctx: Context, issuer: Address, subject: Address, h: Hash, kind: Symbol)
    requires CheckAnchor(id, ctx, issuer, subject, h) == Ok
  {
    forall c: Credit {:trigger ScoreResult(c, id, ctx, subject)} :: Sensible(c) ==>
      ScoreResult(c, id, ctx, subject)
      <= ScoreResult(c, AfterAnchor(id, ctx, issuer, subject, h, kind), ctx, subject)
  }

  lemma ScoreWithoutRepayments(c: Credit, id: Identity, ctx: Context, subject: Address)
    requires c.linked && subject !in id.deactivated && subject !in c.repayments
    ensures var tx := GetOr(c.settings.txStats, subject, NO_STATS);
            var points := Min(ActiveTotal(c.settings, id, subject, id.Records(subject), ctx), VC_CAP);
            ScoreResult(c, id, ctx, subject)
            == ComputeScorePure(Inputs(points, tx.volume, tx.counterparties, 0, 0, 0), c.control.active)
  {
  }

  lemma TellingTotals(id: Identity, ctx: Context, issuer: Address, subject: Address, h: Hash, kind: Symbol)
    requires CheckAnchor(id, ctx, issuer, subject, h) == Ok && !KeepsTypes(id, ctx, issuer, subject, h, kind)
    ensures var c := TellingConfiguration(id, ctx, subject, h, kind);
            var id' := AfterAnchor(id, ctx, issuer, subject, h, kind);
            var points := TellingPoints(id, ctx, subject, h, kind);
            && ActiveTotal(c.settings, id, subject, id.Records(subject), ctx) == points
            && ActiveTotal(c.settings, id', subject, id'.Records(subject), ctx) < points < 100
  {
    var c, rs := TellingConfiguration(id, ctx, subject, h, kind), id.Records(subject);
    var st := DEFAULT_SETTINGS.(typeWeights := TellingWeights(id, subject, rs, h, kind));
    SameWeightsSameTotal(st, c.settings, id, subject, rs, ctx);
    PointsAreLost(c.settings, id, ctx, issuer, subject, h, kind);
  }

  /** A configuration under which the call lowers the score. */
  lemma RetypingCanHurt(id: Identity, ctx: Context, issuer: Address, subject: Address, h: Hash, kind: Symbol)
    requires CheckAnchor(id, ctx, issuer, subject, h) == Ok
    requires subject !in id.deactivated && !KeepsTypes(id, ctx, issuer, subject, h, kind)
    ensures var c := TellingConfiguration(id, ctx, subject, h, kind);
            && Sensible(c)
            && ScoreResult(c, AfterAnchor(id, ctx, issuer, subject, h, kind), ctx, subject)
             < ScoreResult(c, id, ctx, subject)
  {
    var c, id' := TellingConfiguration(id, ctx, subject, h, kind), AfterAnchor(id, ctx, issuer, subject, h, kind);
    TellingTotals(id, ctx, issuer, subject, h, kind);
    ScoreWithoutRepayments(c, id, ctx, subject);
    ScoreWithoutRepayments(c, id', ctx, subject);
    LostPointsShow(ActiveTotal(c.settings, id', subject, id'.Records(subject), ctx),
                   TellingPoints(id, ctx, subject, h, kind));
  }

  /** Exactly when anchoring is safe for the score whatever the credit oracle's
      configuration: the subject is deactivated, or the pair is already there, or no active
      record carries the hash, or the hash keeps its type. */
  lemma AnchoringNeverHurtsIff(id: Identity, ctx: Context, issuer: Address, subject: Address, h: Hash, kind: Symbol)
    requires CheckAnchor(id, ctx, issuer, subject, h) == Ok
    ensures NeverLowers(id, ctx, issuer, subject, h, kind)
            <==> subject in id.deactivated || KeepsTypes(id, ctx, issuer, subject, h, kind)
  {
    if subject in id.deactivated || KeepsTypes(id, ctx, issuer, subject, h, kind) {
      forall c: Credit | Sensible(c)
        ensures ScoreResult(c, id, ctx, subject)
             <= ScoreResult(c, AfterAnchor(id, ctx, issuer, subject, h, kind), ctx, subject)
      {
        AnchoringNeverHurts(c, id, ctx, issuer, subject, h, kind);
      }
    } else {
      RetypingCanHurt(id, ctx, issuer, subject, h, kind);
    }
  }

  // ---- a run in which it does ---------------------------------------------------------------------

  const ADMIN := Account(1)
  const REGISTRAR := Account(2)
  const CLERK := Account(3)
  const SUBJECT := Account(4)
  const H: Hash := 7
  const CTX := Context(1, 0, {ADMIN, REGISTRAR, CLERK}, {})

  function TwoIssuers(): seq<Entry> {
    [Entry(CTX, SetIssuer(REGISTRAR, true))] + [Entry(CTX, SetIssuer(CLERK, true))]
  }

  function KycAnchored(): seq<Entry> { TwoIssuers() + [Entry(CTX, AnchorVc(REGISTRAR, SUBJECT, H, "kyc"))] }

  /** Type "memo" is worth nothing, every other type its full points. */
  const MEMOS_ARE_WORTHLESS :=
    DeployedCredit(ADMIN, true).(settings := DEFAULT_SETTINGS.(typeWeights := map["memo" := 0]))

  lemma RunSnoc(s: Identity, es: seq<Entry>, e: Entry)
    ensures Run(s, es + [e]) == Step(Run(s, es), e.context, e.call)
  {
    assert (es + [e])[..|es|] == es;
  }

  lemma AfterKyc()
    ensures var s := Run(Deployed(ADMIN), KycAnchored());
            && s.Records(SUBJECT) == [VcRecord(H, REGISTRAR, 0, false)]
            && s.TypeOf(SUBJECT, H) == "kyc" && SUBJECT !in s.deactivated
            && CheckAnchor(s, CTX, CLERK, SUBJECT, H) == Ok
  {
    var s0 := Deployed(ADMIN);
    var trust, clerk := Entry(CTX, SetIssuer(REGISTRAR, true)), Entry(CTX, SetIssuer(CLERK, true));
    RunSnoc(s0, [], trust);
    assert [] + [trust] == [trust];
    RunSnoc(s0, [trust], clerk);
    var s2 := Run(s0, TwoIssuers());
    assert s2 == s0.(trusted := map[REGISTRAR := true, CLERK := true]);
    RunSnoc(s0, TwoIssuers(), Entry(CTX, AnchorVc(REGISTRAR, SUBJECT, H, "kyc")));
    assert s2.Records(SUBJECT) == [] && !HasRecord([], REGISTRAR, H);
    var record := VcRecord(H, REGISTRAR, 0, false);
    CountsAfterPush([], record, {});
    assert CheckAnchor(s2, CTX, REGISTRAR, SUBJECT, H) == Ok;
    assert [] + [record] == [record];
  }

  lemma AfterMemo()
    ensures var s := Run(Deployed(ADMIN), KycAnchored());
            && CheckAnchor(s, CTX, CLERK, SUBJECT, H) == Ok
            && var s' := AfterAnchor(s, CTX, CLERK, SUBJECT, H, "memo");
            && s'.Records(SUBJECT) == [VcRecord(H, REGISTRAR, 0, false)] + [VcRecord(H, CLERK, 0, false)]
            && s'.TypeOf(SUBJECT, H) == "memo" && SUBJECT !in s'.deactivated
  {
    AfterKyc();
  }

  /** A second issuer anchors the same hash as a memo, and the subject drops to the minimum. */
  lemma AnchoringCanHurt()
    ensures var s := Run(Deployed(ADMIN), KycAnchored());
            && CheckAnchor(s, CTX, CLERK, SUBJECT, H) == Ok
            && ScoreResult(MEMOS_ARE_WORTHLESS, s, CTX, SUBJECT) == 344
            && ScoreResult(MEMOS_ARE_WORTHLESS, AfterAnchor(s, CTX, CLERK, SUBJECT, H, "memo"), CTX, SUBJECT) == 300
  {
    AfterKyc();
    AfterMemo();
    var s := Run(Deployed(ADMIN), KycAnchored());
    MemoCostsTwentyPoints(s, AfterAnchor(s, CTX, CLERK, SUBJECT, H, "memo"));
  }

  lemma MemoCostsTwentyPoints(s: Identity, s': Identity)
    requires s.Records(SUBJECT) == [VcRecord(H, REGISTRAR, 0, false)] && s.TypeOf(SUBJECT, H) == "kyc"
    requires s'.Records(SUBJECT) == [VcRecord(H, REGISTRAR, 0, false)] + [VcRecord(H, CLERK, 0, false)]
    requires s'.TypeOf(SUBJECT, H) == "memo"
    requires SUBJECT !in s.deactivated && SUBJECT !in s'.deactivated
    ensures ScoreResult(MEMOS_ARE_WORTHLESS, s, CTX, SUBJECT) == 344
    ensures ScoreResult(MEMOS_ARE_WORTHLESS, s', CTX, SUBJECT) == 300
  {
    hide ScoreResult, ActiveTotal;
    TotalsOfTwo(MEMOS_ARE_WORTHLESS.settings, s, s', VcRecord(H, REGISTRAR, 0, false), VcRecord(H, CLERK, 0, false));
    MemoScore(s, 20);
    MemoScore(s', 0);
  }

  lemma MemoScore(s: Identity, points: nat)
    requires SUBJECT !in s.deactivated && points <= 100
    requires ActiveTotal(MEMOS_ARE_WORTHLESS.settings, s, SUBJECT, s.Records(SUBJECT), CTX) == points
    ensures ScoreResult(MEMOS_ARE_WORTHLESS, s, CTX, SUBJECT) == 300 + points * 40 / 100 * 550 / 100
  {
    ScoreWithoutRepayments(MEMOS_ARE_WORTHLESS, s, CTX, SUBJECT);
    ScoreOfPointsAlone(points);
  }

  lemma ScoreOfPointsAlone(points: u32)
    requires points <= 100
    ensures ComputeScorePure(Inputs(points, 0, 0, 0, 0, 0), DEFAULT_WEIGHTS) == 300 + points * 40 / 100 * 550 / 100
  {
    var i := Inputs(points, 0, 0, 0, 0, 0);
    ClampNeverBinds(i, DEFAULT_WEIGHTS);
  }

  lemma TotalsOfTwo(st: Settings, s: Identity, s': Identity, first: VcRecord, second: VcRecord)
    requires st == MEMOS_ARE_WORTHLESS.settings
    requires first.hash == H && second.hash == H && !first.revoked && !second.revoked
    requires s.TypeOf(SUBJECT, H) == "kyc" && s'.TypeOf(SUBJECT, H) == "memo"
    ensures ActiveTotal(st, s, SUBJECT, [first], CTX) == 20
    ensures ActiveTotal(st, s', SUBJECT, [first] + [second], CTX) == 0
  {
    ActiveTotalSnoc(st, s, SUBJECT, [first], CTX);
    ActiveTotalSnoc(st, s', SUBJECT, [first] + [second], CTX);
    ActiveTotalSnoc(st, s', SUBJECT, [first], CTX);
    assert ([first] + [second])[..1] == [first] && [first][..0] == [];
  }
}
