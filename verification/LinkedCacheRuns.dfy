/** Runs the two linked contracts accept and that leave a cached count wrong, one for each
    way of not being harmless, and one after which a credential cannot be marked. */
module LinkedCacheRuns {
  import opened Host
  import opened CreditOracleTypes
  import opened IdentitySpec
  import opened IdentityInvariants
  import opened LinkedCaches
  import Link = LinkedRegistry
  import Reg = RegistrySpec

  const ADMIN := Account(1)
  const ISSUER := Account(2)
  const SUBJECT := Account(3)
  const OTHER := Account(4)
  const G: Hash := 6
  const H: Hash := 7

  const TRUST := Link.WorldEntry(1, 0, {ADMIN}, Link.OnIdentity(SetIssuer(ISSUER, true)))
  const MARK := Link.WorldEntry(2, 0, {ISSUER}, Link.OnIdentity(MarkRevoked(ISSUER, SUBJECT, H)))
  const REVOKE := Link.WorldEntry(2, 0, {ISSUER}, Link.Revoke(ISSUER, SUBJECT, H))
  const BATCH := Link.WorldEntry(2, 0, {ISSUER}, Link.BatchRevoke(ISSUER, [H]))

  function Anchor(t: Address, h: Hash): Link.WorldEntry {
    Link.WorldEntry(1, 0, {ISSUER}, Link.OnIdentity(AnchorVc(ISSUER, t, h, GENERIC)))
  }

  function Record(h: Hash): VcRecord { VcRecord(h, ISSUER, 0, false) }

  lemma RunSnoc(w: World, es: seq<Link.WorldEntry>, e: Link.WorldEntry)
    ensures Link.Run(w, es + [e]) == Link.Step(Link.Run(w, es), e)
  {
    assert (es + [e])[..|es|] == es;
  }

  /** What the runs below need to know of a state reached by at most n calls. */
  ghost predicate Ready(w: World, n: nat) {
    && !w.identity.paused && !w.registry.paused
    && GetOr(w.identity.trusted, ISSUER, false)
    && w.identity.stats.anchored <= n <= 10 && w.identity.stats.revoked <= n
    && w.registry.batchLimit == 100
    && (forall h :: h in w.registry.registered ==> w.registry.registered[h] == ISSUER)
  }

  function CacheOf(w: World, t: Address): Option<nat> {
    if t in w.identity.activeCount then Some(w.identity.activeCount[t]) else None
  }

  /** One subject's records and cache. */
  predicate Holds(w: World, t: Address, rs: seq<VcRecord>, cache: Option<nat>) {
    w.identity.Records(t) == rs && CacheOf(w, t) == cache
  }

  ghost predicate OthersSame(w: World, w': World, t: Address) {
    forall u :: u != t ==> Holds(w', u, w.identity.Records(u), CacheOf(w, u))
  }

  lemma Begin()
    ensures var w := Link.Run(Link.Linked(ADMIN), [TRUST]);
            Ready(w, 1) && Link.R(w) == {} && forall t :: Holds(w, t, [], None)
  {
    RunSnoc(Link.Linked(ADMIN), [], TRUST);
    assert [] + [TRUST] == [TRUST];
    assert Link.Run(Link.Linked(ADMIN), [TRUST]) == Link.Step(Link.Linked(ADMIN), TRUST);
  }

  function Plus(cache: Option<nat>, h: Hash, revoked: set<Hash>): nat {
    (if cache.Some? then cache.value else 0) + (if h in revoked then 0 else 1)
  }

  lemma AnchorAccepted(w: World, n: nat, t: Address, h: Hash, rs: seq<VcRecord>, cache: Option<nat>, c: Context)
    requires Ready(w, n) && n < 10 && Holds(w, t, rs, cache)
    requires forall k :: 0 <= k < |rs| ==> rs[k].hash != h
    requires |rs| <= n
    requires if cache.Some? then cache.value <= n else rs == []
    requires ISSUER in c.auth && c.timestamp == 0
    ensures CheckAnchor(w.identity, c, ISSUER, t, h) == Ok && !HasRecord(rs, ISSUER, h)
    ensures NewRecord(c, ISSUER, h) == Record(h)
    ensures CacheAfterAnchor(w.identity, c, ISSUER, t, h) == Plus(cache, h, c.R)
  {
    CountBound(rs, c.R);
    CountsAfterPush(rs, Record(h), c.R);
  }

  /** Anchoring a new hash: counted unless it is already reported. */
  lemma AnchorStep(w: World, n: nat, t: Address, h: Hash, rs: seq<VcRecord>, cache: Option<nat>)
    requires Ready(w, n) && n < 10 && Holds(w, t, rs, cache)
    requires forall k :: 0 <= k < |rs| ==> rs[k].hash != h
    requires |rs| <= n
    requires if cache.Some? then cache.value <= n else rs == []
    ensures var w' := Link.Step(w, Anchor(t, h));
            && Ready(w', n + 1) && w'.registry == w.registry
            && Holds(w', t, rs + [Record(h)], Some(Plus(cache, h, Link.R(w))))
            && OthersSame(w, w', t)
  {
    var c := Link.ContextOf(Anchor(t, h), Link.R(w));
    AnchorAccepted(w, n, t, h, rs, cache, c);
    assert Link.Step(w, Anchor(t, h)) == w.(identity := AfterAnchor(w.identity, c, ISSUER, t, h, GENERIC));
  }

  lemma {:induction false} CountBound(rs: seq<VcRecord>, revoked: set<Hash>)
    ensures CountActive(rs, revoked) <= |rs|
  {
    if rs != [] { CountBound(rs[..|rs| - 1], revoked); }
  }

  lemma BatchStep(w: World, n: nat)
    requires Ready(w, n)
    ensures var w' := Link.Step(w, BATCH);
            Ready(w', n) && w'.identity == w.identity && Link.R(w') == Link.R(w) + {H}
  {
    assert !Reg.AnyForeign(w.registry, ISSUER, [H]);
    assert Reg.CheckBatch(w.registry, {ISSUER}, ISSUER, [H]) == Ok;
    Link.BatchReports(w.registry, ISSUER, [H]);
    assert (set h | h in [H]) == {H};
  }

  // ---- a batch that names an active credential ---------------------------------------------

  function UnnoticedBatch(): seq<Link.WorldEntry> { [TRUST] + [Anchor(SUBJECT, H)] + [BATCH] }

  /** The cache keeps counting a credential that the registry reports revoked. */
  lemma BatchCanOutdateCache()
    ensures var w := Link.Run(Link.Linked(ADMIN), UnnoticedBatch());
            CacheOf(w, SUBJECT) == Some(1) && CountActive(w.identity.Records(SUBJECT), Link.R(w)) == 0
  {
    var w0 := Link.Linked(ADMIN);
    Begin();
    RunSnoc(w0, [TRUST], Anchor(SUBJECT, H));
    AnchorStep(Link.Run(w0, [TRUST]), 1, SUBJECT, H, [], None);
    RunSnoc(w0, [TRUST] + [Anchor(SUBJECT, H)], BATCH);
    BatchStep(Link.Run(w0, [TRUST] + [Anchor(SUBJECT, H)]), 2);
    CountsAfterPush([], Record(H), {H});
  }

  // ---- a batch that names nobody's credential, anchored and marked later ---------------------

  function EarlyBatch(): seq<Link.WorldEntry> { [TRUST] + [Anchor(SUBJECT, G)] + [BATCH] }

  function LateAnchor(): seq<Link.WorldEntry> { EarlyBatch() + [Anchor(SUBJECT, H)] + [MARK] }

  lemma AfterEarlyBatch()
    ensures var w := Link.Run(Link.Linked(ADMIN), EarlyBatch());
            && Ready(w, 2) && Link.R(w) == {H}
            && Holds(w, SUBJECT, [Record(G)], Some(1))
            && (forall t :: t != SUBJECT ==> Holds(w, t, [], None))
  {
    var w0 := Link.Linked(ADMIN);
    Begin();
    RunSnoc(w0, [TRUST], Anchor(SUBJECT, G));
    AnchorStep(Link.Run(w0, [TRUST]), 1, SUBJECT, G, [], None);
    RunSnoc(w0, [TRUST] + [Anchor(SUBJECT, G)], BATCH);
    BatchStep(Link.Run(w0, [TRUST] + [Anchor(SUBJECT, G)]), 2);
  }

  /** Right after the batch, and after the late anchoring, every cache is still right. */
  lemma EarlyBatchIsHarmless()
    ensures var w := Link.Run(Link.Linked(ADMIN), EarlyBatch());
            CachesAgree(w.identity, Link.R(w))
    ensures var w := Link.Run(Link.Linked(ADMIN), EarlyBatch() + [Anchor(SUBJECT, H)]);
            && Ready(w, 3) && Link.R(w) == {H}
            && Holds(w, SUBJECT, [Record(G)] + [Record(H)], Some(1))
            && CachesAgree(w.identity, Link.R(w))
  {
    AfterEarlyBatch();
    var w := Link.Run(Link.Linked(ADMIN), EarlyBatch());
    RunSnoc(Link.Linked(ADMIN), EarlyBatch(), Anchor(SUBJECT, H));
    AnchorStep(w, 2, SUBJECT, H, [Record(G)], Some(1));
    CountsAfterPush([], Record(G), {H});
    CountsAfterPush([Record(G)], Record(H), {H});
    assert [] + [Record(G)] == [Record(G)];
    forall t ensures SubjectAgrees(w.identity, t, {H}) {
      assert t != SUBJECT ==> Holds(w, t, [], None);
    }
    var w' := Link.Step(w, Anchor(SUBJECT, H));
    forall t ensures SubjectAgrees(w'.identity, t, {H}) {
      assert t != SUBJECT ==> Holds(w, t, [], None) && Holds(w', t, [], None);
    }
  }

  lemma MarkStep(w: World)
    requires Ready(w, 3) && Link.R(w) == {H}
    requires Holds(w, SUBJECT, [Record(G)] + [Record(H)], Some(1))
    ensures var w' := Link.Step(w, MARK);
            && Link.R(w') == {H}
            && Holds(w', SUBJECT, [Record(G)] + [Record(H).(revoked := true)], Some(0))
  {
    var c, rs := Link.ContextOf(MARK, {H}), [Record(G)] + [Record(H)];
    assert Matches(rs[1], ISSUER, H) && !rs[1].revoked;
    assert CheckMark(w.identity, c, ISSUER, SUBJECT, H) == Ok;
    assert MarkAll(rs, ISSUER, H) == [Record(G)] + [Record(H).(revoked := true)];
    assert Link.Step(w, MARK) == w.(identity := AfterMark(w.identity, c, ISSUER, SUBJECT, H));
  }

  lemma HashesAreAnchoredOnce()
    ensures Link.AnchoredOnce(LateAnchor())
  {
    var es := LateAnchor();
    assert es == [TRUST, Anchor(SUBJECT, G), BATCH, Anchor(SUBJECT, H), MARK];
    forall i | 0 <= i < |es| && es[i].call.OnIdentity? && es[i].call.call.AnchorVc?
      ensures es[i].call.call.issuer == ISSUER && es[i].call.call.subject == SUBJECT
    {
    }
  }

  lemma OneIsActive()
    ensures CountActive([Record(G)] + [Record(H).(revoked := true)], {H}) == 1
  {
    CountsAfterPush([], Record(G), {H});
    CountsAfterPush([Record(G)], Record(H).(revoked := true), {H});
    assert [] + [Record(G)] == [Record(G)];
  }

  /** The mark then takes away a credential that was never counted: the cache says none is
      active while one is, although every hash was anchored once. */
  lemma MarkCanOutdateCache()
    ensures var w := Link.Run(Link.Linked(ADMIN), LateAnchor());
            CacheOf(w, SUBJECT) == Some(0) && CountActive(w.identity.Records(SUBJECT), Link.R(w)) == 1
    ensures Link.AnchoredOnce(LateAnchor())
  {
    HashesAreAnchoredOnce();
    EarlyBatchIsHarmless();
    RunSnoc(Link.Linked(ADMIN), EarlyBatch() + [Anchor(SUBJECT, H)], MARK);
    MarkStep(Link.Run(Link.Linked(ADMIN), EarlyBatch() + [Anchor(SUBJECT, H)]));
    OneIsActive();
  }

  // ---- a credential that cannot be marked -----------------------------------------------------

  function BatchFirst(): seq<Link.WorldEntry> { [TRUST] + [BATCH] + [Anchor(SUBJECT, H)] }

  lemma AfterBatchFirst()
    ensures var w := Link.Run(Link.Linked(ADMIN), BatchFirst());
            && Ready(w, 2) && Link.R(w) == {H} && Holds(w, SUBJECT, [Record(H)], Some(0))
  {
    var w0 := Link.Linked(ADMIN);
    Begin();
    RunSnoc(w0, [TRUST], BATCH);
    BatchStep(Link.Run(w0, [TRUST]), 1);
    RunSnoc(w0, [TRUST] + [BATCH], Anchor(SUBJECT, H));
    AnchorStep(Link.Run(w0, [TRUST] + [BATCH]), 1, SUBJECT, H, [], None);
    assert [] + [Record(H)] == [Record(H)];
  }

  /** When the reported credential is the subject's only one, the decrement underflows:
      in this state neither `mark_vc_revoked` nor `revoke` goes through, at any ledger. */
  lemma ReportedCredentialCannotBeMarked(ledger: u32, timestamp: u64, auth: set<Address>)
    requires ISSUER in auth
    ensures var w := Link.Run(Link.Linked(ADMIN), BatchFirst());
            && HasUnrevokedRecord(w.identity.Records(SUBJECT), ISSUER, H)
            && CheckMark(w.identity, Context(ledger, timestamp, auth, Link.R(w)), ISSUER, SUBJECT, H) == Trap
            && Link.RevokeVerdict(w, Link.WorldEntry(ledger, timestamp, auth, Link.Revoke(ISSUER, SUBJECT, H))) == Trap
  {
    AfterBatchFirst();
    var w := Link.Run(Link.Linked(ADMIN), BatchFirst());
    assert Matches(w.identity.Records(SUBJECT)[0], ISSUER, H);
    assert !w.registry.Foreign(ISSUER, H);
  }

  /** The subject's own deactivation still flags it. */
  lemma DeactivationStillFlags(ledger: u32, timestamp: u64, auth: set<Address>)
    requires SUBJECT in auth
    ensures var w := Link.Run(Link.Linked(ADMIN), BatchFirst());
            var c := Context(ledger, timestamp, auth, Link.R(w));
            && CheckDeactivate(w.identity, c, SUBJECT) == Ok
            && AfterDeactivateCore(w.identity, c, SUBJECT).Records(SUBJECT) == [Record(H).(revoked := true)]
  {
    AfterBatchFirst();
    CountsAfterPush([], Record(H), {});
    assert [] + [Record(H)] == [Record(H)];
  }

  // ---- a revocation that concerns a second subject -----------------------------------------------

  function SharedHash(): seq<Link.WorldEntry> {
    [TRUST] + [Anchor(SUBJECT, H)] + [Anchor(OTHER, H)] + [REVOKE]
  }

  lemma RevokeStep(w: World)
    requires Ready(w, 3) && Holds(w, SUBJECT, [Record(H)], Some(1))
    ensures var w' := Link.Step(w, REVOKE);
            && Link.R(w') == Link.R(w) + {H}
            && w'.identity.Records(OTHER) == w.identity.Records(OTHER) && CacheOf(w', OTHER) == CacheOf(w, OTHER)
  {
    var c := Link.MarkContext(w, REVOKE);
    assert Matches([Record(H)][0], ISSUER, H);
    assert CheckMark(w.identity, c, ISSUER, SUBJECT, H) == Ok;
    Link.RevokeReports(w.registry, ISSUER, H);
  }

  /** `revoke` tells the oracle about one subject; the other one's cache keeps counting. */
  lemma RevokeCanOutdateCache()
    ensures var w := Link.Run(Link.Linked(ADMIN), SharedHash());
            CacheOf(w, OTHER) == Some(1) && CountActive(w.identity.Records(OTHER), Link.R(w)) == 0
  {
    var w0, two := Link.Linked(ADMIN), [TRUST] + [Anchor(SUBJECT, H)];
    Begin();
    RunSnoc(w0, [TRUST], Anchor(SUBJECT, H));
    var w1 := Link.Run(w0, [TRUST]);
    AnchorStep(w1, 1, SUBJECT, H, [], None);
    RunSnoc(w0, two, Anchor(OTHER, H));
    var w2 := Link.Run(w0, two);
    assert Holds(w1, OTHER, [], None) && Holds(w2, OTHER, [], None);
    AnchorStep(w2, 2, OTHER, H, [], None);
    RunSnoc(w0, two + [Anchor(OTHER, H)], REVOKE);
    var w3 := Link.Run(w0, two + [Anchor(OTHER, H)]);
    assert Holds(w2, SUBJECT, [] + [Record(H)], Some(1)) && Holds(w3, SUBJECT, [] + [Record(H)], Some(1));
    assert [] + [Record(H)] == [Record(H)];
    RevokeStep(w3);
    CountsAfterPush([], Record(H), {H});
  }
}
