/** When the identity oracle's cached counts are right although a registry is linked: the
    exact condition for every call and for every run, batches and repeated hashes included. */
module LinkedCaches {
  import opened Host
  import opened CreditOracleTypes
  import opened IdentitySpec
  import opened IdentityInvariants
  import Link = LinkedRegistry
  import Reg = RegistrySpec

  type World = Link.World

  // ---- what every linked run keeps -------------------------------------------------------

  /** A subject's pairs are unique, at most 100 records are active, and a subject with
      records has a cached count, right or wrong. */
  predicate SubjectShape(s: Identity, t: Address, revoked: set<Hash>) {
    && UniqueRecords(s.Records(t))
    && CountActive(s.Records(t), revoked) <= 100
    && (s.Records(t) != [] ==> t in s.activeCount)
  }

  ghost predicate Shape(s: Identity, revoked: set<Hash>) {
    forall t :: SubjectShape(s, t, revoked)
  }

  lemma {:induction false} MarkingOnlyDeactivates(rs: seq<VcRecord>, issuer: Address, h: Hash, revoked: set<Hash>)
    ensures CountActive(MarkAll(rs, issuer, h), revoked) <= CountActive(rs, revoked)
  {
    if rs == [] {
      assert MarkAll(rs, issuer, h) == rs;
    } else {
      var n := |rs| - 1;
      assert MarkAll(rs, issuer, h)[..n] == MarkAll(rs[..n], issuer, h);
      MarkingOnlyDeactivates(rs[..n], issuer, h, revoked);
    }
  }

  lemma RecordsAreCached(s: Identity, c: Context, call: IdentityCall, t: Address)
    requires s.Records(t) != [] ==> t in s.activeCount
    ensures Step(s, c, call).Records(t) != [] ==> t in Step(s, c, call).activeCount
  {
  }

  lemma CountStaysBounded(s: Identity, c: Context, call: IdentityCall, t: Address)
    requires CountActive(s.Records(t), c.R) <= 100
    ensures CountActive(Step(s, c, call).Records(t), c.R) <= 100
  {
    var rs, rs' := s.Records(t), Step(s, c, call).Records(t);
    if call.SetIssuer? || call.SetPaused? || t != call.subject {
      OtherSubjectsUntouched(s, c, call, t);
    } else {
      Link.OwnRecordsAfterStep(s, c, call);
      if rs' == RevokeAll(rs) {
        CountsWhenAllRevoked(rs', c.R);
      } else if call.MarkRevoked? {
        MarkingOnlyDeactivates(rs, call.issuer, call.hash, c.R);
      } else if call.AnchorVc? && rs' != rs {
        CountsAfterPush(rs, NewRecord(c, call.issuer, call.hash), c.R);
      }
    }
  }

  lemma IdentityCallKeepsShape(s: Identity, c: Context, call: IdentityCall)
    requires Shape(s, c.R)
    ensures Shape(Step(s, c, call), c.R)
  {
    forall t ensures SubjectShape(Step(s, c, call), t, c.R) {
      assert SubjectShape(s, t, c.R);
      StepKeepsUnique(s, c, call, t);
      CountStaysBounded(s, c, call, t);
      RecordsAreCached(s, c, call, t);
    }
  }

  lemma ShapeSurvivesGrowth(s: Identity, revoked: set<Hash>, more: set<Hash>)
    requires Shape(s, revoked) && revoked <= more
    ensures Shape(s, more)
  {
    forall t ensures SubjectShape(s, t, more) {
      assert SubjectShape(s, t, revoked);
      RegistryOnlyDeactivates(s.Records(t), revoked, more);
    }
  }

  lemma StepKeepsShape(w: World, e: Link.WorldEntry)
    requires Shape(w.identity, Link.R(w))
    ensures Shape(Link.Step(w, e).identity, Link.R(Link.Step(w, e)))
  {
    match e.call
    case OnIdentity(call) => IdentityCallKeepsShape(w.identity, Link.ContextOf(e, Link.R(w)), call);
    case Revoke(issuer, subject, h) =>
      if Link.RevokeVerdict(w, e) == Ok {
        assert SubjectShape(w.identity, subject, Link.R(w));
        Link.RevokeIsMark(w, e);
        IdentityCallKeepsShape(w.identity, Link.ContextOf(e, Link.R(w)), MarkRevoked(issuer, subject, h));
        ShapeSurvivesGrowth(Link.Step(w, e).identity, Link.R(w), Link.R(w) + {h});
      }
    case BatchRevoke(issuer, hs) =>
      if Reg.CheckBatch(w.registry, e.auth, issuer, hs) == Ok {
        Link.BatchReports(w.registry, issuer, hs);
        ShapeSurvivesGrowth(w.identity, Link.R(w), Link.R(Link.Step(w, e)));
      }
    case ConfigureRegistry(_, _) =>
      assert Link.R(Link.Step(w, e)) == Link.R(w);
  }

  /** In every linked run, batches and repeated hashes included, no subject ever has more
      than 100 active records and no (issuer, hash) pair is listed twice. */
  lemma {:induction false} EveryLinkedStateIsShaped(admin: Address, es: seq<Link.WorldEntry>)
    ensures var w := Link.Run(Link.Linked(admin), es);
            Shape(w.identity, Link.R(w))
  {
    if es != [] {
      EveryLinkedStateIsShaped(admin, es[..|es| - 1]);
      StepKeepsShape(Link.Run(Link.Linked(admin), es[..|es| - 1]), es[|es| - 1]);
    }
  }

  /** The circular read `revoke` → `mark_vc_revoked` → `is_revoked` would need a missing
      cache. In every linked run a subject with records has one, and a subject without
      records is turned down before it is read. */
  lemma NoCallbackWhileRevoking(admin: Address, es: seq<Link.WorldEntry>, e: Link.WorldEntry)
    requires e.call.Revoke?
    ensures var w := Link.Run(Link.Linked(admin), es);
            && (w.identity.Records(e.call.subject) != [] ==> e.call.subject in w.identity.activeCount)
            && (Link.RevokeVerdict(w, e) == Ok ==> e.call.subject in w.identity.activeCount)
  {
    EveryLinkedStateIsShaped(admin, es);
    var w := Link.Run(Link.Linked(admin), es);
    assert SubjectShape(w.identity, e.call.subject, Link.R(w));
  }

  // ---- the condition for one call ----------------------------------------------------------

  predicate SubjectAgrees(s: Identity, t: Address, revoked: set<Hash>) {
    t in s.activeCount ==> s.activeCount[t] == CountActive(s.Records(t), revoked)
  }

  /** Every present cache equals the recomputation under the registry. */
  ghost predicate CachesAgree(s: Identity, revoked: set<Hash>) {
    forall t :: SubjectAgrees(s, t, revoked)
  }

  predicate ActiveRecordAt(rs: seq<VcRecord>, k: int, revoked: set<Hash>, H: set<Hash>) {
    0 <= k < |rs| && rs[k].hash in H && !IsRevoked(rs[k], revoked)
  }

  ghost predicate HasActiveRecordIn(rs: seq<VcRecord>, revoked: set<Hash>, H: set<Hash>) {
    exists k :: ActiveRecordAt(rs, k, revoked, H)
  }

  /** Reporting the hashes H deactivates something exactly when an active record carries
      one of them. */
  lemma {:induction false} GrowthDropsCountIff(rs: seq<VcRecord>, revoked: set<Hash>, H: set<Hash>)
    ensures CountActive(rs, revoked + H) <= CountActive(rs, revoked)
    ensures CountActive(rs, revoked + H) == CountActive(rs, revoked) <==> !HasActiveRecordIn(rs, revoked, H)
  {
    RegistryOnlyDeactivates(rs, revoked, revoked + H);
    if rs != [] {
      var n := |rs| - 1;
      GrowthDropsCountIff(rs[..n], revoked, H);
      if HasActiveRecordIn(rs[..n], revoked, H) {
        var k :| ActiveRecordAt(rs[..n], k, revoked, H);
        assert ActiveRecordAt(rs, k, revoked, H);
      } else if HasActiveRecordIn(rs, revoked, H) {
        var k :| ActiveRecordAt(rs, k, revoked, H);
        assert k == n by {
          if k < n { assert ActiveRecordAt(rs[..n], k, revoked, H); }
        }
      } else {
        assert !ActiveRecordAt(rs, n, revoked, H);
      }
    }
  }

  /** A growing registry leaves right caches right exactly when no active record of any
      subject carries one of the newly reported hashes. */
  lemma CachesSurviveGrowthIff(s: Identity, revoked: set<Hash>, H: set<Hash>)
    requires Shape(s, revoked) && CachesAgree(s, revoked)
    ensures CachesAgree(s, revoked + H) <==> forall t :: !HasActiveRecordIn(s.Records(t), revoked, H)
  {
    forall t
      ensures t in s.activeCount ==>
                (SubjectAgrees(s, t, revoked + H) <==> !HasActiveRecordIn(s.Records(t), revoked, H))
      ensures HasActiveRecordIn(s.Records(t), revoked, H) ==> t in s.activeCount
    {
      assert SubjectShape(s, t, revoked) && SubjectAgrees(s, t, revoked);
      GrowthDropsCountIff(s.Records(t), revoked, H);
    }
  }

  /** A mark decrements for a record that the registry already reports, and so was not
      counted: right caches stay right exactly when the matched record was already flagged
      or its hash is not reported. */
  lemma MarkKeepsCacheIff(s: Identity, c: Context, issuer: Address, subject: Address, h: Hash)
    requires SubjectShape(s, subject, c.R) && SubjectAgrees(s, subject, c.R)
    requires CheckMark(s, c, issuer, subject, h) == Ok
    ensures SubjectAgrees(AfterMark(s, c, issuer, subject, h), subject, c.R)
            <==> (h in c.R ==> !HasUnrevokedRecord(s.Records(subject), issuer, h))
  {
    var rs := s.Records(subject);
    var k :| 0 <= k < |rs| && Matches(rs[k], issuer, h);
    MarkIsOneWrite(rs, issuer, h, k);
    CountsAfterWrite(rs, k, rs[k].(revoked := true), c.R);
    assert AfterMark(s, c, issuer, subject, h).Records(subject) == MarkAll(rs, issuer, h);
  }

  /** The decrement of `mark_vc_revoked` underflows exactly when a record to be flagged is
      already reported and the subject has no active record left. */
  lemma MarkAbortsIff(s: Identity, c: Context, issuer: Address, subject: Address, h: Hash)
    requires SubjectShape(s, subject, c.R) && SubjectAgrees(s, subject, c.R)
    requires !s.paused && issuer in c.auth && s.stats.revoked < U64_MAX
    ensures CheckMark(s, c, issuer, subject, h) == Trap
            <==> HasUnrevokedRecord(s.Records(subject), issuer, h) && h in c.R
                 && !HasActive(s.Records(subject), c.R)
  {
    var rs := s.Records(subject);
    NoneActiveIff(rs, c.R);
  }

  lemma {:induction false} NoneActiveIff(rs: seq<VcRecord>, revoked: set<Hash>)
    ensures CountActive(rs, revoked) == 0 <==> !HasActive(rs, revoked)
  {
    if rs != [] {
      var n := |rs| - 1;
      NoneActiveIff(rs[..n], revoked);
      if HasActive(rs[..n], revoked) {
        var k :| 0 <= k < n && !IsRevoked(rs[..n][k], revoked);
        assert !IsRevoked(rs[k], revoked);
      } else {
        assert forall k :: 0 <= k < n ==> rs[..n][k] == rs[k];
      }
    }
  }

  lemma PlainCallKeepsSubject(s: Identity, c: Context, call: IdentityCall, t: Address)
    requires SubjectShape(s, t, c.R) && SubjectAgrees(s, t, c.R) && !call.MarkRevoked?
    ensures SubjectAgrees(Step(s, c, call), t, c.R)
  {
    var rs, s' := s.Records(t), Step(s, c, call);
    if call.SetIssuer? || call.SetPaused? || t != call.subject {
      OtherSubjectsUntouched(s, c, call, t);
    } else if call.AnchorVc? {
      CountsAfterPush(rs, NewRecord(c, call.issuer, call.hash), c.R);
    } else if call.DeactivateDid? || call.DeactivateIdentity? {
      CountsWhenAllRevoked(RevokeAll(rs), c.R);
    }
  }

  lemma PlainCallKeepsCaches(s: Identity, c: Context, call: IdentityCall)
    requires Shape(s, c.R) && CachesAgree(s, c.R) && !call.MarkRevoked?
    ensures CachesAgree(Step(s, c, call), c.R)
  {
    forall t ensures SubjectAgrees(Step(s, c, call), t, c.R) {
      assert SubjectShape(s, t, c.R) && SubjectAgrees(s, t, c.R);
      PlainCallKeepsSubject(s, c, call, t);
    }
  }

  lemma MarkKeepsCachesIff(s: Identity, c: Context, issuer: Address, subject: Address, h: Hash)
    requires Shape(s, c.R) && CachesAgree(s, c.R)
    requires CheckMark(s, c, issuer, subject, h) == Ok
    ensures CachesAgree(AfterMark(s, c, issuer, subject, h), c.R)
            <==> (h in c.R ==> !HasUnrevokedRecord(s.Records(subject), issuer, h))
  {
    var s' := AfterMark(s, c, issuer, subject, h);
    assert SubjectShape(s, subject, c.R) && SubjectAgrees(s, subject, c.R);
    MarkKeepsCacheIff(s, c, issuer, subject, h);
    forall t | t != subject ensures SubjectAgrees(s', t, c.R) {
      assert SubjectAgrees(s, t, c.R);
      assert s'.Records(t) == s.Records(t);
    }
  }

  /** No active record but the one of this subject and issuer carries the hash. */
  ghost predicate OnlyThisPair(s: Identity, revoked: set<Hash>, issuer: Address, subject: Address, h: Hash) {
    forall t, k :: ActiveRecordAt(s.Records(t), k, revoked, {h}) ==>
      t == subject && s.Records(t)[k].issuer == issuer
  }

  lemma OnlyThisPairMeansNoneLeft(s: Identity, c: Context, issuer: Address, subject: Address, h: Hash)
    requires CheckMark(s, c, issuer, subject, h) == Ok
    ensures var s' := AfterMark(s, c, issuer, subject, h);
            OnlyThisPair(s, c.R, issuer, subject, h)
            <==> forall t :: !HasActiveRecordIn(s'.Records(t), c.R, {h})
  {
    var s' := AfterMark(s, c, issuer, subject, h);
    forall t, k
      ensures ActiveRecordAt(s'.Records(t), k, c.R, {h})
              <==> ActiveRecordAt(s.Records(t), k, c.R, {h})
                   && !(t == subject && s.Records(t)[k].issuer == issuer)
    {
      if t == subject {
        assert s'.Records(t) == MarkAll(s.Records(t), issuer, h);
      } else {
        assert s'.Records(t) == s.Records(t);
      }
    }
  }

  /** `revoke` notifies the oracle about one pair. Right caches stay right exactly when the
      record is not yet reported (or is already flagged) and no further active record, of
      this subject under another issuer or of another subject, carries the hash. */
  lemma RevokeKeepsCachesIff(w: World, e: Link.WorldEntry)
    requires Shape(w.identity, Link.R(w)) && CachesAgree(w.identity, Link.R(w))
    requires e.call.Revoke? && Link.RevokeVerdict(w, e) == Ok
    ensures var Revoke(issuer, subject, h) := e.call;
            CachesAgree(Link.Step(w, e).identity, Link.R(Link.Step(w, e)))
            <==> (h in Link.R(w) ==> !HasUnrevokedRecord(w.identity.Records(subject), issuer, h))
                 && OnlyThisPair(w.identity, Link.R(w), issuer, subject, h)
  {
    var Revoke(issuer, subject, h) := e.call;
    var s, c, R := w.identity, Link.ContextOf(e, Link.R(w)), Link.R(w);
    assert SubjectShape(s, subject, R);
    Link.RevokeIsMark(w, e);
    var s' := AfterMark(s, c, issuer, subject, h);
    MarkKeepsCachesIff(s, c, issuer, subject, h);
    if h in R {
      assert R + {h} == R;
    } else {
      IdentityCallKeepsShape(s, c, MarkRevoked(issuer, subject, h));
      CachesSurviveGrowthIff(s', R, {h});
      OnlyThisPairMeansNoneLeft(s, c, issuer, subject, h);
    }
  }

  /** `batch_revoke` does not notify the oracle. Right caches stay right exactly when the
      batch names no active credential. */
  lemma BatchKeepsCachesIff(w: World, e: Link.WorldEntry)
    requires Shape(w.identity, Link.R(w)) && CachesAgree(w.identity, Link.R(w))
    requires e.call.BatchRevoke?
    requires Reg.CheckBatch(w.registry, e.auth, e.call.issuer, e.call.hashes) == Ok
    ensures var H := set h | h in e.call.hashes;
            CachesAgree(Link.Step(w, e).identity, Link.R(Link.Step(w, e)))
            <==> forall t :: !HasActiveRecordIn(w.identity.Records(t), Link.R(w), H)
  {
    var H := set h | h in e.call.hashes;
    Link.BatchReports(w.registry, e.call.issuer, e.call.hashes);
    CachesSurviveGrowthIff(w.identity, Link.R(w), H);
  }

  // ---- the condition for a run ----------------------------------------------------------------

  /** What a caller can look up before a call: a mark or a revocation must not hit an
      unflagged record that is already reported, a revocation must not concern anybody
      else, and a batch must not name an active credential. Nothing else matters. */
  ghost predicate Harmless(w: World, e: Link.WorldEntry) {
    var s, R := w.identity, Link.R(w);
    match e.call
    case OnIdentity(call) =>
      call.MarkRevoked? && CheckMark(s, Link.ContextOf(e, R), call.issuer, call.subject, call.hash) == Ok
      && call.hash in R
      ==> !HasUnrevokedRecord(s.Records(call.subject), call.issuer, call.hash)
    case Revoke(issuer, subject, h) =>
      Link.RevokeVerdict(w, e) == Ok ==>
        && (h in R ==> !HasUnrevokedRecord(s.Records(subject), issuer, h))
        && OnlyThisPair(s, R, issuer, subject, h)
    case BatchRevoke(issuer, hs) =>
      Reg.CheckBatch(w.registry, e.auth, issuer, hs) == Ok ==>
        forall t :: !HasActiveRecordIn(s.Records(t), R, set h | h in hs)
    case ConfigureRegistry(_, _) => true
  }

  lemma StepKeepsCachesIff(w: World, e: Link.WorldEntry)
    requires Shape(w.identity, Link.R(w)) && CachesAgree(w.identity, Link.R(w))
    ensures CachesAgree(Link.Step(w, e).identity, Link.R(Link.Step(w, e))) <==> Harmless(w, e)
  {
    var c := Link.ContextOf(e, Link.R(w));
    match e.call
    case OnIdentity(call) =>
      if !call.MarkRevoked? {
        PlainCallKeepsCaches(w.identity, c, call);
      } else if CheckMark(w.identity, c, call.issuer, call.subject, call.hash) == Ok {
        MarkKeepsCachesIff(w.identity, c, call.issuer, call.subject, call.hash);
      }
    case Revoke(_, _, _) =>
      if Link.RevokeVerdict(w, e) == Ok { RevokeKeepsCachesIff(w, e); }
    case BatchRevoke(issuer, hs) =>
      if Reg.CheckBatch(w.registry, e.auth, issuer, hs) == Ok { BatchKeepsCachesIff(w, e); }
    case ConfigureRegistry(_, _) =>
      assert Link.R(Link.Step(w, e)) == Link.R(w);
  }

  function After(admin: Address, es: seq<Link.WorldEntry>, n: nat): World
    requires n <= |es|
  {
    Link.Run(Link.Linked(admin), es[..n])
  }

  ghost predicate AgreesAfter(admin: Address, es: seq<Link.WorldEntry>, n: nat)
    requires n <= |es|
  {
    var w := After(admin, es, n);
    CachesAgree(w.identity, Link.R(w))
  }

  ghost predicate HarmlessAt(admin: Address, es: seq<Link.WorldEntry>, n: nat)
    requires n < |es|
  {
    Harmless(After(admin, es, n), es[n])
  }

  lemma OneMoreCall(admin: Address, es: seq<Link.WorldEntry>, n: nat)
    requires n < |es| && AgreesAfter(admin, es, n)
    ensures AgreesAfter(admin, es, n + 1) <==> HarmlessAt(admin, es, n)
  {
    assert es[..n + 1][..n] == es[..n];
    EveryLinkedStateIsShaped(admin, es[..n]);
    StepKeepsCachesIff(After(admin, es, n), es[n]);
  }

  lemma {:induction false} HarmlessCallsKeepCaches(admin: Address, es: seq<Link.WorldEntry>, n: nat)
    requires n <= |es| && forall k: nat :: k < n ==> HarmlessAt(admin, es, k)
    ensures AgreesAfter(admin, es, n)
  {
    if n == 0 {
      assert es[..0] == [] && Link.R(Link.Linked(admin)) == {};
    } else {
      HarmlessCallsKeepCaches(admin, es, n - 1);
      OneMoreCall(admin, es, n - 1);
    }
  }

  /** A linked run, whatever calls it is made of, keeps every cache right throughout if and
      only if each of its calls is harmless where it is made. */
  lemma CachesAlwaysAgreeIff(admin: Address, es: seq<Link.WorldEntry>)
    ensures (forall n: nat :: n <= |es| ==> AgreesAfter(admin, es, n))
            <==> (forall n: nat :: n < |es| ==> HarmlessAt(admin, es, n))
  {
    if forall n: nat :: n <= |es| ==> AgreesAfter(admin, es, n) {
      forall n: nat | n < |es| ensures HarmlessAt(admin, es, n) {
        assert AgreesAfter(admin, es, n) && AgreesAfter(admin, es, n + 1);
        OneMoreCall(admin, es, n);
      }
    }
    if forall n: nat :: n < |es| ==> HarmlessAt(admin, es, n) {
      forall n: nat | n <= |es| ensures AgreesAfter(admin, es, n) {
        HarmlessCallsKeepCaches(admin, es, n);
      }
    }
  }
}
