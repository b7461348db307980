/** In every reachable state the identity oracle's incremental bookkeeping (cached active
    counts, global counters, last-change stamps) agrees with a recomputation. */
module IdentityInvariants {
  import opened Host
  import opened CreditOracleTypes
  import opened MapSums
  import opened IdentitySpec

  // ---- counting under single-record changes ------------------------------------------

  function Active01(r: VcRecord, R: set<Hash>): nat { if IsRevoked(r, R) then 0 else 1 }

  function Revoked01(r: VcRecord): nat { if r.revoked then 1 else 0 }

  lemma {:induction false} CountsAfterWrite(rs: seq<VcRecord>, k: nat, x: VcRecord, R: set<Hash>)
    requires k < |rs|
    ensures CountActive(rs[k := x], R) == CountActive(rs, R) - Active01(rs[k], R) + Active01(x, R)
    ensures CountRevoked(rs[k := x]) == CountRevoked(rs) - Revoked01(rs[k]) + Revoked01(x)
  {
    var n := |rs| - 1;
    if k == n {
      assert rs[k := x][..n] == rs[..n];
    } else {
      assert rs[k := x][..n] == rs[..n][k := x];
      CountsAfterWrite(rs[..n], k, x, R);
    }
  }

  lemma CountsAfterPush(rs: seq<VcRecord>, x: VcRecord, R: set<Hash>)
    ensures CountActive(rs + [x], R) == CountActive(rs, R) + Active01(x, R)
    ensures CountRevoked(rs + [x]) == CountRevoked(rs) + Revoked01(x)
  {
    assert (rs + [x])[..|rs|] == rs;
  }

  lemma {:induction false} CountsWhenAllRevoked(rs: seq<VcRecord>, R: set<Hash>)
    requires forall k :: 0 <= k < |rs| ==> rs[k].revoked
    ensures CountActive(rs, R) == 0 && CountRevoked(rs) == |rs|
  {
    if rs != [] { CountsWhenAllRevoked(rs[..|rs| - 1], R); }
  }

  /** Without a registry a record is active exactly when it is not revoked locally. */
  lemma {:induction false} ActiveIsUnrevoked(rs: seq<VcRecord>)
    ensures CountActive(rs, {}) == |rs| - CountRevoked(rs)
  {
    if rs != [] { ActiveIsUnrevoked(rs[..|rs| - 1]); }
  }

  /** A larger registry only deactivates records. */
  lemma {:induction false} RegistryOnlyDeactivates(rs: seq<VcRecord>, R: set<Hash>, R': set<Hash>)
    requires R <= R'
    ensures CountActive(rs, R') <= CountActive(rs, R)
  {
    if rs != [] { RegistryOnlyDeactivates(rs[..|rs| - 1], R, R'); }
  }

  /** If every record is judged alike under both registries, so is the list. */
  lemma {:induction false} SameActivity(rs: seq<VcRecord>, R: set<Hash>, R': set<Hash>)
    requires forall k :: 0 <= k < |rs| ==> (IsRevoked(rs[k], R) <==> IsRevoked(rs[k], R'))
    ensures CountActive(rs, R) == CountActive(rs, R')
  {
    if rs != [] { SameActivity(rs[..|rs| - 1], R, R'); }
  }

  lemma {:induction false} OneActiveRecordCounts(rs: seq<VcRecord>, k: nat, R: set<Hash>)
    requires k < |rs| && !IsRevoked(rs[k], R)
    ensures CountActive(rs, R) >= 1
  {
    if k < |rs| - 1 { OneActiveRecordCounts(rs[..|rs| - 1], k, R); }
  }

  // ---- the cache invariant -----------------------------------------------------------

  predicate UniqueRecords(rs: seq<VcRecord>) {
    forall i, j :: 0 <= i < j < |rs| ==> rs[i].issuer != rs[j].issuer || rs[i].hash != rs[j].hash
  }

  /** Whatever the registry reports revoked is also flagged locally. Vacuous without a
      registry. */
  predicate LocallyCovered(rs: seq<VcRecord>, R: set<Hash>) {
    forall k :: 0 <= k < |rs| && rs[k].hash in R ==> rs[k].revoked
  }

  predicate SubjectInv(s: Identity, t: Address, R: set<Hash>) {
    var rs := s.Records(t);
    && UniqueRecords(rs)
    && LocallyCovered(rs, R)
    && CountActive(rs, R) <= 100
    && (t in s.activeCount ==> s.activeCount[t] == CountActive(rs, R))
    && (rs != [] ==> t in s.activeCount)
  }

  /** A present cache equals the recomputation, no subject holds more than 100 active
      records, and no (issuer, hash) pair occurs twice. */
  ghost predicate CacheInv(s: Identity, R: set<Hash>) {
    forall t :: SubjectInv(s, t, R)
  }

  /** With unique records, flagging a pair rewrites a single position. */
  lemma MarkIsOneWrite(rs: seq<VcRecord>, issuer: Address, h: Hash, k: nat)
    requires UniqueRecords(rs) && k < |rs| && Matches(rs[k], issuer, h)
    ensures MarkAll(rs, issuer, h) == rs[k := rs[k].(revoked := true)]
    ensures HasUnrevokedRecord(rs, issuer, h) <==> !rs[k].revoked
  {
    forall i | 0 <= i < |rs| && i != k ensures !Matches(rs[i], issuer, h) {
      if i < k { assert rs[i].issuer != rs[k].issuer || rs[i].hash != rs[k].hash; }
    }
  }

  lemma AnchorKeepsSubject(s: Identity, c: Context, issuer: Address, subject: Address, h: Hash, kind: Symbol)
    requires SubjectInv(s, subject, c.R)
    requires CheckAnchor(s, c, issuer, subject, h) == Ok
    requires h in c.R ==> HasRecord(s.Records(subject), issuer, h)
    ensures SubjectInv(AfterAnchor(s, c, issuer, subject, h, kind), subject, c.R)
  {
    var rs := s.Records(subject);
    if !HasRecord(rs, issuer, h) {
      var x := NewRecord(c, issuer, h);
      CountsAfterPush(rs, x, c.R);
      var s' := AfterAnchor(s, c, issuer, subject, h, kind);
      assert s'.Records(subject) == rs + [x];
      forall i | 0 <= i < |rs| ensures !Matches(rs[i], issuer, h) {}
    }
  }

  lemma MarkKeepsSubject(s: Identity, c: Context, issuer: Address, subject: Address, h: Hash)
    requires SubjectInv(s, subject, c.R)
    requires CheckMark(s, c, issuer, subject, h) == Ok
    ensures SubjectInv(AfterMark(s, c, issuer, subject, h), subject, c.R)
  {
    var rs := s.Records(subject);
    var k :| 0 <= k < |rs| && Matches(rs[k], issuer, h);
    MarkIsOneWrite(rs, issuer, h, k);
    CountsAfterWrite(rs, k, rs[k].(revoked := true), c.R);
    assert AfterMark(s, c, issuer, subject, h).Records(subject) == MarkAll(rs, issuer, h);
  }

  lemma DeactivateKeepsSubject(s: Identity, c: Context, subject: Address)
    requires SubjectInv(s, subject, c.R)
    requires CheckDeactivate(s, c, subject) == Ok
    ensures SubjectInv(AfterDeactivateCore(s, c, subject), subject, c.R)
  {
    var s' := AfterDeactivateCore(s, c, subject);
    var rs := s'.Records(subject);
    assert rs == RevokeAll(s.Records(subject));
    CountsWhenAllRevoked(rs, c.R);
  }

  /** Cache, records and flags of every other subject are untouched by a call. */
  lemma OtherSubjectsUntouched(s: Identity, c: Context, call: IdentityCall, t: Address)
    requires !call.SetIssuer? && !call.SetPaused? ==> t != call.subject
    ensures Step(s, c, call).Records(t) == s.Records(t)
    ensures t in Step(s, c, call).activeCount <==> t in s.activeCount
    ensures t in s.activeCount ==> Step(s, c, call).activeCount[t] == s.activeCount[t]
  {
  }

  lemma StepKeepsCacheInv(s: Identity, c: Context, call: IdentityCall)
    requires CacheInv(s, c.R)
    requires call.AnchorVc? && call.hash in c.R
             ==> HasRecord(s.Records(call.subject), call.issuer, call.hash)
    ensures CacheInv(Step(s, c, call), c.R)
  {
    var s' := Step(s, c, call);
    forall t ensures SubjectInv(s', t, c.R) {
      assert SubjectInv(s, t, c.R);
      if call.SetIssuer? || call.SetPaused? || t != call.subject {
        OtherSubjectsUntouched(s, c, call, t);
      } else if VerdictOf(s, c, call) == Ok {
        match call
        case AnchorVc(issuer, _, h, kind) => AnchorKeepsSubject(s, c, issuer, t, h, kind);
        case MarkRevoked(issuer, _, h) => MarkKeepsSubject(s, c, issuer, t, h);
        case DeactivateDid(_) =>
          DeactivateKeepsSubject(s, c, t);
          assert s'.Records(t) == AfterDeactivateCore(s, c, t).Records(t);
        case DeactivateIdentity(_) => DeactivateKeepsSubject(s, c, t);
        case _ =>
      }
    }
  }

  /** Without a registry the cache is right in every reachable state, whatever sequence of
      calls led there. */
  lemma {:induction false} CacheAlwaysAgrees(admin: Address, es: seq<Entry>)
    requires NoRegistry(es)
    ensures CacheInv(Run(Deployed(admin), es), {})
  {
    if es != [] {
      CacheAlwaysAgrees(admin, es[..|es| - 1]);
      StepKeepsCacheInv(Run(Deployed(admin), es[..|es| - 1]), es[|es| - 1].context, es[|es| - 1].call);
    }
  }

  /** The checked decrement of `mark_vc_revoked` never underflows and the checked
      increment of `anchor_vc` never overflows. */
  lemma CacheArithmeticIsSafe(s: Identity, c: Context, issuer: Address, subject: Address, h: Hash)
    requires SubjectInv(s, subject, c.R)
    ensures HasUnrevokedRecord(s.Records(subject), issuer, h)
            ==> subject in s.activeCount && s.activeCount[subject] >= 1
    ensures CountActive(s.Records(subject), c.R) < 100
            ==> CacheAfterAnchor(s, c, issuer, subject, h) <= 100
  {
    var rs := s.Records(subject);
    if HasUnrevokedRecord(rs, issuer, h) {
      var k :| 0 <= k < |rs| && Matches(rs[k], issuer, h) && !rs[k].revoked;
      OneActiveRecordCounts(rs, k, c.R);
    }
    CountsAfterPush(rs, NewRecord(c, issuer, h), c.R);
  }

  // ---- conservation across subjects ---------------------------------------------------

  function Lengths(anchors: map<Address, seq<VcRecord>>): map<Address, int> {
    map t | t in anchors :: |anchors[t]|
  }

  function RevokedCounts(anchors: map<Address, seq<VcRecord>>): map<Address, int> {
    map t | t in anchors :: CountRevoked(anchors[t])
  }

  /** The two global counters are the total length of all anchor lists and the total
      number of locally revoked records. */
  ghost predicate Conserved(s: Identity) {
    && s.stats.anchored == Sum(Lengths(s.anchors))
    && s.stats.revoked == Sum(RevokedCounts(s.anchors))
  }

  lemma LengthsAfterWrite(anchors: map<Address, seq<VcRecord>>, t: Address, rs: seq<VcRecord>)
    ensures Sum(Lengths(anchors[t := rs])) == Sum(Lengths(anchors)) - |GetOr(anchors, t, [])| + |rs|
  {
    assert Lengths(anchors[t := rs]) == Lengths(anchors)[t := |rs|];
    SumUpdate(Lengths(anchors), t, |rs|);
  }

  lemma RevokedCountsAfterWrite(anchors: map<Address, seq<VcRecord>>, t: Address, rs: seq<VcRecord>)
    ensures Sum(RevokedCounts(anchors[t := rs]))
         == Sum(RevokedCounts(anchors)) - CountRevoked(GetOr(anchors, t, [])) + CountRevoked(rs)
  {
    var n: int := CountRevoked(rs);
    assert RevokedCounts(anchors[t := rs]) == RevokedCounts(anchors)[t := n];
    SumUpdate(RevokedCounts(anchors), t, n);
  }

  lemma TotalsAfterWrite(anchors: map<Address, seq<VcRecord>>, t: Address, rs: seq<VcRecord>)
    ensures Sum(Lengths(anchors[t := rs])) == Sum(Lengths(anchors)) - |GetOr(anchors, t, [])| + |rs|
    ensures Sum(RevokedCounts(anchors[t := rs]))
         == Sum(RevokedCounts(anchors)) - CountRevoked(GetOr(anchors, t, [])) + CountRevoked(rs)
  {
    LengthsAfterWrite(anchors, t, rs);
    RevokedCountsAfterWrite(anchors, t, rs);
  }

  lemma PushConserves(s: Identity, s': Identity, t: Address, x: VcRecord)
    requires Conserved(s) && !x.revoked
    requires s'.anchors == s.anchors[t := s.Records(t) + [x]]
    requires s'.stats.anchored == s.stats.anchored + 1 && s'.stats.revoked == s.stats.revoked
    ensures Conserved(s')
  {
    CountsAfterPush(s.Records(t), x, {});
    TotalsAfterWrite(s.anchors, t, s.Records(t) + [x]);
  }

  lemma AnchorConserves(s: Identity, c: Context, issuer: Address, subject: Address, h: Hash, kind: Symbol)
    requires Conserved(s) && CheckAnchor(s, c, issuer, subject, h) == Ok
    ensures Conserved(AfterAnchor(s, c, issuer, subject, h, kind))
  {
    if !HasRecord(s.Records(subject), issuer, h) {
      PushConserves(s, AfterAnchor(s, c, issuer, subject, h, kind), subject, NewRecord(c, issuer, h));
    }
  }

  lemma MarkConserves(s: Identity, c: Context, issuer: Address, subject: Address, h: Hash)
    requires Conserved(s) && UniqueRecords(s.Records(subject))
    requires CheckMark(s, c, issuer, subject, h) == Ok
    ensures Conserved(AfterMark(s, c, issuer, subject, h))
  {
    var rs := s.Records(subject);
    var k :| 0 <= k < |rs| && Matches(rs[k], issuer, h);
    MarkIsOneWrite(rs, issuer, h, k);
    CountsAfterWrite(rs, k, rs[k].(revoked := true), c.R);
    TotalsAfterWrite(s.anchors, subject, MarkAll(rs, issuer, h));
  }

  lemma DeactivateConserves(s: Identity, c: Context, subject: Address)
    requires Conserved(s) && CheckDeactivate(s, c, subject) == Ok
    ensures Conserved(AfterDeactivateCore(s, c, subject))
  {
    var rs := s.Records(subject);
    CountsWhenAllRevoked(RevokeAll(rs), c.R);
    TotalsAfterWrite(s.anchors, subject, RevokeAll(rs));
  }

  lemma StepConserves(s: Identity, c: Context, call: IdentityCall)
    requires Conserved(s) && (forall t :: UniqueRecords(s.Records(t)))
    ensures Conserved(Step(s, c, call))
  {
    if VerdictOf(s, c, call) == Ok {
      match call
      case AnchorVc(issuer, subject, h, kind) => AnchorConserves(s, c, issuer, subject, h, kind);
      case MarkRevoked(issuer, subject, h) => MarkConserves(s, c, issuer, subject, h);
      case DeactivateDid(subject) => DeactivateConserves(s, c, subject);
      case DeactivateIdentity(subject) => DeactivateConserves(s, c, subject);
      case _ =>
    }
  }

  lemma StepKeepsUnique(s: Identity, c: Context, call: IdentityCall, t: Address)
    requires UniqueRecords(s.Records(t))
    ensures UniqueRecords(Step(s, c, call).Records(t))
  {
    var rs, rs' := s.Records(t), Step(s, c, call).Records(t);
    if call.SetIssuer? || call.SetPaused? || t != call.subject {
      OtherSubjectsUntouched(s, c, call, t);
    } else if VerdictOf(s, c, call) == Ok && call.AnchorVc? && !HasRecord(rs, call.issuer, call.hash) {
      assert rs' == rs + [NewRecord(c, call.issuer, call.hash)];
      forall i | 0 <= i < |rs| ensures !Matches(rs[i], call.issuer, call.hash) {}
    } else {
      assert |rs'| == |rs|;
      assert forall i :: 0 <= i < |rs| ==> rs'[i].issuer == rs[i].issuer && rs'[i].hash == rs[i].hash;
    }
  }

  /** The global counters are conserved by every run, whatever the registry reports. */
  lemma {:induction false} CountersAlwaysAgree(admin: Address, es: seq<Entry>)
    ensures Conserved(Run(Deployed(admin), es))
    ensures forall t :: UniqueRecords(Run(Deployed(admin), es).Records(t))
  {
    if es == [] {
      assert Lengths(map[]) == map[] && RevokedCounts(map[]) == map[];
    } else {
      CountersAlwaysAgree(admin, es[..|es| - 1]);
      var s, e := Run(Deployed(admin), es[..|es| - 1]), es[|es| - 1];
      StepConserves(s, e.context, e.call);
      forall t ensures UniqueRecords(Step(s, e.context, e.call).Records(t)) {
        StepKeepsUnique(s, e.context, e.call, t);
      }
    }
  }

  function ActiveCounts(anchors: map<Address, seq<VcRecord>>): map<Address, int> {
    map t | t in anchors :: CountActive(anchors[t], {})
  }

  function CacheAsInts(s: Identity): map<Address, int> {
    map t | t in s.activeCount :: s.activeCount[t]
  }

  lemma ActiveCountsTotal(anchors: map<Address, seq<VcRecord>>)
    ensures Sum(ActiveCounts(anchors)) == Sum(Lengths(anchors)) - Sum(RevokedCounts(anchors))
  {
    forall t | t in anchors
      ensures ActiveCounts(anchors)[t] == Lengths(anchors)[t] - RevokedCounts(anchors)[t]
    {
      ActiveIsUnrevoked(anchors[t]);
    }
    SumOfDifferences(Lengths(anchors), RevokedCounts(anchors), ActiveCounts(anchors));
  }

  /** The caches sum to the recomputed counts: where one of the two maps has no entry, the
      other has a zero. */
  lemma CachesTotal(s: Identity)
    requires CacheInv(s, {})
    ensures Sum(CacheAsInts(s)) == Sum(ActiveCounts(s.anchors))
  {
    var cached, computed := CacheAsInts(s), ActiveCounts(s.anchors);
    forall t
      ensures t in cached && t in computed ==> cached[t] == computed[t]
      ensures t in computed && t !in cached ==> computed[t] == 0
      ensures t in cached && t !in computed ==> cached[t] == 0
    {
      assert SubjectInv(s, t, {});
    }
    SumIgnoresZeros(cached, computed + cached);
    SumIgnoresZeros(computed, computed + cached);
  }

  /** Without a registry, anchored minus revoked is the sum of every subject's active
      count, recomputed or cached, through anchoring, duplicate anchoring, revocation and
      both deactivation paths. */
  lemma ActiveTotalIsConserved(admin: Address, es: seq<Entry>)
    requires NoRegistry(es)
    ensures var s := Run(Deployed(admin), es);
            && s.stats.anchored - s.stats.revoked == Sum(ActiveCounts(s.anchors))
            && s.stats.anchored - s.stats.revoked == Sum(CacheAsInts(s))
  {
    var s := Run(Deployed(admin), es);
    CountersAlwaysAgree(admin, es);
    CacheAlwaysAgrees(admin, es);
    ActiveCountsTotal(s.anchors);
    CachesTotal(s);
  }

  // ---- credential types -----------------------------------------------------------------

  /** The call adds a record, rather than failing or finding the pair already there. */
  predicate AddsRecord(s: Identity, c: Context, call: IdentityCall) {
    call.AnchorVc? && VerdictOf(s, c, call) == Ok && !HasRecord(s.Records(call.subject), call.issuer, call.hash)
  }

  /** The type given by the last call of a run that added a record of this hash. */
  function LastKind(start: Identity, es: seq<Entry>, t: Address, h: Hash): Symbol {
    if es == [] then GENERIC
    else
      var front, e := es[..|es| - 1], es[|es| - 1];
      if AddsRecord(Run(start, front), e.context, e.call) && e.call.subject == t && e.call.hash == h
      then e.call.kind
      else LastKind(start, front, t, h)
  }

  lemma TypeAfterStep(s: Identity, c: Context, call: IdentityCall, t: Address, h: Hash)
    ensures Step(s, c, call).TypeOf(t, h)
         == if AddsRecord(s, c, call) && call.subject == t && call.hash == h then call.kind else s.TypeOf(t, h)
  {
  }

  /** In every run the type read for a hash is the one it was last anchored with: another
      issuer's record of the same hash replaces it, a repeated or rejected anchoring, a
      revocation or a deactivation does not, and without any record it is generic. */
  lemma {:induction false} TypeIsLastAnchored(admin: Address, es: seq<Entry>, t: Address, h: Hash)
    ensures Run(Deployed(admin), es).TypeOf(t, h) == LastKind(Deployed(admin), es, t, h)
  {
    if es != [] {
      var front, e := es[..|es| - 1], es[|es| - 1];
      TypeIsLastAnchored(admin, front, t, h);
      TypeAfterStep(Run(Deployed(admin), front), e.context, e.call, t, h);
    }
  }
}
