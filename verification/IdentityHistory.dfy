/** The identity oracle's records, flags, switches and stamps as a function of the calls of a
    run: who was allowed to add a record, what flagged it, and what last touched a subject. */
module IdentityHistory {
  import opened Host
  import opened CreditOracleTypes
  import opened IdentitySpec
  import opened IdentityInvariants

  function StateAfter(admin: Address, es: seq<Entry>): Identity { Run(Deployed(admin), es) }

  // ---- who may anchor ----------------------------------------------------------------------

  /** What the admin's last word on an issuer was. */
  function TrustedAfter(admin: Address, es: seq<Entry>, issuer: Address): bool {
    if es == [] then false
    else
      var front, e := es[..|es| - 1], es[|es| - 1];
      if e.call.SetIssuer? && e.call.issuer == issuer && admin in e.context.auth then e.call.trusted
      else TrustedAfter(admin, front, issuer)
  }

  /** What the admin's last word on the pause was. */
  function PausedAfter(admin: Address, es: seq<Entry>): bool {
    if es == [] then false
    else
      var front, e := es[..|es| - 1], es[|es| - 1];
      if e.call.SetPaused? && admin in e.context.auth then e.call.paused else PausedAfter(admin, front)
  }

  lemma StandingMoves(s: Identity, c: Context, call: IdentityCall)
    ensures var s' := Step(s, c, call);
            && s'.admin == s.admin
            && s'.paused == (if call.SetPaused? && s.admin in c.auth then call.paused else s.paused)
            && (forall i :: GetOr(s'.trusted, i, false)
                         == if call.SetIssuer? && call.issuer == i && s.admin in c.auth then call.trusted
                            else GetOr(s.trusted, i, false))
  {
  }

  /** Trust and pause are the admin's last signed word, in every run. */
  lemma {:induction false} StandingIsLastWord(admin: Address, es: seq<Entry>)
    ensures var s := StateAfter(admin, es);
            && s.admin == admin && s.paused == PausedAfter(admin, es)
            && (forall i :: GetOr(s.trusted, i, false) == TrustedAfter(admin, es, i))
  {
    if es != [] {
      var front, e := es[..|es| - 1], es[|es| - 1];
      StandingIsLastWord(admin, front);
      StandingMoves(StateAfter(admin, front), e.context, e.call);
    }
  }

  /** The j-th call anchored this record for t: signed by its issuer, whom the admin trusted
      at that moment, on an unpaused oracle, at the record's date. */
  predicate IssuedAt(admin: Address, es: seq<Entry>, t: Address, r: VcRecord, j: nat) {
    && j < |es| && es[j].call.AnchorVc?
    && es[j].call.issuer == r.issuer && es[j].call.subject == t && es[j].call.hash == r.hash
    && es[j].context.timestamp == r.anchoredAt
    && r.issuer in es[j].context.auth
    && TrustedAfter(admin, es[..j], r.issuer) && !PausedAfter(admin, es[..j])
  }

  lemma IssuedEarlier(admin: Address, es: seq<Entry>, e: Entry, t: Address, r: VcRecord, r': VcRecord, j: nat)
    requires IssuedAt(admin, es, t, r, j) && r' == r.(revoked := r'.revoked)
    ensures IssuedAt(admin, es + [e], t, r', j)
  {
    assert (es + [e])[..j] == es[..j];
  }

  /** What one call can do to a subject's list: records keep their place, pair and date, and
      only an anchoring adds one, at the end. */
  lemma RecordsMove(s: Identity, c: Context, call: IdentityCall, t: Address)
    ensures var rs, rs' := s.Records(t), Step(s, c, call).Records(t);
            && |rs'| == |rs| + (if AddsRecord(s, c, call) && call.subject == t then 1 else 0)
            && (forall k :: 0 <= k < |rs| ==> rs'[k] == rs[k].(revoked := rs'[k].revoked))
            && (|rs'| > |rs| ==> rs'[|rs|] == VcRecord(call.hash, call.issuer, c.timestamp, false))
  {
  }

  /** In every run every record of every subject goes back to a call of its own issuer, made
      while that issuer was trusted. */
  lemma {:induction false} EveryRecordWasIssued(admin: Address, es: seq<Entry>, t: Address, k: nat)
    requires k < |StateAfter(admin, es).Records(t)|
    ensures exists j: nat :: IssuedAt(admin, es, t, StateAfter(admin, es).Records(t)[k], j)
  {
    if es != [] {
      var front, e := es[..|es| - 1], es[|es| - 1];
      assert es == front + [e];
      var s, r := StateAfter(admin, front), StateAfter(admin, es).Records(t)[k];
      RecordsMove(s, e.context, e.call, t);
      if k < |s.Records(t)| {
        EveryRecordWasIssued(admin, front, t, k);
        var j: nat :| IssuedAt(admin, front, t, s.Records(t)[k], j);
        IssuedEarlier(admin, front, e, t, s.Records(t)[k], r, j);
      } else {
        StandingIsLastWord(admin, front);
        assert es[..|front|] == front;
        assert IssuedAt(admin, es, t, r, |front|);
      }
    }
  }

  /** The cached count of a subject can still grow. */
  predicate CacheHasRoom(s: Identity, c: Context, t: Address, h: Hash) {
    t in s.activeCount ==> s.activeCount[t] + (if h in c.R then 0 else 1) <= U32_MAX
  }

  lemma AnchorStep(s: Identity, c: Context, issuer: Address, t: Address, h: Hash, kind: Symbol)
    ensures var call := AnchorVc(issuer, t, h, kind);
            AddsRecord(s, c, call) <==>
              && !s.paused && issuer in c.auth && GetOr(s.trusted, issuer, false)
              && !HasRecord(s.Records(t), issuer, h) && CountActive(s.Records(t), c.R) < 100
              && CacheHasRoom(s, c, t, h) && s.stats.anchored < U64_MAX
  {
    CountsAfterPush(s.Records(t), IdentitySpec.NewRecord(c, issuer, h), c.R);
  }

  /** In every run an anchoring adds its record, exactly this one and at the end, if and only
      if its trusted issuer signed it on an unpaused oracle, the pair is new, fewer than 100
      records are active, and the counters have room. Otherwise the list stays as it is. */
  lemma AnchorsIff(admin: Address, es: seq<Entry>, c: Context, issuer: Address, t: Address, h: Hash, kind: Symbol)
    ensures var s, s' := StateAfter(admin, es), Step(StateAfter(admin, es), c, AnchorVc(issuer, t, h, kind));
            var rs := s.Records(t);
            && (s'.Records(t) != rs <==>
                  && issuer in c.auth && TrustedAfter(admin, es, issuer) && !PausedAfter(admin, es)
                  && !HasRecord(rs, issuer, h) && CountActive(rs, c.R) < 100
                  && CacheHasRoom(s, c, t, h) && s.stats.anchored < U64_MAX)
            && (s'.Records(t) != rs ==> s'.Records(t) == rs + [VcRecord(h, issuer, c.timestamp, false)])
            && (s'.Records(t) != rs ==> s'.TypeOf(t, h) == kind)
            && (forall u :: u != t ==> s'.Records(u) == s.Records(u))
  {
    StandingIsLastWord(admin, es);
    var s, call := StateAfter(admin, es), AnchorVc(issuer, t, h, kind);
    AnchorStep(s, c, issuer, t, h, kind);
    RecordsMove(s, c, call, t);
    if !AddsRecord(s, c, call) { assert Step(s, c, call) == s; }
  }

  /** Without a registry the cached count always has room. */
  lemma RoomWithoutRegistry(admin: Address, es: seq<Entry>, c: Context, t: Address, h: Hash)
    requires NoRegistry(es)
    ensures CacheHasRoom(StateAfter(admin, es), c, t, h)
  {
    CacheAlwaysAgrees(admin, es);
    assert SubjectInv(StateAfter(admin, es), t, {});
  }

  /** How `anchor_vc_typed` refuses, case by case. */
  lemma AnchorRefusals(admin: Address, es: seq<Entry>, c: Context, issuer: Address, t: Address, h: Hash, kind: Symbol)
    ensures var s := StateAfter(admin, es);
            var v := VerdictOf(s, c, AnchorVc(issuer, t, h, kind));
            var known := HasRecord(s.Records(t), issuer, h);
            var admitted := !PausedAfter(admin, es) && issuer in c.auth && TrustedAfter(admin, es, issuer);
            && (v == Err(IdentityError.ContractPaused) <==> PausedAfter(admin, es))
            && (v == Err(IssuerNotRegistered) <==>
                  !PausedAfter(admin, es) && issuer in c.auth && !TrustedAfter(admin, es, issuer))
            && (v == Err(VCLimitReached) <==> admitted && !known && CountActive(s.Records(t), c.R) >= 100)
            && (v == Ok && Step(s, c, AnchorVc(issuer, t, h, kind)) == s <== admitted && known)
  {
    StandingIsLastWord(admin, es);
  }

  // ---- what flags a record -------------------------------------------------------------------

  /** The call is accepted and flags this subject's records of this pair, by name or all at
      once. */
  predicate Flags(s: Identity, c: Context, call: IdentityCall, t: Address, issuer: Address, h: Hash) {
    && VerdictOf(s, c, call) == Ok
    && (call == MarkRevoked(issuer, t, h) || call == DeactivateDid(t) || call == DeactivateIdentity(t))
  }

  /** Whether a flagging call came after the pair was anchored. */
  function FlaggedAfter(admin: Address, es: seq<Entry>, t: Address, issuer: Address, h: Hash): bool {
    if es == [] then false
    else
      var front, e := es[..|es| - 1], es[|es| - 1];
      var s := StateAfter(admin, front);
      if AddsRecord(s, e.context, e.call) && e.call == AnchorVc(issuer, t, h, e.call.kind) then false
      else FlaggedAfter(admin, front, t, issuer, h) || Flags(s, e.context, e.call, t, issuer, h)
  }

  lemma FlagsMove(s: Identity, c: Context, call: IdentityCall, t: Address, k: nat)
    requires k < |s.Records(t)|
    ensures k < |Step(s, c, call).Records(t)|
    ensures var r := s.Records(t)[k];
            Step(s, c, call).Records(t)[k].revoked <==> r.revoked || Flags(s, c, call, t, r.issuer, r.hash)
  {
    RecordsMove(s, c, call, t);
    if call.SetIssuer? || call.SetPaused? || t != call.subject { OtherSubjectsUntouched(s, c, call, t); }
  }

  /** In every run a record is flagged if and only if, since it was anchored, its issuer's mark
      or its subject's deactivation was accepted. */
  lemma {:induction false} FlagIsHistory(admin: Address, es: seq<Entry>, t: Address, k: nat)
    requires k < |StateAfter(admin, es).Records(t)|
    ensures var r := StateAfter(admin, es).Records(t)[k];
            r.revoked <==> FlaggedAfter(admin, es, t, r.issuer, r.hash)
  {
    if es != [] {
      var front, e := es[..|es| - 1], es[|es| - 1];
      var s, r := StateAfter(admin, front), StateAfter(admin, es).Records(t)[k];
      RecordsMove(s, e.context, e.call, t);
      if k < |s.Records(t)| {
        FlagIsHistory(admin, front, t, k);
        FlagsMove(s, e.context, e.call, t, k);
        assert Matches(s.Records(t)[k], r.issuer, r.hash);
      }
    }
  }

  /** A mark goes through if and only if its issuer signed it on an unpaused oracle, the pair
      is there, and, where a record is still unflagged, both counters have room. */
  lemma MarksIff(admin: Address, es: seq<Entry>, c: Context, issuer: Address, t: Address, h: Hash)
    ensures var s, v := StateAfter(admin, es), VerdictOf(StateAfter(admin, es), c, MarkRevoked(issuer, t, h));
            && (v == Ok <==>
                  && !PausedAfter(admin, es) && issuer in c.auth && HasRecord(s.Records(t), issuer, h)
                  && (HasUnrevokedRecord(s.Records(t), issuer, h) ==>
                        s.stats.revoked < U64_MAX && (t in s.activeCount ==> s.activeCount[t] > 0)))
            && (v == Err(VCNotFound) <==>
                  !PausedAfter(admin, es) && issuer in c.auth && !HasRecord(s.Records(t), issuer, h))
  {
    StandingIsLastWord(admin, es);
  }

  // ---- deactivation and DID documents ----------------------------------------------------------

  /** Whether the last accepted switch turned the subject off. */
  function OffAfter(admin: Address, es: seq<Entry>, t: Address): bool {
    if es == [] then false
    else
      var front, e := es[..|es| - 1], es[|es| - 1];
      if VerdictOf(StateAfter(admin, front), e.context, e.call) != Ok then OffAfter(admin, front, t)
      else if e.call == DeactivateDid(t) || e.call == DeactivateIdentity(t) then true
      else if e.call == Reactivate(t) then false
      else OffAfter(admin, front, t)
  }

  /** The document the subject's last accepted call left. */
  function DidAfter(admin: Address, es: seq<Entry>, t: Address): Option<string> {
    if es == [] then None
    else
      var front, e := es[..|es| - 1], es[|es| - 1];
      if VerdictOf(StateAfter(admin, front), e.context, e.call) != Ok then DidAfter(admin, front, t)
      else if e.call.AnchorDid? && e.call.subject == t then Some(e.call.cid)
      else if e.call == DeactivateDid(t) then None
      else DidAfter(admin, front, t)
  }

  lemma SwitchMoves(s: Identity, c: Context, call: IdentityCall, t: Address)
    ensures var s', ok := Step(s, c, call), VerdictOf(s, c, call) == Ok;
            t in s'.deactivated <==>
              if ok && (call == DeactivateDid(t) || call == DeactivateIdentity(t)) then true
              else if ok && call == Reactivate(t) then false
              else t in s.deactivated
  {
  }

  lemma DidMoves(s: Identity, c: Context, call: IdentityCall, t: Address)
    ensures var s', ok := Step(s, c, call), VerdictOf(s, c, call) == Ok;
            (if t in s'.dids then Some(s'.dids[t]) else None)
            == if ok && call.AnchorDid? && call.subject == t then Some(call.cid)
               else if ok && call == DeactivateDid(t) then None
               else if t in s.dids then Some(s.dids[t]) else None
  {
  }

  /** In every run a subject is deactivated if and only if its last accepted switch was a
      deactivation, and its DID document is the last one it anchored, unless `deactivate_did`
      came after. */
  lemma {:induction false} SwitchesAreHistory(admin: Address, es: seq<Entry>, t: Address)
    ensures var s := StateAfter(admin, es);
            && (t in s.deactivated <==> OffAfter(admin, es, t))
            && (if t in s.dids then Some(s.dids[t]) else None) == DidAfter(admin, es, t)
  {
    if es != [] {
      var front, e := es[..|es| - 1], es[|es| - 1];
      SwitchesAreHistory(admin, front, t);
      SwitchMoves(StateAfter(admin, front), e.context, e.call, t);
      DidMoves(StateAfter(admin, front), e.context, e.call, t);
    }
  }

  /** Only the subject switches itself, and a deactivation needs room for the records it flags
      in the counter of revocations. */
  lemma SwitchesIff(s: Identity, c: Context, t: Address)
    ensures var unflagged := |s.Records(t)| - CountRevoked(s.Records(t));
            && (VerdictOf(s, c, DeactivateDid(t)) == Ok <==>
                  t in c.auth && unflagged <= U32_MAX && s.stats.revoked + unflagged <= U64_MAX)
            && VerdictOf(s, c, DeactivateIdentity(t)) == VerdictOf(s, c, DeactivateDid(t))
            && (VerdictOf(s, c, Reactivate(t)) == Ok <==> t in c.auth)
  {
  }

  /** A document is accepted if and only if its subject signed it on an unpaused oracle and its
      identifier has 7 to 128 characters and one of the three known beginnings. */
  lemma AnchorsDidIff(admin: Address, es: seq<Entry>, c: Context, t: Address, cid: string)
    ensures var s, v := StateAfter(admin, es), VerdictOf(StateAfter(admin, es), c, AnchorDid(t, cid));
            var good := 7 <= |cid| <= 128 && ("ipfs://" <= cid || "bafy" <= cid || "Qm" <= cid);
            && (v == Ok <==> !PausedAfter(admin, es) && t in c.auth && good && s.stats.dids < U64_MAX)
            && (v == Err(InvalidCID) <==> !PausedAfter(admin, es) && t in c.auth && !good)
  {
    StandingIsLastWord(admin, es);
  }

  function DidsIn(admin: Address, es: seq<Entry>): nat {
    if es == [] then 0
    else
      var front, e := es[..|es| - 1], es[|es| - 1];
      DidsIn(admin, front)
      + (if e.call.AnchorDid? && VerdictOf(StateAfter(admin, front), e.context, e.call) == Ok then 1 else 0)
  }

  /** The documents counter is their number. */
  lemma {:induction false} DidsAreCounted(admin: Address, es: seq<Entry>)
    ensures StateAfter(admin, es).stats.dids == DidsIn(admin, es)
  {
    if es != [] {
      hide Step, VerdictOf;
      var front, e := es[..|es| - 1], es[|es| - 1];
      DidsAreCounted(admin, front);
      DidsCountMoves(StateAfter(admin, front), e.context, e.call);
    }
  }

  lemma DidsCountMoves(s: Identity, c: Context, call: IdentityCall)
    ensures Step(s, c, call).stats.dids
         == s.stats.dids + if call.AnchorDid? && VerdictOf(s, c, call) == Ok then 1 else 0
  {
  }

  /** Asking for the active count seeds a missing cache with the recomputation and changes
      nothing else. */
  lemma AskingOnlySeeds(s: Identity, c: Context, t: Address)
    ensures var s' := Step(s, c, GetActiveCount(t));
            && t in s'.activeCount
            && s'.activeCount[t] == (if t in s.activeCount then s.activeCount[t] else CountActive(s.Records(t), c.R))
            && s' == s.(activeCount := s.activeCount[t := s'.activeCount[t]])
  {
  }

  // ---- stamps ------------------------------------------------------------------------------------

  /** The call is accepted and changes the subject's state: a document, a new record, a record
      flagged for the first time, or a switch. */
  predicate ChangesState(s: Identity, c: Context, call: IdentityCall, t: Address) {
    && VerdictOf(s, c, call) == Ok && !call.SetIssuer? && !call.SetPaused? && call.subject == t
    && match call
       case AnchorVc(issuer, _, h, _) => !HasRecord(s.Records(t), issuer, h)
       case MarkRevoked(issuer, _, h) => HasUnrevokedRecord(s.Records(t), issuer, h)
       case GetActiveCount(_) => false
       case _ => true
  }

  /** The stamp moves exactly with such a call, to its ledger. */
  lemma StampMoves(s: Identity, c: Context, call: IdentityCall, t: Address)
    ensures var s' := Step(s, c, call);
            if ChangesState(s, c, call, t) then t in s'.lastChange && s'.lastChange[t] == c.ledger
            else (t in s'.lastChange <==> t in s.lastChange)
                 && (t in s.lastChange ==> s'.lastChange[t] == s.lastChange[t])
  {
  }

  // ---- the two halves of a list ---------------------------------------------------------------------

  function HashesOf(rs: seq<VcRecord>): seq<Hash> { seq(|rs|, i requires 0 <= i < |rs| => rs[i].hash) }

  /** `get_vc_details` and `list_revoked_for_subject` split the list: every entry is in exactly
      one of them, and a hash is listed as revoked exactly when a record of it is. */
  lemma {:induction false} ListsPartition(rs: seq<VcRecord>, R: set<Hash>)
    ensures multiset(HashesOf(ActiveRecords(rs, R))) + multiset(RevokedHashes(rs, R)) == multiset(HashesOf(rs))
    ensures |RevokedHashes(rs, R)| == |rs| - CountActive(rs, R)
    ensures forall h :: h in RevokedHashes(rs, R) <==>
              exists k :: 0 <= k < |rs| && rs[k].hash == h && (rs[k].revoked || h in R)
  {
    if rs == [] {
    } else {
      var front, x := rs[..|rs| - 1], rs[|rs| - 1];
      ListsPartition(front, R);
      assert rs == front + [x];
      assert HashesOf(rs) == HashesOf(front) + [x.hash];
      if !IsRevoked(x, R) {
        assert HashesOf(ActiveRecords(rs, R)) == HashesOf(ActiveRecords(front, R)) + [x.hash];
      }
    }
  }
}
