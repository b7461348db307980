/** The revocation registry and the identity oracle as the contracts are written: fields
    updated in place, loops over stored lists, calls into each other. Every method is tied
    to the value-level specification of its call. */
module IdentityContracts {
  import opened Host
  import opened CreditOracleTypes
  import opened IdentitySpec
  import Reg = RegistrySpec
  import LinkedRegistry

  /** The host environment of one call. */
  datatype Env = Env(ledger: u32, timestamp: u64, auth: set<Address>)

  class RevocationRegistry {
    var paused: bool
    var batchLimit: u32
    var registered: map<Hash, Address>
    var status: map<Hash, bool>
    var revokedBy: map<Hash, Address>
    var lists: map<Address, seq<Hash>>
    var identityOracle: IdentityOracle?

    ghost function View(): Reg.Registry
      reads this
    {
      Reg.Registry(paused, batchLimit, registered, status, revokedBy, lists)
    }

    constructor ()
      ensures View() == Reg.EMPTY && identityOracle == null
    {
      paused, batchLimit := false, Reg.MAX_BATCH_SIZE;
      registered, status, revokedBy, lists := map[], map[], map[], map[];
      identityOracle := null;
    }

    /** What the linked oracle will be told by the registries once h has its status. */
    ghost function ReportedWith(h: Hash): set<Hash>
      requires identityOracle != null
      reads this, identityOracle, identityOracle.registry
    {
      if identityOracle.registry == this then Reg.RevokedSet(View()) + {h} else identityOracle.Reported()
    }

    /** The registry and its oracle are linked to each other. */
    ghost predicate LinkedBack()
      reads this, identityOracle
    {
      identityOracle != null && identityOracle.registry == this
    }

    ghost function World(): LinkedRegistry.World
      requires LinkedBack()
      reads this, identityOracle
    {
      LinkedRegistry.World(View(), identityOracle.View())
    }

    ghost function RevokeEntry(env: Env, issuer: Address, subject: Address, h: Hash): LinkedRegistry.WorldEntry {
      LinkedRegistry.WorldEntry(env.ledger, env.timestamp, env.auth, LinkedRegistry.Revoke(issuer, subject, h))
    }

    ghost predicate ForwardSucceeds(env: Env, issuer: Address, subject: Address, h: Hash)
      reads this, identityOracle, if identityOracle == null then {} else {identityOracle.registry}
    {
      identityOracle != null ==>
        CheckMark(identityOracle.View(), Context(env.ledger, env.timestamp, env.auth, ReportedWith(h)),
                  issuer, subject, h) == Ok
    }

    /** The three hash-keyed writes that `revoke` and `batch_revoke` share; refused when the
        hash is registered to another issuer. */
    method WriteStatus(issuer: Address, h: Hash) returns (mine: bool)
      modifies this`registered, this`status, this`revokedBy
      ensures mine == !old(View()).Foreign(issuer, h)
      ensures !mine ==> View() == old(View())
      ensures mine ==> registered == old(if h in registered then registered else registered[h := issuer])
                       && status == old(status)[h := true] && revokedBy == old(revokedBy)[h := issuer]
    {
      if h in registered {
        if registered[h] != issuer { return false; }
      } else {
        registered := registered[h := issuer];
      }
      status := status[h := true];
      revokedBy := revokedBy[h := issuer];
      mine := true;
    }

    /** Tells the linked oracle, if any. */
    method Forward(env: Env, issuer: Address, subject: Address, h: Hash) returns (ok: bool)
      modifies identityOracle
      ensures identityOracle == null ==> ok
      ensures identityOracle != null ==>
        && ok == (CheckMark(old(identityOracle.View()), old(identityOracle.Ctx(env)), issuer, subject, h) == Ok)
        && identityOracle.View() == (if ok
             then AfterMark(old(identityOracle.View()), old(identityOracle.Ctx(env)), issuer, subject, h)
             else old(identityOracle.View()))
        && identityOracle.registry == old(identityOracle.registry)
    {
      if identityOracle == null { return true; }
      var v := identityOracle.MarkVcRevoked(env, issuer, subject, h);
      ok := v == Ok;
    }

    /** `revoke` up to the list: the status is written before the oracle is called; when the
        oracle refuses, the call aborts and the writes are rolled back. */
    method WriteAndForward(env: Env, issuer: Address, subject: Address, h: Hash)
      returns (v: Verdict<Reg.RegistryError>)
      modifies this`registered, this`status, this`revokedBy, identityOracle
      ensures v == if old(View()).Foreign(issuer, h) then Err(Reg.IssuerMismatch)
                   else if old(ForwardSucceeds(env, issuer, subject, h)) then Ok else Trap
      ensures v != Ok ==> View() == old(View())
      ensures v == Ok ==> registered == old(if h in registered then registered else registered[h := issuer])
                          && status == old(status)[h := true] && revokedBy == old(revokedBy)[h := issuer]
      ensures identityOracle != null ==>
        && identityOracle.registry == old(identityOracle.registry)
        && identityOracle.View() ==
             if v == Ok
             then AfterMark(old(identityOracle.View()),
                            Context(env.ledger, env.timestamp, env.auth, old(ReportedWith(h))), issuer, subject, h)
             else old(identityOracle.View())
    {
      var frame := (registered, status, revokedBy);
      var mine := WriteStatus(issuer, h);
      if !mine { return Err(Reg.IssuerMismatch); }
      assert identityOracle != null ==> identityOracle.Reported() == old(ReportedWith(h));
      var marked := Forward(env, issuer, subject, h);
      if !marked {
        registered, status, revokedBy := frame.0, frame.1, frame.2;
        return Trap;
      }
      v := Ok;
    }

    /** The issuer's list, extended unless the hash is already in it. */
    method Enlist(issuer: Address, h: Hash)
      modifies this`lists
      ensures lists == if h in old(View()).ListOf(issuer) then old(lists)
                       else old(lists)[issuer := old(View()).ListOf(issuer) + [h]]
    {
      var list := GetOr(lists, issuer, []);
      if h !in list {
        lists := lists[issuer := list + [h]];
      }
    }

    /** `revoke`: the issuer's list is extended last. */
    method Revoke(env: Env, issuer: Address, subject: Address, h: Hash)
      returns (v: Verdict<Reg.RegistryError>)
      modifies this`registered, this`status, this`revokedBy, this`lists, identityOracle
      ensures v == Reg.CheckRevoke(old(View()), env.auth, issuer, h, old(ForwardSucceeds(env, issuer, subject, h)))
      ensures View() == if v == Ok then Reg.AfterRevoke(old(View()), issuer, h) else old(View())
      ensures identityOracle != null ==>
        && identityOracle.registry == old(identityOracle.registry)
        && identityOracle.View() ==
             if v == Ok
             then AfterMark(old(identityOracle.View()),
                            Context(env.ledger, env.timestamp, env.auth, old(ReportedWith(h))), issuer, subject, h)
             else old(identityOracle.View())
      ensures LinkedBack() ==> World() == LinkedRegistry.Step(old(World()), RevokeEntry(env, issuer, subject, h))
    {
      hide CheckMark, AfterMark;
      if paused { return Err(Reg.ContractPaused); }
      if issuer !in env.auth { return Trap; }
      v := WriteAndForward(env, issuer, subject, h);
      if v == Ok { Enlist(issuer, h); }
      if LinkedBack() {
        LinkedRegistry.StepFromOutcomes(old(World()), World(), RevokeEntry(env, issuer, subject, h));
      }
    }

    /** The loop of `batch_revoke`. It stops at the first mismatch, with what it has written
        so far still in place; the issuer's list is only extended in a local copy. */
    method RevokeEach(issuer: Address, hashes: seq<Hash>)
      returns (mine: bool, list: seq<Hash>, listModified: bool)
      modifies this`registered, this`status, this`revokedBy
      ensures mine == !Reg.AnyForeign(old(View()), issuer, hashes)
      ensures mine ==> Reg.BatchProgress(old(View()), issuer, hashes, registered, status, revokedBy, list)
      ensures mine ==> (listModified <==> list != old(View()).ListOf(issuer))
    {
      hide Reg.BatchProgress;
      ghost var r := View();
      list, listModified := GetOr(lists, issuer, []), false;
      Reg.BatchBegins(r, issuer, hashes[..0]);
      for k := 0 to |hashes|
        invariant Reg.BatchProgress(r, issuer, hashes[..k], registered, status, revokedBy, list)
        invariant !Reg.AnyForeign(r, issuer, hashes[..k])
        invariant listModified <==> list != r.ListOf(issuer)
      {
        var h := hashes[k];
        assert hashes[..k + 1] == hashes[..k] + [h];
        Reg.BatchAdvances(r, issuer, hashes[..k], h, registered, status, revokedBy, list);
        mine := WriteStatus(issuer, h);
        if !mine {
          assert r.Foreign(issuer, hashes[k]);
          return;
        }
        if h !in list {
          list := list + [h];
          listModified := true;
        }
      }
      assert hashes[..|hashes|] == hashes;
      mine := true;
    }

    /** `batch_revoke`: the list is written back once at the end; a mismatch in the middle
        rolls back what was written before it. */
    method BatchRevoke(env: Env, issuer: Address, hashes: seq<Hash>) returns (v: Verdict<Reg.RegistryError>)
      modifies this`registered, this`status, this`revokedBy, this`lists
      ensures v == Reg.CheckBatch(old(View()), env.auth, issuer, hashes)
      ensures View() == if v == Ok then Reg.AfterBatch(old(View()), issuer, hashes) else old(View())
      ensures LinkedBack() ==> World() == LinkedRegistry.Step(old(World()),
        LinkedRegistry.WorldEntry(env.ledger, env.timestamp, env.auth, LinkedRegistry.BatchRevoke(issuer, hashes)))
    {
      if paused { return Err(Reg.ContractPaused); }
      if issuer !in env.auth { return Trap; }
      if |hashes| > batchLimit { return Err(Reg.BatchTooLarge); }
      var frame := (registered, status, revokedBy);
      var mine, list, listModified := RevokeEach(issuer, hashes);
      if !mine {
        registered, status, revokedBy := frame.0, frame.1, frame.2;
        return Err(Reg.IssuerMismatch);
      }
      if listModified {
        lists := lists[issuer := list];
      }
      v := Ok;
    }

    method IsRevoked(h: Hash) returns (revoked: bool)
      ensures revoked == View().IsRevoked(h)
      ensures revoked <==> h in Reg.RevokedSet(View())
    {
      revoked := GetOr(status, h, false);
    }

    method GetRevocationRecord(h: Hash) returns (issuer: Option<Address>)
      ensures issuer.Some? <==> h in View().revokedBy
      ensures issuer.Some? ==> issuer.value == View().revokedBy[h]
      ensures Reg.IndexesAgree(View()) ==>
        && (issuer.Some? <==> h in Reg.RevokedSet(View()))
        && (forall a :: h in View().ListOf(a) <==> issuer == Some(a))
    {
      issuer := if h in revokedBy then Some(revokedBy[h]) else None;
    }

    /** `list_revoked`; `None` when the checked `cursor + limit` overflows. */
    method ListRevoked(issuer: Address, cursor: u32, limit: u32) returns (page: Option<seq<Hash>>)
      ensures page == Reg.Page(View().ListOf(issuer), cursor, limit)
    {
      var list := GetOr(lists, issuer, []);
      if cursor >= |list| || limit == 0 { return Some([]); }
      if cursor + limit > U32_MAX { return None; }
      var end := Min(cursor + limit, |list|);
      var result := [];
      for i := cursor to end
        invariant result == list[cursor..i]
      {
        result := result + [list[i]];
      }
      page := Some(result);
    }
  }

  class IdentityOracle {
    var admin: Address
    var paused: bool
    var trusted: map<Address, bool>
    var dids: map<Address, string>
    var anchors: map<Address, seq<VcRecord>>
    var activeCount: map<Address, nat>
    var types: map<(Address, Hash), Symbol>
    var deactivated: set<Address>
    var lastChange: map<Address, u32>
    var stats: Stats
    var registry: RevocationRegistry?

    ghost function View(): Identity
      reads this
    {
      Identity(admin, paused, trusted, dids, anchors, activeCount, types, deactivated, lastChange, stats)
    }

    /** The hashes the linked registry reports revoked; none without a registry. */
    ghost function Reported(): set<Hash>
      reads this`registry, registry
    {
      if registry == null then {} else Reg.RevokedSet(registry.View())
    }

    ghost function Ctx(env: Env): Context
      reads this, registry
    {
      Context(env.ledger, env.timestamp, env.auth, Reported())
    }

    constructor (admin: Address)
      ensures View() == Deployed(admin) && registry == null
    {
      this.admin, paused, trusted, dids := admin, false, map[], map[];
      anchors, activeCount, types, deactivated := map[], map[], map[], {};
      lastChange, stats, registry := map[], Stats(0, 0, 0), null;
    }

    /** `is_record_revoked`. */
    method IsRecordRevoked(r: VcRecord) returns (revoked: bool)
      ensures revoked == IsRevoked(r, Reported())
    {
      if r.revoked { return true; }
      if registry != null {
        revoked := registry.IsRevoked(r.hash);
      } else {
        revoked := false;
      }
    }

    method CountUnrevoked(rs: seq<VcRecord>) returns (count: nat)
      ensures count == CountActive(rs, Reported())
    {
      count := 0;
      for i := 0 to |rs|
        invariant count == CountActive(rs[..i], Reported())
      {
        var revoked := IsRecordRevoked(rs[i]);
        assert rs[..i + 1][..i] == rs[..i];
        if !revoked { count := count + 1; }
      }
      assert rs[..|rs|] == rs;
    }

    /** `seed_active_vc_count`. */
    method SeedActiveCount(subject: Address) returns (count: nat)
      modifies this`activeCount
      ensures count == CountActive(View().Records(subject), Reported())
      ensures activeCount == old(activeCount)[subject := count]
    {
      count := CountUnrevoked(GetOr(anchors, subject, []));
      activeCount := activeCount[subject := count];
    }

    /** The duplicate search of `anchor_vc_typed`. */
    method FindRecord(rs: seq<VcRecord>, issuer: Address, h: Hash) returns (found: bool)
      ensures found == HasRecord(rs, issuer, h)
    {
      for i := 0 to |rs|
        invariant forall j :: 0 <= j < i ==> !Matches(rs[j], issuer, h)
      {
        if rs[i].hash == h && rs[i].issuer == issuer { return true; }
      }
      found := false;
    }

    /** What `anchor_vc_typed` finds out before it writes: the verdict, whether the pair is
        already there, and the next cached count. */
    method AdmitRecord(env: Env, issuer: Address, subject: Address, h: Hash)
      returns (v: Verdict<IdentityError>, duplicate: bool, cache: nat)
      ensures v == CheckAnchor(View(), Ctx(env), issuer, subject, h)
      ensures v == Ok ==> duplicate == HasRecord(View().Records(subject), issuer, h)
      ensures v == Ok && !duplicate ==>
        cache == CacheAfterAnchor(View(), Ctx(env), issuer, subject, h) && stats.anchored < U64_MAX
    {
      hide CountActive, HasRecord;
      duplicate, cache := false, 0;
      if paused { return Err(IdentityError.ContractPaused), false, 0; }
      if issuer !in env.auth { return Trap, false, 0; }
      if !GetOr(trusted, issuer, false) { return Err(IssuerNotRegistered), false, 0; }
      var rs := GetOr(anchors, subject, []);
      duplicate := FindRecord(rs, issuer, h);
      if duplicate { return Ok, true, 0; }
      var active := CountUnrevoked(rs);
      if active >= MAX_VCS_PER_SUBJECT { return Err(VCLimitReached), false, 0; }
      var record := VcRecord(h, issuer, env.timestamp, false);
      var revoked := IsRecordRevoked(record);
      if subject in activeCount {
        cache := activeCount[subject] + (if revoked then 0 else 1);
      } else {
        cache := CountUnrevoked(rs + [record]);
      }
      v := if cache > U32_MAX || stats.anchored == U64_MAX then Trap else Ok;
    }

    /** `anchor_vc_typed`. */
    method AnchorVcTyped(env: Env, issuer: Address, subject: Address, h: Hash, kind: Symbol)
      returns (v: Verdict<IdentityError>)
      modifies this`types, this`anchors, this`activeCount, this`lastChange, this`stats
      ensures v == CheckAnchor(old(View()), old(Ctx(env)), issuer, subject, h)
      ensures View() == if v == Ok then AfterAnchor(old(View()), old(Ctx(env)), issuer, subject, h, kind)
                        else old(View())
    {
      hide CheckAnchor, CacheAfterAnchor, HasRecord;
      var duplicate, cache;
      v, duplicate, cache := AdmitRecord(env, issuer, subject, h);
      if v == Ok && !duplicate {
        types := types[(subject, h) := kind];
        anchors := anchors[subject := GetOr(anchors, subject, []) + [VcRecord(h, issuer, env.timestamp, false)]];
        lastChange := lastChange[subject := env.ledger];
        activeCount := activeCount[subject := cache];
        stats := stats.(anchored := stats.anchored + 1);
      }
    }

    /** The loop of `mark_vc_revoked`: the list is rebuilt record by record. */
    method MarkMatching(rs: seq<VcRecord>, issuer: Address, h: Hash)
      returns (found: bool, transitioned: bool, updated: seq<VcRecord>)
      ensures found == HasRecord(rs, issuer, h)
      ensures transitioned == HasUnrevokedRecord(rs, issuer, h)
      ensures updated == MarkAll(rs, issuer, h)
    {
      found, transitioned, updated := false, false, [];
      for i := 0 to |rs|
        invariant |updated| == i
        invariant forall j :: 0 <= j < i ==>
          updated[j] == if Matches(rs[j], issuer, h) then rs[j].(revoked := true) else rs[j]
        invariant found <==> exists j :: 0 <= j < i && Matches(rs[j], issuer, h)
        invariant transitioned <==> exists j :: 0 <= j < i && Matches(rs[j], issuer, h) && !rs[j].revoked
      {
        var record := rs[i];
        if record.hash == h && record.issuer == issuer {
          if !record.revoked { transitioned := true; }
          record := record.(revoked := true);
          found := true;
        }
        updated := updated + [record];
      }
    }

    /** What `mark_vc_revoked` finds out before it writes: the verdict, the rebuilt list,
        whether some record changes, and the next cached count. */
    method AdmitRevocation(env: Env, issuer: Address, subject: Address, h: Hash)
      returns (v: Verdict<IdentityError>, updated: seq<VcRecord>, transitioned: bool, cache: nat)
      ensures v == CheckMark(View(), Ctx(env), issuer, subject, h)
      ensures v == Ok ==>
        && updated == MarkAll(View().Records(subject), issuer, h)
        && transitioned == HasUnrevokedRecord(View().Records(subject), issuer, h)
        && cache == AfterMark(View(), Ctx(env), issuer, subject, h).activeCount[subject]
    {
      updated, transitioned, cache := [], false, 0;
      if paused { return Err(IdentityError.ContractPaused), [], false, 0; }
      if issuer !in env.auth { return Trap, [], false, 0; }
      var found;
      found, transitioned, updated := MarkMatching(GetOr(anchors, subject, []), issuer, h);
      if !found { return Err(VCNotFound), [], false, 0; }
      if transitioned && stats.revoked == U64_MAX { return Trap, [], false, 0; }
      if subject in activeCount {
        if transitioned && activeCount[subject] == 0 { return Trap, [], false, 0; }
        cache := activeCount[subject] - (if transitioned then 1 else 0);
      } else {
        cache := CountUnrevoked(updated);
      }
      v := Ok;
    }

    /** `mark_vc_revoked`. */
    method MarkVcRevoked(env: Env, issuer: Address, subject: Address, h: Hash)
      returns (v: Verdict<IdentityError>)
      modifies this`anchors, this`activeCount, this`lastChange, this`stats
      ensures v == CheckMark(old(View()), old(Ctx(env)), issuer, subject, h)
      ensures View() == if v == Ok then AfterMark(old(View()), old(Ctx(env)), issuer, subject, h) else old(View())
    {
      var updated, transitioned, cache;
      v, updated, transitioned, cache := AdmitRevocation(env, issuer, subject, h);
      if v == Ok {
        anchors := anchors[subject := updated];
        if transitioned {
          lastChange := lastChange[subject := env.ledger];
          stats := stats.(revoked := stats.revoked + 1);
        }
        activeCount := activeCount[subject := cache];
      }
    }

    /** The loop of `deactivate_core`. */
    method RevokeEach(rs: seq<VcRecord>) returns (count: nat, updated: seq<VcRecord>)
      ensures count == NewlyRevoked(rs)
      ensures updated == RevokeAll(rs)
    {
      count, updated := 0, [];
      for i := 0 to |rs|
        invariant |updated| == i
        invariant forall j :: 0 <= j < i ==> updated[j] == rs[j].(revoked := true)
        invariant count == i - CountRevoked(rs[..i])
      {
        assert rs[..i + 1][..i] == rs[..i];
        if !rs[i].revoked { count := count + 1; }
        updated := updated + [rs[i].(revoked := true)];
      }
      assert rs[..|rs|] == rs;
    }

    /** What `deactivate_core` finds out before it writes: the verdict, how many records it
        will flag, and the rebuilt list. */
    method AdmitDeactivation(env: Env, subject: Address)
      returns (v: Verdict<IdentityError>, count: nat, updated: seq<VcRecord>)
      ensures v == CheckDeactivate(View(), Ctx(env), subject)
      ensures v == Ok ==>
        && count == NewlyRevoked(View().Records(subject)) && stats.revoked + count <= U64_MAX
        && updated == RevokeAll(View().Records(subject))
    {
      count, updated := 0, [];
      if subject !in env.auth { return Trap, 0, []; }
      count, updated := RevokeEach(GetOr(anchors, subject, []));
      v := if count > U32_MAX || stats.revoked + count > U64_MAX then Trap else Ok;
    }

    /** `deactivate_core`: flags every record and zeroes the cache. */
    method DeactivateCore(env: Env, subject: Address) returns (v: Verdict<IdentityError>, count: nat)
      modifies this`deactivated, this`anchors, this`activeCount, this`lastChange, this`stats
      ensures v == CheckDeactivate(old(View()), old(Ctx(env)), subject)
      ensures View() == if v == Ok then AfterDeactivateCore(old(View()), old(Ctx(env)), subject) else old(View())
      ensures v == Ok ==> count == NewlyRevoked(old(View()).Records(subject))
    {
      hide CheckDeactivate, NewlyRevoked, RevokeAll;
      var updated;
      v, count, updated := AdmitDeactivation(env, subject);
      if v == Ok {
        deactivated := deactivated + {subject};
        if GetOr(anchors, subject, []) != [] { anchors := anchors[subject := updated]; }
        if count > 0 { stats := stats.(revoked := stats.revoked + count); }
        activeCount := activeCount[subject := 0];
        lastChange := lastChange[subject := env.ledger];
      }
    }

    /** `deactivate_did`: the core, and the DID document is removed. */
    method DeactivateDid(env: Env, subject: Address) returns (v: Verdict<IdentityError>)
      modifies this`dids, this`deactivated, this`anchors, this`activeCount, this`lastChange, this`stats
      ensures v == VerdictOf(old(View()), old(Ctx(env)), IdentityCall.DeactivateDid(subject))
      ensures View() == Step(old(View()), old(Ctx(env)), IdentityCall.DeactivateDid(subject))
    {
      var revokedCount;
      v, revokedCount := DeactivateCore(env, subject);
      if v == Ok { dids := dids - {subject}; }
    }

    /** `reactivate_identity`. */
    method ReactivateIdentity(env: Env, subject: Address) returns (v: Verdict<IdentityError>)
      modifies this`deactivated, this`lastChange
      ensures v == VerdictOf(old(View()), old(Ctx(env)), Reactivate(subject))
      ensures View() == Step(old(View()), old(Ctx(env)), Reactivate(subject))
    {
      if subject !in env.auth { return Trap; }
      deactivated := deactivated - {subject};
      lastChange := lastChange[subject := env.ledger];
      v := Ok;
    }

    /** `get_active_vc_count` seeds the cache when it is missing. */
    method GetActiveVcCount(env: Env, subject: Address) returns (count: nat)
      modifies this`activeCount
      ensures View() == AfterGetActiveCount(old(View()), old(Ctx(env)), subject)
      ensures count == View().activeCount[subject]
    {
      if subject in activeCount { return activeCount[subject]; }
      count := SeedActiveCount(subject);
    }

    /** `get_vc_details`. */
    method GetVcDetails(subject: Address) returns (active: seq<VcRecord>)
      ensures active == ActiveRecords(View().Records(subject), Reported())
    {
      var rs := GetOr(anchors, subject, []);
      active := [];
      for i := 0 to |rs|
        invariant active == ActiveRecords(rs[..i], Reported())
      {
        var revoked := IsRecordRevoked(rs[i]);
        assert rs[..i + 1][..i] == rs[..i];
        if !revoked { active := active + [rs[i]]; }
      }
      assert rs[..|rs|] == rs;
    }

    /** `list_revoked_for_subject`. */
    method ListRevokedForSubject(subject: Address) returns (hashes: seq<Hash>)
      ensures hashes == RevokedHashes(View().Records(subject), Reported())
    {
      var rs := GetOr(anchors, subject, []);
      hashes := [];
      for i := 0 to |rs|
        invariant hashes == RevokedHashes(rs[..i], Reported())
      {
        var revoked := IsRecordRevoked(rs[i]);
        assert rs[..i + 1][..i] == rs[..i];
        if revoked { hashes := hashes + [rs[i].hash]; }
      }
      assert rs[..|rs|] == rs;
    }

    /** `verify_vc`. */
    method VerifyVc(subject: Address, h: Hash) returns (valid: bool)
      ensures valid == VerifiesVc(View().Records(subject), h, Reported())
    {
      var rs := GetOr(anchors, subject, []);
      for i := 0 to |rs|
        invariant forall j :: 0 <= j < i ==> rs[j].hash != h || IsRevoked(rs[j], Reported())
      {
        if rs[i].hash == h {
          var revoked := IsRecordRevoked(rs[i]);
          if !revoked { return true; }
        }
      }
      valid := false;
    }

    /** `is_verified`: some active record, and not deactivated. */
    method IsVerified(subject: Address) returns (verified: bool)
      ensures verified <==> subject !in View().deactivated
                            && HasActive(View().Records(subject), Reported())
    {
      if subject in deactivated { return false; }
      var rs := GetOr(anchors, subject, []);
      for i := 0 to |rs|
        invariant forall j :: 0 <= j < i ==> IsRevoked(rs[j], Reported())
      {
        var revoked := IsRecordRevoked(rs[i]);
        if !revoked { return true; }
      }
      verified := false;
    }

    method IsDeactivated(subject: Address) returns (off: bool)
      ensures off == (subject in View().deactivated)
    {
      off := subject in deactivated;
    }

    method GetLastStateChangeLedger(subject: Address) returns (ledger: Option<u32>)
      ensures ledger.Some? <==> subject in View().lastChange
      ensures ledger.Some? ==> ledger.value == View().lastChange[subject]
    {
      ledger := if subject in lastChange then Some(lastChange[subject]) else None;
    }

    method GetVcCredentialType(subject: Address, h: Hash) returns (kind: Symbol)
      ensures kind == View().TypeOf(subject, h)
    {
      kind := GetOr(types, (subject, h), GENERIC);
    }
  }
}
