/** The identity oracle and the revocation registry linked to each other: the oracle asks
    the registry about every record, and `revoke` forwards to `mark_vc_revoked`. */
module LinkedRegistry {
  import opened Host
  import opened CreditOracleTypes
  import opened IdentitySpec
  import opened IdentityInvariants
  import Reg = RegistrySpec

  datatype World = World(registry: Reg.Registry, identity: Identity)

  function Linked(admin: Address): World { World(Reg.EMPTY, Deployed(admin)) }

  function R(w: World): set<Hash> { Reg.RevokedSet(w.registry) }

  datatype WorldCall =
    | OnIdentity(call: IdentityCall)
    | Revoke(issuer: Address, subject: Address, hash: Hash)
    | BatchRevoke(issuer: Address, hashes: seq<Hash>)
    | ConfigureRegistry(paused: bool, batchLimit: u32)

  datatype WorldEntry = WorldEntry(ledger: u32, timestamp: u64, auth: set<Address>, call: WorldCall)

  function ContextOf(e: WorldEntry, revoked: set<Hash>): Context {
    Context(e.ledger, e.timestamp, e.auth, revoked)
  }

  /** The oracle is called back after the registry has written the status. */
  function MarkContext(w: World, e: WorldEntry): Context
    requires e.call.Revoke?
  {
    ContextOf(e, R(w) + {e.call.hash})
  }

  function RevokeVerdict(w: World, e: WorldEntry): Verdict<Reg.RegistryError>
    requires e.call.Revoke?
  {
    var marked := CheckMark(w.identity, MarkContext(w, e), e.call.issuer, e.call.subject, e.call.hash) == Ok;
    Reg.CheckRevoke(w.registry, e.auth, e.call.issuer, e.call.hash, marked)
  }

  function Step(w: World, e: WorldEntry): World {
    match e.call
    case OnIdentity(call) =>
      w.(identity := IdentitySpec.Step(w.identity, ContextOf(e, R(w)), call))
    case Revoke(issuer, subject, h) =>
      if RevokeVerdict(w, e) != Ok then w
      else World(Reg.AfterRevoke(w.registry, issuer, h),
                 AfterMark(w.identity, MarkContext(w, e), issuer, subject, h))
    case BatchRevoke(issuer, hs) =>
      if Reg.CheckBatch(w.registry, e.auth, issuer, hs) != Ok then w
      else w.(registry := Reg.AfterBatch(w.registry, issuer, hs))
    case ConfigureRegistry(paused, limit) =>
      w.(registry := w.registry.(paused := paused, batchLimit := limit))
  }

  /** A step read off the two contracts' own outcomes. */
  lemma StepFromOutcomes(w: World, w': World, e: WorldEntry)
    requires e.call.Revoke?
    requires w'.registry == if RevokeVerdict(w, e) == Ok then Reg.AfterRevoke(w.registry, e.call.issuer, e.call.hash)
                            else w.registry
    requires w'.identity == if RevokeVerdict(w, e) == Ok
                            then AfterMark(w.identity, MarkContext(w, e), e.call.issuer, e.call.subject, e.call.hash)
                            else w.identity
    ensures w' == Step(w, e)
  {
  }

  function Run(w: World, es: seq<WorldEntry>): World {
    if es == [] then w else Step(Run(w, es[..|es| - 1]), es[|es| - 1])
  }

  // ---- a linked run is a run of each contract ---------------------------------------------

  /** What the oracle sees of a call: its own, and a mark for an accepted `revoke`. */
  function OracleCall(w: World, e: WorldEntry): seq<Entry> {
    match e.call
    case OnIdentity(call) => [Entry(ContextOf(e, R(w)), call)]
    case Revoke(issuer, subject, h) =>
      if RevokeVerdict(w, e) == Ok then [Entry(MarkContext(w, e), MarkRevoked(issuer, subject, h))] else []
    case _ => []
  }

  /** What the registry sees of it. */
  function RegistryCall(w: World, e: WorldEntry): seq<Reg.Entry> {
    match e.call
    case OnIdentity(_) => []
    case Revoke(issuer, subject, h) =>
      var marked := CheckMark(w.identity, MarkContext(w, e), issuer, subject, h) == Ok;
      [Reg.Entry(e.auth, Reg.Revoke(issuer, h, marked))]
    case BatchRevoke(issuer, hs) => [Reg.Entry(e.auth, Reg.BatchRevoke(issuer, hs))]
    case ConfigureRegistry(paused, limit) => [Reg.Entry(e.auth, Reg.Configure(paused, limit))]
  }

  function OracleCalls(w: World, es: seq<WorldEntry>): seq<Entry> {
    if es == [] then []
    else OracleCalls(w, es[..|es| - 1]) + OracleCall(Run(w, es[..|es| - 1]), es[|es| - 1])
  }

  function RegistryCalls(w: World, es: seq<WorldEntry>): seq<Reg.Entry> {
    if es == [] then []
    else RegistryCalls(w, es[..|es| - 1]) + RegistryCall(Run(w, es[..|es| - 1]), es[|es| - 1])
  }

  lemma OracleMoves(w: World, e: WorldEntry)
    ensures |OracleCall(w, e)| <= 1
    ensures Step(w, e).identity
         == if OracleCall(w, e) == [] then w.identity
            else IdentitySpec.Step(w.identity, OracleCall(w, e)[0].context, OracleCall(w, e)[0].call)
  {
  }

  lemma RegistryMoves(w: World, e: WorldEntry)
    ensures |RegistryCall(w, e)| <= 1
    ensures Step(w, e).registry
         == if RegistryCall(w, e) == [] then w.registry else Reg.Step(w.registry, RegistryCall(w, e)[0])
  {
    hide AfterMark, Reg.AfterRevoke, Reg.AfterBatch;
  }

  lemma OracleRunExtends(s: Identity, es: seq<Entry>, more: seq<Entry>)
    requires |more| <= 1
    ensures IdentitySpec.Run(s, es + more)
         == if more == [] then IdentitySpec.Run(s, es)
            else IdentitySpec.Step(IdentitySpec.Run(s, es), more[0].context, more[0].call)
  {
    hide IdentitySpec.Step;
    assert es + more == if more == [] then es else es + [more[0]];
    assert (es + more)[..|es|] == es;
  }

  lemma RegistryRunExtends(r: Reg.Registry, es: seq<Reg.Entry>, more: seq<Reg.Entry>)
    requires |more| <= 1
    ensures Reg.Run(r, es + more) == if more == [] then Reg.Run(r, es) else Reg.Step(Reg.Run(r, es), more[0])
  {
    hide Reg.Step;
    assert es + more == if more == [] then es else es + [more[0]];
    assert (es + more)[..|es|] == es;
  }

  /** Each of the two linked contracts is where its own part of the run leads it, so what is
      proved about runs of either alone holds for the linked system. */
  lemma {:induction false} LinkedRunsProject(w: World, es: seq<WorldEntry>)
    ensures Run(w, es).identity == IdentitySpec.Run(w.identity, OracleCalls(w, es))
    ensures Run(w, es).registry == Reg.Run(w.registry, RegistryCalls(w, es))
  {
    if es != [] {
      hide Step, OracleCall, RegistryCall, IdentitySpec.Step, Reg.Step, IdentitySpec.Run, Reg.Run;
      var front, e := es[..|es| - 1], es[|es| - 1];
      LinkedRunsProject(w, front);
      OracleMoves(Run(w, front), e);
      RegistryMoves(Run(w, front), e);
      OracleRunExtends(w.identity, OracleCalls(w, front), OracleCall(Run(w, front), e));
      RegistryRunExtends(w.registry, RegistryCalls(w, front), RegistryCall(Run(w, front), e));
    }
  }

  // ---- what a revocation changes -------------------------------------------------------

  lemma {:induction false} BatchReports(r: Reg.Registry, issuer: Address, hs: seq<Hash>)
    ensures Reg.RevokedSet(Reg.AfterBatch(r, issuer, hs)) == Reg.RevokedSet(r) + set h | h in hs
  {
  }

  /** Once the cache is present, flagging does not depend on what the registry says. */
  lemma MarkIgnoresRegistry(s: Identity, c: Context, c': Context, issuer: Address, subject: Address, h: Hash)
    requires c' == c.(R := c'.R)
    requires s.Records(subject) != [] ==> subject in s.activeCount
    ensures CheckMark(s, c, issuer, subject, h) == CheckMark(s, c', issuer, subject, h)
    ensures CheckMark(s, c, issuer, subject, h) == Ok
            ==> AfterMark(s, c, issuer, subject, h) == AfterMark(s, c', issuer, subject, h)
  {
  }

  lemma RevokeReports(r: Reg.Registry, issuer: Address, h: Hash)
    ensures Reg.RevokedSet(Reg.AfterRevoke(r, issuer, h)) == Reg.RevokedSet(r) + {h}
  {
  }

  /** What `revoke` leaves in the oracle is what a direct `mark_vc_revoked` would, although
      the registry already reports the hash when it calls. */
  lemma RevokeIsMark(w: World, e: WorldEntry)
    requires e.call.Revoke? && RevokeVerdict(w, e) == Ok
    requires w.identity.Records(e.call.subject) != [] ==> e.call.subject in w.identity.activeCount
    ensures var c := ContextOf(e, R(w));
            && CheckMark(w.identity, c, e.call.issuer, e.call.subject, e.call.hash) == Ok
            && Step(w, e).identity == AfterMark(w.identity, c, e.call.issuer, e.call.subject, e.call.hash)
            && R(Step(w, e)) == R(w) + {e.call.hash}
  {
    MarkIgnoresRegistry(w.identity, ContextOf(e, R(w)), MarkContext(w, e), e.call.issuer, e.call.subject, e.call.hash);
    RevokeReports(w.registry, e.call.issuer, e.call.hash);
  }

  // ---- runs in which every hash is anchored by one issuer for one subject ---------------

  predicate Anchors(e: WorldEntry, issuer: Address, subject: Address, h: Hash) {
    e.call.OnIdentity? && e.call.call.AnchorVc?
    && e.call.call.issuer == issuer && e.call.call.subject == subject && e.call.call.hash == h
  }

  predicate AnchoredOnce(es: seq<WorldEntry>) {
    forall i, j :: 0 <= i < |es| && 0 <= j < |es|
      && es[i].call.OnIdentity? && es[i].call.call.AnchorVc?
      && es[j].call.OnIdentity? && es[j].call.call.AnchorVc?
      && es[i].call.call.hash == es[j].call.call.hash
      ==> es[i].call.call.issuer == es[j].call.call.issuer
          && es[i].call.call.subject == es[j].call.call.subject
  }

  predicate NoBatches(es: seq<WorldEntry>) {
    forall k :: 0 <= k < |es| ==> !es[k].call.BatchRevoke?
  }

  predicate AnchoredIn(es: seq<WorldEntry>, issuer: Address, subject: Address, h: Hash) {
    exists j :: 0 <= j < |es| && Anchors(es[j], issuer, subject, h)
  }

  /** Every record goes back to an anchoring call of the run. */
  ghost predicate RecordsComeFrom(s: Identity, es: seq<WorldEntry>) {
    forall t, k :: 0 <= k < |s.Records(t)| ==>
      AnchoredIn(es, s.Records(t)[k].issuer, t, s.Records(t)[k].hash)
  }

  predicate CarriedBy(rs: seq<VcRecord>, h: Hash) { exists k :: 0 <= k < |rs| && rs[k].hash == h }

  /** Whatever the registry reports was anchored before. */
  ghost predicate ReportsOnlyAnchored(w: World) {
    forall h :: h in R(w) ==> exists t :: CarriedBy(w.identity.Records(t), h)
  }

  ghost predicate WorldInv(w: World, es: seq<WorldEntry>) {
    && CacheInv(w.identity, R(w))
    && RecordsComeFrom(w.identity, es)
    && ReportsOnlyAnchored(w)
  }

  /** What a single oracle call can do to one subject's issuers and hashes. */
  lemma StepRecords(s: Identity, c: Context, call: IdentityCall, t: Address)
    ensures var rs, rs' := s.Records(t), IdentitySpec.Step(s, c, call).Records(t);
            && |rs| <= |rs'| <= |rs| + 1
            && (forall k :: 0 <= k < |rs| ==> rs'[k].issuer == rs[k].issuer && rs'[k].hash == rs[k].hash)
            && (|rs'| == |rs| + 1 ==>
                  call.AnchorVc? && call.subject == t && Matches(rs'[|rs|], call.issuer, call.hash))
  {
    if call.SetIssuer? || call.SetPaused? || t != call.subject {
      OtherSubjectsUntouched(s, c, call, t);
    } else {
      OwnRecordsAfterStep(s, c, call);
    }
  }

  lemma OwnRecordsAfterStep(s: Identity, c: Context, call: IdentityCall)
    requires !call.SetIssuer? && !call.SetPaused?
    ensures var rs, rs' := s.Records(call.subject), IdentitySpec.Step(s, c, call).Records(call.subject);
            || rs' == rs
            || (call.MarkRevoked? && rs' == MarkAll(rs, call.issuer, call.hash))
            || rs' == RevokeAll(rs)
            || (call.AnchorVc? && rs' == rs + [NewRecord(c, call.issuer, call.hash)])
  {
  }

  lemma AnchoredInMore(es: seq<WorldEntry>, e: WorldEntry, issuer: Address, subject: Address, h: Hash)
    requires AnchoredIn(es, issuer, subject, h)
    ensures AnchoredIn(es + [e], issuer, subject, h)
  {
    var j :| 0 <= j < |es| && Anchors(es[j], issuer, subject, h);
    assert Anchors((es + [e])[j], issuer, subject, h);
  }

  lemma StepKeepsOrigins(s: Identity, c: Context, call: IdentityCall, es: seq<WorldEntry>, e: WorldEntry)
    requires RecordsComeFrom(s, es)
    requires call.AnchorVc? ==> e.call == OnIdentity(call)
    ensures RecordsComeFrom(IdentitySpec.Step(s, c, call), es + [e])
  {
    var s' := IdentitySpec.Step(s, c, call);
    forall t, k | 0 <= k < |s'.Records(t)|
      ensures AnchoredIn(es + [e], s'.Records(t)[k].issuer, t, s'.Records(t)[k].hash)
    {
      StepRecords(s, c, call, t);
      if k < |s.Records(t)| {
        AnchoredInMore(es, e, s.Records(t)[k].issuer, t, s.Records(t)[k].hash);
      } else {
        assert Anchors((es + [e])[|es|], call.issuer, call.subject, call.hash);
      }
    }
  }

  lemma StepKeepsCarried(s: Identity, c: Context, call: IdentityCall, t: Address, h: Hash)
    requires CarriedBy(s.Records(t), h)
    ensures CarriedBy(IdentitySpec.Step(s, c, call).Records(t), h)
  {
    var k :| 0 <= k < |s.Records(t)| && s.Records(t)[k].hash == h;
    StepRecords(s, c, call, t);
    assert IdentitySpec.Step(s, c, call).Records(t)[k].hash == h;
  }

  /** In a run that anchors each hash once, two records with one hash are one record. */
  lemma SameHashSameRecord(s: Identity, es: seq<WorldEntry>, issuer: Address, subject: Address, h: Hash,
                           t: Address, k: nat)
    requires AnchoredOnce(es) && RecordsComeFrom(s, es)
    requires AnchoredIn(es, issuer, subject, h)
    requires k < |s.Records(t)| && s.Records(t)[k].hash == h
    ensures t == subject && s.Records(t)[k].issuer == issuer
  {
    var i :| 0 <= i < |es| && Anchors(es[i], issuer, subject, h);
    var j :| 0 <= j < |es| && Anchors(es[j], s.Records(t)[k].issuer, t, h);
  }

  lemma IdentityCallKeepsWorld(w: World, es: seq<WorldEntry>, e: WorldEntry)
    requires WorldInv(w, es) && AnchoredOnce(es + [e]) && e.call.OnIdentity?
    ensures WorldInv(Step(w, e), es + [e])
  {
    var call, c := e.call.call, ContextOf(e, R(w));
    if call.AnchorVc? && call.hash in R(w) {
      var t :| CarriedBy(w.identity.Records(t), call.hash);
      var k :| 0 <= k < |w.identity.Records(t)| && w.identity.Records(t)[k].hash == call.hash;
      assert Anchors((es + [e])[|es|], call.issuer, call.subject, call.hash);
      forall t, k | 0 <= k < |w.identity.Records(t)|
        ensures AnchoredIn(es + [e], w.identity.Records(t)[k].issuer, t, w.identity.Records(t)[k].hash)
      {
        AnchoredInMore(es, e, w.identity.Records(t)[k].issuer, t, w.identity.Records(t)[k].hash);
      }
      SameHashSameRecord(w.identity, es + [e], call.issuer, call.subject, call.hash, t, k);
    }
    StepKeepsCacheInv(w.identity, c, call);
    StepKeepsOrigins(w.identity, c, call, es, e);
    var s' := Step(w, e).identity;
    forall h | h in R(w) ensures exists t :: CarriedBy(s'.Records(t), h) {
      var t :| CarriedBy(w.identity.Records(t), h);
      StepKeepsCarried(w.identity, c, call, t, h);
      assert CarriedBy(s'.Records(t), h);
    }
  }

  lemma RevokeKeepsWorld(w: World, es: seq<WorldEntry>, e: WorldEntry)
    requires WorldInv(w, es) && AnchoredOnce(es + [e]) && e.call.Revoke?
    requires RevokeVerdict(w, e) == Ok
    ensures WorldInv(Step(w, e), es + [e])
  {
    var Revoke(issuer, subject, h) := e.call;
    var c := ContextOf(e, R(w));
    var w' := Step(w, e);
    var s, s' := w.identity, w'.identity;
    assert SubjectInv(s, subject, R(w));
    var mark := MarkRevoked(issuer, subject, h);
    RevokeIsMark(w, e);
    assert s' == IdentitySpec.Step(s, c, mark);
    StepKeepsCacheInv(s, c, mark);
    StepKeepsOrigins(s, c, mark, es, e);
    var m :| 0 <= m < |s.Records(subject)| && Matches(s.Records(subject)[m], issuer, h);
    assert s'.Records(subject)[m].hash == h && CarriedBy(s'.Records(subject), h);
    assert AnchoredIn(es, issuer, subject, h);
    AnchoredInMore(es, e, issuer, subject, h);
    forall t, k | 0 <= k < |s'.Records(t)| && s'.Records(t)[k].hash == h
      ensures s'.Records(t)[k].revoked
    {
      SameHashSameRecord(s', es + [e], issuer, subject, h, t, k);
    }
    forall t ensures SubjectInv(s', t, R(w')) {
      assert SubjectInv(s', t, R(w));
      SameActivity(s'.Records(t), R(w), R(w'));
    }
    forall g | g in R(w') ensures exists t :: CarriedBy(s'.Records(t), g) {
      if g != h {
        var t :| CarriedBy(s.Records(t), g);
        StepKeepsCarried(s, c, mark, t, g);
      }
    }
  }

  /** With the registry linked from the start, all registry revocations going through
      `revoke`, and each hash anchored by one issuer for one subject, every cache is right
      in every reachable state and no active count exceeds 100. */
  lemma {:induction false} LinkedCachesAlwaysAgree(admin: Address, es: seq<WorldEntry>)
    requires NoBatches(es) && AnchoredOnce(es)
    ensures WorldInv(Run(Linked(admin), es), es)
  {
    if es == [] {
      assert R(Linked(admin)) == {};
    } else {
      var front, e := es[..|es| - 1], es[|es| - 1];
      assert es == front + [e];
      assert AnchoredOnce(front) by {
        assert forall k :: 0 <= k < |front| ==> front[k] == es[k];
      }
      LinkedCachesAlwaysAgree(admin, front);
      var w := Run(Linked(admin), front);
      if e.call.OnIdentity? {
        IdentityCallKeepsWorld(w, front, e);
      } else if e.call.Revoke? && RevokeVerdict(w, e) == Ok {
        RevokeKeepsWorld(w, front, e);
      } else {
        forall t, k | 0 <= k < |w.identity.Records(t)|
          ensures AnchoredIn(es, w.identity.Records(t)[k].issuer, t, w.identity.Records(t)[k].hash)
        {
          AnchoredInMore(front, e, w.identity.Records(t)[k].issuer, t, w.identity.Records(t)[k].hash);
        }
      }
    }
  }
}
