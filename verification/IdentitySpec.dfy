/** The identity oracle as values: what each call checks, what it leaves behind, and runs
    of calls. `R` is the set of hashes the linked revocation registry reports revoked,
    empty when no registry is linked. */
module IdentitySpec {
  import opened Host
  import opened CreditOracleTypes

  const MAX_VCS_PER_SUBJECT := 100
  const GENERIC: Symbol := "generic"

  datatype IdentityError = IssuerNotRegistered | InvalidCID | VCNotFound | ContractPaused | VCLimitReached

  datatype Stats = Stats(dids: u64, anchored: u64, revoked: u64)

  datatype Identity = Identity(
    admin: Address,
    paused: bool,
    trusted: map<Address, bool>,
    dids: map<Address, string>,
    anchors: map<Address, seq<VcRecord>>,
    activeCount: map<Address, nat>,
    types: map<(Address, Hash), Symbol>,
    deactivated: set<Address>,
    lastChange: map<Address, u32>,
    stats: Stats)
  {
    function Records(subject: Address): seq<VcRecord> { GetOr(anchors, subject, []) }

    function TypeOf(subject: Address, h: Hash): Symbol { GetOr(types, (subject, h), GENERIC) }
  }

  function Deployed(admin: Address): Identity {
    Identity(admin, false, map[], map[], map[], map[], map[], {}, map[], Stats(0, 0, 0))
  }

  /** What the host tells a call: ledger, timestamp, who signed, what the registry says. */
  datatype Context = Context(ledger: u32, timestamp: u64, auth: set<Address>, R: set<Hash>)

  // ---- recomputation over the record list -----------------------------------------

  /** `is_record_revoked`. */
  predicate IsRevoked(r: VcRecord, R: set<Hash>) { r.revoked || r.hash in R }

  /** `compute_active_vc_count`. */
  function CountActive(rs: seq<VcRecord>, R: set<Hash>): nat {
    if rs == [] then 0
    else CountActive(rs[..|rs| - 1], R) + (if IsRevoked(rs[|rs| - 1], R) then 0 else 1)
  }

  function CountRevoked(rs: seq<VcRecord>): nat {
    if rs == [] then 0
    else CountRevoked(rs[..|rs| - 1]) + (if rs[|rs| - 1].revoked then 1 else 0)
  }

  /** `get_vc_details`: the active records, in list order. */
  function ActiveRecords(rs: seq<VcRecord>, R: set<Hash>): seq<VcRecord> {
    if rs == [] then []
    else
      var front := ActiveRecords(rs[..|rs| - 1], R);
      if IsRevoked(rs[|rs| - 1], R) then front else front + [rs[|rs| - 1]]
  }

  /** `list_revoked_for_subject`. */
  function RevokedHashes(rs: seq<VcRecord>, R: set<Hash>): seq<Hash> {
    if rs == [] then []
    else
      var front := RevokedHashes(rs[..|rs| - 1], R);
      if IsRevoked(rs[|rs| - 1], R) then front + [rs[|rs| - 1].hash] else front
  }

  predicate Matches(r: VcRecord, issuer: Address, h: Hash) { r.hash == h && r.issuer == issuer }

  predicate HasRecord(rs: seq<VcRecord>, issuer: Address, h: Hash) {
    exists k :: 0 <= k < |rs| && Matches(rs[k], issuer, h)
  }

  predicate HasUnrevokedRecord(rs: seq<VcRecord>, issuer: Address, h: Hash) {
    exists k :: 0 <= k < |rs| && Matches(rs[k], issuer, h) && !rs[k].revoked
  }

  predicate HasActive(rs: seq<VcRecord>, R: set<Hash>) {
    exists k :: 0 <= k < |rs| && !IsRevoked(rs[k], R)
  }

  /** `verify_vc`. */
  predicate VerifiesVc(rs: seq<VcRecord>, h: Hash, R: set<Hash>) {
    exists k :: 0 <= k < |rs| && rs[k].hash == h && !IsRevoked(rs[k], R)
  }

  // ---- calls ------------------------------------------------------------------------

  datatype IdentityCall =
    | AnchorDid(subject: Address, cid: string)
    | AnchorVc(issuer: Address, subject: Address, hash: Hash, kind: Symbol)
    | MarkRevoked(issuer: Address, subject: Address, hash: Hash)
    | DeactivateDid(subject: Address)
    | DeactivateIdentity(subject: Address)
    | Reactivate(subject: Address)
    | GetActiveCount(subject: Address)
    | SetIssuer(issuer: Address, trusted: bool)
    | SetPaused(paused: bool)

  predicate AcceptedCid(cid: string) {
    7 <= |cid| <= 128 && ("ipfs://" <= cid || "bafy" <= cid || "Qm" <= cid)
  }

  function CheckAnchorDid(s: Identity, c: Context, subject: Address, cid: string): Verdict<IdentityError> {
    if s.paused then Err(IdentityError.ContractPaused)
    else if subject !in c.auth then Trap
    else if !AcceptedCid(cid) then Err(InvalidCID)
    else if s.stats.dids == U64_MAX then Trap
    else Ok
  }

  function AfterAnchorDid(s: Identity, c: Context, subject: Address, cid: string): Identity
    requires CheckAnchorDid(s, c, subject, cid) == Ok
  {
    s.(dids := s.dids[subject := cid],
       lastChange := s.lastChange[subject := c.ledger],
       stats := s.stats.(dids := s.stats.dids + 1))
  }

  function NewRecord(c: Context, issuer: Address, h: Hash): VcRecord {
    VcRecord(h, issuer, c.timestamp, false)
  }

  /** The cache after one more record: incremented when present, seeded otherwise. */
  function CacheAfterAnchor(s: Identity, c: Context, issuer: Address, subject: Address, h: Hash): nat {
    if subject in s.activeCount
    then s.activeCount[subject] + (if h in c.R then 0 else 1)
    else CountActive(s.Records(subject) + [NewRecord(c, issuer, h)], c.R)
  }

  function CheckAnchor(s: Identity, c: Context, issuer: Address, subject: Address, h: Hash)
    : Verdict<IdentityError>
  {
    if s.paused then Err(IdentityError.ContractPaused)
    else if issuer !in c.auth then Trap
    else if !GetOr(s.trusted, issuer, false) then Err(IssuerNotRegistered)
    else if HasRecord(s.Records(subject), issuer, h) then Ok
    else if CountActive(s.Records(subject), c.R) >= MAX_VCS_PER_SUBJECT then Err(VCLimitReached)
    else if CacheAfterAnchor(s, c, issuer, subject, h) > U32_MAX then Trap
    else if s.stats.anchored == U64_MAX then Trap
    else Ok
  }

  /** Anchoring the same (issuer, hash) pair again changes nothing. */
  function AfterAnchor(s: Identity, c: Context, issuer: Address, subject: Address, h: Hash, kind: Symbol)
    : Identity
    requires CheckAnchor(s, c, issuer, subject, h) == Ok
  {
    if HasRecord(s.Records(subject), issuer, h) then s
    else
      s.(types := s.types[(subject, h) := kind],
         anchors := s.anchors[subject := s.Records(subject) + [NewRecord(c, issuer, h)]],
         activeCount := s.activeCount[subject := CacheAfterAnchor(s, c, issuer, subject, h)],
         lastChange := s.lastChange[subject := c.ledger],
         stats := s.stats.(anchored := s.stats.anchored + 1))
  }

  /** The list with the records of one (issuer, hash) pair flagged revoked. */
  function MarkAll(rs: seq<VcRecord>, issuer: Address, h: Hash): seq<VcRecord> {
    seq(|rs|, i requires 0 <= i < |rs| =>
      if Matches(rs[i], issuer, h) then rs[i].(revoked := true) else rs[i])
  }

  function CheckMark(s: Identity, c: Context, issuer: Address, subject: Address, h: Hash)
    : Verdict<IdentityError>
  {
    var rs := s.Records(subject);
    if s.paused then Err(IdentityError.ContractPaused)
    else if issuer !in c.auth then Trap
    else if !HasRecord(rs, issuer, h) then Err(VCNotFound)
    else if HasUnrevokedRecord(rs, issuer, h) && s.stats.revoked == U64_MAX then Trap
    else if HasUnrevokedRecord(rs, issuer, h) && GetOr(s.activeCount, subject, 1) == 0 then Trap
    else Ok
  }

  function AfterMark(s: Identity, c: Context, issuer: Address, subject: Address, h: Hash): Identity
    requires CheckMark(s, c, issuer, subject, h) == Ok
  {
    var rs := s.Records(subject);
    var marked := MarkAll(rs, issuer, h);
    var transitioned := HasUnrevokedRecord(rs, issuer, h);
    var cache :=
      if subject !in s.activeCount then CountActive(marked, c.R)
      else if transitioned then s.activeCount[subject] - 1
      else s.activeCount[subject];
    s.(anchors := s.anchors[subject := marked],
       activeCount := s.activeCount[subject := cache],
       lastChange := if transitioned then s.lastChange[subject := c.ledger] else s.lastChange,
       stats := if transitioned then s.stats.(revoked := s.stats.revoked + 1) else s.stats)
  }

  /** The list with every record flagged revoked. */
  function RevokeAll(rs: seq<VcRecord>): seq<VcRecord> {
    seq(|rs|, i requires 0 <= i < |rs| => rs[i].(revoked := true))
  }

  function NewlyRevoked(rs: seq<VcRecord>): nat {
    CountRevokedBound(rs);
    |rs| - CountRevoked(rs)
  }

  lemma {:induction false} CountRevokedBound(rs: seq<VcRecord>)
    ensures CountRevoked(rs) <= |rs|
  {
    if rs != [] { CountRevokedBound(rs[..|rs| - 1]); }
  }

  function CheckDeactivate(s: Identity, c: Context, subject: Address): Verdict<IdentityError> {
    if subject !in c.auth then Trap
    else if NewlyRevoked(s.Records(subject)) > U32_MAX then Trap
    else if s.stats.revoked + NewlyRevoked(s.Records(subject)) > U64_MAX then Trap
    else Ok
  }

  /** `deactivate_core`, shared by both deactivation paths. */
  function AfterDeactivateCore(s: Identity, c: Context, subject: Address): Identity
    requires CheckDeactivate(s, c, subject) == Ok
  {
    s.(deactivated := s.deactivated + {subject},
       anchors := if s.Records(subject) == [] then s.anchors
                  else s.anchors[subject := RevokeAll(s.Records(subject))],
       stats := s.stats.(revoked := s.stats.revoked + NewlyRevoked(s.Records(subject))),
       activeCount := s.activeCount[subject := 0],
       lastChange := s.lastChange[subject := c.ledger])
  }

  function AfterReactivate(s: Identity, c: Context, subject: Address): Identity {
    s.(deactivated := s.deactivated - {subject}, lastChange := s.lastChange[subject := c.ledger])
  }

  /** `get_active_vc_count` writes the cache when it is missing. */
  function AfterGetActiveCount(s: Identity, c: Context, subject: Address): Identity {
    if subject in s.activeCount then s
    else s.(activeCount := s.activeCount[subject := CountActive(s.Records(subject), c.R)])
  }

  function VerdictOf(s: Identity, c: Context, call: IdentityCall): Verdict<IdentityError> {
    match call
    case AnchorDid(subject, cid) => CheckAnchorDid(s, c, subject, cid)
    case AnchorVc(issuer, subject, h, _) => CheckAnchor(s, c, issuer, subject, h)
    case MarkRevoked(issuer, subject, h) => CheckMark(s, c, issuer, subject, h)
    case DeactivateDid(subject) => CheckDeactivate(s, c, subject)
    case DeactivateIdentity(subject) => CheckDeactivate(s, c, subject)
    case Reactivate(subject) => if subject in c.auth then Ok else Trap
    case GetActiveCount(_) => Ok
    case SetIssuer(_, _) => if s.admin in c.auth then Ok else Trap
    case SetPaused(_) => if s.admin in c.auth then Ok else Trap
  }

  function Step(s: Identity, c: Context, call: IdentityCall): Identity {
    if VerdictOf(s, c, call) != Ok then s
    else
      match call
      case AnchorDid(subject, cid) => AfterAnchorDid(s, c, subject, cid)
      case AnchorVc(issuer, subject, h, kind) => AfterAnchor(s, c, issuer, subject, h, kind)
      case MarkRevoked(issuer, subject, h) => AfterMark(s, c, issuer, subject, h)
      case DeactivateDid(subject) =>
        var core := AfterDeactivateCore(s, c, subject);
        core.(dids := core.dids - {subject})
      case DeactivateIdentity(subject) => AfterDeactivateCore(s, c, subject)
      case Reactivate(subject) => AfterReactivate(s, c, subject)
      case GetActiveCount(subject) => AfterGetActiveCount(s, c, subject)
      case SetIssuer(issuer, trusted) => s.(trusted := s.trusted[issuer := trusted])
      case SetPaused(paused) => s.(paused := paused)
  }

  datatype Entry = Entry(context: Context, call: IdentityCall)

  function Run(s: Identity, es: seq<Entry>): Identity {
    if es == [] then s
    else Step(Run(s, es[..|es| - 1]), es[|es| - 1].context, es[|es| - 1].call)
  }

  predicate NoRegistry(es: seq<Entry>) {
    forall k :: 0 <= k < |es| ==> es[k].context.R == {}
  }
}
