/** The revocation registry as values: four redundant indexes over revoked hashes, the
    single and the batch operation, runs of calls, and paging. */
module RegistrySpec {
  import opened Host
  import opened Arithmetic

  const MAX_BATCH_SIZE := 100

  datatype RegistryError = IssuerMismatch | BatchTooLarge | ContractPaused

  datatype Registry = Registry(
    paused: bool,
    batchLimit: u32,
    registered: map<Hash, Address>,
    status: map<Hash, bool>,
    revokedBy: map<Hash, Address>,
    lists: map<Address, seq<Hash>>)
  {
    function ListOf(issuer: Address): seq<Hash> { GetOr(lists, issuer, []) }

    predicate IsRevoked(h: Hash) { GetOr(status, h, false) }

    /** Registered, but to somebody else. */
    predicate Foreign(issuer: Address, h: Hash) {
      h in registered && registered[h] != issuer
    }
  }

  const EMPTY := Registry(false, MAX_BATCH_SIZE, map[], map[], map[], map[])

  function RevokedSet(r: Registry): set<Hash> {
    set h | h in r.status && r.status[h]
  }

  // ---- revoke ---------------------------------------------------------------------

  /** `marked` is the outcome of forwarding the revocation to a linked identity oracle;
      it is true when no oracle is linked. */
  function CheckRevoke(r: Registry, auth: set<Address>, issuer: Address, h: Hash, marked: bool)
    : Verdict<RegistryError>
  {
    if r.paused then Err(ContractPaused)
    else if issuer !in auth then Trap
    else if r.Foreign(issuer, h) then Err(IssuerMismatch)
    else if !marked then Trap
    else Ok
  }

  function AfterRevoke(r: Registry, issuer: Address, h: Hash): Registry {
    r.(registered := if h in r.registered then r.registered else r.registered[h := issuer],
       status := r.status[h := true],
       revokedBy := r.revokedBy[h := issuer],
       lists := if h in r.ListOf(issuer) then r.lists
                else r.lists[issuer := r.ListOf(issuer) + [h]])
  }

  // ---- batch_revoke ---------------------------------------------------------------

  predicate AnyForeign(r: Registry, issuer: Address, hs: seq<Hash>) {
    exists k :: 0 <= k < |hs| && r.Foreign(issuer, hs[k])
  }

  function CheckBatch(r: Registry, auth: set<Address>, issuer: Address, hs: seq<Hash>)
    : Verdict<RegistryError>
  {
    if r.paused then Err(ContractPaused)
    else if issuer !in auth then Trap
    else if |hs| > r.batchLimit then Err(BatchTooLarge)
    else if AnyForeign(r, issuer, hs) then Err(IssuerMismatch)
    else Ok
  }

  /** `list` extended by the members of hs it lacks, in order, each once. */
  function AppendNew(list: seq<Hash>, hs: seq<Hash>): seq<Hash> {
    if hs == [] then list
    else
      var before := AppendNew(list, hs[..|hs| - 1]);
      if hs[|hs| - 1] in before then before else before + [hs[|hs| - 1]]
  }

  function WriteAll<V>(m: map<Hash, V>, hs: seq<Hash>, v: V): map<Hash, V> {
    m + (map h | h in hs :: v)
  }

  /** Every hash of the batch is written to the three hash-keyed maps at once, and the
      issuer's list is extended once. */
  function AfterBatch(r: Registry, issuer: Address, hs: seq<Hash>): Registry {
    var list := AppendNew(r.ListOf(issuer), hs);
    r.(registered := WriteAll(r.registered, hs, issuer),
       status := WriteAll(r.status, hs, true),
       revokedBy := WriteAll(r.revokedBy, hs, issuer),
       lists := if list == r.ListOf(issuer) then r.lists else r.lists[issuer := list])
  }

  // ---- runs -----------------------------------------------------------------------

  datatype RegistryCall =
    | Revoke(issuer: Address, hash: Hash, marked: bool)
    | BatchRevoke(issuer: Address, hashes: seq<Hash>)
    | Configure(paused: bool, batchLimit: u32)

  datatype Entry = Entry(auth: set<Address>, call: RegistryCall)

  function VerdictOf(r: Registry, e: Entry): Verdict<RegistryError> {
    match e.call
    case Revoke(issuer, h, marked) => CheckRevoke(r, e.auth, issuer, h, marked)
    case BatchRevoke(issuer, hs) => CheckBatch(r, e.auth, issuer, hs)
    case Configure(_, _) => Ok
  }

  /** A failed call leaves the registry as it was. */
  function Step(r: Registry, e: Entry): Registry {
    if VerdictOf(r, e) != Ok then r
    else
      match e.call
      case Revoke(issuer, h, _) => AfterRevoke(r, issuer, h)
      case BatchRevoke(issuer, hs) => AfterBatch(r, issuer, hs)
      case Configure(paused, limit) => r.(paused := paused, batchLimit := limit)
  }

  function Run(r: Registry, es: seq<Entry>): Registry {
    if es == [] then r else Step(Run(r, es[..|es| - 1]), es[|es| - 1])
  }

  // ---- a batch is the fold of its members -----------------------------------------

  /** Calling `revoke` on each hash in turn, stopping at the first failure. Only registry
      state is compared, so each forwarded call is taken to succeed. */
  function FoldRevoke(r: Registry, auth: set<Address>, issuer: Address, hs: seq<Hash>)
    : (Verdict<RegistryError>, Registry)
  {
    if hs == [] then (Ok, r)
    else
      var (v, r') := FoldRevoke(r, auth, issuer, hs[..|hs| - 1]);
      if v != Ok then (v, r')
      else
        var h := hs[|hs| - 1];
        var v' := CheckRevoke(r', auth, issuer, h, true);
        (v', if v' == Ok then AfterRevoke(r', issuer, h) else r')
  }

  lemma MapWriteSnoc<V>(m: map<Hash, V>, hs: seq<Hash>, h: Hash, v: V)
    ensures WriteAll(m, hs + [h], v) == WriteAll(m, hs, v)[h := v]
  {
  }

  /** Writing the list back once at the end is writing it back after every push. */
  lemma ListWriteSnoc(r: Registry, issuer: Address, hs: seq<Hash>, h: Hash)
    ensures AfterBatch(r, issuer, hs + [h]).lists
         == AfterRevoke(AfterBatch(r, issuer, hs), issuer, h).lists
  {
    var b := AfterBatch(r, issuer, hs);
    var start := r.ListOf(issuer);
    var before, after := AppendNew(start, hs), AppendNew(start, hs + [h]);
    assert (hs + [h])[..|hs|] == hs;
    AppendNewExtends(start, hs);
    assert b.ListOf(issuer) == before;
    if h in before {
      assert after == before;
    } else {
      assert after == before + [h];
      assert |after| > |start|;
      assert b.lists[issuer := after] == r.lists[issuer := after];
    }
  }

  lemma RegisteredWriteSnoc(r: Registry, issuer: Address, hs: seq<Hash>, h: Hash)
    requires !r.Foreign(issuer, h)
    ensures var before := WriteAll(r.registered, hs, issuer);
            WriteAll(r.registered, hs + [h], issuer) == if h in before then before else before[h := issuer]
  {
    var before := WriteAll(r.registered, hs, issuer);
    MapWriteSnoc(r.registered, hs, h, issuer);
    if h in before {
      assert before[h := issuer] == before;
    }
  }

  lemma AfterBatchSnoc(r: Registry, issuer: Address, hs: seq<Hash>, h: Hash)
    requires !r.Foreign(issuer, h)
    ensures AfterBatch(r, issuer, hs + [h]) == AfterRevoke(AfterBatch(r, issuer, hs), issuer, h)
  {
    RegisteredWriteSnoc(r, issuer, hs, h);
    MapWriteSnoc(r.status, hs, h, true);
    MapWriteSnoc(r.revokedBy, hs, h, issuer);
    ListWriteSnoc(r, issuer, hs, h);
  }

  lemma {:induction false} AppendNewExtends(list: seq<Hash>, hs: seq<Hash>)
    ensures list <= AppendNew(list, hs)
    ensures forall h :: h in AppendNew(list, hs) <==> h in list || h in hs
  {
    if hs != [] {
      var last := hs[|hs| - 1];
      assert hs == hs[..|hs| - 1] + [last];
      AppendNewExtends(list, hs[..|hs| - 1]);
    }
  }

  lemma AppendNewSnoc(list: seq<Hash>, hs: seq<Hash>, h: Hash)
    ensures var before := AppendNew(list, hs);
            AppendNew(list, hs + [h]) == if h in before then before else before + [h]
    ensures |AppendNew(list, hs)| >= |list|
  {
    assert (hs + [h])[..|hs|] == hs;
    AppendNewExtends(list, hs);
  }

  lemma AnyForeignSnoc(r: Registry, issuer: Address, hs: seq<Hash>, h: Hash)
    ensures AnyForeign(r, issuer, hs + [h]) <==> AnyForeign(r, issuer, hs) || r.Foreign(issuer, h)
  {
    var all := hs + [h];
    if AnyForeign(r, issuer, hs) {
      var k :| 0 <= k < |hs| && r.Foreign(issuer, hs[k]);
      assert r.Foreign(issuer, all[k]);
    }
    assert all[|hs|] == h;
  }

  /** Writing a batch makes no further hash foreign and none less so. */
  lemma BatchKeepsForeign(r: Registry, issuer: Address, hs: seq<Hash>, h: Hash)
    requires !AnyForeign(r, issuer, hs)
    ensures AfterBatch(r, issuer, hs).Foreign(issuer, h) <==> r.Foreign(issuer, h)
  {
    if h in hs {
      var k :| 0 <= k < |hs| && hs[k] == h;
      assert !r.Foreign(issuer, hs[k]);
    }
  }

  /** What folding comes to: the first foreign hash stops it, otherwise it is the batch. */
  lemma {:induction false} FoldIsBatch(r: Registry, auth: set<Address>, issuer: Address, hs: seq<Hash>)
    requires !r.paused && issuer in auth
    ensures var (v, r') := FoldRevoke(r, auth, issuer, hs);
            if AnyForeign(r, issuer, hs) then v == Err(IssuerMismatch)
            else v == Ok && r' == AfterBatch(r, issuer, hs)
  {
    if hs == [] {
      assert AfterBatch(r, issuer, hs) == r;
    } else {
      var front, h := hs[..|hs| - 1], hs[|hs| - 1];
      assert hs == front + [h];
      FoldIsBatch(r, auth, issuer, front);
      AnyForeignSnoc(r, issuer, front, h);
      if !AnyForeign(r, issuer, front) {
        BatchKeepsForeign(r, issuer, front, h);
        if !r.Foreign(issuer, h) {
          AfterBatchSnoc(r, issuer, front, h);
        }
      }
    }
  }

  /** How far the batch loop has come after the hashes in `done`. */
  predicate BatchProgress(r: Registry, issuer: Address, done: seq<Hash>, registered: map<Hash, Address>,
                          status: map<Hash, bool>, revokedBy: map<Hash, Address>, list: seq<Hash>)
  {
    && registered == WriteAll(r.registered, done, issuer)
    && status == WriteAll(r.status, done, true)
    && revokedBy == WriteAll(r.revokedBy, done, issuer)
    && list == AppendNew(r.ListOf(issuer), done)
  }

  lemma BatchBegins(r: Registry, issuer: Address, done: seq<Hash>)
    requires done == []
    ensures BatchProgress(r, issuer, done, r.registered, r.status, r.revokedBy, r.ListOf(issuer))
  {
  }

  /** One more hash: it is foreign to the maps written so far exactly when it was foreign
      before the batch, and otherwise three writes and a push bring the loop forward. */
  lemma BatchAdvances(r: Registry, issuer: Address, done: seq<Hash>, h: Hash, registered: map<Hash, Address>,
                      status: map<Hash, bool>, revokedBy: map<Hash, Address>, list: seq<Hash>)
    requires BatchProgress(r, issuer, done, registered, status, revokedBy, list)
    requires !AnyForeign(r, issuer, done)
    ensures (h in registered && registered[h] != issuer) <==> r.Foreign(issuer, h)
    ensures AnyForeign(r, issuer, done + [h]) <==> r.Foreign(issuer, h)
    ensures |list| >= |r.ListOf(issuer)|
    ensures !r.Foreign(issuer, h) ==>
              BatchProgress(r, issuer, done + [h],
                            if h in registered then registered else registered[h := issuer],
                            status[h := true], revokedBy[h := issuer],
                            if h in list then list else list + [h])
  {
    BatchKeepsForeign(r, issuer, done, h);
    AnyForeignSnoc(r, issuer, done, h);
    AppendNewSnoc(r.ListOf(issuer), done, h);
    if !r.Foreign(issuer, h) {
      RegisteredWriteSnoc(r, issuer, done, h);
      MapWriteSnoc(r.status, done, h, true);
      MapWriteSnoc(r.revokedBy, done, h, issuer);
    }
  }

  /** With the batch within its limit, `batch_revoke` reaches the verdict and leaves the
      maps and list order that `revoke` on each hash in turn would, repeats included. It
      fails on a mismatch exactly when some hash belongs to another issuer beforehand. */
  lemma BatchIsFold(r: Registry, auth: set<Address>, issuer: Address, hs: seq<Hash>)
    requires !r.paused && issuer in auth && |hs| <= r.batchLimit
    ensures var (v, r') := FoldRevoke(r, auth, issuer, hs);
            && v == CheckBatch(r, auth, issuer, hs)
            && (v == Err(IssuerMismatch) <==> AnyForeign(r, issuer, hs))
            && (v == Ok ==> r' == AfterBatch(r, issuer, hs))
  {
    FoldIsBatch(r, auth, issuer, hs);
  }

  // ---- the four indexes agree -------------------------------------------------------

  predicate NoDuplicates(list: seq<Hash>) {
    forall i, j :: 0 <= i < j < |list| ==> list[i] != list[j]
  }

  /** A hash has a true status exactly when it has a registered and a revoking issuer,
      which coincide; it stands, once, in that issuer's list and in no other. */
  ghost predicate IndexesAgree(r: Registry) {
    && (forall h :: h in r.status <==> h in r.registered)
    && (forall h :: h in r.revokedBy <==> h in r.registered)
    && (forall h :: h in r.status ==> r.status[h])
    && (forall h :: h in r.registered ==> r.revokedBy[h] == r.registered[h])
    && (forall a, h :: h in r.ListOf(a) <==> h in r.registered && r.registered[h] == a)
    && (forall a :: NoDuplicates(r.ListOf(a)))
  }

  lemma RevokeKeepsIndexes(r: Registry, issuer: Address, h: Hash)
    requires IndexesAgree(r) && !r.Foreign(issuer, h)
    ensures IndexesAgree(AfterRevoke(r, issuer, h))
  {
    var r' := AfterRevoke(r, issuer, h);
    forall a ensures NoDuplicates(r'.ListOf(a)) {
      if a != issuer || h in r.ListOf(issuer) {
        assert r'.ListOf(a) == r.ListOf(a);
      }
    }
    forall a, k ensures k in r'.ListOf(a) <==> k in r'.registered && r'.registered[k] == a {
      if a != issuer || h in r.ListOf(issuer) {
        assert r'.ListOf(a) == r.ListOf(a);
      }
    }
  }

  lemma {:induction false} BatchKeepsIndexes(r: Registry, issuer: Address, hs: seq<Hash>)
    requires IndexesAgree(r) && !AnyForeign(r, issuer, hs)
    ensures IndexesAgree(AfterBatch(r, issuer, hs))
  {
    if hs == [] {
      assert AfterBatch(r, issuer, hs) == r;
    } else {
      var front, h := hs[..|hs| - 1], hs[|hs| - 1];
      assert hs == front + [h];
      AnyForeignSnoc(r, issuer, front, h);
      BatchKeepsIndexes(r, issuer, front);
      AfterBatchSnoc(r, issuer, front, h);
      BatchKeepsForeign(r, issuer, front, h);
      RevokeKeepsIndexes(AfterBatch(r, issuer, front), issuer, h);
    }
  }

  /** Every run of single and batch revocations keeps the four indexes in agreement. */
  lemma {:induction false} RunKeepsIndexes(es: seq<Entry>)
    ensures IndexesAgree(Run(EMPTY, es))
  {
    if es != [] {
      var r, e := Run(EMPTY, es[..|es| - 1]), es[|es| - 1];
      RunKeepsIndexes(es[..|es| - 1]);
      if VerdictOf(r, e) == Ok {
        match e.call
        case Revoke(issuer, h, _) => RevokeKeepsIndexes(r, issuer, h);
        case BatchRevoke(issuer, hs) => BatchKeepsIndexes(r, issuer, hs);
        case Configure(_, _) =>
          forall a ensures Step(r, e).ListOf(a) == r.ListOf(a) {}
      }
    }
  }

  // ---- revocation is permanent -------------------------------------------------------

  /** Later states only add: no issuer is replaced, no status cleared, and every list
      keeps what it had as its beginning. */
  ghost predicate OnlyGrows(r: Registry, r': Registry) {
    && (forall h :: h in r.registered ==> h in r'.registered && r'.registered[h] == r.registered[h])
    && (forall h :: r.IsRevoked(h) ==> r'.IsRevoked(h))
    && (forall a :: r.ListOf(a) <= r'.ListOf(a))
  }

  lemma BatchOnlyGrows(r: Registry, issuer: Address, hs: seq<Hash>)
    requires !AnyForeign(r, issuer, hs)
    ensures OnlyGrows(r, AfterBatch(r, issuer, hs))
  {
    AppendNewExtends(r.ListOf(issuer), hs);
    forall h | h in r.registered
      ensures AfterBatch(r, issuer, hs).registered[h] == r.registered[h]
    {
      if h in hs {
        var k :| 0 <= k < |hs| && hs[k] == h;
        assert !r.Foreign(issuer, hs[k]);
      }
    }
  }

  lemma RevokeOnlyGrows(r: Registry, issuer: Address, h: Hash)
    ensures OnlyGrows(r, AfterRevoke(r, issuer, h))
  {
  }

  lemma StepOnlyGrows(r: Registry, e: Entry)
    ensures OnlyGrows(r, Step(r, e))
  {
    if VerdictOf(r, e) == Ok {
      match e.call
      case Revoke(issuer, h, _) => RevokeOnlyGrows(r, issuer, h);
      case BatchRevoke(issuer, hs) => BatchOnlyGrows(r, issuer, hs);
      case Configure(_, _) =>
    }
  }

  lemma {:induction false} RevocationIsPermanent(r: Registry, es: seq<Entry>)
    ensures OnlyGrows(r, Run(r, es))
  {
    if es != [] {
      RevocationIsPermanent(r, es[..|es| - 1]);
      StepOnlyGrows(Run(r, es[..|es| - 1]), es[|es| - 1]);
    }
  }

  // ---- who may revoke -----------------------------------------------------------------

  /** What the last configuring call left. */
  function PausedAfter(es: seq<Entry>): bool {
    if es == [] then false
    else if es[|es| - 1].call.Configure? then es[|es| - 1].call.paused
    else PausedAfter(es[..|es| - 1])
  }

  function LimitAfter(es: seq<Entry>): u32 {
    if es == [] then 100
    else if es[|es| - 1].call.Configure? then es[|es| - 1].call.batchLimit
    else LimitAfter(es[..|es| - 1])
  }

  lemma {:induction false} ConfigurationIsLastSet(es: seq<Entry>)
    ensures Run(EMPTY, es).paused == PausedAfter(es) && Run(EMPTY, es).batchLimit == LimitAfter(es)
  {
    if es != [] { ConfigurationIsLastSet(es[..|es| - 1]); }
  }

  /** The hash is free, or already this issuer's own. */
  predicate MayRevoke(r: Registry, issuer: Address, h: Hash) {
    r.IsRevoked(h) ==> h in r.ListOf(issuer)
  }

  lemma MineOrFree(r: Registry, issuer: Address, h: Hash)
    requires IndexesAgree(r)
    ensures MayRevoke(r, issuer, h) <==> !r.Foreign(issuer, h)
  {
  }

  /** In every run `revoke` goes through if and only if its issuer signed it on an unpaused
      registry, the hash is free or on that issuer's own list, and the linked oracle, if any,
      agrees. From then on the registry reports exactly one hash more, or the same. */
  lemma RevokesIff(es: seq<Entry>, auth: set<Address>, issuer: Address, h: Hash, marked: bool)
    ensures var r, e := Run(EMPTY, es), Entry(auth, Revoke(issuer, h, marked));
            && (VerdictOf(r, e) == Ok <==>
                  !PausedAfter(es) && issuer in auth && MayRevoke(r, issuer, h) && marked)
            && (VerdictOf(r, e) == Err(ContractPaused) <==> PausedAfter(es))
            && (VerdictOf(r, e) == Err(IssuerMismatch) <==>
                  !PausedAfter(es) && issuer in auth && !MayRevoke(r, issuer, h))
            && (VerdictOf(r, e) == Ok ==>
                  RevokedSet(Step(r, e)) == RevokedSet(r) + {h} && h in Step(r, e).ListOf(issuer))
  {
    RunKeepsIndexes(es);
    ConfigurationIsLastSet(es);
    MineOrFree(Run(EMPTY, es), issuer, h);
  }

  lemma BatchIsAllowedIff(r: Registry, issuer: Address, hs: seq<Hash>)
    requires IndexesAgree(r)
    ensures AnyForeign(r, issuer, hs) <==> exists h :: h in hs && !MayRevoke(r, issuer, h)
  {
    hide IndexesAgree, MayRevoke;
    if AnyForeign(r, issuer, hs) {
      var k :| 0 <= k < |hs| && r.Foreign(issuer, hs[k]);
      MineOrFree(r, issuer, hs[k]);
      assert hs[k] in hs;
    }
    if h :| h in hs && !MayRevoke(r, issuer, h) {
      MineOrFree(r, issuer, h);
      var k :| 0 <= k < |hs| && hs[k] == h;
      assert r.Foreign(issuer, hs[k]);
    }
  }

  lemma BatchIsReported(r: Registry, issuer: Address, hs: seq<Hash>)
    ensures var r' := AfterBatch(r, issuer, hs);
            && RevokedSet(r') == RevokedSet(r) + (set h | h in hs)
            && (forall h :: h in hs ==> h in r'.ListOf(issuer))
  {
    AppendNewExtends(r.ListOf(issuer), hs);
  }

  /** So does `batch_revoke` if and only if the same holds of all its hashes and there are at
      most as many as the limit in force, which is 100 until it is set. */
  lemma BatchRevokesIff(es: seq<Entry>, auth: set<Address>, issuer: Address, hs: seq<Hash>)
    ensures var r, e := Run(EMPTY, es), Entry(auth, BatchRevoke(issuer, hs));
            && (VerdictOf(r, e) == Ok <==>
                  !PausedAfter(es) && issuer in auth && |hs| <= LimitAfter(es)
                  && (forall h :: h in hs ==> MayRevoke(r, issuer, h)))
            && (VerdictOf(r, e) == Err(ContractPaused) <==> PausedAfter(es))
            && (VerdictOf(r, e) == Err(BatchTooLarge) <==>
                  !PausedAfter(es) && issuer in auth && |hs| > LimitAfter(es))
            && (VerdictOf(r, e) == Ok ==>
                  && RevokedSet(Step(r, e)) == RevokedSet(r) + (set h | h in hs)
                  && (forall h :: h in hs ==> h in Step(r, e).ListOf(issuer)))
  {
    hide IndexesAgree, MayRevoke, AfterBatch, AnyForeign;
    RunKeepsIndexes(es);
    ConfigurationIsLastSet(es);
    BatchIsAllowedIff(Run(EMPTY, es), issuer, hs);
    BatchIsReported(Run(EMPTY, es), issuer, hs);
  }

  /** The j-th call revokes h in the name of this issuer, with its signature. */
  predicate SignedAt(es: seq<Entry>, issuer: Address, h: Hash, j: nat) {
    && j < |es| && issuer in es[j].auth && !PausedAfter(es[..j])
    && match es[j].call
       case Revoke(a, g, _) => a == issuer && g == h
       case BatchRevoke(a, hs) => a == issuer && h in hs
       case Configure(_, _) => false
  }

  lemma SignedEarlier(es: seq<Entry>, e: Entry, issuer: Address, h: Hash, j: nat)
    requires SignedAt(es, issuer, h, j)
    ensures SignedAt(es + [e], issuer, h, j)
  {
    assert (es + [e])[..j] == es[..j];
  }

  /** In every run each registered hash goes back to a call its issuer signed. */
  lemma {:induction false} EveryRevocationIsSigned(es: seq<Entry>, h: Hash)
    requires h in Run(EMPTY, es).registered
    ensures exists j: nat :: SignedAt(es, Run(EMPTY, es).registered[h], h, j)
  {
    if es != [] {
      var front, e := es[..|es| - 1], es[|es| - 1];
      assert es == front + [e];
      var r, issuer := Run(EMPTY, front), Run(EMPTY, es).registered[h];
      StepOnlyGrows(r, e);
      if h in r.registered {
        EveryRevocationIsSigned(front, h);
        var j: nat :| SignedAt(front, issuer, h, j);
        SignedEarlier(front, e, issuer, h, j);
      } else {
        ConfigurationIsLastSet(front);
        assert es[..|front|] == front;
        assert SignedAt(es, issuer, h, |front|);
      }
    }
  }

  // ---- paging ------------------------------------------------------------------------

  /** `list_revoked` on a stored list; `cursor + limit` is a checked u32 addition. */
  function Page(list: seq<Hash>, cursor: u32, limit: u32): Option<seq<Hash>> {
    if cursor >= |list| || limit == 0 then Some([])
    else if cursor + limit > U32_MAX then None
    else Some(list[cursor..Min(cursor + limit, |list|)])
  }

  /** Reading page after page from `cursor` until an empty page. */
  function Walk(list: seq<Hash>, cursor: u32, limit: u32): Option<seq<Hash>>
    decreases |list| - cursor
  {
    if limit == 0 then Some([])
    else
      match Page(list, cursor, limit)
      case None => None
      case Some(page) =>
        if page == [] then Some([])
        else
          match Walk(list, cursor + limit, limit)
          case None => None
          case Some(rest) => Some(page + rest)
  }

  /** The first multiple of `limit` that is at least n. */
  function RoundUp(n: nat, limit: nat): nat
    requires 0 < limit
  {
    MulBound((n + limit - 1) / limit, limit, (n + limit - 1) / limit, limit);
    (n + limit - 1) / limit * limit
  }

  lemma RoundUpStep(n: nat, limit: nat)
    requires 0 < limit <= n
    ensures RoundUp(n, limit) == RoundUp(n - limit, limit) + limit
  {
    DivStep(n + limit - 1, limit);
    var q := (n - 1) / limit;
    assert (q + 1) * limit == q * limit + limit;
    assert n - limit + limit - 1 == n - 1;
  }

  lemma RoundUpOnce(n: nat, limit: nat)
    requires 0 < n <= limit
    ensures RoundUp(n, limit) == limit
  {
    DivStep(n + limit - 1, limit);
    DivAtMost(n - 1, limit, 0);
  }

  /** Where the last page that a walk asks for ends, full pages counted throughout. */
  function WalkEnd(length: nat, cursor: nat, limit: nat): nat
    requires 0 < limit && cursor <= length
  {
    cursor + RoundUp(length - cursor, limit)
  }

  /** The end is reached one page at a time. */
  lemma WalkEndStep(length: nat, cursor: nat, limit: nat)
    requires 0 < limit && cursor < length
    ensures WalkEnd(length, cursor, limit)
         == if cursor + limit <= length then WalkEnd(length, cursor + limit, limit) else cursor + limit
    ensures WalkEnd(length, cursor, limit) >= cursor + limit
  {
    hide RoundUp;
    if limit <= length - cursor {
      RoundUpStep(length - cursor, limit);
      assert length - (cursor + limit) == length - cursor - limit;
    } else {
      RoundUpOnce(length - cursor, limit);
    }
  }

  /** A walk returns the whole rest of the list, in order, each entry once, exactly when
      the last page it asks for still ends within u32; otherwise its last call aborts. */
  lemma {:induction false} WalkIsComplete(list: seq<Hash>, cursor: u32, limit: u32)
    requires 0 < limit && cursor <= |list|
    ensures Walk(list, cursor, limit)
         == if WalkEnd(|list|, cursor, limit) <= U32_MAX then Some(list[cursor..]) else None
    decreases |list| - cursor
  {
    if cursor < |list| {
      WalkEndStep(|list|, cursor, limit);
      var next := Min(cursor + limit, |list|);
      assert list[cursor..] == list[cursor..next] + list[next..];
      if cursor + limit > U32_MAX {
      } else if cursor + limit <= |list| {
        WalkIsComplete(list, cursor + limit, limit);
      } else {
        assert Walk(list, cursor + limit, limit) == Some([]);
      }
    } else {
      assert list[cursor..] == [];
      DivAtMost(limit - 1, limit, 0);
    }
  }

  /** Two hashes are enough: asking for everything after the first one aborts. */
  lemma PageCanAbort(a: Hash, b: Hash)
    ensures Page([a, b], 1, U32_MAX) == None
    ensures WalkEnd(2, 1, U32_MAX) > U32_MAX && Walk([a, b], 1, U32_MAX) == None
  {
    WalkEndStep(2, 1, U32_MAX);
  }

  /** A full page reads the same after any further calls. */
  lemma FullPagesAreStable(r: Registry, es: seq<Entry>, issuer: Address, cursor: u32, limit: u32)
    requires cursor + limit <= |r.ListOf(issuer)|
    ensures Page(Run(r, es).ListOf(issuer), cursor, limit) == Page(r.ListOf(issuer), cursor, limit)
  {
    RevocationIsPermanent(r, es);
    var before, after := r.ListOf(issuer), Run(r, es).ListOf(issuer);
    assert before <= after;
    if cursor < |before| && limit > 0 && cursor + limit <= U32_MAX {
      assert before[cursor..cursor + limit] == after[cursor..cursor + limit];
    }
  }
}
