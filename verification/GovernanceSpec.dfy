/** The governance contract and the credit oracle's weight queue as one transition system:
    what each call checks, in the contract's order, and what it leaves behind. */
module GovernanceSpec {
  import opened Host
  import opened CreditOracleTypes
  import Queue = WeightQueue

  datatype GovernanceError =
    | NotAuthorized
    | ProposalNotFound
    | ProposalExpired
    | ProposalNotExpired
    | ProposalAlreadyExecuted
    | InvalidWeights
    | InvalidQuorum
    | InvalidVoteWeight
    | QuorumNotMet
    | TimelockNotExpired
    | VoterNotRegistered
    | InsufficientVoteWeight
    | ProposalAlreadyCancelled
    | NoPendingWeights
    | ContractPaused
    | VoteTallyOverflow
    | ProposalRejected
    | InvalidVotingPeriod

  datatype Proposal = Proposal(
    id: u64,
    proposer: Address,
    weights: ScoringWeights,
    votesFor: i128,
    votesAgainst: i128,
    expiry: u32,
    delay: u32,
    executed: bool,
    cancelled: bool,
    quorum: i128)
  {
    function Tally(): int { votesFor + votesAgainst }
  }

  /** The contract's storage. `self` is its own address. */
  datatype Gov = Gov(
    self: Address,
    admin: Address,
    nextId: u64,
    quorumRequired: i128,
    quorumPercent: Option<u32>,
    proposals: map<u64, Proposal>,
    proposers: map<u64, Address>,
    voterWeight: map<Address, i128>,
    voteWeightUsed: map<(u64, Address), i128>,
    totalWeight: i128)
  {
    function WeightOf(v: Address): i128 { GetOr(voterWeight, v, 0) }

    function UsedBy(id: u64, v: Address): i128 { GetOr(voteWeightUsed, (id, v), 0) }
  }

  function Deployed(self: Address, admin: Address, quorum: i128): Gov {
    Gov(self, admin, 1, quorum, None, map[], map[], map[], map[], 0)
  }

  // ---- proposals -----------------------------------------------------------------------

  /** The quorum a new proposal is given; `None` when the checked product overflows. */
  function QuorumSnapshot(g: Gov): Option<i128> {
    match g.quorumPercent
    case None => Some(g.quorumRequired)
    case Some(percent) =>
      if !FitsI128(g.totalWeight * percent) then None
      else Some(TruncDiv(g.totalWeight * percent, 100))
  }

  function CheckCreate(g: Gov, ledger: u32, auth: set<Address>, proposer: Address,
                       w: ScoringWeights, period: u32): Verdict<GovernanceError>
  {
    if proposer !in auth || w.ValidityCheckOverflows() then Trap
    else if !w.IsValid() then Err(GovernanceError.InvalidWeights)
    else if period == 0 then Err(InvalidVotingPeriod)
    else if ledger + period > U32_MAX then Trap
    else if QuorumSnapshot(g).None? then Err(InvalidQuorum)
    else if g.nextId == U64_MAX then Trap
    else Ok
  }

  function AfterCreate(g: Gov, ledger: u32, auth: set<Address>, proposer: Address,
                       w: ScoringWeights, period: u32, delay: u32): Gov
    requires CheckCreate(g, ledger, auth, proposer, w, period) == Ok
  {
    var p := Proposal(g.nextId, proposer, w, 0, 0, ledger + period, delay, false, false,
                      QuorumSnapshot(g).value);
    g.(proposals := g.proposals[g.nextId := p],
       proposers := g.proposers[g.nextId := proposer],
       nextId := g.nextId + 1)
  }

  function CheckVote(g: Gov, ledger: u32, auth: set<Address>, voter: Address, id: u64,
                     support: bool, weight: i128): Verdict<GovernanceError>
  {
    if voter !in auth then Trap
    else if weight <= 0 then Err(InvalidVoteWeight)
    else if voter !in g.voterWeight then Err(VoterNotRegistered)
    else if !FitsI128(g.voterWeight[voter] - g.UsedBy(id, voter)) then Trap
    else if weight > g.voterWeight[voter] - g.UsedBy(id, voter) then Err(InsufficientVoteWeight)
    else if id !in g.proposals then Err(ProposalNotFound)
    else
      var p := g.proposals[id];
      if ledger > p.expiry then Err(ProposalExpired)
      else if p.executed then Err(ProposalAlreadyExecuted)
      else if p.cancelled then Err(ProposalAlreadyCancelled)
      else if (if support then p.votesFor else p.votesAgainst) + weight > I128_MAX then Err(VoteTallyOverflow)
      else if !FitsI128(g.UsedBy(id, voter) + weight) then Trap
      else Ok
  }

  function AfterVote(g: Gov, ledger: u32, auth: set<Address>, voter: Address, id: u64,
                     support: bool, weight: i128): Gov
    requires CheckVote(g, ledger, auth, voter, id, support, weight) == Ok
  {
    var p := g.proposals[id];
    var p' := if support then p.(votesFor := p.votesFor + weight)
              else p.(votesAgainst := p.votesAgainst + weight);
    g.(proposals := g.proposals[id := p'],
       voteWeightUsed := g.voteWeightUsed[(id, voter) := g.UsedBy(id, voter) + weight])
  }

  /** The execution timelock as the contract evaluates it. */
  predicate TimelockPassed(ledger: u32, expiry: u32, delay: u32) {
    ledger > SatAddU32(expiry, delay)
  }

  /** Everything `execute` checks before it calls the credit oracle. */
  function CheckExecutable(g: Gov, ledger: u32, id: u64): Verdict<GovernanceError> {
    if id !in g.proposals then Err(ProposalNotFound)
    else
      var p := g.proposals[id];
      if ledger <= p.expiry then Err(ProposalNotExpired)
      else if !TimelockPassed(ledger, p.expiry, p.delay) then Err(GovernanceError.TimelockNotExpired)
      else if p.executed then Err(ProposalAlreadyExecuted)
      else if p.cancelled then Err(ProposalAlreadyCancelled)
      else if p.votesFor <= p.votesAgainst then Err(ProposalRejected)
      else if !FitsI128(p.Tally()) then Trap
      else if p.Tally() < p.quorum then Err(QuorumNotMet)
      else Ok
  }

  function AfterExecute(g: Gov, id: u64): Gov
    requires id in g.proposals
  {
    g.(proposals := g.proposals[id := g.proposals[id].(executed := true)])
  }

  function CheckCancel(g: Gov, auth: set<Address>, canceller: Address, id: u64): Verdict<GovernanceError> {
    if canceller !in auth then Trap
    else if id !in g.proposals then Err(ProposalNotFound)
    else if g.proposals[id].executed then Err(ProposalAlreadyExecuted)
    else if g.proposals[id].cancelled then Err(ProposalAlreadyCancelled)
    else if id !in g.proposers then Err(GovernanceError.NotAuthorized)
    else if canceller != g.admin && canceller != g.proposers[id] then Err(GovernanceError.NotAuthorized)
    else Ok
  }

  function AfterCancel(g: Gov, id: u64): Gov
    requires id in g.proposals
  {
    g.(proposals := g.proposals[id := g.proposals[id].(cancelled := true)])
  }

  function CheckCleanup(g: Gov, auth: set<Address>, admin: Address, id: u64): Verdict<GovernanceError> {
    if admin != g.admin then Err(GovernanceError.NotAuthorized)
    else if admin !in auth then Trap
    else if id !in g.proposals then Err(ProposalNotFound)
    else Ok
  }

  function AfterCleanup(g: Gov, id: u64, voters: seq<Address>): Gov
    requires id in g.proposals
  {
    if !g.proposals[id].executed then g
    else g.(voteWeightUsed := g.voteWeightUsed - set v | v in voters :: (id, v))
  }

  // ---- voters and quorum -----------------------------------------------------------------

  /** `total - old_weight + weight`, evaluated left to right in checked i128. */
  predicate TotalOverflows(g: Gov, voter: Address, weight: int) {
    !FitsI128(g.totalWeight - g.WeightOf(voter))
    || !FitsI128(g.totalWeight - g.WeightOf(voter) + weight)
  }

  function CheckRegister(g: Gov, auth: set<Address>, admin: Address, voter: Address, weight: i128)
    : Verdict<GovernanceError>
  {
    if admin != g.admin then Err(GovernanceError.NotAuthorized)
    else if weight <= 0 then Err(InvalidVoteWeight)
    else if admin !in auth || TotalOverflows(g, voter, weight) then Trap
    else Ok
  }

  function CheckUpdate(g: Gov, auth: set<Address>, admin: Address, voter: Address, weight: i128)
    : Verdict<GovernanceError>
  {
    if admin != g.admin then Err(GovernanceError.NotAuthorized)
    else if weight < 0 then Err(InvalidVoteWeight)
    else if admin !in auth || TotalOverflows(g, voter, weight) then Trap
    else Ok
  }

  function CheckDeregister(g: Gov, auth: set<Address>, admin: Address, voter: Address): Verdict<GovernanceError> {
    if admin != g.admin then Err(GovernanceError.NotAuthorized)
    else if admin !in auth || TotalOverflows(g, voter, 0) then Trap
    else Ok
  }

  /** A weight of zero removes the entry. */
  function AfterSetWeight(g: Gov, voter: Address, weight: i128): Gov
    requires !TotalOverflows(g, voter, weight)
  {
    g.(voterWeight := if weight == 0 then g.voterWeight - {voter} else g.voterWeight[voter := weight],
       totalWeight := g.totalWeight - g.WeightOf(voter) + weight)
  }

  function CheckSetQuorum(g: Gov, auth: set<Address>, admin: Address, quorum: i128): Verdict<GovernanceError> {
    if quorum <= 0 then Err(InvalidQuorum)
    else if admin != g.admin then Err(GovernanceError.NotAuthorized)
    else if admin !in auth then Trap
    else if quorum > g.totalWeight then Err(InvalidQuorum)
    else Ok
  }

  function CheckSetPercent(g: Gov, auth: set<Address>, admin: Address, percent: u32): Verdict<GovernanceError> {
    if percent == 0 || percent > 100 then Err(InvalidQuorum)
    else if admin != g.admin then Err(GovernanceError.NotAuthorized)
    else if admin !in auth then Trap
    else Ok
  }

  // ---- the two contracts together ---------------------------------------------------------

  datatype System = System(gov: Gov, control: Queue.Control)

  datatype Call =
    | Create(proposer: Address, weights: ScoringWeights, period: u32, delay: u32)
    | Vote(voter: Address, id: u64, support: bool, weight: i128)
    | Execute(id: u64)
    | Cancel(canceller: Address, id: u64)
    | Cleanup(admin: Address, id: u64, voters: seq<Address>)
    | RegisterVoter(admin: Address, voter: Address, weight: i128)
    | UpdateVoterWeight(admin: Address, voter: Address, weight: i128)
    | DeregisterVoter(admin: Address, voter: Address)
    | SetQuorum(admin: Address, quorum: i128)
    | SetQuorumPercent(admin: Address, percent: u32)
    | GovApplyWeights
    | AcceptOracleAdmin
    | Direct(call: Queue.QueueCall)

  /** A transaction: its ledger and who signed it. */
  datatype Entry = Entry(ledger: u32, auth: set<Address>, call: Call)

  /** Governance's own calls to the oracle also carry governance's authorization. */
  function OracleAuth(g: Gov, auth: set<Address>): set<Address> { auth + {g.self} }

  /** How `apply_weights` reports the oracle's errors. */
  function MapApplyError(v: Verdict<CreditOracleError>): Verdict<GovernanceError> {
    match v
    case Ok => Ok
    case Trap => Err(GovernanceError.NoPendingWeights)
    case Err(e) =>
      match e
      case TimelockNotExpired => Err(GovernanceError.TimelockNotExpired)
      case NoPendingWeights => Err(GovernanceError.NoPendingWeights)
      case ContractPaused => Err(GovernanceError.ContractPaused)
      case _ => Err(GovernanceError.NotAuthorized)
  }

  /** Any failure of a callee that is not caught aborts the caller. */
  function OrTrap(v: Verdict<CreditOracleError>): Verdict<GovernanceError> {
    if v == Ok then Ok else Trap
  }

  function CheckExecute(s: System, ledger: u32, auth: set<Address>, id: u64): Verdict<GovernanceError> {
    if CheckExecutable(s.gov, ledger, id) != Ok then CheckExecutable(s.gov, ledger, id)
    else
      OrTrap(Queue.VerdictOf(s.control, ledger, OracleAuth(s.gov, auth),
                             Queue.ProposeWeights(s.gov.proposals[id].weights)))
  }

  function CheckAcceptOracleAdmin(s: System, ledger: u32, auth: set<Address>): Verdict<GovernanceError> {
    if s.gov.admin !in auth then Trap
    else OrTrap(Queue.VerdictOf(s.control, ledger, OracleAuth(s.gov, auth), Queue.AcceptAdmin(s.gov.self)))
  }

  function VerdictOf(s: System, e: Entry): Verdict<GovernanceError> {
    var Entry(ledger, auth, call) := e;
    match call
    case Create(proposer, w, period, _) => CheckCreate(s.gov, ledger, auth, proposer, w, period)
    case Vote(voter, id, support, weight) => CheckVote(s.gov, ledger, auth, voter, id, support, weight)
    case Execute(id) => CheckExecute(s, ledger, auth, id)
    case Cancel(canceller, id) => CheckCancel(s.gov, auth, canceller, id)
    case Cleanup(admin, id, _) => CheckCleanup(s.gov, auth, admin, id)
    case RegisterVoter(admin, voter, weight) => CheckRegister(s.gov, auth, admin, voter, weight)
    case UpdateVoterWeight(admin, voter, weight) => CheckUpdate(s.gov, auth, admin, voter, weight)
    case DeregisterVoter(admin, voter) => CheckDeregister(s.gov, auth, admin, voter)
    case SetQuorum(admin, quorum) => CheckSetQuorum(s.gov, auth, admin, quorum)
    case SetQuorumPercent(admin, percent) => CheckSetPercent(s.gov, auth, admin, percent)
    case GovApplyWeights =>
      MapApplyError(Queue.VerdictOf(s.control, ledger, OracleAuth(s.gov, auth), Queue.ApplyWeights))
    case AcceptOracleAdmin => CheckAcceptOracleAdmin(s, ledger, auth)
    case Direct(q) => OrTrap(Queue.VerdictOf(s.control, ledger, auth, q))
  }

  function After(s: System, e: Entry): System
    requires VerdictOf(s, e) == Ok
  {
    var Entry(ledger, auth, call) := e;
    var subAuth := OracleAuth(s.gov, auth);
    match call
    case Create(proposer, w, period, delay) =>
      s.(gov := AfterCreate(s.gov, ledger, auth, proposer, w, period, delay))
    case Vote(voter, id, support, weight) =>
      s.(gov := AfterVote(s.gov, ledger, auth, voter, id, support, weight))
    case Execute(id) =>
      System(AfterExecute(s.gov, id),
             Queue.After(s.control, ledger, subAuth, Queue.ProposeWeights(s.gov.proposals[id].weights)))
    case Cancel(_, id) => s.(gov := AfterCancel(s.gov, id))
    case Cleanup(_, id, voters) => s.(gov := AfterCleanup(s.gov, id, voters))
    case RegisterVoter(_, voter, weight) => s.(gov := AfterSetWeight(s.gov, voter, weight))
    case UpdateVoterWeight(_, voter, weight) => s.(gov := AfterSetWeight(s.gov, voter, weight))
    case DeregisterVoter(_, voter) => s.(gov := AfterSetWeight(s.gov, voter, 0))
    case SetQuorum(_, quorum) => s.(gov := s.gov.(quorumRequired := quorum, quorumPercent := None))
    case SetQuorumPercent(_, percent) => s.(gov := s.gov.(quorumPercent := Some(percent)))
    case GovApplyWeights => s.(control := Queue.After(s.control, ledger, subAuth, Queue.ApplyWeights))
    case AcceptOracleAdmin =>
      s.(control := Queue.After(s.control, ledger, subAuth, Queue.AcceptAdmin(s.gov.self)))
    case Direct(q) => s.(control := Queue.After(s.control, ledger, auth, q))
  }

  /** A failed call is rolled back. */
  function Step(s: System, e: Entry): System {
    if VerdictOf(s, e) == Ok then After(s, e) else s
  }

  function Run(s: System, es: seq<Entry>): System {
    if es == [] then s else Step(Run(s, es[..|es| - 1]), es[|es| - 1])
  }

  lemma {:induction false} RunConcat(s: System, a: seq<Entry>, b: seq<Entry>)
    ensures Run(s, a + b) == Run(Run(s, a), b)
  {
    if b == [] {
      assert a + b == a;
    } else {
      assert (a + b)[..|a + b| - 1] == a + b[..|b| - 1];
      RunConcat(s, a, b[..|b| - 1]);
    }
  }
}
