/** What every reachable state of governance satisfies: tallies are the votes spent on
    them, the total weight is the sum of the voters' weights, and decisions are final. */
module GovernanceInvariants {
  import opened Host
  import opened CreditOracleTypes
  import opened Arithmetic
  import opened MapSums
  import opened GovernanceSpec
  import Queue = WeightQueue

  /** The vote entries that belong to one proposal. */
  function VotesOn(used: map<(u64, Address), i128>, id: u64): set<(u64, Address)> {
    set k | k in used && k.0 == id
  }

  /** The weight spent on one proposal by all voters together. */
  ghost function Spent(used: map<(u64, Address), i128>, id: u64): int {
    SumOver(used, VotesOn(used, id))
  }

  lemma SpentAfterVote(used: map<(u64, Address), i128>, id: u64, v: Address, x: i128)
    ensures Spent(used[(id, v) := x], id) == Spent(used, id) - GetOr(used, (id, v), 0) + x
  {
    var used', ks := used[(id, v) := x], VotesOn(used, id);
    assert VotesOn(used', id) == ks + {(id, v)};
    SumOverSplit(used', ks + {(id, v)}, (id, v));
    assert ks + {(id, v)} - {(id, v)} == ks - {(id, v)};
    SumOverAgrees(used, used', ks - {(id, v)});
    if (id, v) in used {
      SumOverSplit(used, ks, (id, v));
    } else {
      assert ks - {(id, v)} == ks;
    }
  }

  /** Spending on one proposal, or clearing it, leaves every other proposal's votes. */
  lemma SpentElsewhere(used: map<(u64, Address), i128>, used': map<(u64, Address), i128>, id: u64)
    requires forall k: (u64, Address) :: k.0 == id ==> (k in used <==> k in used')
    requires forall k :: k in used && k.0 == id ==> used[k] == used'[k]
    ensures Spent(used', id) == Spent(used, id)
  {
    assert VotesOn(used', id) == VotesOn(used, id);
    SumOverAgrees(used, used', VotesOn(used, id));
  }

  lemma NothingSpentYet(used: map<(u64, Address), i128>, id: u64)
    requires forall k :: k in used ==> k.0 != id
    ensures Spent(used, id) == 0
  {
    assert VotesOn(used, id) == {};
  }

  predicate Decided(p: Proposal) { p.executed || p.cancelled }

  /** One proposal's record is sound; while it is unexecuted its tally is exactly the
      weight its voters have spent on it. */
  predicate SoundProposal(p: Proposal, spent: int) {
    && p.weights.IsValid()
    && p.votesFor >= 0 && p.votesAgainst >= 0 && p.quorum >= 0
    && !(p.executed && p.cancelled)
    && (p.executed ==> p.votesFor > p.votesAgainst && p.Tally() >= p.quorum)
    && (!p.executed ==> p.Tally() == spent)
  }

  ghost predicate ProposalInv(g: Gov, id: u64)
    requires id in g.proposals
  {
    && g.proposals[id].id == id
    && id in g.proposers && g.proposers[id] == g.proposals[id].proposer
    && SoundProposal(g.proposals[id], Spent(g.voteWeightUsed, id))
  }

  ghost predicate VotersInv(g: Gov) {
    && g.totalWeight == Sum(g.voterWeight)
    && (forall v :: v in g.voterWeight ==> g.voterWeight[v] > 0)
    && g.quorumRequired > 0
    && (g.quorumPercent.Some? ==> 1 <= g.quorumPercent.value <= 100)
  }

  /** Proposal ids are exactly 1 .. nextId - 1, and votes exist only for them. */
  ghost predicate IdsInv(g: Gov) {
    && g.nextId >= 1
    && (forall id: u64 :: id in g.proposals <==> 1 <= id < g.nextId)
    && (forall k :: k in g.voteWeightUsed ==> k.0 in g.proposals && g.voteWeightUsed[k] > 0)
  }

  ghost predicate GovInv(g: Gov) {
    && VotersInv(g)
    && IdsInv(g)
    && (forall id :: id in g.proposals ==> ProposalInv(g, id))
  }

  // ---- voters and quorum ------------------------------------------------------------------

  lemma SetWeightKeepsInv(g: Gov, voter: Address, weight: i128)
    requires GovInv(g) && weight >= 0 && !TotalOverflows(g, voter, weight)
    ensures GovInv(AfterSetWeight(g, voter, weight))
  {
    if weight == 0 {
      SumRemove(g.voterWeight, voter);
    } else {
      SumUpdate(g.voterWeight, voter, weight);
    }
    var g' := AfterSetWeight(g, voter, weight);
    forall id | id in g'.proposals ensures ProposalInv(g', id) {
      assert ProposalInv(g, id);
    }
  }

  lemma TotalIsNonNegative(g: Gov)
    requires VotersInv(g)
    ensures g.totalWeight >= 0
  {
    SumNonNegative(g.voterWeight);
  }

  /** A percentage quorum snapshot lies between zero and the registered total; an absolute
      one is the configured positive number. */
  lemma QuorumSnapshotBounds(g: Gov)
    requires VotersInv(g) && QuorumSnapshot(g).Some?
    ensures 0 <= QuorumSnapshot(g).value
    ensures g.quorumPercent.Some? ==> QuorumSnapshot(g).value <= g.totalWeight
  {
    TotalIsNonNegative(g);
    if g.quorumPercent.Some? {
      ShareBounds(g.totalWeight, g.quorumPercent.value);
    }
  }

  lemma ShareBounds(total: nat, percent: nat)
    requires percent <= 100
    ensures 0 <= total * percent
    ensures 0 <= TruncDiv(total * percent, 100) <= total
  {
    MulBound(total, percent, total, 100);
  }

  // ---- proposals ----------------------------------------------------------------------------

  lemma CreateKeepsInv(g: Gov, e: Entry)
    requires GovInv(g) && e.call.Create?
    requires CheckCreate(g, e.ledger, e.auth, e.call.proposer, e.call.weights, e.call.period) == Ok
    ensures GovInv(AfterCreate(g, e.ledger, e.auth, e.call.proposer, e.call.weights, e.call.period, e.call.delay))
  {
    var g' := AfterCreate(g, e.ledger, e.auth, e.call.proposer, e.call.weights, e.call.period, e.call.delay);
    QuorumSnapshotBounds(g);
    NothingSpentYet(g.voteWeightUsed, g.nextId);
    forall id | id in g'.proposals ensures ProposalInv(g', id) {
      if id != g.nextId { assert ProposalInv(g, id); }
    }
  }

  /** A vote raises its proposal's tally and the weight spent on it by the same amount. */
  lemma VoteIsConserved(g: Gov, e: Entry)
    requires e.call.Vote?
    requires CheckVote(g, e.ledger, e.auth, e.call.voter, e.call.id, e.call.support, e.call.weight) == Ok
    ensures var Vote(voter, id, support, weight) := e.call;
            var g' := AfterVote(g, e.ledger, e.auth, voter, id, support, weight);
            && id in g'.proposals
            && g'.proposals[id].Tally() == g.proposals[id].Tally() + weight
            && Spent(g'.voteWeightUsed, id) == Spent(g.voteWeightUsed, id) + weight
  {
    var Vote(voter, id, _, weight) := e.call;
    SpentAfterVote(g.voteWeightUsed, id, voter, g.UsedBy(id, voter) + weight);
  }

  /** It leaves the record of every other proposal, and the weight spent on it, alone. */
  lemma VoteTouchesNoOther(g: Gov, e: Entry, id: u64)
    requires e.call.Vote? && id in g.proposals && id != e.call.id
    requires CheckVote(g, e.ledger, e.auth, e.call.voter, e.call.id, e.call.support, e.call.weight) == Ok
    ensures var g' := AfterVote(g, e.ledger, e.auth, e.call.voter, e.call.id, e.call.support, e.call.weight);
            && id in g'.proposals && g'.proposals[id] == g.proposals[id]
            && Spent(g'.voteWeightUsed, id) == Spent(g.voteWeightUsed, id)
  {
    var g' := AfterVote(g, e.ledger, e.auth, e.call.voter, e.call.id, e.call.support, e.call.weight);
    SpentElsewhere(g.voteWeightUsed, g'.voteWeightUsed, id);
  }

  lemma VoteKeepsInv(g: Gov, e: Entry)
    requires GovInv(g) && e.call.Vote?
    requires CheckVote(g, e.ledger, e.auth, e.call.voter, e.call.id, e.call.support, e.call.weight) == Ok
    ensures GovInv(AfterVote(g, e.ledger, e.auth, e.call.voter, e.call.id, e.call.support, e.call.weight))
  {
    var g' := AfterVote(g, e.ledger, e.auth, e.call.voter, e.call.id, e.call.support, e.call.weight);
    VoteIsConserved(g, e);
    forall id | id in g'.proposals ensures ProposalInv(g', id) {
      assert ProposalInv(g, id);
      if id != e.call.id { VoteTouchesNoOther(g, e, id); }
    }
  }

  /** Replacing one proposal's record by another sound one. */
  lemma ReplaceKeepsInv(g: Gov, id: u64, p: Proposal)
    requires GovInv(g) && id in g.proposals
    requires p.id == id && p.proposer == g.proposals[id].proposer
    requires SoundProposal(p, Spent(g.voteWeightUsed, id))
    ensures GovInv(g.(proposals := g.proposals[id := p]))
  {
    var g' := g.(proposals := g.proposals[id := p]);
    forall i | i in g'.proposals ensures ProposalInv(g', i) {
      assert ProposalInv(g, i);
    }
  }

  lemma CleanupKeepsInv(g: Gov, id: u64, voters: seq<Address>)
    requires GovInv(g) && id in g.proposals
    ensures GovInv(AfterCleanup(g, id, voters))
  {
    var g' := AfterCleanup(g, id, voters);
    forall i | i in g'.proposals ensures ProposalInv(g', i) {
      assert ProposalInv(g, i);
      if i != id { SpentElsewhere(g.voteWeightUsed, g'.voteWeightUsed, i); }
    }
  }

  lemma StepKeepsInv(s: System, e: Entry)
    requires GovInv(s.gov)
    ensures GovInv(Step(s, e).gov)
  {
    if VerdictOf(s, e) == Ok {
      match e.call
      case Create(_, _, _, _) => CreateKeepsInv(s.gov, e);
      case Vote(_, _, _, _) => VoteKeepsInv(s.gov, e);
      case Execute(id) =>
        assert ProposalInv(s.gov, id);
        ReplaceKeepsInv(s.gov, id, s.gov.proposals[id].(executed := true));
      case Cancel(_, id) =>
        assert ProposalInv(s.gov, id);
        ReplaceKeepsInv(s.gov, id, s.gov.proposals[id].(cancelled := true));
      case Cleanup(_, id, voters) => CleanupKeepsInv(s.gov, id, voters);
      case RegisterVoter(_, voter, weight) => SetWeightKeepsInv(s.gov, voter, weight);
      case UpdateVoterWeight(_, voter, weight) => SetWeightKeepsInv(s.gov, voter, weight);
      case DeregisterVoter(_, voter) => SetWeightKeepsInv(s.gov, voter, 0);
      case _ =>
        forall id | id in Step(s, e).gov.proposals ensures ProposalInv(Step(s, e).gov, id) {
          assert ProposalInv(s.gov, id);
        }
    }
  }

  function Start(self: Address, admin: Address, oracleAdmin: Address, quorum: i128): System {
    System(Deployed(self, admin, quorum), Queue.Deployed(oracleAdmin))
  }

  /** Where the two contracts start. */
  datatype Deployment = Deployment(self: Address, admin: Address, oracleAdmin: Address, quorum: i128) {
    function System(): System { Start(self, admin, oracleAdmin, quorum) }
  }

  function StateAfter(d: Deployment, es: seq<Entry>): System { Run(d.System(), es) }

  lemma StepKeepsControl(s: System, e: Entry)
    requires Queue.ControlInv(s.control)
    ensures Queue.ControlInv(Step(s, e).control)
  {
  }

  /** What a usable choice of weights is. */
  predicate Balanced(w: ScoringWeights) {
    w.vc >= 10 && w.tx >= 10 && w.repayment >= 10 && w.vc + w.tx + w.repayment == 100
  }

  /** The oracle's active and queued weights are valid, and a queued weight and its
      effective ledger come and go together, in every reachable state. */
  lemma {:induction false} WeightsAlwaysValid(self: Address, admin: Address, oracleAdmin: Address, quorum: i128,
                                              es: seq<Entry>)
    ensures var c := Run(Start(self, admin, oracleAdmin, quorum), es).control;
            && Queue.ControlInv(c) && Balanced(c.active) && (c.queued.Some? ==> Balanced(c.queued.value))
  {
    if es != [] {
      WeightsAlwaysValid(self, admin, oracleAdmin, quorum, es[..|es| - 1]);
      StepKeepsControl(Run(Start(self, admin, oracleAdmin, quorum), es[..|es| - 1]), es[|es| - 1]);
    }
  }

  lemma StartIsSound(self: Address, admin: Address, quorum: i128)
    requires quorum > 0
    ensures GovInv(Deployed(self, admin, quorum))
  {
    SumEmpty<Address>(map[]);
  }

  /** Vote conservation, the total weight, the id range, and the terminal states hold in
      every reachable state of the two contracts. */
  lemma {:induction false} EveryStateIsSound(self: Address, admin: Address, oracleAdmin: Address, quorum: i128,
                                             es: seq<Entry>)
    requires quorum > 0
    ensures GovInv(Run(Start(self, admin, oracleAdmin, quorum), es).gov)
  {
    if es == [] {
      StartIsSound(self, admin, quorum);
    } else {
      EveryStateIsSound(self, admin, oracleAdmin, quorum, es[..|es| - 1]);
      StepKeepsInv(Run(Start(self, admin, oracleAdmin, quorum), es[..|es| - 1]), es[|es| - 1]);
    }
  }

  // ---- decisions are final -------------------------------------------------------------------

  /** How a proposal may differ later: its terms never change, a decided proposal does not
      change at all, and after expiry its tallies are fixed. */
  predicate MayBecome(p: Proposal, p': Proposal, expired: bool) {
    && p'.id == p.id && p'.proposer == p.proposer && p'.weights == p.weights
    && p'.expiry == p.expiry && p'.delay == p.delay && p'.quorum == p.quorum
    && p.votesFor <= p'.votesFor && p.votesAgainst <= p'.votesAgainst
    && (Decided(p) ==> p' == p)
    && (expired ==> p'.votesFor == p.votesFor && p'.votesAgainst == p.votesAgainst)
  }

  /** All entries happen at or after the given ledger. */
  predicate NotBefore(ledger: u32, es: seq<Entry>) {
    forall k :: 0 <= k < |es| ==> es[k].ledger >= ledger
  }

  lemma VoteEvolves(g: Gov, e: Entry, id: u64, since: u32)
    requires id in g.proposals && e.ledger >= since && e.call.Vote?
    requires CheckVote(g, e.ledger, e.auth, e.call.voter, e.call.id, e.call.support, e.call.weight) == Ok
    ensures var g' := AfterVote(g, e.ledger, e.auth, e.call.voter, e.call.id, e.call.support, e.call.weight);
            id in g'.proposals && MayBecome(g.proposals[id], g'.proposals[id], since > g.proposals[id].expiry)
  {
  }

  lemma StepEvolves(s: System, e: Entry, id: u64, since: u32)
    requires IdsInv(s.gov) && id in s.gov.proposals && e.ledger >= since
    ensures id in Step(s, e).gov.proposals
    ensures MayBecome(s.gov.proposals[id], Step(s, e).gov.proposals[id], since > s.gov.proposals[id].expiry)
  {
    if VerdictOf(s, e) == Ok {
      match e.call
      case Create(_, _, _, _) => assert id != s.gov.nextId;
      case Vote(_, _, _, _) => VoteEvolves(s.gov, e, id, since);
      case Execute(_) =>
      case Cancel(_, _) =>
      case _ => assert Step(s, e).gov.proposals == s.gov.proposals;
    }
  }

  /** Executed and cancelled are terminal: in every continuation the proposal keeps the
      very same record. Terms never change, tallies never shrink and stop at expiry. */
  lemma {:induction false} DecisionsAreFinal(s: System, es: seq<Entry>, id: u64, since: u32)
    requires GovInv(s.gov) && id in s.gov.proposals && NotBefore(since, es)
    ensures GovInv(Run(s, es).gov) && id in Run(s, es).gov.proposals
    ensures MayBecome(s.gov.proposals[id], Run(s, es).gov.proposals[id], since > s.gov.proposals[id].expiry)
  {
    if es != [] {
      var front := es[..|es| - 1];
      DecisionsAreFinal(s, front, id, since);
      StepKeepsInv(Run(s, front), es[|es| - 1]);
      StepEvolves(Run(s, front), es[|es| - 1], id, since);
    }
  }

  /** How `execute` turns a proposal down for its votes: rejected, short of its quorum, or
      aborting because the two tallies do not add up within i128. */
  predicate LostOnVotes(v: Verdict<GovernanceError>) {
    v == Err(ProposalRejected) || v == Err(QuorumNotMet) || v == Trap
  }

  /** With the same votes, `execute` turns a proposal down in the same way at every later
      ledger, unless it was cancelled. */
  lemma SameVotesSameVerdict(g: Gov, g': Gov, id: u64, ledger: u32, later: u32)
    requires LostOnVotes(CheckExecutable(g, ledger, id)) && ledger <= later
    requires id in g'.proposals && MayBecome(g.proposals[id], g'.proposals[id], true) && !g'.proposals[id].executed
    ensures CheckExecutable(g', later, id)
         == if g'.proposals[id].cancelled then Err(ProposalAlreadyCancelled) else CheckExecutable(g, ledger, id)
  {
  }

  /** A proposal that `execute` turns down for its votes is turned down forever, each time
      in the same way unless it is cancelled meanwhile: the code leaves it unexecuted, but
      no later vote can save it. */
  lemma {:induction false} LostVotesStayLost(s: System, es: seq<Entry>, id: u64, ledger: u32, later: Entry)
    requires GovInv(s.gov) && LostOnVotes(CheckExecutable(s.gov, ledger, id))
    requires later.call == Execute(id) && later.ledger >= ledger && NotBefore(ledger, es)
    ensures id in Run(s, es).gov.proposals && !Run(s, es).gov.proposals[id].executed
    ensures VerdictOf(Run(s, es), later)
         == if Run(s, es).gov.proposals[id].cancelled then Err(ProposalAlreadyCancelled)
            else CheckExecutable(s.gov, ledger, id)
  {
    DecisionsAreFinal(s, es, id, ledger);
    if es != [] {
      var front, last := es[..|es| - 1], es[|es| - 1];
      LostVotesStayLost(s, front, id, ledger, later);
      DecisionsAreFinal(s, front, id, ledger);
      SameVotesSameVerdict(s.gov, Run(s, front).gov, id, ledger, last.ledger);
      OnlyExecutedBySuccess(Run(s, front), last, id);
    }
    SameVotesSameVerdict(s.gov, Run(s, es).gov, id, ledger, later.ledger);
    FailedChecksDecide(Run(s, es), later);
  }

  /** Only a call that passes every check of `execute` marks a proposal executed. */
  lemma OnlyExecutedBySuccess(s: System, e: Entry, id: u64)
    requires IdsInv(s.gov) && id in s.gov.proposals && !s.gov.proposals[id].executed
    ensures id in Step(s, e).gov.proposals
    ensures Step(s, e).gov.proposals[id].executed
            ==> e.call == Execute(id) && CheckExecutable(s.gov, e.ledger, id) == Ok
  {
    match e.call
    case Create(_, _, _, _) =>
    case Vote(_, _, _, _) =>
    case Execute(_) =>
    case Cancel(_, _) =>
    case _ => assert Step(s, e).gov.proposals == s.gov.proposals;
  }

  /** Exactly when `execute` aborts in its own checks: the proposal is past both periods,
      undecided and ahead, and the weight spent on it, which is its two tallies together,
      does not fit i128. */
  lemma ExecuteAbortsIff(g: Gov, ledger: u32, id: u64)
    requires GovInv(g)
    ensures CheckExecutable(g, ledger, id) == Trap
            <==> && id in g.proposals
                 && ledger > g.proposals[id].expiry + g.proposals[id].delay
                 && !Decided(g.proposals[id])
                 && g.proposals[id].votesFor > g.proposals[id].votesAgainst
                 && g.proposals[id].votesFor > I128_MAX - g.proposals[id].votesAgainst
    ensures id in g.proposals && !g.proposals[id].executed ==>
              (g.proposals[id].votesFor > I128_MAX - g.proposals[id].votesAgainst
               <==> Spent(g.voteWeightUsed, id) > I128_MAX)
  {
    if id in g.proposals { assert ProposalInv(g, id); }
  }

  lemma FailedChecksDecide(s: System, e: Entry)
    requires e.call.Execute? && CheckExecutable(s.gov, e.ledger, e.call.id) != Ok
    ensures VerdictOf(s, e) == CheckExecutable(s.gov, e.ledger, e.call.id)
  {
  }

  lemma OverflowFailsChecks(g: Gov, ledger: u32, id: u64)
    requires id in g.proposals && g.proposals[id].Tally() > I128_MAX
    ensures CheckExecutable(g, ledger, id) != Ok
  {
  }

  /** Once the weight spent on an unexecuted proposal does not fit i128, no call of any
      later run executes it, before or after its expiry. */
  lemma {:induction false} OverflowIsPermanent(s: System, es: seq<Entry>, id: u64, e: Entry)
    requires GovInv(s.gov) && id in s.gov.proposals && !s.gov.proposals[id].executed
    requires Spent(s.gov.voteWeightUsed, id) > I128_MAX
    requires e.call == Execute(id)
    ensures id in Run(s, es).gov.proposals && !Run(s, es).gov.proposals[id].executed
    ensures VerdictOf(Run(s, es), e) != Ok
  {
    assert ProposalInv(s.gov, id);
    DecisionsAreFinal(s, es, id, 0);
    if es != [] {
      var front, last := es[..|es| - 1], es[|es| - 1];
      OverflowIsPermanent(s, front, id, e);
      DecisionsAreFinal(s, front, id, 0);
      OverflowFailsChecks(Run(s, front).gov, last.ledger, id);
      OnlyExecutedBySuccess(Run(s, front), last, id);
    }
    OverflowFailsChecks(Run(s, es).gov, e.ledger, id);
    FailedChecksDecide(Run(s, es), e);
  }

  /** Spent weight is never cast again: once a proposal is executed, and so open to
      `cleanup_proposal_votes`, every later vote on it fails. */
  lemma CleanupNeverRevivesVotes(s: System, es: seq<Entry>, e: Entry, id: u64)
    requires GovInv(s.gov) && id in s.gov.proposals && s.gov.proposals[id].executed
    requires e.call.Vote? && e.call.id == id
    ensures VerdictOf(Run(s, es), e) != Ok
    ensures id in Run(s, es).gov.proposals && Run(s, es).gov.proposals[id] == s.gov.proposals[id]
  {
    DecisionsAreFinal(s, es, id, 0);
  }

  /** The saturating delay check is the unbounded one, for every ledger number. */
  lemma TimelockIsUnbounded(ledger: u32, expiry: u32, delay: u32)
    ensures TimelockPassed(ledger, expiry, delay) <==> ledger > expiry + delay
  {
  }

  // ---- paging ----------------------------------------------------------------------------------

  const PAGE_CAP := 20

  /** The proposals with ids in [from, end), skipping the decided ones unless asked. */
  function Listing(g: Gov, from: int, end: int, includeInactive: bool): seq<Proposal>
    requires 0 <= from && end <= U64_MAX
    decreases end - from
  {
    if from >= end then []
    else if from in g.proposals && (includeInactive || !Decided(g.proposals[from]))
    then [g.proposals[from]] + Listing(g, from + 1, end, includeInactive)
    else Listing(g, from + 1, end, includeInactive)
  }

  /** `list_proposals`. */
  function ListProposals(g: Gov, from: u64, limit: u32, includeInactive: bool): seq<Proposal> {
    var cap := Min(limit, PAGE_CAP);
    if cap == 0 || from >= g.nextId then []
    else Listing(g, from, Min(Min(from + cap, U64_MAX), g.nextId), includeInactive)
  }

  lemma {:induction false} ListingSplits(g: Gov, from: int, mid: int, end: int, includeInactive: bool)
    requires 0 <= from <= mid <= end <= U64_MAX
    ensures Listing(g, from, end, includeInactive)
         == Listing(g, from, mid, includeInactive) + Listing(g, mid, end, includeInactive)
    decreases mid - from
  {
    if from < mid { ListingSplits(g, from + 1, mid, end, includeInactive); }
  }

  lemma {:induction false} ListingIsEveryId(g: Gov, from: int, end: int)
    requires IdsInv(g) && 1 <= from <= end <= g.nextId
    ensures |Listing(g, from, end, true)| == end - from
    ensures forall k :: 0 <= k < end - from ==> Listing(g, from, end, true)[k] == g.proposals[from + k]
    decreases end - from
  {
    if from < end { ListingIsEveryId(g, from + 1, end); }
  }

  /** A page with everything included holds the next 20 ids, or as many as were asked for and
      exist, each in its place. */
  lemma PageHolds(g: Gov, from: u64, limit: u32)
    requires IdsInv(g) && from >= 1
    ensures var page := ListProposals(g, from, limit, true);
            && |page| == Max(0, Min(Min(limit, 20), g.nextId - from))
            && (forall k :: 0 <= k < |page| ==> page[k] == g.proposals[from + k])
  {
    if limit > 0 && from < g.nextId { ListingIsEveryId(g, from, Min(from + Min(limit, PAGE_CAP), g.nextId)); }
  }

  /** Reading pages of at most 20 ids from `from` until past the last proposal. */
  function WalkProposals(g: Gov, from: nat, limit: u32, includeInactive: bool): seq<Proposal>
    requires limit > 0
    decreases g.nextId - from
  {
    if from >= g.nextId then []
    else
      ListProposals(g, from, limit, includeInactive)
      + WalkProposals(g, from + Min(limit, PAGE_CAP), limit, includeInactive)
  }

  lemma {:induction false} WalkIsListing(g: Gov, from: nat, limit: u32, includeInactive: bool)
    requires limit > 0
    ensures WalkProposals(g, from, limit, includeInactive) == Listing(g, from, g.nextId, includeInactive)
    decreases g.nextId - from
  {
    if from < g.nextId {
      var next := from + Min(limit, PAGE_CAP);
      WalkIsListing(g, next, limit, includeInactive);
      if next <= g.nextId {
        ListingSplits(g, from, next, g.nextId, includeInactive);
      }
    }
  }

  /** Walking `list_proposals` from id 1 in steps of any limit yields every proposal ever
      created, exactly once, in order of creation. */
  lemma WalkVisitsEveryProposal(g: Gov, limit: u32)
    requires IdsInv(g) && limit > 0
    ensures |WalkProposals(g, 1, limit, true)| == g.nextId - 1
    ensures forall id :: id in g.proposals ==>
              1 <= id < g.nextId && WalkProposals(g, 1, limit, true)[id - 1] == g.proposals[id]
  {
    hide WalkProposals, Listing;
    WalkIsListing(g, 1, limit, true);
    ListingIsEveryId(g, 1, g.nextId);
  }

  /** The number of proposals is the number of ids handed out. */
  lemma ProposalsAreCounted(g: Gov)
    requires IdsInv(g)
    ensures |g.proposals| == g.nextId - 1
  {
    IdsAreCounted(g.proposals.Keys, g.nextId - 1);
    assert |g.proposals| == |g.proposals.Keys|;
  }

  lemma {:induction false} IdsAreCounted(ids: set<u64>, n: nat)
    requires n <= U64_MAX && forall id: u64 :: id in ids <==> 1 <= id <= n
    ensures |ids| == n
    decreases n
  {
    if n > 0 {
      IdsAreCounted(ids - {n}, n - 1);
    } else {
      assert ids == {};
    }
  }
}
