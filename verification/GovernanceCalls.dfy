/** Which governance calls succeed and what exactly they change, in every reachable state of
    the two contracts: read off the transition itself, against the votes spent, the
    registered weights and the calls made before. */
module GovernanceCalls {
  import opened Host
  import opened CreditOracleTypes
  import opened Arithmetic
  import opened MapSums
  import opened GovernanceSpec
  import opened GovernanceInvariants
  import opened VoteAccounting
  import Queue = WeightQueue

  lemma ReachableIsSound(d: Deployment, es: seq<Entry>)
    requires d.quorum > 0
    ensures GovInv(StateAfter(d, es).gov) && Queue.ControlInv(StateAfter(d, es).control)
    ensures StateAfter(d, es).gov.self == d.self && StateAfter(d, es).gov.admin == d.admin
  {
    EveryStateIsSound(d.self, d.admin, d.oracleAdmin, d.quorum, es);
    WeightsAlwaysValid(d.self, d.admin, d.oracleAdmin, d.quorum, es);
    AddressesStay(d.System(), es);
  }

  lemma StepKeepsAddresses(s: System, e: Entry)
    ensures Step(s, e).gov.self == s.gov.self && Step(s, e).gov.admin == s.gov.admin
  {
    hide Queue.VerdictOf, Queue.After;
    if e.call.Vote? || e.call.Create? || e.call.Execute? {
      ProposalCallsKeepAddresses(s, e);
    }
  }

  lemma ProposalCallsKeepAddresses(s: System, e: Entry)
    requires e.call.Vote? || e.call.Create? || e.call.Execute?
    ensures Step(s, e).gov.self == s.gov.self && Step(s, e).gov.admin == s.gov.admin
  {
    hide CheckCreate, CheckVote, CheckExecutable, Queue.VerdictOf, Queue.After;
  }

  lemma {:induction false} AddressesStay(s: System, es: seq<Entry>)
    ensures Run(s, es).gov.self == s.gov.self && Run(s, es).gov.admin == s.gov.admin
  {
    if es != [] {
      hide Step;
      AddressesStay(s, es[..|es| - 1]);
      StepKeepsAddresses(Run(s, es[..|es| - 1]), es[|es| - 1]);
    }
  }

  // ---- execute ------------------------------------------------------------------------------

  /** Both periods are over, nobody has decided, and the votes cast carry the proposal: more
      for than against, the quorum reached, and a sum that i128 can hold. */
  ghost predicate Earned(g: Gov, id: u64, ledger: u32) {
    && id in g.proposals
    && ledger > g.proposals[id].expiry + g.proposals[id].delay
    && !Decided(g.proposals[id])
    && g.proposals[id].votesFor > g.proposals[id].votesAgainst
    && g.proposals[id].quorum <= Spent(g.voteWeightUsed, id) <= I128_MAX
  }

  /** The oracle lets governance queue weights: the call carries the oracle admin's
      authorization and the effective ledger exists. */
  predicate MayQueue(s: System, e: Entry) {
    && (s.control.admin == s.gov.self || s.control.admin in e.auth)
    && e.ledger + 17_280 <= U32_MAX
  }

  predicate BecomesExecuted(s: System, e: Entry, id: u64) {
    && id in s.gov.proposals && !s.gov.proposals[id].executed
    && id in Step(s, e).gov.proposals && Step(s, e).gov.proposals[id].executed
  }

  /** In every reachable state a call of `execute` turns the proposal from unexecuted to
      executed if and only if the proposal has earned it and the oracle accepts. It then
      queues the proposal's weights for 17,280 ledgers later and changes nothing else; in
      every other case nothing changes at all. */
  lemma ExecutesIffEarned(d: Deployment, es: seq<Entry>, e: Entry, id: u64)
    requires d.quorum > 0 && e.call == Execute(id)
    ensures var s := StateAfter(d, es);
            && (BecomesExecuted(s, e, id) <==> Earned(s.gov, id, e.ledger) && MayQueue(s, e))
            && (s.control.admin == d.self && e.ledger + 17_280 <= U32_MAX ==>
                  (BecomesExecuted(s, e, id) <==> Earned(s.gov, id, e.ledger)))
    ensures var s := StateAfter(d, es);
            Step(s, e) == if !BecomesExecuted(s, e, id) then s
                          else System(s.gov.(proposals := s.gov.proposals[id := s.gov.proposals[id].(executed := true)]),
                                      s.control.(queued := Some(s.gov.proposals[id].weights),
                                                 effective := Some(e.ledger + 17_280)))
  {
    ReachableIsSound(d, es);
    var s := StateAfter(d, es);
    if id in s.gov.proposals { assert ProposalInv(s.gov, id); }
  }

  /** How it refuses, case by case. The three tallying cases speak of the votes spent. */
  lemma ExecuteRefusals(d: Deployment, es: seq<Entry>, e: Entry, id: u64)
    requires d.quorum > 0 && e.call == Execute(id)
    ensures var s, v := StateAfter(d, es), VerdictOf(StateAfter(d, es), e);
            v == Err(ProposalNotFound) <==> !(1 <= id < s.gov.nextId)
    ensures var s, v := StateAfter(d, es), VerdictOf(StateAfter(d, es), e);
            id in s.gov.proposals ==>
              var p, spent := s.gov.proposals[id], Spent(s.gov.voteWeightUsed, id);
              var open := e.ledger > p.expiry + p.delay && !Decided(p);
              && (v == Err(ProposalNotExpired) <==> e.ledger <= p.expiry)
              && (v == Err(GovernanceError.TimelockNotExpired) <==> p.expiry < e.ledger <= p.expiry + p.delay)
              && (v == Err(ProposalAlreadyExecuted) <==> e.ledger > p.expiry + p.delay && p.executed)
              && (v == Err(ProposalAlreadyCancelled) <==> e.ledger > p.expiry + p.delay && p.cancelled)
              && (v == Err(ProposalRejected) <==> open && p.votesFor <= p.votesAgainst)
              && (v == Err(QuorumNotMet) <==> open && p.votesFor > p.votesAgainst && spent < p.quorum)
              && (v == Trap <==> open && p.votesFor > p.votesAgainst && p.quorum <= spent
                                 && (spent > I128_MAX || !MayQueue(s, e)))
  {
    ReachableIsSound(d, es);
    var s := StateAfter(d, es);
    if id in s.gov.proposals { assert ProposalInv(s.gov, id); }
  }

  // ---- vote ---------------------------------------------------------------------------------

  function Side(p: Proposal, support: bool): i128 { if support then p.votesFor else p.votesAgainst }

  /** The weight a voter has left on a proposal. */
  function Remaining(g: Gov, id: u64, voter: Address): int { g.WeightOf(voter) - g.UsedBy(id, voter) }

  predicate OpenAt(g: Gov, id: u64, ledger: u32) {
    id in g.proposals && ledger <= g.proposals[id].expiry && !Decided(g.proposals[id])
  }

  /** One side of one proposal and one voter's used weight grow by the same amount. */
  ghost predicate CountsVote(g: Gov, g': Gov, voter: Address, id: u64, support: bool, weight: i128) {
    && g' == g.(proposals := g'.proposals, voteWeightUsed := g'.voteWeightUsed)
    && g'.proposals.Keys == g.proposals.Keys && id in g.proposals
    && (forall i :: i in g.proposals && i != id ==> g'.proposals[i] == g.proposals[i])
    && Side(g'.proposals[id], support) == Side(g.proposals[id], support) + weight
    && Side(g'.proposals[id], !support) == Side(g.proposals[id], !support)
    && g'.proposals[id] == g.proposals[id].(votesFor := g'.proposals[id].votesFor,
                                            votesAgainst := g'.proposals[id].votesAgainst)
    && (forall i, v :: g'.UsedBy(i, v) == g.UsedBy(i, v) + if i == id && v == voter then weight else 0)
  }

  lemma VoteStep(s: System, e: Entry)
    requires GovInv(s.gov) && e.call.Vote?
    ensures var Vote(voter, id, support, weight) := e.call;
            VerdictOf(s, e) == Ok <==>
              && voter in e.auth && 0 < weight <= Remaining(s.gov, id, voter)
              && OpenAt(s.gov, id, e.ledger)
              && Side(s.gov.proposals[id], support) + weight <= I128_MAX
    ensures VerdictOf(s, e) == Ok ==>
              && Step(s, e) == s.(gov := Step(s, e).gov)
              && CountsVote(s.gov, Step(s, e).gov, e.call.voter, e.call.id, e.call.support, e.call.weight)
  {
    var Vote(voter, id, _, _) := e.call;
    if id in s.gov.proposals { assert ProposalInv(s.gov, id); }
    assert s.gov.UsedBy(id, voter) >= 0;
  }

  /** In every reachable state a vote counts if and only if its voter signed it, it asks for
      no more than the weight that voter has left on an open proposal, and its side stays
      within i128. It then raises that side and the voter's used weight by the same amount
      and nothing else; otherwise nothing changes. */
  lemma VoteCountsIff(d: Deployment, es: seq<Entry>, e: Entry)
    requires d.quorum > 0 && e.call.Vote?
    ensures var s, Vote(voter, id, support, weight) := StateAfter(d, es), e.call;
            Step(s, e) != s <==>
              && voter in e.auth && 0 < weight <= Remaining(s.gov, id, voter)
              && OpenAt(s.gov, id, e.ledger)
              && Side(s.gov.proposals[id], support) + weight <= I128_MAX
    ensures var s := StateAfter(d, es);
            Step(s, e) != s ==>
              && Step(s, e) == s.(gov := Step(s, e).gov)
              && CountsVote(s.gov, Step(s, e).gov, e.call.voter, e.call.id, e.call.support, e.call.weight)
  {
    ReachableIsSound(d, es);
    VoteStep(StateAfter(d, es), e);
  }

  /** How it refuses, case by case; in a reachable state it never aborts on arithmetic. */
  lemma VoteRefusals(d: Deployment, es: seq<Entry>, e: Entry)
    requires d.quorum > 0 && e.call.Vote?
    ensures var s, v := StateAfter(d, es), VerdictOf(StateAfter(d, es), e);
            var Vote(voter, id, support, weight) := e.call;
            var entitled := voter in e.auth && 0 < weight <= Remaining(s.gov, id, voter);
            var known := entitled && id in s.gov.proposals;
            && (v == Trap <==> voter !in e.auth)
            && (v == Err(InvalidVoteWeight) <==> voter in e.auth && weight <= 0)
            && (v == Err(VoterNotRegistered) <==> voter in e.auth && weight > 0 && s.gov.WeightOf(voter) == 0)
            && (v == Err(InsufficientVoteWeight) <==>
                  voter in e.auth && s.gov.WeightOf(voter) > 0 && weight > Max(0, Remaining(s.gov, id, voter)))
            && (v == Err(ProposalNotFound) <==> entitled && !(1 <= id < s.gov.nextId))
            && (v == Err(ProposalExpired) <==> known && e.ledger > s.gov.proposals[id].expiry)
            && (v == Err(ProposalAlreadyExecuted) <==>
                  known && e.ledger <= s.gov.proposals[id].expiry && s.gov.proposals[id].executed)
            && (v == Err(ProposalAlreadyCancelled) <==>
                  known && e.ledger <= s.gov.proposals[id].expiry && s.gov.proposals[id].cancelled)
            && (v == Err(VoteTallyOverflow) <==>
                  known && OpenAt(s.gov, id, e.ledger) && Side(s.gov.proposals[id], support) + weight > I128_MAX)
  {
    ReachableIsSound(d, es);
    var s := StateAfter(d, es);
    var Vote(voter, id, _, _) := e.call;
    if id in s.gov.proposals { assert ProposalInv(s.gov, id); }
    assert s.gov.UsedBy(id, voter) >= 0;
    assert voter in s.gov.voterWeight <==> s.gov.WeightOf(voter) > 0;
  }

  /** Counting a and then b on one side is counting a + b. */
  lemma VotesAddUp(g: Gov, e1: Entry, e2: Entry, e: Entry)
    requires e1.call.Vote? && e2.call.Vote? && e.call.Vote?
    requires e1.call.voter == e2.call.voter == e.call.voter && e1.call.id == e2.call.id == e.call.id
    requires e1.call.support == e2.call.support == e.call.support && e.call.weight == e1.call.weight + e2.call.weight
    requires CheckVote(g, e1.ledger, e1.auth, e1.call.voter, e1.call.id, e1.call.support, e1.call.weight) == Ok
    requires CheckVote(g, e.ledger, e.auth, e.call.voter, e.call.id, e.call.support, e.call.weight) == Ok
    requires var g1 := AfterVote(g, e1.ledger, e1.auth, e1.call.voter, e1.call.id, e1.call.support, e1.call.weight);
             CheckVote(g1, e2.ledger, e2.auth, e2.call.voter, e2.call.id, e2.call.support, e2.call.weight) == Ok
    ensures var g1 := AfterVote(g, e1.ledger, e1.auth, e1.call.voter, e1.call.id, e1.call.support, e1.call.weight);
            AfterVote(g1, e2.ledger, e2.auth, e2.call.voter, e2.call.id, e2.call.support, e2.call.weight)
            == AfterVote(g, e.ledger, e.auth, e.call.voter, e.call.id, e.call.support, e.call.weight)
  {
    var Vote(voter, id, support, a) := e1.call;
    var g1 := AfterVote(g, e1.ledger, e1.auth, voter, id, support, a);
    var g2 := AfterVote(g1, e2.ledger, e2.auth, voter, id, support, e2.call.weight);
    var g' := AfterVote(g, e.ledger, e.auth, voter, id, support, e.call.weight);
    assert g2.proposals == g'.proposals;
    assert g2.voteWeightUsed == g'.voteWeightUsed;
  }

  /** Splitting law: voting a and then b on one side is possible exactly when voting a + b
      at the later ledger is, and leaves the very same state. */
  lemma VotesSplit(d: Deployment, es: seq<Entry>, voter: Address, id: u64, support: bool, a: i128, b: i128,
                   ledger: u32, later: u32, auth: set<Address>)
    requires d.quorum > 0 && a > 0 && b > 0 && FitsI128(a + b) && ledger <= later
    ensures var s := StateAfter(d, es);
            var first := Entry(ledger, auth, Vote(voter, id, support, a));
            var second := Entry(later, auth, Vote(voter, id, support, b));
            var whole := Entry(later, auth, Vote(voter, id, support, a + b));
            && (VerdictOf(s, whole) == Ok
                <==> VerdictOf(s, first) == Ok && VerdictOf(Step(s, first), second) == Ok)
            && (VerdictOf(s, whole) == Ok ==> Step(Step(s, first), second) == Step(s, whole))
  {
    ReachableIsSound(d, es);
    var s := StateAfter(d, es);
    var first := Entry(ledger, auth, Vote(voter, id, support, a));
    var second := Entry(later, auth, Vote(voter, id, support, b));
    var whole := Entry(later, auth, Vote(voter, id, support, a + b));
    VoteStep(s, first);
    VoteStep(s, whole);
    if VerdictOf(s, first) == Ok {
      var s1 := Step(s, first);
      StepKeepsInv(s, first);
      VoteStep(s1, second);
      assert s1.gov.UsedBy(id, voter) == s.gov.UsedBy(id, voter) + a;
      if VerdictOf(s1, second) == Ok && VerdictOf(s, whole) == Ok { VotesAddUp(s.gov, first, second, whole); }
    }
  }

  // ---- create and cancel ----------------------------------------------------------------------

  /** The quorum in force: the configured amount, or the configured percentage of all
      registered weight, rounded down. */
  ghost predicate IsQuorum(g: Gov, q: int) {
    match g.quorumPercent
    case None => q == g.quorumRequired
    case Some(percent) => 100 * q <= Sum(g.voterWeight) * percent < 100 * q + 100
  }

  /** A fresh proposal with the terms of the call and the quorum in force. */
  ghost predicate IsProposedBy(p: Proposal, g: Gov, e: Entry)
    requires e.call.Create?
  {
    && p == Proposal(p.id, e.call.proposer, e.call.weights, 0, 0, p.expiry, e.call.delay, false, false, p.quorum)
    && p.expiry == e.ledger + e.call.period
    && IsQuorum(g, p.quorum)
  }

  /** In every reachable state `create_proposal` succeeds if and only if the proposer signed,
      the weights sum to 100 with each at least 10, the period is positive and ends within
      u32, and neither the percentage nor the next id overflows. It then stores one fresh
      proposal under the next id. */
  lemma CreatesIff(d: Deployment, es: seq<Entry>, e: Entry)
    requires d.quorum > 0 && e.call.Create?
    ensures var s, g := StateAfter(d, es), StateAfter(d, es).gov;
            Step(s, e) != s <==>
              && e.call.proposer in e.auth && Balanced(e.call.weights)
              && 0 < e.call.period <= U32_MAX - e.ledger
              && (g.quorumPercent.Some? ==> Sum(g.voterWeight) * g.quorumPercent.value <= I128_MAX)
              && g.nextId < U64_MAX
    ensures var s, s' := StateAfter(d, es), Step(StateAfter(d, es), e);
            var g, g', id := s.gov, s'.gov, s.gov.nextId;
            s' != s ==>
              && id in g'.proposals && IsProposedBy(g'.proposals[id], g, e) && g'.proposals[id].id == id
              && s' == s.(gov := g.(proposals := g.proposals[id := g'.proposals[id]],
                                    proposers := g.proposers[id := e.call.proposer], nextId := g'.nextId))
              && g'.nextId == id + 1
  {
    ReachableIsSound(d, es);
    var s := StateAfter(d, es);
    TotalIsNonNegative(s.gov);
    if s.gov.quorumPercent.Some? {
      MulBound(s.gov.totalWeight, s.gov.quorumPercent.value, s.gov.totalWeight, 100);
    }
  }

  /** How it refuses, case by case. */
  lemma CreateRefusals(d: Deployment, es: seq<Entry>, e: Entry)
    requires d.quorum > 0 && e.call.Create?
    ensures var g, v, w := StateAfter(d, es).gov, VerdictOf(StateAfter(d, es), e), e.call.weights;
            var tooLarge := w.LargeEnough() && w.Total() > U32_MAX;
            var sound := e.call.proposer in e.auth && Balanced(w);
            && (v == Err(GovernanceError.InvalidWeights) <==> e.call.proposer in e.auth && !Balanced(w) && !tooLarge)
            && (v == Err(InvalidVotingPeriod) <==> sound && e.call.period == 0)
            && (v == Err(InvalidQuorum) <==>
                  sound && 0 < e.call.period <= U32_MAX - e.ledger && g.quorumPercent.Some?
                  && Sum(g.voterWeight) * g.quorumPercent.value > I128_MAX)
  {
    ReachableIsSound(d, es);
    var g := StateAfter(d, es).gov;
    TotalIsNonNegative(g);
    if g.quorumPercent.Some? { MulBound(g.totalWeight, g.quorumPercent.value, g.totalWeight, 100); }
  }

  ghost predicate ProposedAt(d: Deployment, es: seq<Entry>, p: Proposal, j: nat) {
    && j < |es| && es[j].call.Create? && es[j].call.proposer in es[j].auth && Balanced(es[j].call.weights)
    && IsProposedBy(p.(votesFor := 0, votesAgainst := 0, executed := false, cancelled := false),
                    StateAfter(d, es[..j]).gov, es[j])
    && p.id == StateAfter(d, es[..j]).gov.nextId
  }

  lemma ProposedEarlier(d: Deployment, es: seq<Entry>, e: Entry, p: Proposal, p': Proposal, j: nat)
    requires ProposedAt(d, es, p, j) && MayBecome(p, p', false)
    ensures ProposedAt(d, es + [e], p', j)
  {
    assert (es + [e])[..j] == es[..j];
  }

  /** Every proposal of every run goes back to one accepted call of its proposer: terms,
      expiry, delay and the quorum in force at that moment are still the ones it was created
      with. */
  lemma {:induction false} EveryProposalWasProposed(d: Deployment, es: seq<Entry>, id: u64)
    requires d.quorum > 0 && id in StateAfter(d, es).gov.proposals
    ensures exists j: nat :: ProposedAt(d, es, StateAfter(d, es).gov.proposals[id], j)
  {
    if es != [] {
      var front, e := es[..|es| - 1], es[|es| - 1];
      assert es == front + [e];
      var s := StateAfter(d, front);
      ReachableIsSound(d, front);
      if id in s.gov.proposals {
        EveryProposalWasProposed(d, front, id);
        var j: nat :| ProposedAt(d, front, s.gov.proposals[id], j);
        StepEvolves(s, e, id, 0);
        ProposedEarlier(d, front, e, s.gov.proposals[id], StateAfter(d, es).gov.proposals[id], j);
      } else {
        OnlyCreateAdds(s, e, id);
        CreatesIff(d, front, e);
        assert es[..|front|] == front;
        assert ProposedAt(d, es, StateAfter(d, es).gov.proposals[id], |front|);
      }
    }
  }

  lemma OnlyCreateAdds(s: System, e: Entry, id: u64)
    ensures id !in s.gov.proposals && id in Step(s, e).gov.proposals
            ==> e.call.Create? && VerdictOf(s, e) == Ok && id == s.gov.nextId
  {
    match e.call
    case Create(_, _, _, _) =>
    case Vote(_, _, _, _) =>
    case Execute(_) =>
    case Cancel(_, _) =>
    case _ => assert Step(s, e).gov.proposals == s.gov.proposals;
  }

  /** In every reachable state a proposal is cancelled if and only if the admin or its own
      proposer asks, with that signature, while it is undecided; only its flag changes. */
  lemma CancelsIff(d: Deployment, es: seq<Entry>, e: Entry, id: u64)
    requires d.quorum > 0 && e.call.Cancel? && e.call.id == id
    ensures var s, g := StateAfter(d, es), StateAfter(d, es).gov;
            Step(s, e) != s <==>
              && id in g.proposals && !Decided(g.proposals[id])
              && e.call.canceller in e.auth * {d.admin, g.proposals[id].proposer}
    ensures var s, g := StateAfter(d, es), StateAfter(d, es).gov;
            Step(s, e) != s ==>
              Step(s, e) == s.(gov := g.(proposals := g.proposals[id := g.proposals[id].(cancelled := true)]))
  {
    ReachableIsSound(d, es);
    var g := StateAfter(d, es).gov;
    if id in g.proposals { assert ProposalInv(g, id); }
  }

  /** How it refuses, case by case. */
  lemma CancelRefusals(d: Deployment, es: seq<Entry>, e: Entry, id: u64)
    requires d.quorum > 0 && e.call.Cancel? && e.call.id == id
    ensures var g, v := StateAfter(d, es).gov, VerdictOf(StateAfter(d, es), e);
            var known := e.call.canceller in e.auth && id in g.proposals;
            && (v == Trap <==> e.call.canceller !in e.auth)
            && (v == Err(ProposalNotFound) <==> e.call.canceller in e.auth && !(1 <= id < g.nextId))
            && (v == Err(ProposalAlreadyExecuted) <==> known && g.proposals[id].executed)
            && (v == Err(ProposalAlreadyCancelled) <==> known && g.proposals[id].cancelled)
            && (v == Err(GovernanceError.NotAuthorized) <==>
                  known && !Decided(g.proposals[id]) && e.call.canceller !in {d.admin, g.proposals[id].proposer})
  {
    ReachableIsSound(d, es);
    var g := StateAfter(d, es).gov;
    if id in g.proposals { assert ProposalInv(g, id); }
  }

  /** In every reachable state a cleanup frees exactly the listed voters' entries on an
      executed proposal, for the admin only, and touches nothing else. */
  lemma CleanupFrees(d: Deployment, es: seq<Entry>, e: Entry)
    requires d.quorum > 0 && e.call.Cleanup?
    ensures var Cleanup(admin, id, voters) := e.call;
            var s, g, g' := StateAfter(d, es), StateAfter(d, es).gov, Step(StateAfter(d, es), e).gov;
            && Step(s, e) == s.(gov := g.(voteWeightUsed := g'.voteWeightUsed))
            && (forall i, v :: g'.UsedBy(i, v) ==
                  if i == id && v in voters && admin == d.admin && admin in e.auth
                     && id in g.proposals && g.proposals[id].executed
                  then 0 else g.UsedBy(i, v))
            && (VerdictOf(s, e) == Ok <==> admin == d.admin && admin in e.auth && id in g.proposals)
  {
    ReachableIsSound(d, es);
  }

  // ---- registered weights and quorum settings ----------------------------------------------------

  lemma WeightFits(s: System, e: Entry)
    requires VotersInv(s.gov) && NewWeight(e.call).Some?
    ensures var g, (voter, weight) := s.gov, NewWeight(e.call).value;
            VerdictOf(s, e) == Ok <==>
              && e.call.admin == g.admin && g.admin in e.auth
              && weight >= (if e.call.RegisterVoter? then 1 else 0)
              && Sum(g.voterWeight) - g.WeightOf(voter) + weight <= I128_MAX
  {
    var g, voter := s.gov, NewWeight(e.call).value.0;
    SumRemove(g.voterWeight, voter);
    SumNonNegative(g.voterWeight - {voter});
    assert 0 <= g.WeightOf(voter) <= Sum(g.voterWeight);
  }

  lemma WeightMoves(s: System, e: Entry)
    requires VotersInv(s.gov) && NewWeight(e.call).Some? && VerdictOf(s, e) == Ok
    ensures var (voter, weight) := NewWeight(e.call).value;
            var g, g' := s.gov, Step(s, e).gov;
            && Step(s, e) == s.(gov := g.(voterWeight := g'.voterWeight, totalWeight := g'.totalWeight))
            && (forall v :: g'.WeightOf(v) == if v == voter then weight else g.WeightOf(v))
            && g'.totalWeight == Sum(g.voterWeight) - g.WeightOf(voter) + weight
  {
    var (voter, weight) := NewWeight(e.call).value;
    assert !TotalOverflows(s.gov, voter, weight);
    assert Step(s, e) == s.(gov := AfterSetWeight(s.gov, voter, weight));
  }

  /** In every reachable state a voter's weight is set if and only if the admin signs, the
      weight is positive, or zero where that removes the voter, and the new sum of all
      weights stays within i128. Nobody else's weight moves. */
  lemma WeightIsSetIff(d: Deployment, es: seq<Entry>, e: Entry)
    requires d.quorum > 0 && NewWeight(e.call).Some?
    ensures var s, g, (voter, weight) := StateAfter(d, es), StateAfter(d, es).gov, NewWeight(e.call).value;
            VerdictOf(s, e) == Ok <==>
              && e.call.admin == d.admin && d.admin in e.auth
              && weight >= (if e.call.RegisterVoter? then 1 else 0)
              && Sum(g.voterWeight) - g.WeightOf(voter) + weight <= I128_MAX
    ensures var s, (voter, weight) := StateAfter(d, es), NewWeight(e.call).value;
            var g, g' := s.gov, Step(s, e).gov;
            VerdictOf(s, e) == Ok ==>
              && Step(s, e) == s.(gov := g.(voterWeight := g'.voterWeight, totalWeight := g'.totalWeight))
              && (forall v :: g'.WeightOf(v) == if v == voter then weight else g.WeightOf(v))
              && g'.totalWeight == Sum(g.voterWeight) - g.WeightOf(voter) + weight
  {
    ReachableIsSound(d, es);
    WeightFits(StateAfter(d, es), e);
    if VerdictOf(StateAfter(d, es), e) == Ok { WeightMoves(StateAfter(d, es), e); }
  }

  /** A quorum setting is accepted from the admin only: an amount between one and the sum of
      all registered weights, which ends any percentage, or a percentage from 1 to 100. */
  lemma QuorumIsSetIff(d: Deployment, es: seq<Entry>, e: Entry)
    requires d.quorum > 0 && (e.call.SetQuorum? || e.call.SetQuorumPercent?)
    ensures var s := StateAfter(d, es);
            VerdictOf(s, e) == Ok <==>
              && e.call.admin == d.admin && d.admin in e.auth
              && (if e.call.SetQuorum? then 1 <= e.call.quorum <= Sum(s.gov.voterWeight)
                  else 1 <= e.call.percent <= 100)
    ensures var s := StateAfter(d, es);
            VerdictOf(s, e) == Ok ==>
              Step(s, e) == s.(gov := if e.call.SetQuorum?
                                      then s.gov.(quorumRequired := e.call.quorum, quorumPercent := None)
                                      else s.gov.(quorumPercent := Some(e.call.percent)))
  {
    ReachableIsSound(d, es);
  }

  /** How the settings calls of governance refuse, case by case. */
  lemma SettingRefusals(d: Deployment, es: seq<Entry>, e: Entry)
    requires d.quorum > 0
    requires NewWeight(e.call).Some? || e.call.SetQuorum? || e.call.SetQuorumPercent?
    ensures var s, v := StateAfter(d, es), VerdictOf(StateAfter(d, es), e);
            var mine := e.call.admin == d.admin;
            match e.call
            case SetQuorum(_, q) =>
              && (v == Err(InvalidQuorum) <==> q <= 0 || (mine && d.admin in e.auth && q > Sum(s.gov.voterWeight)))
              && (v == Err(GovernanceError.NotAuthorized) <==> q > 0 && !mine)
            case SetQuorumPercent(_, percent) =>
              && (v == Err(InvalidQuorum) <==> !(1 <= percent <= 100))
              && (v == Err(GovernanceError.NotAuthorized) <==> 1 <= percent <= 100 && !mine)
            case _ =>
              && (v == Err(GovernanceError.NotAuthorized) <==> !mine)
              && (v == Err(InvalidVoteWeight) <==>
                    mine && NewWeight(e.call).value.1 < (if e.call.RegisterVoter? then 1 else 0))
  {
    ReachableIsSound(d, es);
  }

  // ---- tallies are the votes cast -----------------------------------------------------------------

  /** All weight the run's accepted votes put on one side of a proposal. */
  function VotesCast(d: Deployment, es: seq<Entry>, id: u64, support: bool): int {
    if es == [] then 0
    else
      var front, e := es[..|es| - 1], es[|es| - 1];
      VotesCast(d, front, id, support)
      + (if e.call.Vote? && e.call.id == id && e.call.support == support && VerdictOf(StateAfter(d, front), e) == Ok
         then e.call.weight else 0)
  }

  /** All weight one voter's accepted votes put on a proposal. */
  function CastBy(d: Deployment, es: seq<Entry>, id: u64, voter: Address): int {
    if es == [] then 0
    else
      var front, e := es[..|es| - 1], es[|es| - 1];
      CastBy(d, front, id, voter)
      + (if e.call.Vote? && e.call.id == id && e.call.voter == voter && VerdictOf(StateAfter(d, front), e) == Ok
         then e.call.weight else 0)
  }

  lemma TallyMoves(s: System, e: Entry, id: u64, support: bool)
    requires GovInv(s.gov) && id in s.gov.proposals
    ensures id in Step(s, e).gov.proposals
    ensures Side(Step(s, e).gov.proposals[id], support)
         == Side(s.gov.proposals[id], support)
            + if e.call.Vote? && e.call.id == id && e.call.support == support && VerdictOf(s, e) == Ok
              then e.call.weight else 0
  {
    StepEvolves(s, e, id, 0);
    hide MayBecome;
    if e.call.Vote? {
      VoteStep(s, e);
    } else {
      OthersKeepTallies(s, e, id);
    }
  }

  lemma OthersKeepTallies(s: System, e: Entry, id: u64)
    requires IdsInv(s.gov) && id in s.gov.proposals && !e.call.Vote?
    ensures id in Step(s, e).gov.proposals
    ensures Step(s, e).gov.proposals[id].votesFor == s.gov.proposals[id].votesFor
    ensures Step(s, e).gov.proposals[id].votesAgainst == s.gov.proposals[id].votesAgainst
  {
    if !e.call.Create? && !e.call.Execute? && !e.call.Cancel? {
      assert Step(s, e).gov.proposals == s.gov.proposals;
    }
  }

  /** In every run each side of a proposal is exactly the weight of the accepted votes for
      that side. */
  lemma {:induction false} TalliesAreVotesCast(d: Deployment, es: seq<Entry>, id: u64, support: bool)
    requires d.quorum > 0
    ensures var g := StateAfter(d, es).gov;
            VotesCast(d, es, id, support) == if id in g.proposals then Side(g.proposals[id], support) else 0
  {
    if es != [] {
      var front, e := es[..|es| - 1], es[|es| - 1];
      TalliesAreVotesCast(d, front, id, support);
      ReachableIsSound(d, front);
      var s := StateAfter(d, front);
      if id in s.gov.proposals {
        TallyMoves(s, e, id, support);
      } else if id in StateAfter(d, es).gov.proposals {
        OnlyCreateAdds(s, e, id);
      }
    }
  }

  lemma UsedMoves(s: System, e: Entry, id: u64, voter: Address)
    requires GovInv(s.gov)
    ensures var used := s.gov.UsedBy(id, voter);
            var cast := if e.call.Vote? && e.call.id == id && e.call.voter == voter && VerdictOf(s, e) == Ok
                        then e.call.weight else 0;
            Step(s, e).gov.UsedBy(id, voter) == used + cast
            || (Step(s, e).gov.UsedBy(id, voter) == 0 && cast == 0
                && id in s.gov.proposals && s.gov.proposals[id].executed)
  {
    if e.call.Vote? {
      VoteStep(s, e);
    } else {
      OthersOnlyFree(s, e, id, voter);
    }
  }

  lemma OthersOnlyFree(s: System, e: Entry, id: u64, voter: Address)
    requires !e.call.Vote?
    ensures Step(s, e).gov.UsedBy(id, voter) == s.gov.UsedBy(id, voter)
            || (Step(s, e).gov.UsedBy(id, voter) == 0 && id in s.gov.proposals && s.gov.proposals[id].executed)
  {
    if !e.call.Cleanup? { assert Step(s, e).gov.voteWeightUsed == s.gov.voteWeightUsed; }
  }

  /** The weight a voter has used on an unexecuted proposal is exactly what that voter has
      cast on it; after execution it may have been cleaned up. */
  lemma {:induction false} UsedIsCast(d: Deployment, es: seq<Entry>, id: u64, voter: Address)
    requires d.quorum > 0
    ensures var g := StateAfter(d, es).gov;
            g.UsedBy(id, voter) == CastBy(d, es, id, voter)
            || (g.UsedBy(id, voter) == 0 && id in g.proposals && g.proposals[id].executed)
  {
    if es != [] {
      var front, e := es[..|es| - 1], es[|es| - 1];
      var s := StateAfter(d, front);
      UsedIsCast(d, front, id, voter);
      ReachableIsSound(d, front);
      UsedMoves(s, e, id, voter);
      if id in s.gov.proposals { StepEvolves(s, e, id, 0); }
    }
  }

  // ---- the oracle's admin role and its queue --------------------------------------------------------

  /** Who takes the role by this call. */
  function Taker(s: System, call: Call): Option<Address> {
    match call
    case AcceptOracleAdmin => Some(s.gov.self)
    case Direct(q) => if q.AcceptAdmin? then Some(q.newAdmin) else None
    case _ => None
  }

  /** The role passes if and only if it was offered to exactly this address and that address,
      or governance's own admin for governance, signs. A contract is then on record as
      governance, an account is not. */
  lemma RolePassesIff(s: System, e: Entry)
    requires Taker(s, e.call).Some?
    ensures var a := Taker(s, e.call).value;
            VerdictOf(s, e) == Ok <==>
              && s.control.pendingAdmin == Some(a)
              && (if e.call.AcceptOracleAdmin? then s.gov.admin else a) in e.auth
    ensures var a := Taker(s, e.call).value;
            VerdictOf(s, e) == Ok ==>
              Step(s, e) == s.(control := s.control.(admin := a, pendingAdmin := None,
                                                     governance := if a.Contract? then Some(a) else None))
  {
  }

  lemma OfferMoves(s: System, e: Entry)
    ensures var c, c' := s.control, Step(s, e).control;
            || (c'.admin == c.admin && c'.pendingAdmin == c.pendingAdmin)
            || (c'.pendingAdmin == None && c.pendingAdmin == Some(c'.admin) && Taker(s, e.call) == Some(c'.admin))
            || (c'.admin == c.admin && c'.pendingAdmin.Some? && c.admin in e.auth
                && e.call == Direct(Queue.ProposeNewAdmin(c'.pendingAdmin.value)))
  {
  }

  /** The j-th call offers the role to a, with the signature of the admin of that moment. */
  predicate OfferedAt(d: Deployment, es: seq<Entry>, a: Address, giver: Address, j: nat) {
    && j < |es| && es[j].call == Direct(Queue.ProposeNewAdmin(a))
    && giver in es[j].auth && StateAfter(d, es[..j]).control.admin == giver
  }

  lemma OfferedEarlier(d: Deployment, es: seq<Entry>, e: Entry, a: Address, giver: Address, j: nat)
    requires OfferedAt(d, es, a, giver, j)
    ensures OfferedAt(d, es + [e], a, giver, j)
  {
    assert (es + [e])[..j] == es[..j];
  }

  /** A standing offer was made by the present admin. */
  lemma {:induction false} OffersComeFromAdmin(d: Deployment, es: seq<Entry>)
    ensures var c := StateAfter(d, es).control;
            c.pendingAdmin.Some? ==> exists j: nat :: OfferedAt(d, es, c.pendingAdmin.value, c.admin, j)
  {
    if es != [] {
      var front, e := es[..|es| - 1], es[|es| - 1];
      assert es == front + [e];
      OffersComeFromAdmin(d, front);
      var s, c' := StateAfter(d, front), StateAfter(d, es).control;
      OfferMoves(s, e);
      if c'.pendingAdmin.Some? {
        if c'.admin == s.control.admin && c'.pendingAdmin == s.control.pendingAdmin {
          var j: nat :| OfferedAt(d, front, c'.pendingAdmin.value, c'.admin, j);
          OfferedEarlier(d, front, e, c'.pendingAdmin.value, c'.admin, j);
        } else {
          assert es[..|front|] == front;
          assert OfferedAt(d, es, c'.pendingAdmin.value, c'.admin, |front|);
        }
      }
    }
  }

  /** Nobody comes by the role without an offer: in every run the present admin is the first
      one, or took the role by a call of its own after an earlier call in which the admin of
      that moment had signed an offer to exactly that address. */
  lemma {:induction false} RoleComesByOffer(d: Deployment, es: seq<Entry>)
    ensures var c := StateAfter(d, es).control;
            c.admin == d.oracleAdmin
            || exists i: nat, j: nat, giver ::
                 && i < j < |es| && OfferedAt(d, es, c.admin, giver, i)
                 && Taker(StateAfter(d, es[..j]), es[j].call) == Some(c.admin)
  {
    if es != [] {
      var front, e := es[..|es| - 1], es[|es| - 1];
      assert es == front + [e];
      RoleComesByOffer(d, front);
      var s, c' := StateAfter(d, front), StateAfter(d, es).control;
      OfferMoves(s, e);
      if c'.admin == s.control.admin {
        if c'.admin != d.oracleAdmin {
          var i: nat, j: nat, giver :| i < j < |front| && OfferedAt(d, front, c'.admin, giver, i)
                                    && Taker(StateAfter(d, front[..j]), front[j].call) == Some(c'.admin);
          OfferedEarlier(d, front, e, c'.admin, giver, i);
          assert es[..j] == front[..j] && es[j] == front[j];
        }
      } else {
        OffersComeFromAdmin(d, front);
        var i: nat :| OfferedAt(d, front, c'.admin, s.control.admin, i);
        OfferedEarlier(d, front, e, c'.admin, s.control.admin, i);
        assert es[..|front|] == front && es[|front|] == e;
      }
    }
  }

  /** Weights queued directly, an offer, and the pause flag each need the oracle admin. */
  lemma DirectCallSucceedsIff(s: System, e: Entry)
    requires e.call.Direct? && Taker(s, e.call) == None && !e.call.call.ApplyWeights?
    ensures VerdictOf(s, e) == Ok <==>
              && s.control.admin in e.auth
              && (match e.call.call
                  case ProposeWeights(w) => Balanced(w) && e.ledger + 17_280 <= U32_MAX
                  case SetPaused(caller, _) => caller == s.control.admin
                  case _ => true)
    ensures VerdictOf(s, e) == Ok ==>
              Step(s, e) == s.(control := match e.call.call
                                          case ProposeWeights(w) =>
                                            s.control.(queued := Some(w), effective := Some(e.ledger + 17_280))
                                          case ProposeNewAdmin(a) => s.control.(pendingAdmin := Some(a))
                                          case SetPaused(_, paused) => s.control.(paused := paused)
                                          case _ => s.control)
  {
  }

  /** How the oracle itself refuses these calls, case by case. */
  lemma QueueRefusals(c: Queue.Control, ledger: u32, auth: set<Address>, call: Queue.QueueCall)
    requires Queue.ControlInv(c)
    ensures var v := Queue.VerdictOf(c, ledger, auth, call);
            match call
            case ProposeWeights(w) =>
              v == Err(CreditOracleError.InvalidWeights) <==> !Balanced(w) && !(w.LargeEnough() && w.Total() > U32_MAX)
            case ApplyWeights =>
              && (v == Err(CreditOracleError.ContractPaused) <==> c.paused)
              && (v == Err(CreditOracleError.NoPendingWeights) <==> !c.paused && c.queued.None?)
              && (v == Err(CreditOracleError.TimelockNotExpired) <==>
                    !c.paused && c.queued.Some? && ledger < c.effective.value)
            case ProposeNewAdmin(_) => v == if c.admin in auth then Ok else Trap
            case AcceptAdmin(a) =>
              v == Err(CreditOracleError.NotAuthorized) <==>
                a in auth && c.pendingAdmin.Some? && c.pendingAdmin.value != a
            case SetPaused(caller, _) => v == Err(CreditOracleError.NotAuthorized) <==> caller != c.admin
  {
  }

  /** How governance reports a refused apply. */
  lemma ApplyRefusals(d: Deployment, es: seq<Entry>, e: Entry)
    requires d.quorum > 0 && e.call == GovApplyWeights
    ensures var c, v := StateAfter(d, es).control, VerdictOf(StateAfter(d, es), e);
            && (v == Err(GovernanceError.ContractPaused) <==> c.paused)
            && (v == Err(GovernanceError.NoPendingWeights) <==> !c.paused && c.queued.None?)
            && (v == Err(GovernanceError.TimelockNotExpired) <==>
                  !c.paused && c.effective.Some? && e.ledger < c.effective.value)
            && (v == Ok <==> !c.paused && c.effective.Some? && e.ledger >= c.effective.value)
  {
    ReachableIsSound(d, es);
  }
}
