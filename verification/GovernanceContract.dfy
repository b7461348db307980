/** The governance contract as it is written: stored fields updated in place, mutable
    proposals written back, calls into the credit oracle. Every method is one step of the
    transition system, so what is proved about its runs is proved about this class. */
module GovernanceContract {
  import opened Host
  import opened CreditOracleTypes
  import opened CreditOracleContract
  import opened GovernanceSpec
  import opened IdentityContracts
  import Inv = GovernanceInvariants

  class Governance {
    /** The contract's own address. */
    const self: Address
    const creditOracle: CreditOracle
    var admin: Address
    var nextId: u64
    var quorumRequired: i128
    var quorumPercent: Option<u32>
    var proposals: map<u64, Proposal>
    var proposers: map<u64, Address>
    var voterWeight: map<Address, i128>
    var voteWeightUsed: map<(u64, Address), i128>
    var totalWeight: i128

    ghost function View(): Gov
      reads this
    {
      Gov(self, admin, nextId, quorumRequired, quorumPercent, proposals, proposers, voterWeight,
          voteWeightUsed, totalWeight)
    }

    ghost function Sys(): System
      reads this, creditOracle
    {
      System(View(), creditOracle.Control())
    }

    constructor (self: Address, admin: Address, creditOracle: CreditOracle, quorum: i128)
      ensures View() == Deployed(self, admin, quorum) && this.creditOracle == creditOracle
    {
      this.self, this.creditOracle, this.admin := self, creditOracle, admin;
      nextId, quorumRequired, quorumPercent := 1, quorum, None;
      proposals, proposers, voterWeight, voteWeightUsed, totalWeight := map[], map[], map[], map[], 0;
    }

    // ---- proposals ---------------------------------------------------------------------

    /** The quorum `create_proposal` copies into a proposal. */
    method SnapshotQuorum() returns (quorum: Option<i128>)
      ensures quorum == QuorumSnapshot(View())
    {
      if quorumPercent.Some? {
        var share := totalWeight * quorumPercent.value;
        quorum := if FitsI128(share) then Some(TruncDiv(share, 100)) else None;
      } else {
        quorum := Some(quorumRequired);
      }
    }

    /** `create_proposal`. */
    method CreateProposal(env: Env, proposer: Address, w: ScoringWeights, period: u32, delay: u32)
      returns (v: Verdict<GovernanceError>, id: u64)
      modifies this`proposals, this`proposers, this`nextId
      ensures v == VerdictOf(old(Sys()), Entry(env.ledger, env.auth, Create(proposer, w, period, delay)))
      ensures Sys() == Step(old(Sys()), Entry(env.ledger, env.auth, Create(proposer, w, period, delay)))
      ensures v == Ok ==> id == old(nextId)
    {
      id := nextId;
      if proposer !in env.auth || w.ValidityCheckOverflows() { return Trap, id; }
      if !w.IsValid() { return Err(GovernanceError.InvalidWeights), id; }
      if period == 0 { return Err(InvalidVotingPeriod), id; }
      if env.ledger + period > U32_MAX { return Trap, id; }
      var quorum := SnapshotQuorum();
      if quorum.None? { return Err(InvalidQuorum), id; }
      if id == U64_MAX { return Trap, id; }
      var proposal := Proposal(id, proposer, w, 0, 0, env.ledger + period, delay, false, false, quorum.value);
      proposals := proposals[id := proposal];
      proposers := proposers[id := proposer];
      nextId := id + 1;
      v := Ok;
    }

    /** `vote`. */
    method Vote(env: Env, voter: Address, id: u64, support: bool, weight: i128)
      returns (v: Verdict<GovernanceError>)
      modifies this`proposals, this`voteWeightUsed
      ensures v == VerdictOf(old(Sys()), Entry(env.ledger, env.auth, Call.Vote(voter, id, support, weight)))
      ensures Sys() == Step(old(Sys()), Entry(env.ledger, env.auth, Call.Vote(voter, id, support, weight)))
    {
      if voter !in env.auth { return Trap; }
      if weight <= 0 { return Err(InvalidVoteWeight); }
      if voter !in voterWeight { return Err(VoterNotRegistered); }
      var used := GetOr(voteWeightUsed, (id, voter), 0);
      var available := voterWeight[voter] - used;
      if !FitsI128(available) { return Trap; }
      if weight > available { return Err(InsufficientVoteWeight); }
      if id !in proposals { return Err(ProposalNotFound); }
      var proposal := proposals[id];
      if env.ledger > proposal.expiry { return Err(ProposalExpired); }
      if proposal.executed { return Err(ProposalAlreadyExecuted); }
      if proposal.cancelled { return Err(ProposalAlreadyCancelled); }
      if support {
        if proposal.votesFor + weight > I128_MAX { return Err(VoteTallyOverflow); }
        proposal := proposal.(votesFor := proposal.votesFor + weight);
      } else {
        if proposal.votesAgainst + weight > I128_MAX { return Err(VoteTallyOverflow); }
        proposal := proposal.(votesAgainst := proposal.votesAgainst + weight);
      }
      if !FitsI128(used + weight) { return Trap; }
      voteWeightUsed := voteWeightUsed[(id, voter) := used + weight];
      proposals := proposals[id := proposal];
      v := Ok;
    }

    /** The checks of `execute`. */
    method AdmitExecution(ledger: u32, id: u64) returns (v: Verdict<GovernanceError>)
      ensures v == CheckExecutable(View(), ledger, id)
    {
      if id !in proposals { return Err(ProposalNotFound); }
      var proposal := proposals[id];
      if ledger <= proposal.expiry { return Err(ProposalNotExpired); }
      var executableAt := SatAddU32(proposal.expiry, proposal.delay);
      if ledger <= executableAt { return Err(GovernanceError.TimelockNotExpired); }
      if proposal.executed { return Err(ProposalAlreadyExecuted); }
      if proposal.cancelled { return Err(ProposalAlreadyCancelled); }
      if proposal.votesFor <= proposal.votesAgainst { return Err(ProposalRejected); }
      if !FitsI128(proposal.votesFor + proposal.votesAgainst) { return Trap; }
      if proposal.votesFor + proposal.votesAgainst < proposal.quorum { return Err(QuorumNotMet); }
      v := Ok;
    }

    /** The environment of a call this contract makes: it carries its own authorization. */
    function Outgoing(env: Env): Env { env.(auth := env.auth + {self}) }

    /** `execute`: the weights are queued in the credit oracle, then the proposal is marked. */
    method Execute(env: Env, id: u64) returns (v: Verdict<GovernanceError>)
      modifies this`proposals, creditOracle`pendingWeights, creditOracle`pendingEffective
      ensures v == VerdictOf(old(Sys()), Entry(env.ledger, env.auth, Call.Execute(id)))
      ensures Sys() == Step(old(Sys()), Entry(env.ledger, env.auth, Call.Execute(id)))
    {
      v := AdmitExecution(env.ledger, id);
      if v != Ok { return; }
      var queued := creditOracle.ProposeWeights(Outgoing(env), proposals[id].weights);
      if queued != Ok { return Trap; }
      proposals := proposals[id := proposals[id].(executed := true)];
    }

    /** `cancel_proposal`. */
    method CancelProposal(env: Env, canceller: Address, id: u64) returns (v: Verdict<GovernanceError>)
      modifies this`proposals
      ensures v == VerdictOf(old(Sys()), Entry(env.ledger, env.auth, Cancel(canceller, id)))
      ensures Sys() == Step(old(Sys()), Entry(env.ledger, env.auth, Cancel(canceller, id)))
    {
      if canceller !in env.auth { return Trap; }
      if id !in proposals { return Err(ProposalNotFound); }
      var proposal := proposals[id];
      if proposal.executed { return Err(ProposalAlreadyExecuted); }
      if proposal.cancelled { return Err(ProposalAlreadyCancelled); }
      if id !in proposers { return Err(GovernanceError.NotAuthorized); }
      if canceller != admin && canceller != proposers[id] { return Err(GovernanceError.NotAuthorized); }
      proposals := proposals[id := proposal.(cancelled := true)];
      v := Ok;
    }

    /** `cleanup_proposal_votes`: entries are removed voter by voter. */
    method CleanupProposalVotes(env: Env, admin: Address, id: u64, voters: seq<Address>)
      returns (v: Verdict<GovernanceError>)
      modifies this`voteWeightUsed
      ensures v == VerdictOf(old(Sys()), Entry(env.ledger, env.auth, Cleanup(admin, id, voters)))
      ensures Sys() == Step(old(Sys()), Entry(env.ledger, env.auth, Cleanup(admin, id, voters)))
    {
      if admin != this.admin { return Err(GovernanceError.NotAuthorized); }
      if admin !in env.auth { return Trap; }
      if id !in proposals { return Err(ProposalNotFound); }
      if !proposals[id].executed { return Ok; }
      for k := 0 to |voters|
        invariant voteWeightUsed == old(voteWeightUsed) - set v | v in voters[..k] :: (id, v)
      {
        assert voters[..k + 1] == voters[..k] + [voters[k]];
        voteWeightUsed := voteWeightUsed - {(id, voters[k])};
      }
      assert voters[..|voters|] == voters;
      v := Ok;
    }

    // ---- voters and quorum ---------------------------------------------------------------

    /** The new `total - old_weight + weight`, unless it overflows on the way. */
    method NewTotal(voter: Address, weight: i128) returns (total: Option<i128>)
      ensures total.Some? <==> !TotalOverflows(View(), voter, weight)
      ensures total.Some? ==> total.value == totalWeight - View().WeightOf(voter) + weight
    {
      var rest := totalWeight - GetOr(voterWeight, voter, 0);
      total := if FitsI128(rest) && FitsI128(rest + weight) then Some(rest + weight) else None;
    }

    /** `register_voter`, which also replaces an existing weight. */
    method RegisterVoter(env: Env, admin: Address, voter: Address, weight: i128)
      returns (v: Verdict<GovernanceError>)
      modifies this`voterWeight, this`totalWeight
      ensures v == VerdictOf(old(Sys()), Entry(env.ledger, env.auth, Call.RegisterVoter(admin, voter, weight)))
      ensures Sys() == Step(old(Sys()), Entry(env.ledger, env.auth, Call.RegisterVoter(admin, voter, weight)))
    {
      if admin != this.admin { return Err(GovernanceError.NotAuthorized); }
      if weight <= 0 { return Err(InvalidVoteWeight); }
      if admin !in env.auth { return Trap; }
      var total := NewTotal(voter, weight);
      if total.None? { return Trap; }
      voterWeight := voterWeight[voter := weight];
      totalWeight := total.value;
      v := Ok;
    }

    /** `update_voter_weight`: zero removes the voter. */
    method UpdateVoterWeight(env: Env, admin: Address, voter: Address, weight: i128)
      returns (v: Verdict<GovernanceError>)
      modifies this`voterWeight, this`totalWeight
      ensures v == VerdictOf(old(Sys()), Entry(env.ledger, env.auth, Call.UpdateVoterWeight(admin, voter, weight)))
      ensures Sys() == Step(old(Sys()), Entry(env.ledger, env.auth, Call.UpdateVoterWeight(admin, voter, weight)))
    {
      if admin != this.admin { return Err(GovernanceError.NotAuthorized); }
      if weight < 0 { return Err(InvalidVoteWeight); }
      if admin !in env.auth { return Trap; }
      var total := NewTotal(voter, weight);
      if total.None? { return Trap; }
      if weight == 0 {
        voterWeight := voterWeight - {voter};
      } else {
        voterWeight := voterWeight[voter := weight];
      }
      totalWeight := total.value;
      v := Ok;
    }

    /** `deregister_voter`. */
    method DeregisterVoter(env: Env, admin: Address, voter: Address) returns (v: Verdict<GovernanceError>)
      modifies this`voterWeight, this`totalWeight
      ensures v == VerdictOf(old(Sys()), Entry(env.ledger, env.auth, Call.DeregisterVoter(admin, voter)))
      ensures Sys() == Step(old(Sys()), Entry(env.ledger, env.auth, Call.DeregisterVoter(admin, voter)))
    {
      if admin != this.admin { return Err(GovernanceError.NotAuthorized); }
      if admin !in env.auth { return Trap; }
      var total := NewTotal(voter, 0);
      if total.None? { return Trap; }
      voterWeight := voterWeight - {voter};
      totalWeight := total.value;
      v := Ok;
    }

    /** `set_quorum`: an absolute quorum replaces a percentage. */
    method SetQuorum(env: Env, admin: Address, quorum: i128) returns (v: Verdict<GovernanceError>)
      modifies this`quorumRequired, this`quorumPercent
      ensures v == VerdictOf(old(Sys()), Entry(env.ledger, env.auth, Call.SetQuorum(admin, quorum)))
      ensures Sys() == Step(old(Sys()), Entry(env.ledger, env.auth, Call.SetQuorum(admin, quorum)))
    {
      if quorum <= 0 { return Err(InvalidQuorum); }
      if admin != this.admin { return Err(GovernanceError.NotAuthorized); }
      if admin !in env.auth { return Trap; }
      if quorum > totalWeight { return Err(InvalidQuorum); }
      quorumRequired := quorum;
      quorumPercent := None;
      v := Ok;
    }

    /** `set_quorum_percent`. */
    method SetQuorumPercent(env: Env, admin: Address, percent: u32) returns (v: Verdict<GovernanceError>)
      modifies this`quorumPercent
      ensures v == VerdictOf(old(Sys()), Entry(env.ledger, env.auth, Call.SetQuorumPercent(admin, percent)))
      ensures Sys() == Step(old(Sys()), Entry(env.ledger, env.auth, Call.SetQuorumPercent(admin, percent)))
    {
      if percent == 0 || percent > 100 { return Err(InvalidQuorum); }
      if admin != this.admin { return Err(GovernanceError.NotAuthorized); }
      if admin !in env.auth { return Trap; }
      quorumPercent := Some(percent);
      v := Ok;
    }

    // ---- calls into the credit oracle -------------------------------------------------------

    /** `apply_weights`, with the oracle's errors translated. */
    method ApplyWeights(env: Env) returns (v: Verdict<GovernanceError>)
      modifies creditOracle`config, creditOracle`pendingWeights, creditOracle`pendingEffective
      ensures v == VerdictOf(old(Sys()), Entry(env.ledger, env.auth, GovApplyWeights))
      ensures Sys() == Step(old(Sys()), Entry(env.ledger, env.auth, GovApplyWeights))
    {
      var applied := creditOracle.ApplyWeights(Outgoing(env));
      v := MapApplyError(applied);
    }

    /** `accept_oracle_admin`. */
    method AcceptOracleAdmin(env: Env) returns (v: Verdict<GovernanceError>)
      modifies creditOracle`admin, creditOracle`pendingAdmin, creditOracle`governance
      ensures v == VerdictOf(old(Sys()), Entry(env.ledger, env.auth, Call.AcceptOracleAdmin))
      ensures Sys() == Step(old(Sys()), Entry(env.ledger, env.auth, Call.AcceptOracleAdmin))
    {
      if admin !in env.auth { return Trap; }
      var accepted := creditOracle.AcceptAdmin(Outgoing(env), self);
      v := OrTrap(accepted);
    }

    // ---- queries ----------------------------------------------------------------------------

    /** `list_proposals`. */
    method ListProposals(from: u64, limit: u32, includeInactive: bool) returns (page: seq<Proposal>)
      ensures page == Inv.ListProposals(View(), from, limit, includeInactive)
    {
      page := [];
      var cap := Min(limit, Inv.PAGE_CAP);
      if cap == 0 || from >= nextId { return; }
      var end := Min(Min(from + cap, U64_MAX), nextId);
      ghost var g, all := View(), Inv.Listing(View(), from, end, includeInactive);
      for id := from to end
        invariant page + Inv.Listing(g, id, end, includeInactive) == all
      {
        ghost var before, rest := page, Inv.Listing(g, id + 1, end, includeInactive);
        if id in proposals {
          if includeInactive || (!proposals[id].executed && !proposals[id].cancelled) {
            page := page + [proposals[id]];
            assert page + rest == before + ([proposals[id]] + rest);
          }
        }
      }
      assert page + [] == page;
    }
  }
}
