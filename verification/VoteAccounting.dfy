/** Who may have spent how much: used weight against the largest weight ever held, tallies
    against the registered total, and the exact point at which `execute` overflows. */
module VoteAccounting {
  import opened Host
  import opened CreditOracleTypes
  import opened MapSums
  import opened GovernanceSpec
  import opened GovernanceInvariants

  /** What an observer of weight changes writes down: the largest weight each voter ever
      held, and the proposals that existed when some weight was lowered. */
  datatype WeightLog = WeightLog(peak: map<Address, int>, exposed: set<u64>)

  /** The weight a successful call sets, if it sets one. */
  function NewWeight(call: Call): Option<(Address, i128)> {
    match call
    case RegisterVoter(_, voter, weight) => Some((voter, weight))
    case UpdateVoterWeight(_, voter, weight) => Some((voter, weight))
    case DeregisterVoter(_, voter) => Some((voter, 0))
    case _ => None
  }

  function Observe(log: WeightLog, s: System, e: Entry): WeightLog {
    if VerdictOf(s, e) != Ok || NewWeight(e.call).None? then log
    else
      var (voter, weight) := NewWeight(e.call).value;
      WeightLog(log.peak[voter := Max(GetOr(log.peak, voter, 0), weight)],
                if weight < s.gov.WeightOf(voter) then log.exposed + s.gov.proposals.Keys else log.exposed)
  }

  function LogOf(s: System, es: seq<Entry>): WeightLog {
    if es == [] then WeightLog(map[], {})
    else Observe(LogOf(s, es[..|es| - 1]), Run(s, es[..|es| - 1]), es[|es| - 1])
  }

  /** No voter holds, or has spent on any proposal, more than their largest weight. */
  predicate WithinPeak(g: Gov, log: WeightLog) {
    && (forall v :: v in g.voterWeight ==> v in log.peak && g.voterWeight[v] <= log.peak[v])
    && (forall k :: k in g.voteWeightUsed ==> k.1 in log.peak && g.voteWeightUsed[k] <= log.peak[k.1])
  }

  /** On a proposal that saw no weight lowered, nobody has spent more than they hold. */
  predicate Covered(g: Gov, id: u64) {
    forall k :: k in g.voteWeightUsed && k.0 == id ==>
      k.1 in g.voterWeight && g.voteWeightUsed[k] <= g.voterWeight[k.1]
  }

  ghost predicate TalliesCovered(g: Gov, log: WeightLog) {
    forall id :: id in g.proposals && id !in log.exposed ==>
      && Covered(g, id)
      && g.proposals[id].Tally() <= g.totalWeight
  }

  ghost predicate AccountInv(g: Gov, log: WeightLog) {
    GovInv(g) && WithinPeak(g, log) && TalliesCovered(g, log)
  }

  /** Votes that are covered entry by entry are covered in total. */
  lemma {:induction false} CoveredVotesSum(used: map<(u64, Address), i128>, ks: set<(u64, Address)>,
                                           id: u64, weights: map<Address, int>)
    requires ks <= used.Keys
    requires forall k :: k in ks ==> k.0 == id && k.1 in weights && used[k] <= weights[k.1]
    requires forall v :: v in weights ==> weights[v] >= 0
    ensures SumOver(used, ks) <= Sum(weights)
    decreases ks
  {
    if ks == {} {
      SumNonNegative(weights);
    } else {
      var k := SomeElement(ks);
      SumRemove(weights, k.1);
      forall j | j in ks - {k} ensures j.1 != k.1 {
        assert j == (j.0, j.1) && k == (k.0, k.1);
      }
      CoveredVotesSum(used, ks - {k}, id, weights - {k.1});
    }
  }

  lemma CoveredTallyIsBounded(g: Gov, id: u64)
    requires GovInv(g) && id in g.proposals && !g.proposals[id].executed && Covered(g, id)
    ensures g.proposals[id].Tally() <= g.totalWeight
  {
    assert ProposalInv(g, id);
    CoveredVotesSum(g.voteWeightUsed, VotesOn(g.voteWeightUsed, id), id, g.voterWeight);
  }

  lemma SetWeightKeepsAccounts(g: Gov, log: WeightLog, voter: Address, weight: i128)
    requires AccountInv(g, log) && weight >= 0 && !TotalOverflows(g, voter, weight)
    ensures var log' := WeightLog(log.peak[voter := Max(GetOr(log.peak, voter, 0), weight)],
                                  if weight < g.WeightOf(voter) then log.exposed + g.proposals.Keys else log.exposed);
            AccountInv(AfterSetWeight(g, voter, weight), log')
  {
    SetWeightKeepsInv(g, voter, weight);
    var g' := AfterSetWeight(g, voter, weight);
    if weight >= g.WeightOf(voter) {
      assert g'.totalWeight >= g.totalWeight;
      forall id | id in g'.proposals && id !in log.exposed ensures Covered(g', id) {
        assert Covered(g, id);
      }
    }
  }

  lemma CreateKeepsAccounts(g: Gov, log: WeightLog, e: Entry)
    requires AccountInv(g, log) && e.call.Create?
    requires CheckCreate(g, e.ledger, e.auth, e.call.proposer, e.call.weights, e.call.period) == Ok
    ensures AccountInv(AfterCreate(g, e.ledger, e.auth, e.call.proposer, e.call.weights, e.call.period, e.call.delay),
                       log)
  {
    CreateKeepsInv(g, e);
    TotalIsNonNegative(g);
    var g' := AfterCreate(g, e.ledger, e.auth, e.call.proposer, e.call.weights, e.call.period, e.call.delay);
    forall id | id in g'.proposals && id !in log.exposed
      ensures Covered(g', id) && g'.proposals[id].Tally() <= g'.totalWeight
    {
      if id != g.nextId { assert Covered(g, id); }
    }
  }

  lemma VoteKeepsPeak(g: Gov, log: WeightLog, e: Entry)
    requires WithinPeak(g, log) && e.call.Vote?
    requires CheckVote(g, e.ledger, e.auth, e.call.voter, e.call.id, e.call.support, e.call.weight) == Ok
    ensures WithinPeak(AfterVote(g, e.ledger, e.auth, e.call.voter, e.call.id, e.call.support, e.call.weight), log)
  {
  }

  lemma VoteKeepsCovered(g: Gov, e: Entry, id: u64)
    requires Covered(g, id) && e.call.Vote?
    requires CheckVote(g, e.ledger, e.auth, e.call.voter, e.call.id, e.call.support, e.call.weight) == Ok
    ensures Covered(AfterVote(g, e.ledger, e.auth, e.call.voter, e.call.id, e.call.support, e.call.weight), id)
  {
    var Vote(voter, voted, support, weight) := e.call;
    var used' := g.voteWeightUsed[(voted, voter) := g.UsedBy(voted, voter) + weight];
    forall k | k in used' && k.0 == id
      ensures k.1 in g.voterWeight && used'[k] <= g.voterWeight[k.1]
    {
      assert k == (k.0, k.1);
      if k != (voted, voter) { assert k in g.voteWeightUsed; }
    }
  }

  lemma VoteKeepsAccounts(g: Gov, log: WeightLog, e: Entry)
    requires AccountInv(g, log) && e.call.Vote?
    requires CheckVote(g, e.ledger, e.auth, e.call.voter, e.call.id, e.call.support, e.call.weight) == Ok
    ensures AccountInv(AfterVote(g, e.ledger, e.auth, e.call.voter, e.call.id, e.call.support, e.call.weight), log)
  {
    var g' := AfterVote(g, e.ledger, e.auth, e.call.voter, e.call.id, e.call.support, e.call.weight);
    VoteKeepsInv(g, e);
    VoteKeepsPeak(g, log, e);
    forall id | id in g'.proposals && id !in log.exposed
      ensures Covered(g', id) && g'.proposals[id].Tally() <= g'.totalWeight
    {
      VoteKeepsCovered(g, e, id);
      if id == e.call.id { CoveredTallyIsBounded(g', id); }
    }
  }

  /** Calls that touch neither weights nor tallies, and only ever drop vote entries. */
  lemma FewerVotesKeepAccounts(g: Gov, g': Gov, log: WeightLog)
    requires AccountInv(g, log) && GovInv(g')
    requires g'.voterWeight == g.voterWeight && g'.totalWeight == g.totalWeight
    requires g'.proposals.Keys == g.proposals.Keys
    requires forall id :: id in g.proposals ==> g'.proposals[id].Tally() == g.proposals[id].Tally()
    requires forall k :: k in g'.voteWeightUsed ==>
               k in g.voteWeightUsed && g'.voteWeightUsed[k] == g.voteWeightUsed[k]
    ensures AccountInv(g', log)
  {
    forall id | id in g'.proposals && id !in log.exposed ensures Covered(g', id) {
      assert Covered(g, id);
    }
  }

  lemma OtherCallsOnlyDropVotes(s: System, e: Entry)
    requires !e.call.Create? && !e.call.Vote? && NewWeight(e.call).None?
    ensures var g, g' := s.gov, Step(s, e).gov;
            && g'.voterWeight == g.voterWeight && g'.totalWeight == g.totalWeight
            && g'.proposals.Keys == g.proposals.Keys
            && (forall id :: id in g.proposals ==> g'.proposals[id].Tally() == g.proposals[id].Tally())
            && (forall k :: k in g'.voteWeightUsed ==>
                  k in g.voteWeightUsed && g'.voteWeightUsed[k] == g.voteWeightUsed[k])
  {
    match e.call
    case Execute(_) =>
    case Cancel(_, _) =>
    case Cleanup(_, _, _) =>
    case _ =>
  }

  lemma WeightCallKeepsAccounts(s: System, log: WeightLog, e: Entry)
    requires AccountInv(s.gov, log) && VerdictOf(s, e) == Ok && NewWeight(e.call).Some?
    ensures AccountInv(Step(s, e).gov, Observe(log, s, e))
  {
    var (voter, weight) := NewWeight(e.call).value;
    assert weight >= 0 && !TotalOverflows(s.gov, voter, weight);
    assert Step(s, e).gov == AfterSetWeight(s.gov, voter, weight);
    SetWeightKeepsAccounts(s.gov, log, voter, weight);
  }

  lemma StepKeepsAccounts(s: System, log: WeightLog, e: Entry)
    requires AccountInv(s.gov, log)
    ensures AccountInv(Step(s, e).gov, Observe(log, s, e))
  {
    if VerdictOf(s, e) == Ok {
      if NewWeight(e.call).Some? {
        WeightCallKeepsAccounts(s, log, e);
      } else if e.call.Create? {
        CreateKeepsAccounts(s.gov, log, e);
      } else if e.call.Vote? {
        VoteKeepsAccounts(s.gov, log, e);
      } else {
        StepKeepsInv(s, e);
        OtherCallsOnlyDropVotes(s, e);
        FewerVotesKeepAccounts(s.gov, Step(s, e).gov, log);
      }
    }
  }

  /** In every reachable state no voter's used weight exceeds the largest weight that voter
      ever held, and the tally of a proposal that saw no weight lowered never exceeds the
      registered total. */
  lemma {:induction false} AccountsAlwaysHold(self: Address, admin: Address, oracleAdmin: Address, quorum: i128,
                                              es: seq<Entry>)
    requires quorum > 0
    ensures var start := Start(self, admin, oracleAdmin, quorum);
            AccountInv(Run(start, es).gov, LogOf(start, es))
  {
    if es != [] {
      var start, front := Start(self, admin, oracleAdmin, quorum), es[..|es| - 1];
      AccountsAlwaysHold(self, admin, oracleAdmin, quorum, front);
      StepKeepsAccounts(Run(start, front), LogOf(start, front), es[|es| - 1]);
    }
  }

  /** `execute` can only abort in its own checks when the two tallies overflow i128, which
      needs a proposal during whose life some weight was lowered. */
  lemma ExecuteOverflowNeedsLoweredWeight(g: Gov, log: WeightLog, ledger: u32, id: u64)
    requires AccountInv(g, log) && CheckExecutable(g, ledger, id) == Trap
    ensures id in log.exposed && g.proposals[id].Tally() > I128_MAX
  {
  }

  // ---- the overflow is reachable --------------------------------------------------------

  const GOV := Contract(0)
  const ADMIN := Account(1)
  const A := Account(2)
  const B := Account(3)

  /** Governance with only these voters, votes and proposal 1 as given. */
  function Scene(voters: map<Address, i128>, total: i128, p: Option<Proposal>,
                 used: map<(u64, Address), i128>): System
  {
    var start := Start(GOV, ADMIN, ADMIN, 1);
    match p
    case None => start.(gov := start.gov.(voterWeight := voters, totalWeight := total, voteWeightUsed := used))
    case Some(p) =>
      start.(gov := Gov(GOV, ADMIN, 2, 1, None, map[1 := p], map[1 := ADMIN], voters, used, total))
  }

  const OPEN := Proposal(1, ADMIN, DEFAULT_WEIGHTS, 0, 0, 11, 0, false, false, 1)
  const FOR := OPEN.(votesFor := I128_MAX)
  const BOTH := FOR.(votesAgainst := I128_MAX - 1)

  /** A registers everything and votes for, is replaced by B, and B votes against. */
  function OverflowingRun(): seq<Entry> {
    [Entry(1, {ADMIN}, RegisterVoter(ADMIN, A, I128_MAX)),
     Entry(1, {ADMIN}, Create(ADMIN, DEFAULT_WEIGHTS, 10, 0)),
     Entry(2, {A}, Vote(A, 1, true, I128_MAX)),
     Entry(3, {ADMIN}, DeregisterVoter(ADMIN, A)),
     Entry(4, {ADMIN}, RegisterVoter(ADMIN, B, I128_MAX - 1)),
     Entry(5, {B}, Vote(B, 1, false, I128_MAX - 1))]
  }

  function SceneAfter(n: nat): System {
    match n
    case 0 => Start(GOV, ADMIN, ADMIN, 1)
    case 1 => Scene(map[A := I128_MAX], I128_MAX, None, map[])
    case 2 => Scene(map[A := I128_MAX], I128_MAX, Some(OPEN), map[])
    case 3 => Scene(map[A := I128_MAX], I128_MAX, Some(FOR), map[(1, A) := I128_MAX])
    case 4 => Scene(map[], 0, Some(FOR), map[(1, A) := I128_MAX])
    case 5 => Scene(map[B := I128_MAX - 1], I128_MAX - 1, Some(FOR), map[(1, A) := I128_MAX])
    case _ => Scene(map[B := I128_MAX - 1], I128_MAX - 1, Some(BOTH),
                    map[(1, A) := I128_MAX, (1, B) := I128_MAX - 1])
  }

  lemma WeightScenes(n: nat)
    requires n in {0, 3, 4}
    ensures Step(SceneAfter(n), OverflowingRun()[n]) == SceneAfter(n + 1)
  {
    var e := OverflowingRun()[n];
    assert NewWeight(e.call).Some? && VerdictOf(SceneAfter(n), e) == Ok;
    assert Step(SceneAfter(n), e).gov.voterWeight == SceneAfter(n + 1).gov.voterWeight;
  }

  lemma CreateScene()
    ensures Step(SceneAfter(1), OverflowingRun()[1]) == SceneAfter(2)
  {
    var s' := Step(SceneAfter(1), OverflowingRun()[1]);
    assert s'.gov.proposals == map[1 := OPEN] && s'.gov.proposers == map[1 := ADMIN];
  }

  lemma VoteScenes(n: nat)
    requires n in {2, 5}
    ensures Step(SceneAfter(n), OverflowingRun()[n]) == SceneAfter(n + 1)
  {
    var s' := Step(SceneAfter(n), OverflowingRun()[n]);
    assert s'.gov.proposals == SceneAfter(n + 1).gov.proposals;
    assert s'.gov.voteWeightUsed == SceneAfter(n + 1).gov.voteWeightUsed;
  }

  lemma {:induction false} ScenesFollowRun(n: nat)
    requires n <= 6
    ensures Run(SceneAfter(0), OverflowingRun()[..n]) == SceneAfter(n)
  {
    if n > 0 {
      ScenesFollowRun(n - 1);
      if n - 1 in {0, 3, 4} {
        WeightScenes(n - 1);
      } else if n - 1 == 1 {
        CreateScene();
      } else {
        VoteScenes(n - 1);
      }
      assert OverflowingRun()[..n][..n - 1] == OverflowingRun()[..n - 1];
    }
  }

  /** With weights moved between voters an accepted proposal can become impossible to
      execute: after this run, `execute` fails on it at every ledger and after any further
      calls, and once it is past its expiry it fails by overflow. */
  lemma LoweredWeightsCanBlockExecution(es: seq<Entry>, e: Entry)
    requires e.call == Execute(1)
    ensures var s := Run(Start(GOV, ADMIN, ADMIN, 1), OverflowingRun());
            && (forall ledger: u32 :: ledger > 11 ==> CheckExecutable(s.gov, ledger, 1) == Trap)
            && VerdictOf(Run(s, es), e) != Ok
            && 1 in Run(s, es).gov.proposals && !Run(s, es).gov.proposals[1].executed
  {
    ScenesFollowRun(6);
    assert OverflowingRun()[..6] == OverflowingRun();
    EveryStateIsSound(GOV, ADMIN, ADMIN, 1, OverflowingRun());
    var s := Run(Start(GOV, ADMIN, ADMIN, 1), OverflowingRun());
    assert s == SceneAfter(6);
    assert ProposalInv(s.gov, 1);
    OverflowIsPermanent(s, es, 1, e);
  }
}
