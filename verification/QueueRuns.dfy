/** Runs the two contracts accept in which an executed proposal never takes effect: one that
    a later execution overwrites, and one executed after a hand-over of a paused oracle. */
module QueueRuns {
  import opened Host
  import opened CreditOracleTypes
  import opened GovernanceSpec
  import opened GovernanceInvariants
  import opened DoubleTimelock
  import opened ExecutionOutcomes
  import opened QueueDecisions
  import Queue = WeightQueue

  const GOV := Contract(0)
  const ADMIN := Account(1)
  const VOTER := Account(2)
  const FIRST := ScoringWeights(50, 25, 25)
  const SECOND := ScoringWeights(20, 40, 40)
  const D := Deployment(GOV, ADMIN, ADMIN, 1)

  const PAUSE := Entry(1, {ADMIN}, Direct(Queue.SetPaused(ADMIN, true)))
  const OFFER := Entry(1, {ADMIN}, Direct(Queue.ProposeNewAdmin(GOV)))
  const ACCEPT := Entry(1, {ADMIN}, AcceptOracleAdmin)
  const REGISTER := Entry(1, {ADMIN}, RegisterVoter(ADMIN, VOTER, 10))

  function Propose(w: ScoringWeights): Entry { Entry(1, {ADMIN}, Create(ADMIN, w, 10, 0)) }

  function Support(id: u64): Entry { Entry(2, {VOTER}, Vote(VOTER, id, true, 10)) }

  function Carry(id: u64, ledger: u32): Entry { Entry(ledger, {}, Execute(id)) }

  /** The oracle's role goes to governance, with or without a pause first. */
  function HandOver(paused: bool): seq<Entry> {
    (if paused then [PAUSE] else []) + [OFFER] + [ACCEPT]
  }

  /** Two proposals are created and voted through. */
  function Campaign(paused: bool): seq<Entry> {
    HandOver(paused) + [REGISTER] + [Propose(FIRST)] + [Propose(SECOND)] + [Support(1)] + [Support(2)]
  }

  /** The first is executed, and the second before the first is applied. */
  function Overtaken(): seq<Entry> { Campaign(false) + [Carry(1, 20)] + [Carry(2, 21)] }

  // ---- the states on the way ------------------------------------------------------------------

  function Held(paused: bool): Queue.Control {
    Queue.Control(GOV, None, Some(GOV), paused, DEFAULT_WEIGHTS, None, None)
  }

  function Proposed(id: u64, w: ScoringWeights, votes: i128, executed: bool): Proposal {
    Proposal(id, ADMIN, w, votes, 0, 11, 0, executed, false, 1)
  }

  /** Governance after k of the campaign's five calls. */
  function GovAfter(k: nat): Gov {
    var voters := if k == 0 then map[] else map[VOTER := 10];
    var proposals :=
      if k < 2 then map[]
      else if k == 2 then map[1 := Proposed(1, FIRST, 0, false)]
      else map[1 := Proposed(1, FIRST, if k >= 4 then 10 else 0, false),
               2 := Proposed(2, SECOND, if k >= 5 then 10 else 0, false)];
    var proposers := if k < 2 then map[] else if k == 2 then map[1 := ADMIN] else map[1 := ADMIN, 2 := ADMIN];
    var used := if k < 4 then map[] else if k == 4 then map[(1, VOTER) := 10]
                else map[(1, VOTER) := 10, (2, VOTER) := 10];
    Gov(GOV, ADMIN, if k < 2 then 1 else if k == 2 then 2 else 3, 1, None, proposals, proposers, voters, used,
        if k == 0 then 0 else 10)
  }

  /** The state is s, nothing has been executed, and no proposal is queued. */
  ghost predicate Idle(es: seq<Entry>, s: System) {
    StateAfter(D, es) == s && QueuedBy(D, es) == None && Fates(D, es) == map[]
  }

  lemma IdleStep(es: seq<Entry>, e: Entry, s: System, s': System)
    requires Idle(es, s) && Step(s, e) == s' && !Touches(EffectOf(s, e))
    ensures Idle(es + [e], s')
  {
    OneMoreCall(D, es, e);
  }

  lemma HandOverIsIdle(paused: bool)
    ensures Idle(HandOver(paused), System(GovAfter(0), Held(paused)))
  {
    var s0 := D.System();
    assert Idle([], s0);
    var s1 := s0.(control := s0.control.(paused := paused));
    var first := if paused then [PAUSE] else [];
    if paused {
      IdleStep([], PAUSE, s0, s1);
      assert [] + [PAUSE] == [PAUSE];
    }
    assert Idle(first, s1);
    var s2 := s1.(control := s1.control.(pendingAdmin := Some(GOV)));
    IdleStep(first, OFFER, s1, s2);
    IdleStep(first + [OFFER], ACCEPT, s2, System(GovAfter(0), Held(paused)));
  }

  lemma RegisterScene(c: Queue.Control)
    ensures Step(System(GovAfter(0), c), REGISTER) == System(GovAfter(1), c)
    ensures !Touches(EffectOf(System(GovAfter(0), c), REGISTER))
  {
    assert map[][VOTER := 10] == map[VOTER := 10];
  }

  lemma FirstProposed(c: Queue.Control)
    ensures Step(System(GovAfter(1), c), Propose(FIRST)) == System(GovAfter(2), c)
    ensures !Touches(EffectOf(System(GovAfter(1), c), Propose(FIRST)))
  {
    var g' := Step(System(GovAfter(1), c), Propose(FIRST)).gov;
    assert g'.proposals == GovAfter(2).proposals && g'.proposers == GovAfter(2).proposers;
  }

  lemma SecondProposed(c: Queue.Control)
    ensures Step(System(GovAfter(2), c), Propose(SECOND)) == System(GovAfter(3), c)
    ensures !Touches(EffectOf(System(GovAfter(2), c), Propose(SECOND)))
  {
    var g' := Step(System(GovAfter(2), c), Propose(SECOND)).gov;
    assert g'.proposals == GovAfter(3).proposals && g'.proposers == GovAfter(3).proposers;
  }

  lemma FirstSupported(c: Queue.Control)
    ensures Step(System(GovAfter(3), c), Support(1)) == System(GovAfter(4), c)
    ensures !Touches(EffectOf(System(GovAfter(3), c), Support(1)))
  {
    var g' := Step(System(GovAfter(3), c), Support(1)).gov;
    assert g'.proposals == GovAfter(4).proposals && g'.voteWeightUsed == GovAfter(4).voteWeightUsed;
  }

  lemma SecondSupported(c: Queue.Control)
    ensures Step(System(GovAfter(4), c), Support(2)) == System(GovAfter(5), c)
    ensures !Touches(EffectOf(System(GovAfter(4), c), Support(2)))
  {
    var g' := Step(System(GovAfter(4), c), Support(2)).gov;
    assert g'.proposals == GovAfter(5).proposals && g'.voteWeightUsed == GovAfter(5).voteWeightUsed;
  }

  lemma CampaignIsIdle(paused: bool)
    ensures Idle(Campaign(paused), System(GovAfter(5), Held(paused)))
  {
    hide Idle, GovAfter, Step, EffectOf, Touches, HandOver;
    var c, es := Held(paused), HandOver(paused);
    HandOverIsIdle(paused);
    RegisterScene(c);
    IdleStep(es, REGISTER, System(GovAfter(0), c), System(GovAfter(1), c));
    FirstProposed(c);
    IdleStep(es + [REGISTER], Propose(FIRST), System(GovAfter(1), c), System(GovAfter(2), c));
    SecondProposed(c);
    IdleStep(es + [REGISTER] + [Propose(FIRST)], Propose(SECOND), System(GovAfter(2), c), System(GovAfter(3), c));
    FirstSupported(c);
    IdleStep(es + [REGISTER] + [Propose(FIRST)] + [Propose(SECOND)], Support(1),
             System(GovAfter(3), c), System(GovAfter(4), c));
    SecondSupported(c);
    IdleStep(es + [REGISTER] + [Propose(FIRST)] + [Propose(SECOND)] + [Support(1)], Support(2),
             System(GovAfter(4), c), System(GovAfter(5), c));
  }

  /** `execute` is accepted, paused or not, and queues the first proposal. */
  lemma FirstCarried(paused: bool)
    ensures var es := Campaign(paused) + [Carry(1, 20)];
            && VerdictOf(StateAfter(D, Campaign(paused)), Carry(1, 20)) == Ok
            && QueuedBy(D, es) == Some(1) && Fates(D, es) == map[1 := Waiting]
            && StateAfter(D, es).gov.proposals == GovAfter(5).proposals[1 := Proposed(1, FIRST, 10, true)]
            && StateAfter(D, es).gov.self == GOV
            && StateAfter(D, es).control == Held(paused).(queued := Some(FIRST), effective := Some(17_300))
  {
    CampaignIsIdle(paused);
    OneMoreCall(D, Campaign(paused), Carry(1, 20));
    assert CheckExecutable(GovAfter(5), 20, 1) == Ok;
  }

  lemma SecondEffect(s: System)
    requires s.gov.proposals == GovAfter(5).proposals[1 := Proposed(1, FIRST, 10, true)] && s.gov.self == GOV
    requires s.control == Held(false).(queued := Some(FIRST), effective := Some(17_300))
    ensures EffectOf(s, Carry(2, 21)) == Queued(Some(2), SECOND)
  {
    assert CheckExecutable(s.gov, 21, 2) == Ok;
  }

  lemma OvertakingStep(es: seq<Entry>, e: Entry)
    requires QueuedBy(D, es) == Some(1) && Fates(D, es) == map[1 := Waiting]
    requires EffectAfter(D, es, e) == Queued(Some(2), SECOND)
    ensures Fates(D, es + [e]) == map[1 := Superseded(Some(2)), 2 := Waiting]
  {
    OneMoreCall(D, es, e);
    assert Fates(D, es + [e]) == map[1 := Waiting][1 := Superseded(Some(2))][2 := Waiting];
  }

  lemma SecondOvertakes()
    ensures Fates(D, Overtaken()) == map[1 := Superseded(Some(2)), 2 := Waiting]
  {
    hide Campaign, GovAfter, StateAfter, EffectOf, Fates, QueuedBy;
    var es := Campaign(false) + [Carry(1, 20)];
    FirstCarried(false);
    SecondEffect(StateAfter(D, es));
    OvertakingStep(es, Carry(2, 21));
  }

  /** The first proposal is executed and superseded: it never takes effect, in this run or
      in any continuation. */
  lemma LaterExecutionSupersedes(post: seq<Entry>)
    ensures Fates(D, Overtaken()) == map[1 := Superseded(Some(2)), 2 := Waiting]
    ensures 1 in Fates(D, Overtaken() + post) && Fates(D, Overtaken() + post)[1] == Superseded(Some(2))
  {
    SecondOvertakes();
    DecidedFateIsFinal(D, Overtaken(), post, 1);
  }

  /** A paused oracle can be handed over. In every continuation in which governance's
      address authorizes only its own calls, the oracle stays paused, the weights stay the
      default ones, and a proposal executed then is never applied. */
  lemma PausedHandOverFreezesWeights(post: seq<Entry>)
    requires HostRule(GOV, HandOver(true) + post)
    ensures StateAfter(D, HandOver(true)).control.admin == GOV
    ensures var s := StateAfter(D, HandOver(true) + post);
            s.control.paused && s.control.active == DEFAULT_WEIGHTS
    ensures forall id :: id in Fates(D, HandOver(true) + post) ==> !Fates(D, HandOver(true) + post)[id].Applied?
  {
    HandOverIsIdle(true);
    var s := StateAfter(D, HandOver(true));
    assert HostRule(GOV, post) by {
      assert forall k :: 0 <= k < |post| ==> post[k] == (HandOver(true) + post)[|HandOver(true)| + k];
    }
    PauseIsFrozen(s, post);
    RunConcat(D.System(), HandOver(true), post);
    forall id | id in Fates(D, HandOver(true) + post) ensures !Fates(D, HandOver(true) + post)[id].Applied? {
      if Fates(D, HandOver(true) + post)[id].Applied? {
        PausedNeverApplies(D, HandOver(true), post, id);
      }
    }
  }

  /** Such a proposal exists: executed, queued, and waiting for ever unless overtaken. */
  lemma ExecutedWhilePaused(post: seq<Entry>)
    requires HostRule(GOV, Campaign(true) + [Carry(1, 20)] + post)
    ensures Fates(D, Campaign(true) + [Carry(1, 20)]) == map[1 := Waiting]
    ensures var fates := Fates(D, Campaign(true) + [Carry(1, 20)] + post);
            1 in fates && !fates[1].Applied?
  {
    FirstCarried(true);
    var pre := Campaign(true) + [Carry(1, 20)];
    FateSurvives(D, pre, post, 1);
    if Fates(D, pre + post)[1].Applied? {
      PausedNeverApplies(D, pre, post, 1);
    }
  }

  /** An executed proposal always has some fate. */
  lemma FateSurvives(d: Deployment, pre: seq<Entry>, post: seq<Entry>, id: u64)
    requires d.quorum > 0 && QueuedBy(d, pre) == Some(id)
    ensures id in Fates(d, pre + post)
  {
    var n := FirstTouch(d, pre, post, |post|);
    FirstTouchDecides(d, pre, post, id, n);
  }
}
