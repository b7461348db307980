/** Whole-run safety of the scoring weights: once governance administers the credit
    oracle, every change of the active weights goes back to one executed proposal of its
    own, through both waiting periods. */
module DoubleTimelock {
  import opened Host
  import opened CreditOracleTypes
  import opened GovernanceSpec
  import opened GovernanceInvariants
  import Queue = WeightQueue

  datatype Creation = Creation(at: u32, period: u32, delay: u32, weights: ScoringWeights) {
    /** The first ledger at which these weights could be active. */
    function EarliestActive(): int { at + period + delay + 17_281 }
  }

  /** One change of the active weights; `source` is the proposal that queued them, if any. */
  datatype Change = Change(source: Option<u64>, at: u32, weights: ScoringWeights)

  /** What a successful call did to the proposals and the weight queue. */
  datatype Effect =
    | Quiet
    | Created(id: u64, creation: Creation)
    | Queued(source: Option<u64>, weights: ScoringWeights)
    | Changed(weights: ScoringWeights)

  function EffectOf(s: System, e: Entry): Effect {
    if VerdictOf(s, e) != Ok then Quiet
    else
      match e.call
      case Create(_, w, period, delay) => Created(s.gov.nextId, Creation(e.ledger, period, delay, w))
      case Execute(id) => Queued(Some(id), s.gov.proposals[id].weights)
      case GovApplyWeights => Changed(s.control.queued.value)
      case Direct(q) =>
        if q.ProposeWeights? then Queued(None, q.weights)
        else if q.ApplyWeights? then Changed(s.control.queued.value)
        else Quiet
      case _ => Quiet
  }

  /** What an observer of the successful calls writes down. */
  datatype Log = Log(created: map<u64, Creation>, queuedBy: Option<u64>, changes: seq<Change>)

  function Record(log: Log, effect: Effect, ledger: u32): Log {
    match effect
    case Quiet => log
    case Created(id, c) => log.(created := log.created[id := c])
    case Queued(source, _) => log.(queuedBy := source)
    case Changed(w) =>
      log.(changes := log.changes + [Change(log.queuedBy, ledger, w)], queuedBy := None)
  }

  function LogOf(s: System, es: seq<Entry>): Log {
    if es == [] then Log(map[], None, [])
    else
      var e := es[|es| - 1];
      Record(LogOf(s, es[..|es| - 1]), EffectOf(Run(s, es[..|es| - 1]), e), e.ledger)
  }

  /** A contract address authorizes only the calls that contract makes itself. */
  predicate HostRule(self: Address, es: seq<Entry>) {
    forall k :: 0 <= k < |es| ==> self !in es[k].auth
  }

  // ---- what the log says about the state ------------------------------------------------

  predicate CreationMatches(p: Proposal, c: Creation) {
    p.expiry == c.at + c.period && p.delay == c.delay && p.weights == c.weights
  }

  /** The queued weights and their effective ledger come from this executed proposal. */
  predicate QueuedFrom(s: System, log: Log, id: u64) {
    && id in log.created && id in s.gov.proposals && s.gov.proposals[id].executed
    && s.control.queued == Some(log.created[id].weights)
    && s.control.effective.Some? && s.control.effective.value >= log.created[id].EarliestActive()
  }

  /** A change goes back to an executed proposal and waited for both delays. */
  predicate WellFounded(s: System, log: Log, change: Change) {
    change.source.Some? ==>
      var id := change.source.value;
      && id in log.created && id in s.gov.proposals && s.gov.proposals[id].executed
      && change.weights == log.created[id].weights
      && change.at >= log.created[id].EarliestActive()
  }

  predicate DistinctSources(log: Log) {
    && (forall i, j :: 0 <= i < j < |log.changes| && log.changes[i].source.Some?
                       ==> log.changes[i].source != log.changes[j].source)
    && (forall i :: 0 <= i < |log.changes| && log.queuedBy.Some? ==> log.changes[i].source != log.queuedBy)
  }

  function LastWeights(log: Log): ScoringWeights {
    if log.changes == [] then DEFAULT_WEIGHTS else log.changes[|log.changes| - 1].weights
  }

  ghost predicate LogInv(s: System, log: Log) {
    && IdsInv(s.gov)
    && Queue.ControlInv(s.control)
    && (forall id :: id in s.gov.proposals ==>
          id in log.created && CreationMatches(s.gov.proposals[id], log.created[id]))
    && s.control.active == LastWeights(log)
    && (log.queuedBy.Some? ==> QueuedFrom(s, log, log.queuedBy.value))
    && (forall i :: 0 <= i < |log.changes| ==> WellFounded(s, log, log.changes[i]))
    && DistinctSources(log)
  }

  // ---- one step ---------------------------------------------------------------------------

  /** Known proposals keep their terms, and an executed one its whole record. */
  ghost predicate KeepsProposals(s: System, s': System) {
    forall id :: id in s.gov.proposals ==>
      && id in s'.gov.proposals
      && s'.gov.proposals[id].expiry == s.gov.proposals[id].expiry
      && s'.gov.proposals[id].delay == s.gov.proposals[id].delay
      && s'.gov.proposals[id].weights == s.gov.proposals[id].weights
      && (s.gov.proposals[id].executed ==> s'.gov.proposals[id].executed)
  }

  ghost predicate NewProposalsAre(s: System, s': System, effect: Effect) {
    forall id :: id in s'.gov.proposals && id !in s.gov.proposals ==>
      effect.Created? && effect.id == id && CreationMatches(s'.gov.proposals[id], effect.creation)
  }

  /** How the effect shows in the queue. */
  predicate QueueShows(s: System, s': System, effect: Effect, ledger: u32) {
    match effect
    case Queued(source, w) =>
      && s'.control.active == s.control.active
      && s'.control.queued == Some(w)
      && s'.control.effective.Some? && s'.control.effective.value == ledger + 17_280
      && (source.Some? ==>
            && source.value in s.gov.proposals && source.value in s'.gov.proposals
            && !s.gov.proposals[source.value].executed && s'.gov.proposals[source.value].executed
            && s.gov.proposals[source.value].weights == w
            && ledger > s.gov.proposals[source.value].expiry + s.gov.proposals[source.value].delay)
    case Changed(w) =>
      && s.control.queued == Some(w) && s'.control.active == w
      && s.control.effective.Some? && s.control.effective.value <= ledger
      && s'.control.queued.None? && s'.control.effective.None?
    case _ =>
      && s'.control.active == s.control.active
      && s'.control.queued == s.control.queued
      && s'.control.effective == s.control.effective
  }

  lemma StepKeepsProposals(s: System, e: Entry)
    requires IdsInv(s.gov)
    ensures KeepsProposals(s, Step(s, e))
  {
    forall id | id in s.gov.proposals {
      StepEvolves(s, e, id, 0);
    }
  }

  lemma StepAddsOnlyCreated(s: System, e: Entry)
    requires IdsInv(s.gov)
    ensures NewProposalsAre(s, Step(s, e), EffectOf(s, e))
    ensures EffectOf(s, e).Created? ==> EffectOf(s, e).id !in s.gov.proposals
  {
    match e.call
    case Create(_, _, _, _) =>
    case Vote(_, _, _, _) =>
    case Execute(_) =>
    case Cancel(_, _) =>
    case _ => assert Step(s, e).gov.proposals == s.gov.proposals;
  }

  lemma StepShowsInQueue(s: System, e: Entry)
    ensures QueueShows(s, Step(s, e), EffectOf(s, e), e.ledger)
  {
    match e.call
    case Execute(id) =>
    case GovApplyWeights =>
    case AcceptOracleAdmin =>
    case Direct(_) =>
    case _ => assert Step(s, e).control == s.control;
  }

  lemma ChangesStayWellFounded(s: System, s': System, log: Log, effect: Effect, ledger: u32)
    requires LogInv(s, log) && KeepsProposals(s, s') && QueueShows(s, s', effect, ledger)
    requires effect.Created? ==> effect.id !in s.gov.proposals
    ensures var log' := Record(log, effect, ledger);
            forall i :: 0 <= i < |log'.changes| ==> WellFounded(s', log', log'.changes[i])
  {
    var log' := Record(log, effect, ledger);
    forall i | 0 <= i < |log'.changes| ensures WellFounded(s', log', log'.changes[i]) {
      if i < |log.changes| { assert WellFounded(s, log, log.changes[i]); }
    }
  }

  lemma SourcesStayDistinct(s: System, s': System, log: Log, effect: Effect, ledger: u32)
    requires LogInv(s, log) && QueueShows(s, s', effect, ledger)
    ensures DistinctSources(Record(log, effect, ledger))
  {
    if effect.Queued? && effect.source.Some? {
      forall i | 0 <= i < |log.changes| ensures log.changes[i].source != effect.source {
        assert WellFounded(s, log, log.changes[i]);
      }
    }
  }

  /** The log stays accurate across any step with these effects. */
  lemma RecordKeepsLogInv(s: System, s': System, log: Log, effect: Effect, ledger: u32)
    requires LogInv(s, log)
    requires IdsInv(s'.gov) && Queue.ControlInv(s'.control)
    requires KeepsProposals(s, s') && NewProposalsAre(s, s', effect)
    requires effect.Created? ==> effect.id !in s.gov.proposals
    requires QueueShows(s, s', effect, ledger)
    ensures LogInv(s', Record(log, effect, ledger))
  {
    hide WellFounded, DistinctSources, IdsInv;
    ChangesStayWellFounded(s, s', log, effect, ledger);
    SourcesStayDistinct(s, s', log, effect, ledger);
  }

  /** In every reachable state the observer's log accounts for the active weights, the
      queue and every past change. */
  lemma {:induction false} LogAccountsForWeights(self: Address, admin: Address, oracleAdmin: Address,
                                                 quorum: i128, es: seq<Entry>)
    requires quorum > 0
    ensures var start := Start(self, admin, oracleAdmin, quorum);
            LogInv(Run(start, es), LogOf(start, es))
  {
    var start := Start(self, admin, oracleAdmin, quorum);
    EveryStateIsSound(self, admin, oracleAdmin, quorum, es);
    WeightsAlwaysValid(self, admin, oracleAdmin, quorum, es);
    if es != [] {
      var front, e := es[..|es| - 1], es[|es| - 1];
      LogAccountsForWeights(self, admin, oracleAdmin, quorum, front);
      var s := Run(start, front);
      StepKeepsProposals(s, e);
      StepAddsOnlyCreated(s, e);
      StepShowsInQueue(s, e);
      RecordKeepsLogInv(s, Step(s, e), LogOf(start, front), EffectOf(s, e), e.ledger);
    }
  }

  // ---- after the hand-over ----------------------------------------------------------------

  /** Governance never offers the role to anybody. */
  predicate RoleIsHeld(s: System) {
    s.control.admin == s.gov.self ==> s.control.pendingAdmin == None
  }

  lemma RoleStays(s: System, e: Entry)
    requires RoleIsHeld(s) && s.gov.self !in e.auth
    ensures RoleIsHeld(Step(s, e)) && Step(s, e).gov.self == s.gov.self
    ensures s.control.admin == s.gov.self ==> Step(s, e).control.admin == s.gov.self
  {
  }

  lemma {:induction false} RoleIsKept(s: System, es: seq<Entry>)
    requires RoleIsHeld(s) && HostRule(s.gov.self, es)
    ensures RoleIsHeld(Run(s, es)) && Run(s, es).gov.self == s.gov.self
    ensures s.control.admin == s.gov.self ==> Run(s, es).control.admin == s.gov.self
  {
    if es != [] {
      RoleIsKept(s, es[..|es| - 1]);
      RoleStays(Run(s, es[..|es| - 1]), es[|es| - 1]);
    }
  }

  lemma {:induction false} LogConcat(start: System, pre: seq<Entry>, post: seq<Entry>)
    ensures |LogOf(start, pre).changes| <= |LogOf(start, pre + post).changes|
    ensures LogOf(start, pre).changes <= LogOf(start, pre + post).changes
  {
    if post == [] {
      assert pre + post == pre;
    } else {
      assert (pre + post)[..|pre + post| - 1] == pre + post[..|post| - 1];
      LogConcat(start, pre, post[..|post| - 1]);
    }
  }

  /** While governance is admin nobody else queues weights. */
  lemma OnlyProposalsQueue(s: System, e: Entry)
    requires s.control.admin == s.gov.self && s.gov.self !in e.auth
    ensures EffectOf(s, e).Queued? ==> EffectOf(s, e).source.Some?
  {
  }

  /** Since the hand-over, a change or a queue entry without a source can only be the
      inherited one. */
  predicate AllButInheritedSourced(s: System, log: Log, n: nat, inherited: bool) {
    && n <= |log.changes|
    && (s.control.queued.Some? && log.queuedBy.None? ==> |log.changes| == n && inherited)
    && (forall i :: n <= i < |log.changes| && log.changes[i].source.None? ==> i == n && inherited)
  }

  lemma RecordKeepsSources(s: System, s': System, log: Log, effect: Effect, ledger: u32, n: nat, inherited: bool)
    requires AllButInheritedSourced(s, log, n, inherited)
    requires QueueShows(s, s', effect, ledger)
    requires effect.Queued? ==> effect.source.Some?
    ensures AllButInheritedSourced(s', Record(log, effect, ledger), n, inherited)
  {
  }

  lemma {:induction false} OnlyInheritedLacksSource(start: System, pre: seq<Entry>, post: seq<Entry>)
    requires RoleIsHeld(start) && HostRule(start.gov.self, pre + post)
    requires Run(start, pre).control.admin == start.gov.self
    ensures Run(start, pre + post).control.admin == start.gov.self
    ensures AllButInheritedSourced(Run(start, pre + post), LogOf(start, pre + post),
                                   |LogOf(start, pre).changes|, Run(start, pre).control.queued.Some?)
  {
    if post == [] {
      assert pre + post == pre;
    } else {
      var all, front, e := pre + post, pre + post[..|post| - 1], post[|post| - 1];
      assert all[..|all| - 1] == front && all[|all| - 1] == e;
      assert HostRule(start.gov.self, front) by {
        assert forall k :: 0 <= k < |front| ==> front[k] == all[k];
      }
      OnlyInheritedLacksSource(start, pre, post[..|post| - 1]);
      RoleIsKept(start, front);
      RoleIsKept(start, all);
      var s := Run(start, front);
      RoleStays(s, e);
      OnlyProposalsQueue(s, e);
      StepShowsInQueue(s, e);
      RecordKeepsSources(s, Step(s, e), LogOf(start, front), EffectOf(s, e), e.ledger,
                         |LogOf(start, pre).changes|, Run(start, pre).control.queued.Some?);
    }
  }

  /** The double timelock. Take any run and any moment at which governance is the oracle's
      admin. It stays admin forever after, the active weights are always valid, and each
      later change carries the weights of an executed proposal, a different one each time,
      no earlier than voting period + execution delay + 17,281 ledgers after that proposal
      was created. The only possible exception is one change already queued at that
      moment. */
  lemma GovernedWeights(self: Address, admin: Address, oracleAdmin: Address, quorum: i128,
                        pre: seq<Entry>, post: seq<Entry>)
    requires quorum > 0 && HostRule(self, pre + post)
    requires Run(Start(self, admin, oracleAdmin, quorum), pre).control.admin == self
    ensures var start := Start(self, admin, oracleAdmin, quorum);
            var handover, s, log := Run(start, pre), Run(start, pre + post), LogOf(start, pre + post);
            var n := |LogOf(start, pre).changes|;
            && s.control.admin == self
            && s.control.active.IsValid()
            && n <= |log.changes|
            && s.control.active == (if |log.changes| == n then handover.control.active
                                    else log.changes[|log.changes| - 1].weights)
            && (forall i :: n <= i < |log.changes| ==>
                  (log.changes[i].source.Some? || (i == n && handover.control.queued.Some?))
                  && WellFounded(s, log, log.changes[i]))
            && (forall i, j :: n <= i < j < |log.changes| && log.changes[i].source.Some?
                  ==> log.changes[i].source != log.changes[j].source)
  {
    var start := Start(self, admin, oracleAdmin, quorum);
    LogAccountsForWeights(self, admin, oracleAdmin, quorum, pre);
    LogAccountsForWeights(self, admin, oracleAdmin, quorum, pre + post);
    OnlyInheritedLacksSource(start, pre, post);
    LogConcat(start, pre, post);
  }

  /** The observer misses nothing: weights change only by a successful `apply_weights`. */
  lemma WeightsChangeOnlyByApplying(s: System, e: Entry)
    requires Step(s, e).control.active != s.control.active
    ensures EffectOf(s, e) == Changed(Step(s, e).control.active)
    ensures e.call == GovApplyWeights || e.call == Direct(Queue.ApplyWeights)
  {
    StepShowsInQueue(s, e);
  }
}
