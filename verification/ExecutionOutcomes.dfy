/** What becomes of an executed proposal. The queue holds one pending change and a later
    `execute` overwrites it, so an executed proposal takes effect, waits, or is lost. */
module ExecutionOutcomes {
  import opened Host
  import opened CreditOracleTypes
  import opened GovernanceSpec
  import opened GovernanceInvariants
  import opened DoubleTimelock
  import Queue = WeightQueue

  /** Applied at a ledger, still waiting in the queue, or overwritten there before it was
      applied: by another executed proposal or, without one, by a direct proposal. */
  datatype Fate = Waiting | Applied(at: u32) | Superseded(winner: Option<u64>)

  /** `rank` numbers the executions in the order they happened. */
  datatype Outcomes = Outcomes(fates: map<u64, Fate>, rank: map<u64, nat>)

  function Settle(fates: map<u64, Fate>, queuedBy: Option<u64>, fate: Fate): map<u64, Fate> {
    if queuedBy.Some? then fates[queuedBy.value := fate] else fates
  }

  /** What one successful call decides, given the proposal that is queued before it. */
  function Decide(o: Outcomes, queuedBy: Option<u64>, effect: Effect, ledger: u32): Outcomes {
    match effect
    case Queued(source, _) =>
      var fates := Settle(o.fates, queuedBy, Superseded(source));
      if source.None? then o.(fates := fates)
      else Outcomes(fates[source.value := Waiting], o.rank[source.value := |o.rank|])
    case Changed(_) => o.(fates := Settle(o.fates, queuedBy, Applied(ledger)))
    case _ => o
  }

  function OutcomesOf(s: System, es: seq<Entry>): Outcomes {
    if es == [] then Outcomes(map[], map[])
    else
      var front, e := es[..|es| - 1], es[|es| - 1];
      Decide(OutcomesOf(s, front), LogOf(s, front).queuedBy, EffectOf(Run(s, front), e), e.ledger)
  }

  predicate ChangeAt(log: Log, i: int, id: u64, at: u32) {
    0 <= i < |log.changes| && log.changes[i].source == Some(id) && log.changes[i].at == at
  }

  ghost predicate FateIsRight(log: Log, o: Outcomes, id: u64)
    requires id in o.fates
  {
    && (log.queuedBy == Some(id) <==> o.fates[id].Waiting?)
    && (o.fates[id].Applied? ==> exists i :: ChangeAt(log, i, id, o.fates[id].at))
    && (!o.fates[id].Applied? ==> forall i :: 0 <= i < |log.changes| ==> log.changes[i].source != Some(id))
    && id in o.rank
    && (o.fates[id].Superseded? && o.fates[id].winner.Some? ==>
          o.fates[id].winner.value in o.rank && o.rank[id] < o.rank[o.fates[id].winner.value])
  }

  ghost predicate OutcomesInv(s: System, log: Log, o: Outcomes) {
    && (forall id :: id in o.fates <==> id in s.gov.proposals && s.gov.proposals[id].executed)
    && o.rank.Keys == o.fates.Keys
    && (forall id :: id in o.rank ==> o.rank[id] < |o.rank|)
    && (forall id :: id in o.fates ==> FateIsRight(log, o, id))
  }

  /** A proposal becomes executed exactly by queueing its weights. */
  ghost predicate ExecutedBy(s: System, s': System, effect: Effect) {
    forall id :: id in s'.gov.proposals && s'.gov.proposals[id].executed <==>
      (id in s.gov.proposals && s.gov.proposals[id].executed) || (effect.Queued? && effect.source == Some(id))
  }

  lemma StepExecutes(s: System, e: Entry)
    requires IdsInv(s.gov)
    ensures ExecutedBy(s, Step(s, e), EffectOf(s, e))
  {
    match e.call
    case Create(_, _, _, _) => assert s.gov.nextId !in s.gov.proposals;
    case Vote(_, _, _, _) =>
    case Execute(_) =>
    case Cancel(_, _) =>
    case _ => assert Step(s, e).gov.proposals == s.gov.proposals;
  }

  /** Sources of past changes and of the queue are executed proposals. */
  predicate SourcesDecided(log: Log, o: Outcomes) {
    && (log.queuedBy.Some? ==> log.queuedBy.value in o.fates)
    && (forall i :: 0 <= i < |log.changes| && log.changes[i].source.Some? ==> log.changes[i].source.value in o.fates)
  }

  predicate SourceIsFresh(o: Outcomes, effect: Effect) {
    effect.Queued? && effect.source.Some? ==> effect.source.value !in o.fates
  }

  predicate RanksBelow(o: Outcomes) {
    o.rank.Keys == o.fates.Keys && forall id :: id in o.rank ==> o.rank[id] < |o.rank|
  }

  lemma FateStaysRight(log: Log, o: Outcomes, effect: Effect, ledger: u32, id: u64)
    requires RanksBelow(o) && SourceIsFresh(o, effect)
    requires id in o.fates && FateIsRight(log, o, id)
    ensures var o' := Decide(o, log.queuedBy, effect, ledger);
            id in o'.fates && FateIsRight(Record(log, effect, ledger), o', id)
  {
    var log', o' := Record(log, effect, ledger), Decide(o, log.queuedBy, effect, ledger);
    if o.fates[id].Applied? {
      var i :| ChangeAt(log, i, id, o.fates[id].at);
      assert ChangeAt(log', i, id, o.fates[id].at);
    } else if effect.Changed? && log.queuedBy == Some(id) {
      assert ChangeAt(log', |log.changes|, id, ledger);
    }
  }

  lemma FreshFateIsRight(log: Log, o: Outcomes, effect: Effect, ledger: u32)
    requires RanksBelow(o) && SourceIsFresh(o, effect) && SourcesDecided(log, o)
    requires effect.Queued? && effect.source.Some?
    ensures var o' := Decide(o, log.queuedBy, effect, ledger);
            effect.source.value in o'.fates && FateIsRight(Record(log, effect, ledger), o', effect.source.value)
  {
  }

  lemma RanksStayBelow(o: Outcomes, queuedBy: Option<u64>, effect: Effect, ledger: u32)
    requires RanksBelow(o) && SourceIsFresh(o, effect)
    requires queuedBy.Some? ==> queuedBy.value in o.fates
    ensures RanksBelow(Decide(o, queuedBy, effect, ledger))
  {
  }

  lemma DecideKeepsOutcomes(s: System, s': System, log: Log, o: Outcomes, effect: Effect, ledger: u32)
    requires OutcomesInv(s, log, o) && ExecutedBy(s, s', effect)
    requires SourcesDecided(log, o) && SourceIsFresh(o, effect)
    ensures OutcomesInv(s', Record(log, effect, ledger), Decide(o, log.queuedBy, effect, ledger))
  {
    var log', o' := Record(log, effect, ledger), Decide(o, log.queuedBy, effect, ledger);
    RanksStayBelow(o, log.queuedBy, effect, ledger);
    forall id | id in o'.fates ensures FateIsRight(log', o', id) {
      if id in o.fates {
        FateStaysRight(log, o, effect, ledger, id);
      } else {
        FreshFateIsRight(log, o, effect, ledger);
      }
    }
  }

  lemma SourcesAreDecided(s: System, log: Log, o: Outcomes)
    requires LogInv(s, log) && OutcomesInv(s, log, o)
    ensures SourcesDecided(log, o)
  {
    forall i | 0 <= i < |log.changes| && log.changes[i].source.Some?
      ensures log.changes[i].source.value in o.fates
    {
      assert WellFounded(s, log, log.changes[i]);
    }
  }

  /** In every reachable state each executed proposal has exactly one fate. It is the source
      of exactly one change, made at the ledger recorded; or it is the one in the queue; or
      it was overwritten there, by a later execution or by a direct proposal, and is the
      source of no change. */
  lemma {:induction false} EveryExecutionHasOneFate(self: Address, admin: Address, oracleAdmin: Address,
                                                    quorum: i128, es: seq<Entry>)
    requires quorum > 0
    ensures var start := Start(self, admin, oracleAdmin, quorum);
            OutcomesInv(Run(start, es), LogOf(start, es), OutcomesOf(start, es))
            && DistinctSources(LogOf(start, es))
  {
    var start := Start(self, admin, oracleAdmin, quorum);
    LogAccountsForWeights(self, admin, oracleAdmin, quorum, es);
    if es != [] {
      var front, e := es[..|es| - 1], es[|es| - 1];
      EveryExecutionHasOneFate(self, admin, oracleAdmin, quorum, front);
      LogAccountsForWeights(self, admin, oracleAdmin, quorum, front);
      var s, log, o := Run(start, front), LogOf(start, front), OutcomesOf(start, front);
      SourcesAreDecided(s, log, o);
      StepExecutes(s, e);
      StepShowsInQueue(s, e);
      DecideKeepsOutcomes(s, Step(s, e), log, o, EffectOf(s, e), e.ledger);
    }
  }

  // ---- after the hand-over -----------------------------------------------------------------

  predicate LostToDirect(o: Outcomes, id: u64) {
    id in o.fates && o.fates[id] == Superseded(None)
  }

  /** While governance is admin only an execution overwrites the queue. */
  lemma OnlyExecutionsSupersede(o: Outcomes, queuedBy: Option<u64>, effect: Effect, ledger: u32, id: u64)
    requires effect.Queued? ==> effect.source.Some?
    requires LostToDirect(Decide(o, queuedBy, effect, ledger), id)
    ensures LostToDirect(o, id)
  {
  }

  /** From any moment at which governance is the oracle's admin, an executed proposal that
      is neither applied nor waiting has lost its place to a later execution, unless it had
      lost it to a direct proposal before that moment. */
  lemma {:induction false} GovernedExecutions(self: Address, admin: Address, oracleAdmin: Address, quorum: i128,
                                              pre: seq<Entry>, post: seq<Entry>, id: u64)
    requires quorum > 0 && HostRule(self, pre + post)
    requires Run(Start(self, admin, oracleAdmin, quorum), pre).control.admin == self
    ensures var start := Start(self, admin, oracleAdmin, quorum);
            LostToDirect(OutcomesOf(start, pre + post), id) ==> LostToDirect(OutcomesOf(start, pre), id)
  {
    var start, all := Start(self, admin, oracleAdmin, quorum), pre + post;
    if post == [] {
      assert all == pre;
    } else if LostToDirect(OutcomesOf(start, all), id) {
      var front, e := pre + post[..|post| - 1], post[|post| - 1];
      assert all[..|all| - 1] == front && all[|all| - 1] == e;
      assert HostRule(self, front) by {
        assert forall k :: 0 <= k < |front| ==> front[k] == all[k];
      }
      GovernedExecutions(self, admin, oracleAdmin, quorum, pre, post[..|post| - 1], id);
      OnlyInheritedLacksSource(start, pre, post[..|post| - 1]);
      RoleIsKept(start, front);
      OnlyProposalsQueue(Run(start, front), e);
      OnlyExecutionsSupersede(OutcomesOf(start, front), LogOf(start, front).queuedBy,
                              EffectOf(Run(start, front), e), e.ledger, id);
    }
  }
}
