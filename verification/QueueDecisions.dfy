/** Which call decides what becomes of an executed proposal, and exactly when its weights
    take effect. */
module QueueDecisions {
  import opened Host
  import opened CreditOracleTypes
  import opened GovernanceSpec
  import opened GovernanceInvariants
  import opened DoubleTimelock
  import opened ExecutionOutcomes
  import Queue = WeightQueue

  // ---- the pause flag after the hand-over ---------------------------------------------------

  predicate Governed(s: System) { s.control.admin == s.gov.self && RoleIsHeld(s) }

  predicate IsApply(call: Call) { call == GovApplyWeights || call == Direct(Queue.ApplyWeights) }

  /** `apply_weights`, through governance or not, succeeds exactly when the oracle is not
      paused, something is queued, and the ledger has reached its effective one. */
  lemma ApplySucceedsIff(s: System, e: Entry)
    requires Queue.ControlInv(s.control) && IsApply(e.call)
    ensures VerdictOf(s, e) == Ok
            <==> !s.control.paused && s.control.queued.Some? && e.ledger >= s.control.effective.value
  {
  }

  lemma GovernedStepKeepsPause(s: System, e: Entry)
    requires Governed(s) && s.gov.self !in e.auth
    ensures Governed(Step(s, e)) && Step(s, e).gov.self == s.gov.self
    ensures Step(s, e).control.paused == s.control.paused
    ensures s.control.paused ==> !EffectOf(s, e).Changed?
  {
    RoleStays(s, e);
  }

  /** Governance has no call that reaches `pause` or `unpause`, so the flag it finds at the
      hand-over stays as it is; if it is set, the active weights stay for ever. */
  lemma {:induction false} PauseIsFrozen(s: System, es: seq<Entry>)
    requires Governed(s) && HostRule(s.gov.self, es)
    ensures Governed(Run(s, es)) && Run(s, es).gov.self == s.gov.self
    ensures Run(s, es).control.paused == s.control.paused
    ensures s.control.paused ==> Run(s, es).control.active == s.control.active
  {
    if es != [] {
      var front, e := es[..|es| - 1], es[|es| - 1];
      PauseIsFrozen(s, front);
      GovernedStepKeepsPause(Run(s, front), e);
      StepShowsInQueue(Run(s, front), e);
    }
  }

  lemma HandOverIsGoverned(self: Address, admin: Address, oracleAdmin: Address, quorum: i128, pre: seq<Entry>)
    requires HostRule(self, pre)
    requires Run(Start(self, admin, oracleAdmin, quorum), pre).control.admin == self
    ensures var s := Run(Start(self, admin, oracleAdmin, quorum), pre);
            Governed(s) && s.gov.self == self
  {
    RoleIsKept(Start(self, admin, oracleAdmin, quorum), pre);
  }

  // ---- one call and the fate of a proposal -----------------------------------------------------

  predicate Touches(effect: Effect) { effect.Queued? || effect.Changed? }

  /** What a queue-touching call makes of the proposal it finds in the queue. */
  function Decision(effect: Effect, ledger: u32): Fate
    requires Touches(effect)
  {
    if effect.Queued? then Superseded(effect.source) else Applied(ledger)
  }

  lemma QueuedFateMoves(o: Outcomes, effect: Effect, ledger: u32, id: u64)
    requires id in o.fates && SourceIsFresh(o, effect)
    ensures var o' := Decide(o, Some(id), effect, ledger);
            id in o'.fates && o'.fates[id] == if Touches(effect) then Decision(effect, ledger) else o.fates[id]
  {
  }

  lemma OtherFateStays(o: Outcomes, queuedBy: Option<u64>, effect: Effect, ledger: u32, id: u64)
    requires id in o.fates && SourceIsFresh(o, effect) && queuedBy != Some(id)
    ensures var o' := Decide(o, queuedBy, effect, ledger);
            id in o'.fates && o'.fates[id] == o.fates[id]
  {
  }

  /** Every run leaves the queue as it was until a call touches it. */
  lemma UntouchedQueue(s: System, log: Log, e: Entry)
    requires !Touches(EffectOf(s, e))
    ensures var log' := Record(log, EffectOf(s, e), e.ledger);
            log'.queuedBy == log.queuedBy
            && Step(s, e).control.queued == s.control.queued && Step(s, e).control.effective == s.control.effective
  {
    StepShowsInQueue(s, e);
  }

  // ---- runs in two parts -------------------------------------------------------------------------

  function QueuedBy(d: Deployment, es: seq<Entry>): Option<u64> { LogOf(d.System(), es).queuedBy }

  function Fates(d: Deployment, es: seq<Entry>): map<u64, Fate> { OutcomesOf(d.System(), es).fates }

  function EffectAfter(d: Deployment, es: seq<Entry>, e: Entry): Effect { EffectOf(StateAfter(d, es), e) }

  /** One more call, seen by the contracts and by both observers. */
  lemma OneMoreCall(d: Deployment, es: seq<Entry>, e: Entry)
    ensures StateAfter(d, es + [e]) == Step(StateAfter(d, es), e)
    ensures LogOf(d.System(), es + [e]) == Record(LogOf(d.System(), es), EffectAfter(d, es, e), e.ledger)
    ensures OutcomesOf(d.System(), es + [e])
         == Decide(OutcomesOf(d.System(), es), QueuedBy(d, es), EffectAfter(d, es, e), e.ledger)
  {
    assert (es + [e])[..|es|] == es;
  }

  /** What the observers' invariants say about one executed proposal. */
  lemma FateFacts(d: Deployment, es: seq<Entry>, id: u64)
    requires d.quorum > 0
    ensures QueuedBy(d, es) == Some(id) <==> id in Fates(d, es) && Fates(d, es)[id] == Waiting
    ensures id in Fates(d, es) ==> id in StateAfter(d, es).gov.proposals && StateAfter(d, es).gov.proposals[id].executed
    ensures Queue.ControlInv(StateAfter(d, es).control)
    ensures QueuedBy(d, es) == Some(id) ==> StateAfter(d, es).control.queued.Some?
  {
    EveryExecutionHasOneFate(d.self, d.admin, d.oracleAdmin, d.quorum, es);
    LogAccountsForWeights(d.self, d.admin, d.oracleAdmin, d.quorum, es);
    if id in Fates(d, es) {
      assert FateIsRight(LogOf(d.System(), es), OutcomesOf(d.System(), es), id);
    }
  }

  lemma SourcesAreFresh(d: Deployment, es: seq<Entry>, e: Entry)
    requires d.quorum > 0
    ensures SourceIsFresh(OutcomesOf(d.System(), es), EffectAfter(d, es, e))
  {
    var effect := EffectAfter(d, es, e);
    if effect.Queued? && effect.source.Some? {
      FateFacts(d, es, effect.source.value);
      StepShowsInQueue(StateAfter(d, es), e);
    }
  }

  /** A decided fate is final: neither an applied nor a superseded proposal ever changes its
      fate again. */
  lemma {:induction false} DecidedFateIsFinal(d: Deployment, pre: seq<Entry>, post: seq<Entry>, id: u64)
    requires d.quorum > 0 && id in Fates(d, pre) && Fates(d, pre)[id] != Waiting
    ensures id in Fates(d, pre + post) && Fates(d, pre + post)[id] == Fates(d, pre)[id]
  {
    if post == [] {
      assert pre + post == pre;
    } else {
      var front, e := pre + post[..|post| - 1], post[|post| - 1];
      assert pre + post == front + [e];
      DecidedFateIsFinal(d, pre, post[..|post| - 1], id);
      FateFacts(d, front, id);
      SourcesAreFresh(d, front, e);
      OneMoreCall(d, front, e);
      OtherFateStays(OutcomesOf(d.System(), front), QueuedBy(d, front), EffectAfter(d, front, e), e.ledger, id);
    }
  }

  /** Whether the k-th call of the second part touches the queue. */
  predicate TouchesAt(d: Deployment, pre: seq<Entry>, post: seq<Entry>, k: nat)
    requires k < |post|
  {
    Touches(EffectAfter(d, pre + post[..k], post[k]))
  }

  /** Until a call touches the queue the proposal waits there with its effective ledger. */
  lemma {:induction false} WaitsUntilTouched(d: Deployment, pre: seq<Entry>, post: seq<Entry>, id: u64, n: nat)
    requires d.quorum > 0 && QueuedBy(d, pre) == Some(id)
    requires n <= |post| && forall k: nat :: k < n ==> !TouchesAt(d, pre, post, k)
    ensures var all := pre + post[..n];
            && QueuedBy(d, all) == Some(id)
            && id in Fates(d, all) && Fates(d, all)[id] == Waiting
            && StateAfter(d, all).control.queued == StateAfter(d, pre).control.queued
            && StateAfter(d, all).control.effective == StateAfter(d, pre).control.effective
  {
    if n == 0 {
      assert pre + post[..0] == pre;
    } else {
      var front, e := pre + post[..n - 1], post[n - 1];
      assert pre + post[..n] == front + [e];
      WaitsUntilTouched(d, pre, post, id, n - 1);
      assert !TouchesAt(d, pre, post, n - 1);
      OneMoreCall(d, front, e);
      UntouchedQueue(StateAfter(d, front), LogOf(d.System(), front), e);
    }
    FateFacts(d, pre + post[..n], id);
  }

  /** From any reachable state in which a proposal is queued, its fate after any further
      calls is decided by the first of them that touches the queue: applied at that ledger
      if it applies, superseded if it queues, still waiting if there is none. */
  lemma FirstTouchDecides(d: Deployment, pre: seq<Entry>, post: seq<Entry>, id: u64, n: nat)
    requires d.quorum > 0 && QueuedBy(d, pre) == Some(id)
    requires n <= |post| && forall k: nat :: k < n ==> !TouchesAt(d, pre, post, k)
    requires n < |post| ==> TouchesAt(d, pre, post, n)
    ensures id in Fates(d, pre + post)
    ensures Fates(d, pre + post)[id]
         == if n == |post| then Waiting
            else Decision(EffectAfter(d, pre + post[..n], post[n]), post[n].ledger)
  {
    WaitsUntilTouched(d, pre, post, id, n);
    if n == |post| {
      assert post[..n] == post;
    } else {
      var front, e := pre + post[..n], post[n];
      SourcesAreFresh(d, front, e);
      OneMoreCall(d, front, e);
      QueuedFateMoves(OutcomesOf(d.System(), front), EffectAfter(d, front, e), e.ledger, id);
      assert pre + post == (front + [e]) + post[n + 1..];
      DecidedFateIsFinal(d, front + [e], post[n + 1..], id);
    }
  }

  /** The first touching call, or the length when there is none. */
  lemma {:induction false} FirstTouch(d: Deployment, pre: seq<Entry>, post: seq<Entry>, upTo: nat) returns (n: nat)
    requires upTo <= |post|
    ensures n <= upTo && forall k: nat :: k < n ==> !TouchesAt(d, pre, post, k)
    ensures n < upTo ==> TouchesAt(d, pre, post, n)
  {
    if upTo == 0 {
      n := 0;
    } else {
      n := FirstTouch(d, pre, post, upTo - 1);
      if n == upTo - 1 && !TouchesAt(d, pre, post, n) { n := upTo; }
    }
  }

  // ---- when executed weights take effect ------------------------------------------------------------

  /** An accepted `execute` of any proposal. */
  predicate ExecutesAt(d: Deployment, pre: seq<Entry>, post: seq<Entry>, k: nat)
    requires k < |post|
  {
    post[k].call.Execute? && VerdictOf(StateAfter(d, pre + post[..k]), post[k]) == Ok
  }

  /** An apply, by anybody, at or after the given ledger, before any further execution. */
  predicate TimelyApplyAt(d: Deployment, pre: seq<Entry>, post: seq<Entry>, n: nat, effective: int)
    requires n < |post|
  {
    && IsApply(post[n].call) && post[n].ledger >= effective
    && forall k: nat :: k < n ==> !ExecutesAt(d, pre, post, k)
  }

  predicate TimelyApply(d: Deployment, pre: seq<Entry>, post: seq<Entry>, effective: int) {
    exists n: nat :: n < |post| && TimelyApplyAt(d, pre, post, n, effective)
  }

  /** While governance is admin a call touches the queue by executing or by applying. */
  lemma GovernedTouch(d: Deployment, pre: seq<Entry>, post: seq<Entry>, k: nat)
    requires k < |post| && Governed(StateAfter(d, pre + post[..k]))
    requires StateAfter(d, pre + post[..k]).gov.self !in post[k].auth
    ensures EffectAfter(d, pre + post[..k], post[k]).Queued? <==> ExecutesAt(d, pre, post, k)
    ensures EffectAfter(d, pre + post[..k], post[k]).Changed?
            <==> IsApply(post[k].call) && VerdictOf(StateAfter(d, pre + post[..k]), post[k]) == Ok
  {
    OnlyProposalsQueue(StateAfter(d, pre + post[..k]), post[k]);
  }

  lemma {:induction false} RunParts(d: Deployment, pre: seq<Entry>, post: seq<Entry>, k: nat)
    requires k <= |post| && HostRule(d.self, pre + post) && StateAfter(d, pre).control.admin == d.self
    ensures var s := StateAfter(d, pre + post[..k]);
            Governed(s) && s.gov.self == d.self && s.control.paused == StateAfter(d, pre).control.paused
    ensures k < |post| ==> d.self !in post[k].auth
  {
    var all := pre + post;
    assert forall i :: 0 <= i < |pre| ==> pre[i] == all[i];
    assert forall i :: 0 <= i < k ==> post[..k][i] == all[|pre| + i];
    if k < |post| { assert post[k] == all[|pre| + k]; }
    HandOverIsGoverned(d.self, d.admin, d.oracleAdmin, d.quorum, pre);
    PauseIsFrozen(StateAfter(d, pre), post[..k]);
    RunConcat(d.System(), pre, post[..k]);
  }

  /** After an unpaused hand-over a queued proposal takes effect if and only if somebody
      calls apply at or after its effective ledger before the next accepted `execute`. */
  lemma QueuedTakesEffectIff(d: Deployment, pre: seq<Entry>, post: seq<Entry>, id: u64)
    requires d.quorum > 0 && HostRule(d.self, pre + post)
    requires StateAfter(d, pre).control.admin == d.self && !StateAfter(d, pre).control.paused
    requires QueuedBy(d, pre) == Some(id)
    ensures StateAfter(d, pre).control.effective.Some? && id in Fates(d, pre + post)
    ensures Fates(d, pre + post)[id].Applied?
            <==> TimelyApply(d, pre, post, StateAfter(d, pre).control.effective.value)
  {
    FateFacts(d, pre, id);
    var effective := StateAfter(d, pre).control.effective.value;
    var n := FirstTouch(d, pre, post, |post|);
    FirstTouchDecides(d, pre, post, id, n);
    WaitsUntilTouched(d, pre, post, id, n);
    forall k: nat | k < n && k < |post| ensures !ExecutesAt(d, pre, post, k) {
      RunParts(d, pre, post, k);
      GovernedTouch(d, pre, post, k);
      assert !TouchesAt(d, pre, post, k);
    }
    if n < |post| {
      RunParts(d, pre, post, n);
      GovernedTouch(d, pre, post, n);
      FateFacts(d, pre + post[..n], id);
    }
    if Fates(d, pre + post)[id].Applied? {
      ApplySucceedsIff(StateAfter(d, pre + post[..n]), post[n]);
      assert TimelyApplyAt(d, pre, post, n, effective);
    }
    if TimelyApply(d, pre, post, effective) {
      var m: nat :| m < |post| && TimelyApplyAt(d, pre, post, m, effective);
      TimelyApplyIsReached(d, pre, post, id, m, n);
    }
  }

  /** A timely apply succeeds unless an earlier call has applied already. */
  lemma TimelyApplyIsReached(d: Deployment, pre: seq<Entry>, post: seq<Entry>, id: u64, m: nat, n: nat)
    requires d.quorum > 0 && HostRule(d.self, pre + post)
    requires StateAfter(d, pre).control.admin == d.self && !StateAfter(d, pre).control.paused
    requires QueuedBy(d, pre) == Some(id) && StateAfter(d, pre).control.effective.Some?
    requires m < |post| && TimelyApplyAt(d, pre, post, m, StateAfter(d, pre).control.effective.value)
    requires n <= |post| && forall k: nat :: k < n ==> !TouchesAt(d, pre, post, k)
    requires n < |post| ==> TouchesAt(d, pre, post, n)
    ensures n < |post| && EffectAfter(d, pre + post[..n], post[n]).Changed?
  {
    if n > m {
      WaitsUntilTouched(d, pre, post, id, m);
      RunParts(d, pre, post, m);
      FateFacts(d, pre + post[..m], id);
      ApplySucceedsIff(StateAfter(d, pre + post[..m]), post[m]);
      assert TouchesAt(d, pre, post, m);
      assert false;
    } else {
      RunParts(d, pre, post, n);
      GovernedTouch(d, pre, post, n);
    }
  }

  /** The same for a proposal executed by one particular call: its weights take effect if
      and only if somebody calls apply 17,280 ledgers later or more, before the next
      accepted `execute`. */
  lemma ExecutedTakesEffectIff(d: Deployment, pre: seq<Entry>, e: Entry, post: seq<Entry>, id: u64)
    requires d.quorum > 0 && HostRule(d.self, pre + [e] + post)
    requires StateAfter(d, pre).control.admin == d.self && !StateAfter(d, pre).control.paused
    requires e.call == Execute(id) && VerdictOf(StateAfter(d, pre), e) == Ok
    ensures id in Fates(d, pre + [e] + post)
    ensures Fates(d, pre + [e] + post)[id].Applied?
            <==> TimelyApply(d, pre + [e], post, e.ledger + 17_280)
  {
    assert pre + [e] + post == pre + ([e] + post);
    RunParts(d, pre, [e] + post, 1);
    assert ([e] + post)[..1] == [e];
    OneMoreCall(d, pre, e);
    StepShowsInQueue(StateAfter(d, pre), e);
    QueuedTakesEffectIff(d, pre + [e], post, id);
  }

  /** After a paused hand-over no proposal takes effect any more: whatever is applied in the
      end was applied before. */
  lemma {:induction false} PausedNeverApplies(d: Deployment, pre: seq<Entry>, post: seq<Entry>, id: u64)
    requires d.quorum > 0 && HostRule(d.self, pre + post)
    requires StateAfter(d, pre).control.admin == d.self && StateAfter(d, pre).control.paused
    requires id in Fates(d, pre + post) && Fates(d, pre + post)[id].Applied?
    ensures id in Fates(d, pre) && Fates(d, pre)[id] == Fates(d, pre + post)[id]
  {
    if post == [] {
      assert pre + post == pre;
    } else {
      var k := |post| - 1;
      var front, e := pre + post[..k], post[k];
      assert pre + post == front + [e];
      RunParts(d, pre, post, k);
      GovernedStepKeepsPause(StateAfter(d, front), e);
      OneMoreCall(d, front, e);
      assert HostRule(d.self, front) by {
        assert forall i :: 0 <= i < |front| ==> front[i] == (pre + post)[i];
      }
      PausedNeverApplies(d, pre, post[..k], id);
    }
  }
}
