/** The part of the credit oracle that governance controls: the two-step admin role, the
    pause flag, the active weights and the queue of one pending weight change. */
module WeightQueue {
  import opened Host
  import opened CreditOracleTypes

  const TIMELOCK_LEDGERS := 17_280

  datatype Control = Control(
    admin: Address,
    pendingAdmin: Option<Address>,
    governance: Option<Address>,
    paused: bool,
    active: ScoringWeights,
    queued: Option<ScoringWeights>,
    effective: Option<u32>)

  function Deployed(admin: Address): Control {
    Control(admin, None, None, false, DEFAULT_WEIGHTS, None, None)
  }

  datatype QueueCall =
    | ProposeWeights(weights: ScoringWeights)
    | ApplyWeights
    | ProposeNewAdmin(newAdmin: Address)
    | AcceptAdmin(newAdmin: Address)
    | SetPaused(caller: Address, paused: bool)

  function VerdictOf(c: Control, ledger: u32, auth: set<Address>, call: QueueCall): Verdict<CreditOracleError> {
    match call
    case ProposeWeights(w) =>
      if w.ValidityCheckOverflows() then Trap
      else if !w.IsValid() then Err(InvalidWeights)
      else if c.admin !in auth then Trap
      else if ledger + TIMELOCK_LEDGERS > U32_MAX then Trap
      else Ok
    case ApplyWeights =>
      if c.paused then Err(CreditOracleError.ContractPaused)
      else if c.effective.None? then Err(NoPendingWeights)
      else if ledger < c.effective.value then Err(TimelockNotExpired)
      else if c.queued.None? then Err(NoPendingWeights)
      else Ok
    case ProposeNewAdmin(_) =>
      if c.admin !in auth then Trap else Ok
    case AcceptAdmin(a) =>
      if a !in auth || c.pendingAdmin.None? then Trap
      else if c.pendingAdmin.value != a then Err(NotAuthorized)
      else Ok
    case SetPaused(caller, _) =>
      if caller != c.admin then Err(NotAuthorized)
      else if caller !in auth then Trap
      else Ok
  }

  function After(c: Control, ledger: u32, auth: set<Address>, call: QueueCall): Control
    requires VerdictOf(c, ledger, auth, call) == Ok
  {
    match call
    case ProposeWeights(w) => c.(queued := Some(w), effective := Some(ledger + TIMELOCK_LEDGERS))
    case ApplyWeights => c.(active := c.queued.value, queued := None, effective := None)
    case ProposeNewAdmin(a) => c.(pendingAdmin := Some(a))
    case AcceptAdmin(a) =>
      c.(admin := a, pendingAdmin := None, governance := if a.Contract? then Some(a) else None)
    case SetPaused(_, paused) => c.(paused := paused)
  }

  function Step(c: Control, ledger: u32, auth: set<Address>, call: QueueCall): Control {
    if VerdictOf(c, ledger, auth, call) == Ok then After(c, ledger, auth, call) else c
  }

  /** The active and the queued weights are valid, a queued weight and its effective
      ledger come and go together, and a contract admin is the recorded governance. */
  predicate ControlInv(c: Control) {
    && c.active.IsValid()
    && (c.queued.Some? <==> c.effective.Some?)
    && (c.queued.Some? ==> c.queued.value.IsValid())
    && (c.governance.Some? ==> c.governance == Some(c.admin) && c.admin.Contract?)
  }

  lemma StepKeepsControl(c: Control, ledger: u32, auth: set<Address>, call: QueueCall)
    requires ControlInv(c)
    ensures ControlInv(Step(c, ledger, auth, call))
  {
  }
}
