/** Calls and creations as functions: nested frames over a plain map of accounts, where undoing a
    frame is returning the map it started from. */
module Execution {
  import opened Types
  import opened Accounts
  import opened Memory
  import opened Vm

  /** The result of a call or creation. `burned` counts the balances that accounts destroyed by
      naming themselves as the heir of their own self-destruction. `trail` is what happens to the accounts that a
      state has loaded, in order. */
  datatype Run = Run(world: World, sub: Substate, result: Finalization, burned: nat, trail: seq<Event>)

  /** A frame part-way through its requests. */
  datatype Progress = Progress(world: World, sub: Substate, burned: nat, trail: seq<Event>)

  /** The frame's own address, its caller, its depth and whether it may change anything. */
  datatype Context = Context(address: Address, sender: Address, depth: nat, isStatic: bool)

  /** Whether a result keeps the changes of the frame. */
  predicate Applies(r: Finalization) {
    (r.Ok? && r.applyState) || r == Err(Internal)
  }

  /** Keeps the frame's changes, or goes back to where it started. */
  function Enacted(before: World, sub: Substate, inner: Progress, result: Finalization): Run {
    if Applies(result) then Run(inner.world, Accrue(sub, inner.sub), result, inner.burned, inner.trail + [Left])
    else Run(before, sub, result, 0, inner.trail + [Undone])
  }

  /** A call that may not move value in a static context. */
  predicate MovesInStatic(isStatic: bool, p: Params) {
    (p.callType.StaticCall? || (p.callType.Call? && isStatic)) && p.value.amount > 0
  }

  /** The accounts after the value of a call has moved. */
  function Paid(env: Env, w: World, p: Params): World
    requires p.value.Moved? ==> p.value.amount <= Balance(w, p.sender)
  {
    if p.value.Moved?
    then Transfer(w, p.sender, p.address, p.value.amount, Mode(env.schedule), env.startNonce)
    else w
  }

  function PaidSub(env: Env, w: World, sub: Substate, p: Params): Substate
    requires p.value.Moved? ==> p.value.amount <= Balance(w, p.sender)
  {
    if p.value.Moved?
    then Touch(sub, TransferTouches(w, p.sender, p.address, p.value.amount, Mode(env.schedule), env.startNonce))
    else sub
  }

  function PaidTrail(env: Env, w: World, p: Params): seq<Event>
    requires p.value.Moved? ==> p.value.amount <= Balance(w, p.sender)
  {
    if p.value.Moved?
    then TransferTrail(w, p.sender, p.address, p.value.amount, Mode(env.schedule), env.startNonce)
    else []
  }

  function CallRun(env: Env, depth: nat, isStatic: bool, w: World, sub: Substate, p: Params,
                   b: BuiltinRun, frame: Frame): Run
    requires p.value.Moved? ==> p.value.amount <= Balance(w, p.sender)
    decreases frame, 3
  {
    if MovesInStatic(isStatic, p) then Run(w, sub, Err(MutableCallInStaticContext), 0, [])
    else
      var run := PaidCall(env, depth, isStatic, w, Paid(env, w, p), PaidSub(env, w, sub, p), p, b, frame);
      run.(trail := [Entered] + PaidTrail(env, w, p) + run.trail)
  }

  /** The call once the value has moved; `before` is where a failure goes back to. */
  function PaidCall(env: Env, depth: nat, isStatic: bool, before: World, w: World, sub: Substate, p: Params,
                    b: BuiltinRun, frame: Frame): Run
    decreases frame, 2
  {
    if p.codeAddress in env.builtins then
      if b.cost > p.gas then Run(before, sub, Err(OutOfGas), 0, [Undone])
      else if !b.accepts then Run(before, sub, Err(BuiltIn), 0, [Undone])
      else Run(w, sub, Ok(p.gas - b.cost, true), 0, [Left])
    else if p.hasCode then
      var (inner, result) := VmRun(env, depth, isStatic, w, p, frame, false);
      Enacted(before, sub, inner, result)
    else Run(w, sub, Ok(p.gas, true), 0, [Left])
  }

  /** The new contract's account, and the sender's payment for it. */
  function Endowed(env: Env, w: World, p: Params): World
    requires p.value.Moved? ==> p.value.amount <= Balance(w, p.sender)
  {
    var nonce := env.startNonce + if env.schedule.noEmpty then 1 else 0;
    if p.value.Moved? then
      SubBalance(w, p.sender, p.value.amount, env.startNonce)
        [p.address := NewBasic(p.value.amount + Balance(w, p.address), nonce)]
    else w[p.address := NewBasic(Balance(w, p.address), nonce)]
  }

  function CreateRun(env: Env, depth: nat, isStatic: bool, w: World, sub: Substate, p: Params, frame: Frame): Run
    requires p.value.Moved? ==> p.value.amount <= Balance(w, p.sender)
    decreases frame, 2
  {
    if HasCodeOrNonce(w, p.address, env.startNonce) then Run(w, sub, Err(OutOfGas), 0, [Asked(p.address)])
    else if p.callType.StaticCall? || isStatic then
      Run(w, sub, Err(MutableCallInStaticContext), 0, [Asked(p.address)])
    else
      var (inner, result) := VmRun(env, depth, isStatic, Endowed(env, w, p), p, frame, true);
      var run := Enacted(w, EndowedSub(env, sub, p), inner, result);
      run.(trail := [Asked(p.address), Entered, Asked(p.address)] + EndowedTrail(w, p) + run.trail)
  }

  /** The sender pays, and the account of the contract is replaced. */
  function EndowedTrail(w: World, p: Params): seq<Event> {
    if p.value.Moved?
    then SubTrail(w, p.sender, p.value.amount) + [Replaced(p.address, Some(p.value.amount + Balance(w, p.address)))]
    else [Replaced(p.address, Some(Balance(w, p.address)))]
  }

  function EndowedSub(env: Env, sub: Substate, p: Params): Substate {
    if p.value.Moved? && Mode(env.schedule).TrackTouched? then Touch(sub, {p.sender}) else sub
  }

  /** Runs the code of a frame and settles how it ends. `init` marks the code of a creation. */
  function VmRun(env: Env, depth: nat, isStatic: bool, w: World, p: Params, frame: Frame, init: bool)
    : (Progress, Finalization)
    decreases frame, 1
  {
    var ctx := Context(p.address, p.sender, depth, isStatic || p.callType.StaticCall?);
    var s := Requests(env, ctx, Progress(w, EmptySubstate, 0, []), frame.requests);
    Settled(env, ctx, s, frame.outcome, init)
  }

  /** `Finalize::finalize` and `Externalities::ret`. */
  function Settled(env: Env, ctx: Context, s: Progress, outcome: VmResult, init: bool): (Progress, Finalization) {
    match outcome
    case Known(gasLeft) => (s, Ok(gasLeft, true))
    case Failed(error) => (s, Err(error))
    case NeedsReturn(gasLeft, data, applyState) =>
      if !init || !applyState then (s, Ok(gasLeft, applyState))
      else
        var cost := |data| * env.schedule.createDataGas;
        if cost > gasLeft || |data| > env.schedule.createDataLimit then
          (s, if env.schedule.exceptionalFailedCodeDeposit then Err(OutOfGas) else Ok(gasLeft, true))
        else
          (s.(world := InitCode(s.world, ctx.address, data, env.startNonce), trail := s.trail + [Fetched(ctx.address)]),
           Ok(gasLeft - cost, true))
  }

  function Requests(env: Env, ctx: Context, s: Progress, rs: seq<Request>): Progress
    decreases rs
  {
    if rs == [] then s
    else
      var last := |rs| - 1;
      Requested(env, ctx, Requests(env, ctx, s, rs[..last]), rs[last])
  }

  /** The sender, receiver and value of an outgoing call, by its kind. */
  function CallParams(ctx: Context, w: World, kind: CallType, target: Address, amount: nat, gas: nat): Params {
    match kind
    case CallCode => Params(target, ctx.address, ctx.address, gas, Moved(amount), CodeOf(w, target) != [], kind)
    case DelegateCall => Params(target, ctx.address, ctx.sender, gas, Apparent(amount), CodeOf(w, target) != [], kind)
    case StaticCall => Params(target, target, ctx.address, gas, Moved(0), CodeOf(w, target) != [], kind)
    case _ => Params(target, target, ctx.address, gas, Moved(amount), CodeOf(w, target) != [], Call)
  }

  /** The interpreter asks for a call only when it can pay and is not too deep. */
  predicate CanCall(env: Env, ctx: Context, w: World, kind: CallType, amount: nat) {
    && ctx.depth < env.schedule.maxDepth
    && ((kind.DelegateCall? || kind.StaticCall?) || amount <= Balance(w, ctx.address))
  }

  /** One request of a frame, as `Externalities` answers it. */
  function Requested(env: Env, ctx: Context, s: Progress, r: Request): Progress
    decreases r, 0
  {
    match r
    case PutStorage(key, value) =>
      if ctx.isStatic then s
      else
        s.(world := SetStorage(s.world, ctx.address, key, value, env.startNonce),
           trail := s.trail + StorageTrail(s.world, ctx.address, key, value))
    case PutLog(topics, data) =>
      if ctx.isStatic then s
      else s.(sub := s.sub.(logs := s.sub.logs + [LogEntry(ctx.address, topics, data)]))
    case SelfDestruct(refund) =>
      if ctx.isStatic then s else Destructed(env, ctx, s, refund)
    case IncSstoreClears =>
      s.(sub := s.sub.(sstoreClears := s.sub.sstoreClears + 1))
    case Look(a) => s.(trail := s.trail + [Asked(a)])
    case CallOut(kind, target, amount, gas, builtin, child) =>
      if !CanCall(env, ctx, s.world, kind, amount) then s.(trail := s.trail + [Asked(ctx.address)])
      else
        var p := CallParams(ctx, s.world, kind, target, amount, gas);
        var run := CallRun(env, ctx.depth + 1, ctx.isStatic, s.world, s.sub, p, builtin, child);
        Progress(run.world, run.sub, s.burned + run.burned,
                 s.trail + [Asked(ctx.address), Asked(target)] + run.trail)
    case CreateOut(address, amount, gas, child) =>
      if !(amount <= Balance(s.world, ctx.address) && ctx.depth < env.schedule.maxDepth)
      then s.(trail := s.trail + [Asked(ctx.address)])
      else
        var w := Announced(env, ctx, s.world);
        var p := Params(address, address, ctx.address, gas, Moved(amount), true, NoCall);
        var run := CreateRun(env, ctx.depth + 1, ctx.isStatic, w, s.sub, p, child);
        Progress(run.world,
                 if run.result.Ok? && run.result.applyState
                 then run.sub.(created := run.sub.created + [address]) else run.sub,
                 s.burned + run.burned,
                 s.trail + [Asked(ctx.address)] + AnnouncedTrail(env, ctx) + run.trail)
  }

  /** The creator's nonce goes up before the creation is tried. */
  function Announced(env: Env, ctx: Context, w: World): World {
    if ctx.isStatic || (env.schedule.eip86 && ctx.address == UNSIGNED_SENDER) then w
    else IncNonce(w, ctx.address, env.startNonce)
  }

  function AnnouncedTrail(env: Env, ctx: Context): seq<Event> {
    if ctx.isStatic || (env.schedule.eip86 && ctx.address == UNSIGNED_SENDER) then [] else [Fetched(ctx.address)]
  }

  function Destructed(env: Env, ctx: Context, s: Progress, refund: Address): Progress {
    var balance := Balance(s.world, ctx.address);
    var sub := s.sub.(suicides := s.sub.suicides + {ctx.address});
    if refund == ctx.address then
      Progress(SubBalance(s.world, ctx.address, balance, env.startNonce), sub, s.burned + balance,
               s.trail + [Asked(ctx.address)] + SubTrail(s.world, ctx.address, balance))
    else
      var mode := Mode(env.schedule);
      Progress(Transfer(s.world, ctx.address, refund, balance, mode, env.startNonce),
               Touch(sub, TransferTouches(s.world, ctx.address, refund, balance, mode, env.startNonce)),
               s.burned,
               s.trail + [Asked(ctx.address)] +
               TransferTrail(s.world, ctx.address, refund, balance, mode, env.startNonce))
  }
}
