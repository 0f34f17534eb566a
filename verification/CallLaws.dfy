/** What each request of a frame comes to: by kind of call, who pays, who gets, as whom the callee runs and what it may
    change; and what a creation leaves behind, by how its code ends. */
module CallLaws {
  import opened Types
  import opened Accounts
  import opened Vm
  import opened Execution
  import opened ExecutionLaws

  // ---------------------------------------------------------------------------------------
  // Requests of the frame itself

  /** A frame that may change anything sets one slot of its own account; a static frame sets none. */
  lemma StorageWritten(env: Env, ctx: Context, s: Progress, key: H256, value: H256)
    ensures var t := Requested(env, ctx, s, PutStorage(key, value));
            && t.sub == s.sub && t.burned == s.burned
            && (forall a, k :: StorageAt(t.world, a, k) ==
                  if !ctx.isStatic && a == ctx.address && k == key then value else StorageAt(s.world, a, k))
            && (forall a :: Balance(t.world, a) == Balance(s.world, a) && CodeOf(t.world, a) == CodeOf(s.world, a))
            && (forall a :: Nonce(t.world, a, env.startNonce) == Nonce(s.world, a, env.startNonce))
  {
    SetStorageWrites(s.world, ctx.address, key, value, env.startNonce);
  }

  /** A log is reported last, under the frame's own address, unless the frame is static. A cleared slot counts one more.
      Neither changes anything else. */
  lemma Reported(env: Env, ctx: Context, s: Progress, topics: seq<H256>, data: Bytes)
    ensures var t := Requested(env, ctx, s, PutLog(topics, data));
            && t.world == s.world && t.burned == s.burned && t.sub == s.sub.(logs := t.sub.logs)
            && |t.sub.logs| == |s.sub.logs| + (if ctx.isStatic then 0 else 1) && s.sub.logs <= t.sub.logs
            && (!ctx.isStatic ==> t.sub.logs[|s.sub.logs|] == LogEntry(ctx.address, topics, data))
    ensures var t := Requested(env, ctx, s, IncSstoreClears);
            && t.world == s.world && t.burned == s.burned && t.sub == s.sub.(sstoreClears := t.sub.sstoreClears)
            && t.sub.sstoreClears == s.sub.sstoreClears + 1
  {
  }

  /** A self-destruction empties the account that asks for it into the heir's, or burns the balance when that is the
      account itself, and notes the account; a static frame destroys nothing. */
  lemma SelfDestructed(env: Env, ctx: Context, s: Progress, refund: Address)
    ensures var t := Requested(env, ctx, s, SelfDestruct(refund));
            if ctx.isStatic then t.world == s.world && t.sub == s.sub && t.burned == s.burned
            else
              var balance := Balance(s.world, ctx.address);
              && OnlyBalances(s.world, t.world, env.startNonce)
              && (forall a :: Balance(t.world, a) ==
                    if a == ctx.address then 0 else Balance(s.world, a) + if a == refund then balance else 0)
              && t.burned == s.burned + (if refund == ctx.address then balance else 0)
              && t.sub == s.sub.(suicides := s.sub.suicides + {ctx.address}, touched := t.sub.touched)
              && t.sub.touched == s.sub.touched +
                                  if refund == ctx.address || !Tracks(env.schedule) then {}
                                  else {ctx.address} + if balance == 0 && refund in s.world then {refund} else {}
  {
    DestructedExactly(env, ctx, s, refund);
  }

  // ---------------------------------------------------------------------------------------
  // Calls by kind

  /** A request for a call by anything but the three special kinds is a plain call. */
  predicate PlainKind(kind: CallType) {
    !kind.CallCode? && !kind.DelegateCall? && !kind.StaticCall?
  }

  /** The address that the callee runs as: its own, or the caller's when only the code is borrowed. */
  function RunsAs(ctx: Context, kind: CallType, target: Address): Address {
    if kind.CallCode? || kind.DelegateCall? then ctx.address else target
  }

  /** Whom the callee sees as its caller. */
  function SeesCaller(ctx: Context, kind: CallType): Address {
    if kind.DelegateCall? then ctx.sender else ctx.address
  }

  /** What moves: only a plain call moves value, from the caller to the target. */
  ghost predicate MovedBy(ctx: Context, w: World, w': World, kind: CallType, target: Address, amount: nat, start: nat) {
    && OnlyBalances(w, w', start)
    && forall a :: Balance(w', a) ==
                   Balance(w, a) - (if PlainKind(kind) && a == ctx.address then amount else 0)
                                 + (if PlainKind(kind) && a == target then amount else 0)
  }

  /** Whether touched accounts are noted: where dust is removed, or both rules of EIP-161 hold. */
  predicate Tracks(s: Schedule) {
    !s.killDust.Off? || (s.noEmpty && s.killEmpty)
  }

  /** Whether a transfer of nothing creates the receiver: under neither of these rules. */
  predicate CreatesEmpty(s: Schedule) {
    s.killDust.Off? && !s.noEmpty
  }

  /** What a call touches: the caller, and a target that is there and gets nothing. Borrowed code touches the caller
      when the call carries a value of its own, and nothing otherwise. */
  function TouchedBy(env: Env, ctx: Context, w: World, kind: CallType, target: Address, amount: nat): set<Address> {
    if !Tracks(env.schedule) || kind.DelegateCall? then {}
    else
      {ctx.address} + if !kind.CallCode? && (kind.StaticCall? || amount == 0) && target in w then {target} else {}
  }

  /** Which accounts there are after the value has moved. */
  ghost predicate CreatedBy(env: Env, ctx: Context, w: World, w': World, kind: CallType, target: Address, amount: nat) {
    forall a :: a in w' <==>
                  || a in w
                  || (!kind.DelegateCall? && a == ctx.address)
                  || (a == target && ((PlainKind(kind) && amount > 0) ||
                                      ((PlainKind(kind) || kind.StaticCall?) && CreatesEmpty(env.schedule))))
  }

  /** Whether the code of a callee says that its changes are kept. */
  predicate Keeps(outcome: VmResult) {
    outcome.Known? || outcome == Failed(Internal) || (outcome.NeedsReturn? && outcome.applyState)
  }

  /** A call is not tried when the caller is at the depth limit or cannot pay, and a static frame may not send value;
      then nothing happens. */
  lemma CallOutRefused(env: Env, ctx: Context, s: Progress, kind: CallType, target: Address, amount: nat, gas: nat,
                       builtin: BuiltinRun, child: Frame)
    requires || env.schedule.maxDepth <= ctx.depth
             || (!kind.DelegateCall? && !kind.StaticCall? && Balance(s.world, ctx.address) < amount)
             || (PlainKind(kind) && ctx.isStatic && amount > 0)
    ensures var t := Requested(env, ctx, s, CallOut(kind, target, amount, gas, builtin, child));
            t.world == s.world && t.sub == s.sub && t.burned == s.burned
  {
  }

  /** Whether a call is tried. */
  predicate Tried(env: Env, ctx: Context, w: World, kind: CallType, amount: nat) {
    && ctx.depth < env.schedule.maxDepth
    && (kind.DelegateCall? || kind.StaticCall? || amount <= Balance(w, ctx.address))
    && !(PlainKind(kind) && ctx.isStatic && amount > 0)
  }

  lemma PaidByKind(env: Env, ctx: Context, w: World, kind: CallType, target: Address, amount: nat, gas: nat)
    requires Tried(env, ctx, w, kind, amount)
    ensures var p := CallParams(ctx, w, kind, target, amount, gas);
            && (p.value.Moved? ==> p.value.amount <= Balance(w, p.sender))
            && !MovesInStatic(ctx.isStatic, p)
            && MovedBy(ctx, w, Paid(env, w, p), kind, target, amount, env.startNonce)
            && CreatedBy(env, ctx, w, Paid(env, w, p), kind, target, amount)
            && forall sub: Substate ::
                 PaidSub(env, w, sub, p) ==
                 sub.(touched := sub.touched + TouchedBy(env, ctx, w, kind, target, amount))
  {
    var p := CallParams(ctx, w, kind, target, amount, gas);
    if p.value.Moved? {
      TransferMoves(w, p.sender, p.address, p.value.amount, Mode(env.schedule), env.startNonce);
    }
  }

  lemma UncodedRun(env: Env, depth: nat, isStatic: bool, w: World, sub: Substate, p: Params, b: BuiltinRun,
                   frame: Frame)
    requires p.value.Moved? ==> p.value.amount <= Balance(w, p.sender)
    requires !MovesInStatic(isStatic, p) && (p.codeAddress in env.builtins || !p.hasCode)
    ensures var run := CallRun(env, depth, isStatic, w, sub, p, b, frame);
            && run.sub == PaidSub(env, w, sub, p) && run.burned == 0
            && run.world == if p.codeAddress !in env.builtins || (b.cost <= p.gas && b.accepts)
                            then Paid(env, w, p) else w
  {
  }

  /** A call to an address without code only moves the value. */
  lemma {:induction false} PlainCallOut(env: Env, ctx: Context, s: Progress, kind: CallType, target: Address,
                                        amount: nat, gas: nat, builtin: BuiltinRun, child: Frame)
    requires Tried(env, ctx, s.world, kind, amount)
    requires target !in env.builtins && CodeOf(s.world, target) == []
    ensures var t := Requested(env, ctx, s, CallOut(kind, target, amount, gas, builtin, child));
            && MovedBy(ctx, s.world, t.world, kind, target, amount, env.startNonce)
            && CreatedBy(env, ctx, s.world, t.world, kind, target, amount) && t.burned == s.burned
            && t.sub == s.sub.(touched := s.sub.touched + TouchedBy(env, ctx, s.world, kind, target, amount))
  {
    PaidByKind(env, ctx, s.world, kind, target, amount, gas);
    UncodedRun(env, ctx.depth + 1, ctx.isStatic, s.world, s.sub, CallParams(ctx, s.world, kind, target, amount, gas),
               builtin, child);
  }

  /** A call to a built-in moves the value when the gas covers its price and it accepts its input, and does nothing
      otherwise. */
  lemma {:induction false} BuiltinCallOut(env: Env, ctx: Context, s: Progress, kind: CallType, target: Address,
                                          amount: nat, gas: nat, builtin: BuiltinRun, child: Frame)
    requires Tried(env, ctx, s.world, kind, amount) && target in env.builtins
    ensures var t := Requested(env, ctx, s, CallOut(kind, target, amount, gas, builtin, child));
            && (if builtin.cost <= gas && builtin.accepts
                then MovedBy(ctx, s.world, t.world, kind, target, amount, env.startNonce) &&
                     CreatedBy(env, ctx, s.world, t.world, kind, target, amount)
                else t.world == s.world)
            && t.burned == s.burned
            && t.sub == s.sub.(touched := s.sub.touched + TouchedBy(env, ctx, s.world, kind, target, amount))
  {
    PaidByKind(env, ctx, s.world, kind, target, amount, gas);
    UncodedRun(env, ctx.depth + 1, ctx.isStatic, s.world, s.sub, CallParams(ctx, s.world, kind, target, amount, gas),
               builtin, child);
  }

  /** The code of a callee starts on accounts where the value has moved. It runs as the address and with the caller that
      the kind says, one level deeper, and static when the caller is or the kind says so. When it keeps its changes,
      they and its reports are handed over; otherwise everything is as before. */
  lemma {:induction false} CodeCallOut(env: Env, ctx: Context, s: Progress, kind: CallType, target: Address,
                                       amount: nat, gas: nat, builtin: BuiltinRun, child: Frame)
    returns (start: World)
    requires Tried(env, ctx, s.world, kind, amount)
    requires target !in env.builtins && CodeOf(s.world, target) != []
    ensures MovedBy(ctx, s.world, start, kind, target, amount, env.startNonce)
    ensures CreatedBy(env, ctx, s.world, start, kind, target, amount)
    ensures var t := Requested(env, ctx, s, CallOut(kind, target, amount, gas, builtin, child));
            var callee := Context(RunsAs(ctx, kind, target), SeesCaller(ctx, kind), ctx.depth + 1,
                                  ctx.isStatic || kind.StaticCall?);
            var inner := Requests(env, callee, Progress(start, EmptySubstate, 0, []), child.requests);
            && (Keeps(child.outcome) ==>
                  && t.world == inner.world && t.burned == s.burned + inner.burned
                  && t.sub.logs == s.sub.logs + inner.sub.logs && t.sub.created == s.sub.created + inner.sub.created
                  && t.sub.suicides == s.sub.suicides + inner.sub.suicides
                  && t.sub.sstoreClears == s.sub.sstoreClears + inner.sub.sstoreClears
                  && t.sub.touched == s.sub.touched + TouchedBy(env, ctx, s.world, kind, target, amount)
                                      + inner.sub.touched)
            && (!Keeps(child.outcome) ==>
                  && t.world == s.world && t.burned == s.burned
                  && t.sub == s.sub.(touched := s.sub.touched + TouchedBy(env, ctx, s.world, kind, target, amount)))
  {
    PaidByKind(env, ctx, s.world, kind, target, amount, gas);
    var p := CallParams(ctx, s.world, kind, target, amount, gas);
    start := Paid(env, s.world, p);
    CodeCallRuns(env, ctx.depth + 1, ctx.isStatic, s.world, s.sub, p, builtin, child);
    CallTouches(env, ctx.depth + 1, ctx.isStatic, s.world, s.sub, p, builtin, child);
  }

  lemma CallTouches(env: Env, depth: nat, isStatic: bool, w: World, sub: Substate, p: Params, b: BuiltinRun,
                    frame: Frame)
    requires p.value.Moved? ==> p.value.amount <= Balance(w, p.sender)
    requires !MovesInStatic(isStatic, p) && p.codeAddress !in env.builtins && p.hasCode
    ensures var run := CallRun(env, depth, isStatic, w, sub, p, b, frame);
            var ctx := Context(p.address, p.sender, depth, isStatic || p.callType.StaticCall?);
            var s := Requests(env, ctx, Progress(Paid(env, w, p), EmptySubstate, 0, []), frame.requests);
            && (Applies(run.result) ==> run.sub.touched == PaidSub(env, w, sub, p).touched + s.sub.touched)
            && (!Applies(run.result) ==> run.sub == PaidSub(env, w, sub, p))
  {
    var (inner, result) := VmRun(env, depth, isStatic, Paid(env, w, p), p, frame, false);
  }

  /** EIP-214 where it begins: a static call changes and reports nothing, whatever the callee asks for, from a static
      frame or not. */
  lemma StaticCallOut(env: Env, ctx: Context, s: Progress, target: Address, amount: nat, gas: nat, builtin: BuiltinRun,
                      child: Frame)
    ensures var t := Requested(env, ctx, s, CallOut(StaticCall, target, amount, gas, builtin, child));
            SameAccounts(s.world, t.world, env.startNonce) && SameReports(s.sub, t.sub) && t.burned == s.burned
  {
    if CanCall(env, ctx, s.world, StaticCall, amount) {
      var p := CallParams(ctx, s.world, StaticCall, target, amount, gas);
      assert p.callType.StaticCall?;
      CallStatic(env, ctx.depth + 1, ctx.isStatic, s.world, s.sub, p, builtin, child);
    }
  }

  /** For instance, a callee that writes one slot writes it to the target's account in a plain call, to the caller's own
      when only the code is borrowed, and nowhere in a static call. */
  lemma CalleeWrites(env: Env, ctx: Context, s: Progress, kind: CallType, target: Address, amount: nat, gas: nat,
                     builtin: BuiltinRun, key: H256, value: H256, gasLeft: nat)
    requires Tried(env, ctx, s.world, kind, amount)
    requires target !in env.builtins && CodeOf(s.world, target) != []
    ensures var child := Frame([PutStorage(key, value)], Known(gasLeft));
            var t := Requested(env, ctx, s, CallOut(kind, target, amount, gas, builtin, child));
            forall a, k :: StorageAt(t.world, a, k) ==
                           if !ctx.isStatic && !kind.StaticCall? && a == RunsAs(ctx, kind, target) && k == key
                           then value else StorageAt(s.world, a, k)
  {
    var child := Frame([PutStorage(key, value)], Known(gasLeft));
    var start := CodeCallOut(env, ctx, s, kind, target, amount, gas, builtin, child);
    var callee := Context(RunsAs(ctx, kind, target), SeesCaller(ctx, kind), ctx.depth + 1,
                          ctx.isStatic || kind.StaticCall?);
    OneRequest(env, callee, Progress(start, EmptySubstate, 0, []), PutStorage(key, value));
    StorageWritten(env, callee, Progress(start, EmptySubstate, 0, []), key, value);
  }

  lemma OneRequest(env: Env, ctx: Context, s: Progress, r: Request)
    ensures Requests(env, ctx, s, [r]) == Requested(env, ctx, s, r)
  {
    assert [r][..0] == [];
    assert Requests(env, ctx, s, []) == s;
  }

  // ---------------------------------------------------------------------------------------
  // Creations by how their code ends

  /** Whether the price of storing `data` is covered and its length allowed. */
  predicate Storable(env: Env, gas: nat, data: Bytes) {
    |data| * env.schedule.createDataGas <= gas && |data| <= env.schedule.createDataLimit
  }

  /** How a creation ends. */
  function CreationResult(env: Env, outcome: VmResult): Finalization {
    match outcome
    case Known(gas) => Ok(gas, true)
    case Failed(error) => Err(error)
    case NeedsReturn(gas, data, applyState) =>
      if !applyState then Ok(gas, false)
      else if Storable(env, gas, data) then Ok(gas - |data| * env.schedule.createDataGas, true)
      else if env.schedule.exceptionalFailedCodeDeposit then Err(OutOfGas)
      else Ok(gas, true)
  }

  /** The account with other code. */
  ghost predicate OnlyCode(w: World, w': World, a: Address, code: Bytes) {
    && (forall b :: b != a ==> Get(w', b) == Get(w, b))
    && a in w' && w'[a].code == code
    && (a in w ==> w'[a] == w[a].(code := code))
  }

  /** The accounts after a creation that started from `before` and whose requests led to `inner`. */
  ghost predicate LeftBehind(env: Env, before: World, inner: World, after: World, address: Address, outcome: VmResult) {
    if !Applies(CreationResult(env, outcome)) then after == before
    else if outcome.NeedsReturn? && Storable(env, outcome.gasLeft, outcome.data)
    then OnlyCode(inner, after, address, outcome.data)
    else after == inner
  }

  /** A creation at a free address starts on the endowed accounts. When it returns code that is paid for, exactly that
      code is stored at the new address, on top of what its requests made of the accounts; when the code cannot be paid
      for, the creation fails or keeps the accounts without it, as the rules say. Whatever applies hands its reports
      over, and whatever does not leaves everything as it was. */
  lemma {:induction false} CreationRuns(env: Env, depth: nat, w: World, sub: Substate, p: Params, frame: Frame)
    requires p.value.Moved? ==> p.value.amount <= Balance(w, p.sender)
    requires !HasCodeOrNonce(w, p.address, env.startNonce) && !p.callType.StaticCall?
    ensures var run := CreateRun(env, depth, false, w, sub, p, frame);
            var s := Requests(env, Context(p.address, p.sender, depth, false),
                              Progress(Endowed(env, w, p), EmptySubstate, 0, []), frame.requests);
            var result := CreationResult(env, frame.outcome);
            && run.result == result
            && run.burned == (if Applies(result) then s.burned else 0)
            && LeftBehind(env, w, s.world, run.world, p.address, frame.outcome)
            && HandedOver(sub, s.sub, run.sub, Applies(result),
                          if p.value.Moved? && Tracks(env.schedule) then {p.sender} else {}, [])
  {
    var (inner, result) := VmRun(env, depth, false, Endowed(env, w, p), p, frame, true);
  }

  /** The reports of a frame come after those before it when it applies, with the contract `made`, and are dropped
      otherwise; what is touched grows by `paid` in any case. */
  ghost predicate HandedOver(before: Substate, inner: Substate, after: Substate, applies: bool, paid: set<Address>,
                             made: seq<Address>)
  {
    if applies then
      && after.logs == before.logs + inner.logs && after.created == before.created + inner.created + made
      && after.suicides == before.suicides + inner.suicides
      && after.sstoreClears == before.sstoreClears + inner.sstoreClears
      && after.touched == before.touched + paid + inner.touched
    else
      after == before.(touched := before.touched + paid)
  }

  /** At a taken address, or from a static frame, a creation changes nothing. */
  lemma CreationRefused(env: Env, depth: nat, isStatic: bool, w: World, sub: Substate, p: Params, frame: Frame)
    requires p.value.Moved? ==> p.value.amount <= Balance(w, p.sender)
    requires HasCodeOrNonce(w, p.address, env.startNonce) || p.callType.StaticCall? || isStatic
    ensures var run := CreateRun(env, depth, isStatic, w, sub, p, frame);
            && run.world == w && run.sub == sub && run.burned == 0
            && run.result == Err(if HasCodeOrNonce(w, p.address, env.startNonce) then OutOfGas
                                 else MutableCallInStaticContext)
  {
  }

  /** A creation is not tried at the depth limit, without the means, or from a static frame; then nothing happens. */
  lemma CreateOutRefused(env: Env, ctx: Context, s: Progress, address: Address, amount: nat, gas: nat, child: Frame)
    requires env.schedule.maxDepth <= ctx.depth || Balance(s.world, ctx.address) < amount || ctx.isStatic
    ensures var t := Requested(env, ctx, s, CreateOut(address, amount, gas, child));
            t.world == s.world && t.sub == s.sub && t.burned == s.burned
  {
  }

  /** A request for a creation raises the creator's nonce by one, whatever comes of it, unless the creator is the
      unsigned sender of EIP-86. The new contract is endowed from the creator's balance, and reported as created when
      the creation ends well. */
  lemma {:induction false} CreateOutRuns(env: Env, ctx: Context, s: Progress, address: Address, amount: nat, gas: nat,
                                         child: Frame)
    returns (announced: World)
    requires amount <= Balance(s.world, ctx.address) && ctx.depth < env.schedule.maxDepth
    requires !ctx.isStatic
    ensures if env.schedule.eip86 && ctx.address == UNSIGNED_SENDER then announced == s.world
            else OnlyNonce(s.world, announced, ctx.address, env.startNonce)
    ensures var t := Requested(env, ctx, s, CreateOut(address, amount, gas, child));
            if HasCodeOrNonce(announced, address, env.startNonce) then
              t.world == announced && t.sub == s.sub && t.burned == s.burned
            else
              var p := Params(address, address, ctx.address, gas, Moved(amount), true, NoCall);
              var inner := Requests(env, Context(address, ctx.address, ctx.depth + 1, false),
                                    Progress(Endowed(env, announced, p), EmptySubstate, 0, []), child.requests);
              var result := CreationResult(env, child.outcome);
              && t.burned == s.burned + (if Applies(result) then inner.burned else 0)
              && LeftBehind(env, announced, inner.world, t.world, address, child.outcome)
              && HandedOver(s.sub, inner.sub, t.sub, Applies(result),
                            if Tracks(env.schedule) then {ctx.address} else {},
                            if result.Ok? && result.applyState then [address] else [])
  {
    announced := Announced(env, ctx, s.world);
    var p := Params(address, address, ctx.address, gas, Moved(amount), true, NoCall);
    assert Balance(announced, ctx.address) == Balance(s.world, ctx.address);
    if HasCodeOrNonce(announced, address, env.startNonce) {
      CreationRefused(env, ctx.depth + 1, false, announced, s.sub, p, child);
    } else {
      CreationRuns(env, ctx.depth + 1, announced, s.sub, p, child);
    }
  }

  /** One nonce is one higher, and nothing else changed. */
  ghost predicate OnlyNonce(w: World, w': World, a: Address, start: nat) {
    && (forall b :: Nonce(w', b, start) == Nonce(w, b, start) + if b == a then 1 else 0)
    && (forall b :: Balance(w', b) == Balance(w, b) && CodeOf(w', b) == CodeOf(w, b))
    && (forall b, k :: StorageAt(w', b, k) == StorageAt(w, b, k))
  }

  // ---------------------------------------------------------------------------------------
  // Depth

  /** Two frames that ask for the same on the next `levels` levels; what is asked for further down may differ. */
  ghost predicate SameFrames(f: Frame, g: Frame, levels: nat)
    decreases levels, 1
  {
    f.outcome == g.outcome && SameRequests(f.requests, g.requests, levels)
  }

  ghost predicate SameRequests(rs: seq<Request>, qs: seq<Request>, levels: nat)
    decreases levels, 0, 1
  {
    |rs| == |qs| && forall i :: 0 <= i < |rs| ==> SameRequest(rs[i], qs[i], levels)
  }

  ghost predicate SameRequest(r: Request, q: Request, levels: nat)
    decreases levels, 0, 0
  {
    match r
    case CallOut(kind, target, amount, gas, builtin, child) =>
      && q.CallOut? && q == CallOut(kind, target, amount, gas, builtin, q.child)
      && (levels > 0 ==> SameFrames(child, q.child, levels - 1))
    case CreateOut(address, amount, gas, child) =>
      && q.CreateOut? && q == CreateOut(address, amount, gas, q.child)
      && (levels > 0 ==> SameFrames(child, q.child, levels - 1))
    case _ => q == r
  }

  /** Nothing runs below the depth limit: what frames further down would ask for makes no difference to a call. */
  lemma {:induction false} CallDepth(env: Env, depth: nat, isStatic: bool, w: World, sub: Substate, p: Params,
                                     b: BuiltinRun, f: Frame, g: Frame)
    requires p.value.Moved? ==> p.value.amount <= Balance(w, p.sender)
    requires depth <= env.schedule.maxDepth && SameFrames(f, g, env.schedule.maxDepth - depth)
    ensures CallRun(env, depth, isStatic, w, sub, p, b, f) == CallRun(env, depth, isStatic, w, sub, p, b, g)
    decreases env.schedule.maxDepth - depth, 1, 0
  {
    if !MovesInStatic(isStatic, p) && p.codeAddress !in env.builtins && p.hasCode {
      var ctx := Context(p.address, p.sender, depth, isStatic || p.callType.StaticCall?);
      RequestsDepth(env, ctx, Progress(Paid(env, w, p), EmptySubstate, 0, []), f.requests, g.requests);
      assert VmRun(env, depth, isStatic, Paid(env, w, p), p, f, false) ==
             VmRun(env, depth, isStatic, Paid(env, w, p), p, g, false);
      var sub' := PaidSub(env, w, sub, p);
      assert PaidCall(env, depth, isStatic, w, Paid(env, w, p), sub', p, b, f) ==
             PaidCall(env, depth, isStatic, w, Paid(env, w, p), sub', p, b, g);
    }
  }

  /** Nor to a creation. */
  lemma {:induction false} CreateDepth(env: Env, depth: nat, isStatic: bool, w: World, sub: Substate, p: Params,
                                       f: Frame, g: Frame)
    requires p.value.Moved? ==> p.value.amount <= Balance(w, p.sender)
    requires depth <= env.schedule.maxDepth && SameFrames(f, g, env.schedule.maxDepth - depth)
    ensures CreateRun(env, depth, isStatic, w, sub, p, f) == CreateRun(env, depth, isStatic, w, sub, p, g)
    decreases env.schedule.maxDepth - depth, 1, 0
  {
    var ctx := Context(p.address, p.sender, depth, isStatic || p.callType.StaticCall?);
    RequestsDepth(env, ctx, Progress(Endowed(env, w, p), EmptySubstate, 0, []), f.requests, g.requests);
  }

  lemma {:induction false} RequestsDepth(env: Env, ctx: Context, s: Progress, rs: seq<Request>, qs: seq<Request>)
    requires ctx.depth <= env.schedule.maxDepth && SameRequests(rs, qs, env.schedule.maxDepth - ctx.depth)
    ensures Requests(env, ctx, s, rs) == Requests(env, ctx, s, qs)
    decreases env.schedule.maxDepth - ctx.depth, 0, |rs|
  {
    if rs != [] {
      var last := |rs| - 1;
      RequestsDepth(env, ctx, s, rs[..last], qs[..last]);
      assert qs[..last] == qs[..|qs| - 1];
      RequestDepth(env, ctx, Requests(env, ctx, s, rs[..last]), rs[last], qs[last]);
    }
  }

  lemma {:induction false} RequestDepth(env: Env, ctx: Context, s: Progress, r: Request, q: Request)
    requires ctx.depth <= env.schedule.maxDepth && SameRequest(r, q, env.schedule.maxDepth - ctx.depth)
    ensures Requested(env, ctx, s, r) == Requested(env, ctx, s, q)
    decreases env.schedule.maxDepth - ctx.depth, 0, 0
  {
    if ctx.depth < env.schedule.maxDepth {
      match r
      case CallOut(kind, target, amount, gas, builtin, child) =>
        if CanCall(env, ctx, s.world, kind, amount) {
          CallDepth(env, ctx.depth + 1, ctx.isStatic, s.world, s.sub,
                    CallParams(ctx, s.world, kind, target, amount, gas), builtin, child, q.child);
        }
      case CreateOut(address, amount, gas, child) =>
        if amount <= Balance(s.world, ctx.address) {
          CreateDepth(env, ctx.depth + 1, ctx.isStatic, Announced(env, ctx, s.world), s.sub,
                      Params(address, address, ctx.address, gas, Moved(amount), true, NoCall), child, q.child);
        }
      case _ =>
    }
  }
}
