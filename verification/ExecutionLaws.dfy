/** Laws of every call and creation, whatever the nested frames ask for. */
module ExecutionLaws {
  import opened Types
  import opened Accounts
  import opened Vm
  import opened Execution

  /** What the code of a frame leads to. */
  function EnactedOf(env: Env, depth: nat, isStatic: bool, before: World, w: World, sub: Substate, p: Params,
                     frame: Frame, init: bool): Run
  {
    var (inner, result) := VmRun(env, depth, isStatic, w, p, frame, init);
    Enacted(before, sub, inner, result)
  }

  // ---------------------------------------------------------------------------------------
  // Nonces

  /** No nonce is lower in `w'` than in `w`; an account that is missing has the start nonce. */
  ghost predicate NoncesRise(w: World, w': World, start: nat) {
    forall a :: Nonce(w, a, start) <= Nonce(w', a, start)
  }

  /** Every nonce is at least the start nonce. */
  ghost predicate NoncesStarted(w: World, start: nat) {
    forall a :: a in w ==> w[a].nonce >= start
  }

  lemma RisenStarted(w: World, w': World, start: nat)
    requires NoncesRise(w, w', start) && NoncesStarted(w, start)
    ensures NoncesStarted(w', start)
  {
    forall a | a in w' ensures w'[a].nonce >= start {
      assert Nonce(w, a, start) <= Nonce(w', a, start);
    }
  }

  /** Whatever its frames do, a call lowers no nonce. */
  lemma {:induction false} CallNonces(env: Env, depth: nat, isStatic: bool, w: World, sub: Substate, p: Params,
                                      b: BuiltinRun, frame: Frame)
    requires p.value.Moved? ==> p.value.amount <= Balance(w, p.sender)
    ensures NoncesRise(w, CallRun(env, depth, isStatic, w, sub, p, b, frame).world, env.startNonce)
    decreases frame, 2
  {
    if !MovesInStatic(isStatic, p) {
      if p.value.Moved? {
        TransferMoves(w, p.sender, p.address, p.value.amount, Mode(env.schedule), env.startNonce);
      }
      if p.codeAddress !in env.builtins && p.hasCode {
        CodeCallRuns(env, depth, isStatic, w, sub, p, b, frame);
        var ctx := Context(p.address, p.sender, depth, isStatic || p.callType.StaticCall?);
        RequestsNonces(env, ctx, Progress(Paid(env, w, p), EmptySubstate, 0, []), frame.requests);
      }
    }
  }

  /** Nor does a creation: the address it takes has no code and the start nonce. */
  lemma {:induction false} CreateNonces(env: Env, depth: nat, isStatic: bool, w: World, sub: Substate, p: Params,
                                        frame: Frame)
    requires p.value.Moved? ==> p.value.amount <= Balance(w, p.sender)
    ensures NoncesRise(w, CreateRun(env, depth, isStatic, w, sub, p, frame).world, env.startNonce)
    decreases frame, 2
  {
    if !HasCodeOrNonce(w, p.address, env.startNonce) && !p.callType.StaticCall? && !isStatic {
      EndowedExactly(env, w, p);
      assert NoncesRise(w, Endowed(env, w, p), env.startNonce);
      var ctx := Context(p.address, p.sender, depth, isStatic || p.callType.StaticCall?);
      RequestsNonces(env, ctx, Progress(Endowed(env, w, p), EmptySubstate, 0, []), frame.requests);
      var inner := VmRun(env, depth, isStatic, Endowed(env, w, p), p, frame, true).0;
      assert NoncesRise(w, inner.world, env.startNonce);
    }
  }

  lemma {:induction false} RequestsNonces(env: Env, ctx: Context, s: Progress, rs: seq<Request>)
    ensures NoncesRise(s.world, Requests(env, ctx, s, rs).world, env.startNonce)
    decreases rs
  {
    if rs != [] {
      var last := |rs| - 1;
      RequestsNonces(env, ctx, s, rs[..last]);
      RequestNonces(env, ctx, Requests(env, ctx, s, rs[..last]), rs[last]);
    }
  }

  lemma {:induction false} RequestNonces(env: Env, ctx: Context, s: Progress, r: Request)
    ensures NoncesRise(s.world, Requested(env, ctx, s, r).world, env.startNonce)
    decreases r, 0
  {
    match r
    case PutStorage(key, value) =>
      SetStorageWrites(s.world, ctx.address, key, value, env.startNonce);
    case PutLog(_, _) =>
    case IncSstoreClears =>
    case Look(_) =>
    case SelfDestruct(refund) =>
      DestructedExactly(env, ctx, s, refund);
    case CallOut(kind, target, amount, gas, builtin, child) =>
      if CanCall(env, ctx, s.world, kind, amount) {
        var p := CallParams(ctx, s.world, kind, target, amount, gas);
        CallNonces(env, ctx.depth + 1, ctx.isStatic, s.world, s.sub, p, builtin, child);
      }
    case CreateOut(address, amount, gas, child) =>
      if amount <= Balance(s.world, ctx.address) && ctx.depth < env.schedule.maxDepth {
        var p := Params(address, address, ctx.address, gas, Moved(amount), true, NoCall);
        CreateNonces(env, ctx.depth + 1, ctx.isStatic, Announced(env, ctx, s.world), s.sub, p, child);
      }
  }

  // ---------------------------------------------------------------------------------------
  // Conservation of ether

  /** No creation among the requests of `self`, or in their frames, hashes onto its own creator. */
  ghost predicate CreatesApart(rs: seq<Request>, self: Address)
    decreases rs
  {
    forall i :: 0 <= i < |rs| ==> RequestApart(rs[i], self)
  }

  /** A call code and a delegate call run as the caller, other calls as the target. */
  ghost predicate RequestApart(r: Request, self: Address)
    decreases r, 0
  {
    match r
    case CallOut(kind, target, _, _, _, child) =>
      CreatesApart(child.requests, if kind.CallCode? || kind.DelegateCall? then self else target)
    case CreateOut(address, _, _, child) => address != self && CreatesApart(child.requests, address)
    case _ => true
  }

  /** No creation hashes to the address of the unsigned sender, the one account that may create without raising its
      nonce. */
  ghost predicate CreatesElsewhere(rs: seq<Request>)
    decreases rs
  {
    forall i :: 0 <= i < |rs| ==> RequestElsewhere(rs[i])
  }

  ghost predicate RequestElsewhere(r: Request)
    decreases r, 0
  {
    match r
    case CallOut(_, _, _, _, _, child) => CreatesElsewhere(child.requests)
    case CreateOut(address, _, _, child) => address != UNSIGNED_SENDER && CreatesElsewhere(child.requests)
    case _ => true
  }

  /** Either of two things keeps a creation from paying itself: no address hashes onto its own creator, or all nonces
      are at least the start nonce, so that the collision check finds the creator's raised. */
  ghost predicate CreatesSafely(env: Env, w: World, rs: seq<Request>, self: Address) {
    || CreatesApart(rs, self)
    || (NoncesStarted(w, env.startNonce) && (env.schedule.eip86 ==> CreatesElsewhere(rs)))
  }

  /** The payment for a new contract conserves, because it is not the sender itself. */
  lemma EndowedConserves(env: Env, w: World, p: Params)
    requires p.value.Moved? ==> p.value.amount <= Balance(w, p.sender)
    requires p.value.Moved? ==> p.address != p.sender
    ensures Total(Endowed(env, w, p)) == Total(w)
  {
    var nonce := env.startNonce + if env.schedule.noEmpty then 1 else 0;
    if p.value.Moved? {
      SubTotal(w, p.sender, p.value.amount, env.startNonce);
      var paid := SubBalance(w, p.sender, p.value.amount, env.startNonce);
      TotalUpdate(paid, p.address, NewBasic(p.value.amount + Balance(w, p.address), nonce));
    } else {
      TotalUpdate(w, p.address, NewBasic(Balance(w, p.address), nonce));
    }
  }

  /** A creation onto the sender's own account would mint the endowment: the collision check is
      what rules it out. */
  lemma SelfCreationMints(env: Env, w: World, p: Params)
    requires p.value.Moved? && p.value.amount <= Balance(w, p.sender) && p.address == p.sender
    ensures Total(Endowed(env, w, p)) == Total(w) + p.value.amount
  {
    var nonce := env.startNonce + if env.schedule.noEmpty then 1 else 0;
    SubTotal(w, p.sender, p.value.amount, env.startNonce);
    var paid := SubBalance(w, p.sender, p.value.amount, env.startNonce);
    TotalUpdate(paid, p.address, NewBasic(p.value.amount + Balance(w, p.address), nonce));
  }

  /** A creator that raises its nonce is refused its own address exactly when it has code or its nonce does not rise
      to the start nonce. */
  lemma AnnouncedCollides(env: Env, ctx: Context, w: World)
    ensures Total(Announced(env, ctx, w)) == Total(w)
    ensures Balance(Announced(env, ctx, w), ctx.address) == Balance(w, ctx.address)
    ensures !ctx.isStatic && !(env.schedule.eip86 && ctx.address == UNSIGNED_SENDER) ==>
              (HasCodeOrNonce(Announced(env, ctx, w), ctx.address, env.startNonce) <==>
                 CodeOf(w, ctx.address) != [] || Nonce(w, ctx.address, env.startNonce) + 1 != env.startNonce)
  {
    var acc := Existing(w, ctx.address, env.startNonce);
    TotalUpdate(w, ctx.address, acc.(nonce := acc.nonce + 1));
  }

  lemma {:induction false} CallConserves(env: Env, depth: nat, isStatic: bool, w: World, sub: Substate, p: Params,
                                         b: BuiltinRun, frame: Frame)
    requires p.value.Moved? ==> p.value.amount <= Balance(w, p.sender)
    requires CreatesSafely(env, w, frame.requests, p.address)
    ensures var run := CallRun(env, depth, isStatic, w, sub, p, b, frame);
            Total(run.world) + run.burned == Total(w)
    decreases frame, 2
  {
    if !MovesInStatic(isStatic, p) {
      PaidConserves(env, w, p);
      if p.codeAddress !in env.builtins && p.hasCode {
        VmConserves(env, depth, isStatic, Paid(env, w, p), p, frame, false);
      }
    }
  }

  lemma PaidConserves(env: Env, w: World, p: Params)
    requires p.value.Moved? ==> p.value.amount <= Balance(w, p.sender)
    ensures Total(Paid(env, w, p)) == Total(w) && NoncesRise(w, Paid(env, w, p), env.startNonce)
    ensures NoncesStarted(w, env.startNonce) ==> NoncesStarted(Paid(env, w, p), env.startNonce)
  {
    if p.value.Moved? {
      TransferTotal(w, p.sender, p.address, p.value.amount, Mode(env.schedule), env.startNonce);
      TransferMoves(w, p.sender, p.address, p.value.amount, Mode(env.schedule), env.startNonce);
    }
    if NoncesStarted(w, env.startNonce) {
      RisenStarted(w, Paid(env, w, p), env.startNonce);
    }
  }

  lemma {:induction false} CreateConserves(env: Env, depth: nat, isStatic: bool, w: World, sub: Substate, p: Params,
                                           frame: Frame)
    requires p.value.Moved? ==> p.value.amount <= Balance(w, p.sender)
    requires p.value.Moved? ==> p.address != p.sender || HasCodeOrNonce(w, p.sender, env.startNonce) || isStatic
    requires CreatesSafely(env, w, frame.requests, p.address)
    ensures var run := CreateRun(env, depth, isStatic, w, sub, p, frame);
            Total(run.world) + run.burned == Total(w)
    decreases frame, 2
  {
    if !HasCodeOrNonce(w, p.address, env.startNonce) && !p.callType.StaticCall? && !isStatic {
      EndowedConserves(env, w, p);
      EndowedExactly(env, w, p);
      VmConserves(env, depth, isStatic, Endowed(env, w, p), p, frame, true);
    }
  }

  lemma {:induction false} VmConserves(env: Env, depth: nat, isStatic: bool, w: World, p: Params, frame: Frame,
                                       init: bool)
    requires CreatesSafely(env, w, frame.requests, p.address)
    ensures var inner := VmRun(env, depth, isStatic, w, p, frame, init).0;
            Total(inner.world) + inner.burned == Total(w)
    decreases frame, 1
  {
    var ctx := Context(p.address, p.sender, depth, isStatic || p.callType.StaticCall?);
    var start := Progress(w, EmptySubstate, 0, []);
    RequestsConserve(env, ctx, start, frame.requests);
    var s := Requests(env, ctx, start, frame.requests);
    if frame.outcome.NeedsReturn? {
      var acc := Existing(s.world, ctx.address, env.startNonce);
      TotalUpdate(s.world, ctx.address, acc.(code := frame.outcome.data));
    }
  }

  lemma {:induction false} RequestsConserve(env: Env, ctx: Context, s: Progress, rs: seq<Request>)
    requires CreatesSafely(env, s.world, rs, ctx.address)
    ensures var t := Requests(env, ctx, s, rs);
            Total(t.world) + t.burned == Total(s.world) + s.burned
    decreases rs
  {
    if rs != [] {
      var last := |rs| - 1;
      RequestsConserve(env, ctx, s, rs[..last]);
      SafelyOn(env, ctx, s, rs);
      RequestConserves(env, ctx, Requests(env, ctx, s, rs[..last]), rs[last]);
    }
  }

  /** The last request is safe once the others are done. */
  lemma SafelyOn(env: Env, ctx: Context, s: Progress, rs: seq<Request>)
    requires rs != [] && CreatesSafely(env, s.world, rs, ctx.address)
    ensures var t := Requests(env, ctx, s, rs[..|rs| - 1]);
            RequestSafe(env, t.world, rs[|rs| - 1], ctx.address)
  {
    if NoncesStarted(s.world, env.startNonce) {
      RequestsNonces(env, ctx, s, rs[..|rs| - 1]);
      RisenStarted(s.world, Requests(env, ctx, s, rs[..|rs| - 1]).world, env.startNonce);
    }
  }

  ghost predicate RequestSafe(env: Env, w: World, r: Request, self: Address) {
    || RequestApart(r, self)
    || (NoncesStarted(w, env.startNonce) && (env.schedule.eip86 ==> RequestElsewhere(r)))
  }

  lemma {:induction false} RequestConserves(env: Env, ctx: Context, s: Progress, r: Request)
    requires RequestSafe(env, s.world, r, ctx.address)
    ensures var t := Requested(env, ctx, s, r);
            Total(t.world) + t.burned == Total(s.world) + s.burned
    decreases r, 0
  {
    match r
    case PutStorage(key, value) =>
      var acc := Existing(s.world, ctx.address, env.startNonce);
      TotalUpdate(s.world, ctx.address, acc.(storage := acc.storage[key := value]));
    case PutLog(_, _) =>
    case IncSstoreClears =>
    case Look(_) =>
    case SelfDestruct(refund) =>
      var balance := Balance(s.world, ctx.address);
      SubTotal(s.world, ctx.address, balance, env.startNonce);
      TransferTotal(s.world, ctx.address, refund, balance, Mode(env.schedule), env.startNonce);
    case CallOut(kind, target, amount, gas, builtin, child) =>
      if CanCall(env, ctx, s.world, kind, amount) {
        var p := CallParams(ctx, s.world, kind, target, amount, gas);
        CallConserves(env, ctx.depth + 1, ctx.isStatic, s.world, s.sub, p, builtin, child);
      }
    case CreateOut(address, amount, gas, child) =>
      if amount <= Balance(s.world, ctx.address) && ctx.depth < env.schedule.maxDepth {
        var p := Params(address, address, ctx.address, gas, Moved(amount), true, NoCall);
        CreationSafe(env, ctx, s.world, r);
        CreateConserves(env, ctx.depth + 1, ctx.isStatic, Announced(env, ctx, s.world), s.sub, p, child);
      }
  }

  /** A safe creation is refused when it hashes onto its creator, and runs safely. */
  lemma CreationSafe(env: Env, ctx: Context, w: World, r: Request)
    requires r.CreateOut? && RequestSafe(env, w, r, ctx.address)
    ensures Total(Announced(env, ctx, w)) == Total(w)
    ensures Balance(Announced(env, ctx, w), ctx.address) == Balance(w, ctx.address)
    ensures r.address != ctx.address || HasCodeOrNonce(Announced(env, ctx, w), ctx.address, env.startNonce)
            || ctx.isStatic
    ensures CreatesSafely(env, Announced(env, ctx, w), r.child.requests, r.address)
  {
    AnnouncedCollides(env, ctx, w);
  }

  // ---------------------------------------------------------------------------------------
  // Static isolation

  /** The two maps give every account the same balance, nonce, code and storage. */
  ghost predicate SameAccounts(w: World, w': World, start: nat) {
    && (forall a :: Balance(w, a) == Balance(w', a))
    && (forall a :: Nonce(w, a, start) == Nonce(w', a, start))
    && (forall a :: CodeOf(w, a) == CodeOf(w', a))
    && (forall a, k :: StorageAt(w, a, k) == StorageAt(w', a, k))
  }

  /** The two substates report the same logs, self-destructions and created contracts. */
  ghost predicate SameReports(s: Substate, s': Substate) {
    s.logs == s'.logs && s.suicides == s'.suicides && s.created == s'.created
  }

  lemma SelfTransferSame(w: World, from: Address, to: Address, amount: nat, mode: CleanupMode, start: nat)
    requires amount <= Balance(w, from)
    requires amount == 0 || from == to
    ensures SameAccounts(w, Transfer(w, from, to, amount, mode, start), start)
  {
  }

  lemma {:induction false} CallStatic(env: Env, depth: nat, isStatic: bool, w: World, sub: Substate, p: Params,
                                      b: BuiltinRun, frame: Frame)
    requires isStatic || p.callType.StaticCall?
    requires p.value.Moved? ==> p.value.amount <= Balance(w, p.sender)
    requires p.value.Moved? && !MovesInStatic(isStatic, p) ==> p.value.amount == 0 || p.sender == p.address
    ensures var run := CallRun(env, depth, isStatic, w, sub, p, b, frame);
            SameAccounts(w, run.world, env.startNonce) && SameReports(sub, run.sub) && run.burned == 0
    decreases frame, 2
  {
    if !MovesInStatic(isStatic, p) {
      if p.value.Moved? {
        SelfTransferSame(w, p.sender, p.address, p.value.amount, Mode(env.schedule), env.startNonce);
      }
      if p.codeAddress !in env.builtins && p.hasCode {
        VmStatic(env, depth, isStatic, Paid(env, w, p), p, frame);
        var (inner, result) := VmRun(env, depth, isStatic, Paid(env, w, p), p, frame, false);
        EnactedStatic(w, Paid(env, w, p), PaidSub(env, w, sub, p), inner, result, env.startNonce);
      }
    }
  }

  lemma EnactedStatic(before: World, w: World, sub: Substate, inner: Progress, result: Finalization, start: nat)
    requires SameAccounts(before, w, start) && SameAccounts(w, inner.world, start)
    requires SameReports(EmptySubstate, inner.sub) && inner.burned == 0
    ensures var run := Enacted(before, sub, inner, result);
            SameAccounts(before, run.world, start) && SameReports(sub, run.sub) && run.burned == 0
  {
  }

  lemma {:induction false} VmStatic(env: Env, depth: nat, isStatic: bool, w: World, p: Params, frame: Frame)
    requires isStatic || p.callType.StaticCall?
    ensures var inner := VmRun(env, depth, isStatic, w, p, frame, false).0;
            SameAccounts(w, inner.world, env.startNonce) && SameReports(EmptySubstate, inner.sub) && inner.burned == 0
    decreases frame, 1
  {
    var ctx := Context(p.address, p.sender, depth, true);
    RequestsStatic(env, ctx, Progress(w, EmptySubstate, 0, []), frame.requests);
  }

  /** In a static context no sequence of requests, however nested, changes or reports anything. */
  lemma {:induction false} RequestsStatic(env: Env, ctx: Context, s: Progress, rs: seq<Request>)
    requires ctx.isStatic
    ensures var t := Requests(env, ctx, s, rs);
            SameAccounts(s.world, t.world, env.startNonce) && SameReports(s.sub, t.sub) && t.burned == s.burned
    decreases rs
  {
    if rs != [] {
      var last := |rs| - 1;
      RequestsStatic(env, ctx, s, rs[..last]);
      RequestStatic(env, ctx, Requests(env, ctx, s, rs[..last]), rs[last]);
    }
  }

  lemma {:induction false} RequestStatic(env: Env, ctx: Context, s: Progress, r: Request)
    requires ctx.isStatic
    ensures var t := Requested(env, ctx, s, r);
            SameAccounts(s.world, t.world, env.startNonce) && SameReports(s.sub, t.sub) && t.burned == s.burned
    decreases r, 0
  {
    match r
    case CallOut(kind, target, amount, gas, builtin, child) =>
      if CanCall(env, ctx, s.world, kind, amount) {
        var p := CallParams(ctx, s.world, kind, target, amount, gas);
        CallStatic(env, ctx.depth + 1, true, s.world, s.sub, p, builtin, child);
      }
    case CreateOut(_, _, _, _) =>
    case PutStorage(_, _) =>
    case PutLog(_, _) =>
    case SelfDestruct(_) =>
    case IncSstoreClears =>
    case Look(_) =>
  }

  // ---------------------------------------------------------------------------------------
  // Atomicity

  /** A call that fails or reverts leaves the accounts as they were and reports nothing; only the
      touched set may have grown. */
  lemma CallAtomic(env: Env, depth: nat, isStatic: bool, w: World, sub: Substate, p: Params, b: BuiltinRun,
                   frame: Frame)
    requires p.value.Moved? ==> p.value.amount <= Balance(w, p.sender)
    ensures var run := CallRun(env, depth, isStatic, w, sub, p, b, frame);
            !Applies(run.result) ==>
              && run.world == w && run.burned == 0
              && run.sub == sub.(touched := run.sub.touched) && sub.touched <= run.sub.touched
  {
  }

  lemma CreateAtomic(env: Env, depth: nat, isStatic: bool, w: World, sub: Substate, p: Params, frame: Frame)
    requires p.value.Moved? ==> p.value.amount <= Balance(w, p.sender)
    ensures var run := CreateRun(env, depth, isStatic, w, sub, p, frame);
            !Applies(run.result) ==>
              && run.world == w && run.burned == 0
              && run.sub == sub.(touched := run.sub.touched) && sub.touched <= run.sub.touched
  {
  }

  // ---------------------------------------------------------------------------------------
  // What calls, creations and self-destructions do

  /** A call to an address without code moves the value, keeps all the gas and reports nothing. */
  lemma PlainCallMoves(env: Env, depth: nat, isStatic: bool, w: World, sub: Substate, p: Params, b: BuiltinRun,
                       frame: Frame)
    requires p.value.Moved? && p.value.amount <= Balance(w, p.sender)
    requires !MovesInStatic(isStatic, p) && p.codeAddress !in env.builtins && !p.hasCode
    ensures var run := CallRun(env, depth, isStatic, w, sub, p, b, frame);
            && run.result == Ok(p.gas, true)
            && SameReports(sub, run.sub) && run.sub.sstoreClears == sub.sstoreClears
            && OnlyBalances(w, run.world, env.startNonce)
            && (forall a :: Balance(run.world, a) ==
                  Balance(w, a) - (if a == p.sender then p.value.amount else 0)
                                + (if a == p.address then p.value.amount else 0))
  {
    TransferMoves(w, p.sender, p.address, p.value.amount, Mode(env.schedule), env.startNonce);
  }

  /** The code of a called frame starts on the accounts after the transfer. It ends as the code says, on what its
      requests made of the accounts when that applies and on the accounts before the transfer otherwise. */
  lemma CodeCallRuns(env: Env, depth: nat, isStatic: bool, w: World, sub: Substate, p: Params, b: BuiltinRun,
                     frame: Frame)
    requires p.value.Moved? ==> p.value.amount <= Balance(w, p.sender)
    requires !MovesInStatic(isStatic, p) && p.codeAddress !in env.builtins && p.hasCode
    ensures var run := CallRun(env, depth, isStatic, w, sub, p, b, frame);
            var ctx := Context(p.address, p.sender, depth, isStatic || p.callType.StaticCall?);
            var s := Requests(env, ctx, Progress(Paid(env, w, p), EmptySubstate, 0, []), frame.requests);
            && (run.result.Err? <==> frame.outcome.Failed?)
            && (run.result.Err? ==> run.result.error == frame.outcome.error)
            && (run.result.Ok? ==> run.result.gasLeft == frame.outcome.gasLeft)
            && (Applies(run.result) <==>
                  frame.outcome.Known? || frame.outcome == Failed(Internal) ||
                  (frame.outcome.NeedsReturn? && frame.outcome.applyState))
            && (Applies(run.result) ==>
                  && run.world == s.world && run.burned == s.burned
                  && run.sub.logs == sub.logs + s.sub.logs && run.sub.created == sub.created + s.sub.created
                  && run.sub.suicides == sub.suicides + s.sub.suicides
                  && run.sub.sstoreClears == sub.sstoreClears + s.sub.sstoreClears)
            && (!Applies(run.result) ==> run.world == w && run.burned == 0 && SameReports(sub, run.sub))
  {
    var (inner, result) := VmRun(env, depth, isStatic, Paid(env, w, p), p, frame, false);
  }

  /** A new contract has the endowment on top of what its address held, no code and no storage; the sender
      has paid and no other account changed. */
  lemma EndowedExactly(env: Env, w: World, p: Params)
    requires p.value.Moved? ==> p.value.amount <= Balance(w, p.sender)
    ensures var w' := Endowed(env, w, p);
            var endowment := if p.value.Moved? then p.value.amount else 0;
            && p.address in w'
            && w'[p.address] == Account(Balance(w, p.address) + endowment,
                                        env.startNonce + (if env.schedule.noEmpty then 1 else 0), [], map[])
            && (p.address != p.sender ==>
                  Balance(w', p.sender) == Balance(w, p.sender) - endowment &&
                  Nonce(w', p.sender, env.startNonce) == Nonce(w, p.sender, env.startNonce))
            && (forall a :: a != p.address && a != p.sender ==> Get(w', a) == Get(w, a))
  {
    if p.value.Moved? {
      SubTotal(w, p.sender, p.value.amount, env.startNonce);
    }
  }

  /** Self-destruction leaves nothing behind: all the balance goes to the heir, or is burned when the heir is
      the account itself. */
  lemma DestructedExactly(env: Env, ctx: Context, s: Progress, refund: Address)
    ensures var t := Destructed(env, ctx, s, refund);
            var balance := Balance(s.world, ctx.address);
            && Balance(t.world, ctx.address) == 0
            && (refund != ctx.address ==>
                  Balance(t.world, refund) == Balance(s.world, refund) + balance && t.burned == s.burned)
            && (refund == ctx.address ==> t.burned == s.burned + balance)
            && (forall a :: a != ctx.address && a != refund ==> Balance(t.world, a) == Balance(s.world, a))
            && t.sub.suicides == s.sub.suicides + {ctx.address}
            && OnlyBalances(s.world, t.world, env.startNonce)
  {
    var balance := Balance(s.world, ctx.address);
    TransferMoves(s.world, ctx.address, refund, balance, Mode(env.schedule), env.startNonce);
  }

  // ---------------------------------------------------------------------------------------
  // Gas

  /** The frame never gives back more gas than it was given. */
  predicate WithinGas(frame: Frame, gas: nat) {
    frame.outcome.Failed? || frame.outcome.gasLeft <= gas
  }

  lemma GasBounded(env: Env, depth: nat, isStatic: bool, w: World, sub: Substate, p: Params, b: BuiltinRun,
                   frame: Frame)
    requires p.value.Moved? ==> p.value.amount <= Balance(w, p.sender)
    requires WithinGas(frame, p.gas)
    ensures var r := CallRun(env, depth, isStatic, w, sub, p, b, frame).result; r.Ok? ==> r.gasLeft <= p.gas
    ensures var r := CreateRun(env, depth, isStatic, w, sub, p, frame).result; r.Ok? ==> r.gasLeft <= p.gas
  {
    if !MovesInStatic(isStatic, p) {
      VmGasBounded(env, depth, isStatic, Paid(env, w, p), p, frame, false);
    }
    VmGasBounded(env, depth, isStatic, Endowed(env, w, p), p, frame, true);
  }

  lemma VmGasBounded(env: Env, depth: nat, isStatic: bool, w: World, p: Params, frame: Frame, init: bool)
    requires WithinGas(frame, p.gas)
    ensures var r := VmRun(env, depth, isStatic, w, p, frame, init).1; r.Ok? ==> r.gasLeft <= p.gas
  {
  }
}
