/** Every account map that a transaction passes through, in all its nested frames, and the bound that holds for
    each of them. */
module Traces {
  import opened Types
  import opened Accounts
  import opened Vm
  import opened Execution
  import opened ExecutionLaws
  import opened Transaction
  import opened TransactionLaws
  import opened Modular

  /** The maps of paying for a call: before, between the two changes of a transfer, and after. */
  function PaidTrace(env: Env, w: World, p: Params): seq<World>
    requires p.value.Moved? ==> p.value.amount <= Balance(w, p.sender)
  {
    if p.value.Moved? then [w, SubBalance(w, p.sender, p.value.amount, env.startNonce), Paid(env, w, p)] else [w]
  }

  /** The maps that a call passes through, those of the frames inside included. */
  function CallTrace(env: Env, depth: nat, isStatic: bool, w: World, sub: Substate, p: Params, b: BuiltinRun,
                     frame: Frame): seq<World>
    requires p.value.Moved? ==> p.value.amount <= Balance(w, p.sender)
    decreases frame, 2
  {
    if MovesInStatic(isStatic, p) then [w]
    else
      PaidTrace(env, w, p)
      + (if p.codeAddress !in env.builtins && p.hasCode
         then VmTrace(env, depth, isStatic, Paid(env, w, p), p, frame, false) else [])
      + [CallRun(env, depth, isStatic, w, sub, p, b, frame).world]
  }

  function CreateTrace(env: Env, depth: nat, isStatic: bool, w: World, sub: Substate, p: Params, frame: Frame)
    : seq<World>
    requires p.value.Moved? ==> p.value.amount <= Balance(w, p.sender)
    decreases frame, 2
  {
    if HasCodeOrNonce(w, p.address, env.startNonce) || p.callType.StaticCall? || isStatic then [w]
    else
      [w] + (if p.value.Moved? then [SubBalance(w, p.sender, p.value.amount, env.startNonce)] else [])
      + VmTrace(env, depth, isStatic, Endowed(env, w, p), p, frame, true)
      + [CreateRun(env, depth, isStatic, w, sub, p, frame).world]
  }

  function VmTrace(env: Env, depth: nat, isStatic: bool, w: World, p: Params, frame: Frame, init: bool): seq<World>
    decreases frame, 1
  {
    var ctx := Context(p.address, p.sender, depth, isStatic || p.callType.StaticCall?);
    RequestsTrace(env, ctx, Progress(w, EmptySubstate, 0, []), frame.requests)
    + [VmRun(env, depth, isStatic, w, p, frame, init).0.world]
  }

  function RequestsTrace(env: Env, ctx: Context, s: Progress, rs: seq<Request>): seq<World>
    decreases rs
  {
    if rs == [] then [s.world]
    else
      var last := |rs| - 1;
      RequestsTrace(env, ctx, s, rs[..last]) + RequestTrace(env, ctx, Requests(env, ctx, s, rs[..last]), rs[last])
  }

  function RequestTrace(env: Env, ctx: Context, s: Progress, r: Request): seq<World>
    decreases r, 1
  {
    InnerTrace(env, ctx, s, r) + [Requested(env, ctx, s, r).world]
  }

  /** The maps on the way to what a request gives. */
  function InnerTrace(env: Env, ctx: Context, s: Progress, r: Request): seq<World>
    decreases r, 0
  {
    match r
    case SelfDestruct(refund) =>
      [SubBalance(s.world, ctx.address, Balance(s.world, ctx.address), env.startNonce)]
    case CallOut(kind, target, amount, gas, builtin, child) =>
      if !CanCall(env, ctx, s.world, kind, amount) then []
      else
        CallTrace(env, ctx.depth + 1, ctx.isStatic, s.world, s.sub,
                  CallParams(ctx, s.world, kind, target, amount, gas), builtin, child)
    case CreateOut(address, amount, gas, child) =>
      if !(amount <= Balance(s.world, ctx.address) && ctx.depth < env.schedule.maxDepth) then []
      else
        CreateTrace(env, ctx.depth + 1, ctx.isStatic, Announced(env, ctx, s.world), s.sub,
                    Params(address, address, ctx.address, gas, Moved(amount), true, NoCall), child)
    case _ => []
  }

  /** No map of the trace holds more ether than `total`. */
  ghost predicate Bounded(trace: seq<World>, total: nat) {
    forall i :: 0 <= i < |trace| ==> Total(trace[i]) <= total
  }

  lemma {:induction false} CallBounded(env: Env, depth: nat, isStatic: bool, w: World, sub: Substate, p: Params,
                                       b: BuiltinRun, frame: Frame)
    requires p.value.Moved? ==> p.value.amount <= Balance(w, p.sender)
    requires CreatesSafely(env, w, frame.requests, p.address)
    ensures Bounded(CallTrace(env, depth, isStatic, w, sub, p, b, frame), Total(w))
    decreases frame, 2
  {
    CallConserves(env, depth, isStatic, w, sub, p, b, frame);
    if !MovesInStatic(isStatic, p) {
      PaidBounded(env, w, p);
      PaidConserves(env, w, p);
      var inner := if p.codeAddress !in env.builtins && p.hasCode
        then VmTrace(env, depth, isStatic, Paid(env, w, p), p, frame, false) else [];
      if p.codeAddress !in env.builtins && p.hasCode {
        VmBounded(env, depth, isStatic, Paid(env, w, p), p, frame, false);
      }
      BoundedJoined(PaidTrace(env, w, p), inner, [CallRun(env, depth, isStatic, w, sub, p, b, frame).world], Total(w));
    }
  }

  lemma BoundedJoined(x: seq<World>, y: seq<World>, z: seq<World>, total: nat)
    requires Bounded(x, total) && Bounded(y, total) && Bounded(z, total)
    ensures Bounded(x + y + z, total)
  {
  }

  lemma PaidBounded(env: Env, w: World, p: Params)
    requires p.value.Moved? ==> p.value.amount <= Balance(w, p.sender)
    ensures Bounded(PaidTrace(env, w, p), Total(w))
  {
    PaidConserves(env, w, p);
    if p.value.Moved? {
      SubTotal(w, p.sender, p.value.amount, env.startNonce);
    }
  }

  lemma {:induction false} CreateBounded(env: Env, depth: nat, isStatic: bool, w: World, sub: Substate, p: Params,
                                         frame: Frame)
    requires p.value.Moved? ==> p.value.amount <= Balance(w, p.sender)
    requires p.value.Moved? ==> p.address != p.sender || HasCodeOrNonce(w, p.sender, env.startNonce) || isStatic
    requires CreatesSafely(env, w, frame.requests, p.address)
    ensures Bounded(CreateTrace(env, depth, isStatic, w, sub, p, frame), Total(w))
    decreases frame, 2
  {
    CreateConserves(env, depth, isStatic, w, sub, p, frame);
    if !HasCodeOrNonce(w, p.address, env.startNonce) && !p.callType.StaticCall? && !isStatic {
      EndowedBounded(env, w, p, frame.requests);
      VmBounded(env, depth, isStatic, Endowed(env, w, p), p, frame, true);
      BoundedJoined([w] + (if p.value.Moved? then [SubBalance(w, p.sender, p.value.amount, env.startNonce)] else []),
                    VmTrace(env, depth, isStatic, Endowed(env, w, p), p, frame, true),
                    [CreateRun(env, depth, isStatic, w, sub, p, frame).world], Total(w));
    }
  }

  lemma EndowedBounded(env: Env, w: World, p: Params, rs: seq<Request>)
    requires p.value.Moved? ==> p.value.amount <= Balance(w, p.sender) && p.address != p.sender
    requires CreatesSafely(env, w, rs, p.address)
    ensures Total(Endowed(env, w, p)) == Total(w) && CreatesSafely(env, Endowed(env, w, p), rs, p.address)
    ensures p.value.Moved? ==> Total(SubBalance(w, p.sender, p.value.amount, env.startNonce)) <= Total(w)
  {
    EndowedConserves(env, w, p);
    EndowedExactly(env, w, p);
    if p.value.Moved? {
      SubTotal(w, p.sender, p.value.amount, env.startNonce);
    }
  }

  lemma {:induction false} VmBounded(env: Env, depth: nat, isStatic: bool, w: World, p: Params, frame: Frame,
                                     init: bool)
    requires CreatesSafely(env, w, frame.requests, p.address)
    ensures Bounded(VmTrace(env, depth, isStatic, w, p, frame, init), Total(w))
    decreases frame, 1
  {
    var ctx := Context(p.address, p.sender, depth, isStatic || p.callType.StaticCall?);
    VmConserves(env, depth, isStatic, w, p, frame, init);
    RequestsBounded(env, ctx, Progress(w, EmptySubstate, 0, []), frame.requests);
  }

  lemma {:induction false} RequestsBounded(env: Env, ctx: Context, s: Progress, rs: seq<Request>)
    requires CreatesSafely(env, s.world, rs, ctx.address)
    requires s.burned == 0
    ensures Bounded(RequestsTrace(env, ctx, s, rs), Total(s.world))
    decreases rs
  {
    if rs != [] {
      var last := |rs| - 1;
      RequestsBounded(env, ctx, s, rs[..last]);
      RequestsConserve(env, ctx, s, rs[..last]);
      SafelyOn(env, ctx, s, rs);
      RequestBounded(env, ctx, Requests(env, ctx, s, rs[..last]), rs[last]);
    }
  }

  lemma {:induction false} RequestBounded(env: Env, ctx: Context, s: Progress, r: Request)
    requires RequestSafe(env, s.world, r, ctx.address)
    ensures Bounded(RequestTrace(env, ctx, s, r), Total(s.world))
    decreases r, 1
  {
    RequestConserves(env, ctx, s, r);
    RequestNeverUnburns(env, ctx, s, r);
    InnerBounded(env, ctx, s, r);
  }

  lemma {:induction false} InnerBounded(env: Env, ctx: Context, s: Progress, r: Request)
    requires RequestSafe(env, s.world, r, ctx.address)
    ensures Bounded(InnerTrace(env, ctx, s, r), Total(s.world))
    decreases r, 0
  {
    match r
    case SelfDestruct(refund) =>
      SubTotal(s.world, ctx.address, Balance(s.world, ctx.address), env.startNonce);
    case CallOut(kind, target, amount, gas, builtin, child) =>
      if CanCall(env, ctx, s.world, kind, amount) {
        CallBounded(env, ctx.depth + 1, ctx.isStatic, s.world, s.sub,
                    CallParams(ctx, s.world, kind, target, amount, gas), builtin, child);
      }
    case CreateOut(address, amount, gas, child) =>
      if amount <= Balance(s.world, ctx.address) && ctx.depth < env.schedule.maxDepth {
        CreationSafe(env, ctx, s.world, r);
        CreateBounded(env, ctx.depth + 1, ctx.isStatic, Announced(env, ctx, s.world), s.sub,
                      Params(address, address, ctx.address, gas, Moved(amount), true, NoCall), child);
      }
    case PutStorage(_, _) =>
    case PutLog(_, _) =>
    case IncSstoreClears =>
    case Look(_) =>
  }

  lemma RequestNeverUnburns(env: Env, ctx: Context, s: Progress, r: Request)
    ensures s.burned <= Requested(env, ctx, s, r).burned
  {
  }

  /** The maps of the outermost frame. */
  function OuterTrace(env: Env, w: World, sub: Substate, t: Transaction, b: BuiltinRun, frame: Frame): seq<World>
    requires BaseGas(env.schedule, t) <= t.gas && t.value <= Balance(w, t.sender)
  {
    var p := OuterParams(env, w, t);
    if t.action.CreateContract? then CreateTrace(env, 0, false, w, sub, p, frame)
    else CallTrace(env, 0, false, w, sub, p, b, frame)
  }

  /** The accounts once the sender has its refund. */
  function Refunded(env: Env, t: Transaction, w: World, used: nat): World
    requires used <= t.gas
  {
    AddBalance(w, t.sender, (t.gas - used) * t.gasPrice, NoEmpty, env.startNonce)
  }

  /** The maps while accounts are removed. */
  function SweptTrace(w: World, suicides: set<Address>, dust: set<Address>): seq<World> {
    [w, w - suicides, w - suicides - dust]
  }

  /** The maps from the refund on. */
  function EndTrace(env: Env, info: BlockInfo, t: Transaction, run: Run, o: Oracle): seq<World>
    requires GasLeft(run.result) <= t.gas
  {
    [Refunded(env, t, run.world, ChargedGas(env.schedule, t, run))]
    + SweptTrace(Credited(env, info, t, run), run.sub.suicides, DustAtEnd(env, info, t, run, o))
  }

  /** The maps that a whole transaction passes through: raising the nonce, paying for the gas, every frame, the
      refund, the fees, and the removals. */
  function TransactionTrace(env: Env, info: BlockInfo, w: World, t: Transaction, o: Oracle): seq<World>
    requires BaseGas(env.schedule, t) <= t.gas
    requires t.value + t.gas * t.gasPrice <= Balance(w, t.sender)
    requires GasLeft(OuterRun(env, w, t, o).result) <= t.gas
  {
    [w, if RaisesNonce(env, t) then IncNonce(w, t.sender, env.startNonce) else w]
    + OuterTrace(env, Prepaid(env, w, t), PrepaidSub(env, t), t, o.builtin, o.frame)
    + EndTrace(env, info, t, OuterRun(env, w, t, o), o)
  }

  /** At no point of an accepted transaction, in whatever frame, is there more ether than at its start. So no
      balance is above that sum, and a sum below 2^256 keeps every 256-bit addition of balances from overflowing. */
  lemma {:induction false} BalancesBounded(env: Env, info: BlockInfo, w: World, t: Transaction, checkNonce: bool,
                                           o: Oracle)
    requires Rejection(env, info, w, t, checkNonce).None? && OracleFits(env, t, o)
    requires HashesSafely(env, w, t, o)
    ensures GasLeft(OuterRun(env, w, t, o).result) <= t.gas
    ensures var trace := TransactionTrace(env, info, w, t, o);
            Bounded(trace, Total(w)) && forall i, a :: 0 <= i < |trace| ==> Balance(trace[i], a) <= Total(w)
  {
    OuterGas(env, info, w, t, checkNonce, o);
    RaisedTotal(env, w, t);
    StartBounded(env, w, t, o);
    OuterConserves(env, w, t, o);
    EndBounded(env, info, t, OuterRun(env, w, t, o), o, Total(w));
    JoinedBounded([w, if RaisesNonce(env, t) then IncNonce(w, t.sender, env.startNonce) else w],
                  OuterTrace(env, Prepaid(env, w, t), PrepaidSub(env, t), t, o.builtin, o.frame),
                  EndTrace(env, info, t, OuterRun(env, w, t, o), o), Total(w));
  }

  lemma JoinedBounded(x: seq<World>, y: seq<World>, z: seq<World>, total: nat)
    requires Bounded(x, total) && Bounded(y, total) && Bounded(z, total)
    ensures Bounded(x + y + z, total)
    ensures forall i, a :: 0 <= i < |x + y + z| ==> Balance((x + y + z)[i], a) <= total
  {
    var trace := x + y + z;
    forall i, a | 0 <= i < |trace| ensures Total(trace[i]) <= total && Balance(trace[i], a) <= total {
      BalanceBelowTotal(trace[i], a);
    }
  }

  lemma RaisedTotal(env: Env, w: World, t: Transaction)
    ensures Total(if RaisesNonce(env, t) then IncNonce(w, t.sender, env.startNonce) else w) == Total(w)
  {
    var acc := Existing(w, t.sender, env.startNonce);
    TotalUpdate(w, t.sender, acc.(nonce := acc.nonce + 1));
  }

  /** Up to the end of the outermost frame. */
  lemma StartBounded(env: Env, w: World, t: Transaction, o: Oracle)
    requires BaseGas(env.schedule, t) <= t.gas
    requires t.value + t.gas * t.gasPrice <= Balance(w, t.sender)
    requires HashesSafely(env, w, t, o)
    ensures Bounded(OuterTrace(env, Prepaid(env, w, t), PrepaidSub(env, t), t, o.builtin, o.frame), Total(w))
  {
    PrepaidStart(env, w, t, o);
    OuterBounded(env, Prepaid(env, w, t), PrepaidSub(env, t), t, o, Total(w));
  }

  lemma PrepaidStart(env: Env, w: World, t: Transaction, o: Oracle)
    requires t.value + t.gas * t.gasPrice <= Balance(w, t.sender) && HashesSafely(env, w, t, o)
    ensures var paid := Prepaid(env, w, t);
            && t.value <= Balance(paid, t.sender) && Total(paid) <= Total(w)
            && CreatesSafely(env, paid, o.frame.requests, OuterAddress(t)) && OuterSafe(env, paid, t)
  {
    PrepaidConserves(env, w, t);
    PrepaidSafe(env, w, t, o);
  }

  lemma OuterBounded(env: Env, w: World, sub: Substate, t: Transaction, o: Oracle, total: nat)
    requires BaseGas(env.schedule, t) <= t.gas && t.value <= Balance(w, t.sender)
    requires CreatesSafely(env, w, o.frame.requests, OuterAddress(t)) && OuterSafe(env, w, t)
    requires Total(w) <= total
    ensures Bounded(OuterTrace(env, w, sub, t, o.builtin, o.frame), total)
  {
    var p := OuterParams(env, w, t);
    if t.action.CreateContract? {
      CreateBounded(env, 0, false, w, sub, p, o.frame);
    } else {
      CallBounded(env, 0, false, w, sub, p, o.builtin, o.frame);
    }
  }

  /** From the refund on: nothing above what is left and what was prepaid. */
  lemma EndBounded(env: Env, info: BlockInfo, t: Transaction, run: Run, o: Oracle, total: nat)
    requires GasLeft(run.result) <= t.gas && Total(run.world) + t.gas * t.gasPrice <= total
    ensures Bounded(EndTrace(env, info, t, run, o), total)
  {
    RefundBounded(env, t, run.world, ChargedGas(env.schedule, t, run));
    CreditsAddUp(env, info, t, run);
    SweptBounded(Credited(env, info, t, run), run.sub.suicides, DustAtEnd(env, info, t, run, o), total);
  }

  lemma SweptBounded(w: World, suicides: set<Address>, dust: set<Address>, total: nat)
    requires Total(w) <= total
    ensures Bounded(SweptTrace(w, suicides, dust), total)
  {
    RemovedTotal(w, suicides);
    RemovedTotal(w - suicides, dust);
  }

  lemma RefundBounded(env: Env, t: Transaction, w: World, used: nat)
    requires used <= t.gas
    ensures Total(Refunded(env, t, w, used)) <= Total(w) + t.gas * t.gasPrice
  {
    AddedBounded(w, t.sender, (t.gas - used) * t.gasPrice, t.gas * t.gasPrice, env.startNonce) by {
      MulGrows(t.gas - used, t.gas, t.gasPrice);
    }
  }

  lemma AddedBounded(w: World, a: Address, refund: nat, prepaid: nat, start: nat)
    requires refund <= prepaid
    ensures Total(AddBalance(w, a, refund, NoEmpty, start)) <= Total(w) + prepaid
  {
    AddTotal(w, a, refund, NoEmpty, start);
  }
}
