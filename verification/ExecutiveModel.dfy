/** The transaction executor, in place: nested frames over one journalled state.

    Every method is proved equal to the function of the same step in `Execution`, and leaves the
    stack of checkpoints as it found it. */
module ExecutiveModel {
  import opened Types
  import opened Accounts
  import opened Vm
  import opened Execution
  import opened ExecutionLaws
  import opened LiveState
  import opened Memory
  import Journal
  import Tx = Transaction
  import TransactionLaws

  /** The reports of a frame, filled in as it runs. */
  class SubstateCell {
    var suicides: set<Address>
    var touched: set<Address>
    var logs: seq<LogEntry>
    var sstoreClears: nat
    var created: seq<Address>

    ghost function View(): Substate
      reads this
    {
      Substate(suicides, touched, logs, sstoreClears, created)
    }

    constructor ()
      ensures View() == EmptySubstate
    {
      suicides, touched, logs, sstoreClears, created := {}, {}, [], 0, [];
    }

    method AccrueFrom(other: SubstateCell)
      requires other != this
      modifies this
      ensures View() == Accrue(old(View()), other.View())
    {
      suicides := suicides + other.suicides;
      touched := touched + other.touched;
      logs := logs + other.logs;
      sstoreClears := sstoreClears + other.sstoreClears;
      created := created + other.created;
    }
  }

  class Executive {
    const state: State
    const env: Env
    const depth: nat
    const staticFlag: bool

    ghost predicate Ready()
      reads state, state.backend, state.backend.accountCache
    {
      state.Valid() && state.accountStartNonce == env.startNonce
    }

    constructor (state: State, env: Env)
      ensures this.state == state && this.env == env && depth == 0 && !staticFlag
    {
      this.state, this.env, depth, staticFlag := state, env, 0, false;
    }

    constructor FromParent(state: State, env: Env, parentDepth: nat, staticFlag: bool)
      ensures this.state == state && this.env == env && depth == parentDepth + 1 && this.staticFlag == staticFlag
    {
      this.state, this.env, depth, this.staticFlag := state, env, parentDepth + 1, staticFlag;
    }

    /** Executes a transaction. `b` and `frame` are what the code does. The rest that decides the result, the balances
        first seen and whether the sender is loaded, is what the run makes of what the state remembers. */
    method Transact(t: Tx.Transaction, info: Tx.BlockInfo, checkNonce: bool, b: BuiltinRun, frame: Frame)
      returns (r: Tx.TxResult, ghost o: Tx.Oracle)
      requires Ready() && state.snapshots == [] && depth == 0 && !staticFlag
      requires Tx.OracleFits(env, t, Tx.Oracle(b, frame, map[], true))
      modifies state
      ensures Ready() && state.snapshots == []
      ensures Tx.Rejection(env, info, old(state.View()), t, checkNonce).Some? ==>
                && r == Tx.Refused(Tx.Rejection(env, info, old(state.View()), t, checkNonce).value)
                && state.View() == old(state.View()) && o == Tx.Oracle(b, frame, map[], true)
                && state.Olds() == Replay(state.Source(), Between(old(state.Olds())), [Asked(t.sender)]).olds
      ensures Tx.Rejection(env, info, old(state.View()), t, checkNonce).None? ==>
                var w, olds := old(state.View()), old(state.Olds());
                var run := Tx.OuterRun(env, w, t, o);
                && Tx.GasLeft(run.result) <= t.gas
                && state.View() == Tx.Finalized(env, info, t, run, o)
                && r == Tx.Report(env, info, t, run)
                && o == Tx.OracleAtEnd(env, info, w, t, b, frame, run, state.Source(), olds)
                && state.Olds() == Forgotten(Tx.OldsAtEnd(env, info, w, t, run, state.Source(), olds),
                                             Tx.RemovedAtEnd(env, info, t, run, o))
      ensures o == Tx.Oracle(b, frame, o.firstSeen, o.senderLoaded)
      ensures o.senderLoaded || Tx.SenderLoose(env, old(state.View()), t)
    {
      ghost var w, olds := state.View(), state.Olds();
      o := Tx.Oracle(b, frame, map[], true);
      state.Begin(if Tx.SenderLoose(env, w, t) then {t.sender} else {});
      var refusal := Check(t, info, checkNonce);
      assert [] + [Asked(t.sender)] == [Asked(t.sender)];
      if refusal.Some? {
        state.Recalled();
        return Tx.Refused(refusal.value), o;
      }
      TransactionLaws.OuterGas(env, info, w, t, checkNonce, o);
      r, o := Perform(t, info, b, frame, olds, o);
    }

    /** Executes a transaction that passed the checks. */
    method Perform(t: Tx.Transaction, info: Tx.BlockInfo, b: BuiltinRun, frame: Frame,
                   ghost olds: map<Address, Option<nat>>, ghost o0: Tx.Oracle)
      returns (r: Tx.TxResult, ghost o: Tx.Oracle)
      requires Ready() && state.snapshots == [] && depth == 0 && !staticFlag && o0.builtin == b && o0.frame == frame
      requires Tx.BaseGas(env.schedule, t) <= t.gas
      requires t.value + t.gas * t.gasPrice <= Balance(state.View(), t.sender)
      requires Tx.GasLeft(Tx.OuterRun(env, state.View(), t, o0).result) <= t.gas
      requires state.start == Between(olds) && state.trail == [Asked(t.sender)]
      requires state.loose == if Tx.SenderLoose(env, state.View(), t) then {t.sender} else {}
      modifies state`cache, state`checkpoints, state`snapshots, state`level, state`trail
      ensures Ready() && state.snapshots == []
      ensures var w := old(state.View());
              var run := Tx.OuterRun(env, w, t, o0);
              && state.View() == Tx.Finalized(env, info, t, run, o)
              && r == Tx.Report(env, info, t, run)
              && o == Tx.OracleAtEnd(env, info, w, t, b, frame, run, state.Source(), olds)
              && state.Olds() == Forgotten(Tx.OldsAtEnd(env, info, w, t, run, state.Source(), olds),
                                           Tx.RemovedAtEnd(env, info, t, run, o))
    {
      var substate := Start(t);
      r, o := Complete(t, info, substate, b, frame, olds, old(state.View()));
    }

    /** The rest of a transaction whose gas is paid for. */
    method Complete(t: Tx.Transaction, info: Tx.BlockInfo, substate: SubstateCell, b: BuiltinRun, frame: Frame,
                    ghost olds: map<Address, Option<nat>>, ghost w: World)
      returns (r: Tx.TxResult, ghost o: Tx.Oracle)
      requires Ready() && state.snapshots == [] && depth == 0 && !staticFlag
      requires Tx.BaseGas(env.schedule, t) <= t.gas && t.value <= Balance(state.View(), t.sender)
      requires Tx.GasLeft(Tx.OuterFrame(env, state.View(), substate.View(), t, b, frame).result) <= t.gas
      requires state.Loaded(substate.touched) && state.Loaded({t.sender})
      requires state.start == Between(olds) && state.trail == [Asked(t.sender)] + Tx.PrepaidTrail(env, w, t)
      requires state.loose == if Tx.SenderLoose(env, w, t) then {t.sender} else {}
      modifies state`cache, state`checkpoints, state`snapshots, state`level, state`trail, substate
      ensures Ready() && state.snapshots == []
      ensures var run := Tx.OuterFrame(env, old(state.View()), old(substate.View()), t, b, frame);
              && state.View() == Tx.Finalized(env, info, t, run, o)
              && r == Tx.Report(env, info, t, run)
              && o == Tx.OracleAtEnd(env, info, w, t, b, frame, run, state.Source(), olds)
              && state.Olds() == Forgotten(Tx.OldsAtEnd(env, info, w, t, run, state.Source(), olds),
                                           Tx.RemovedAtEnd(env, info, t, run, o))
    {
      ghost var run := Tx.OuterFrame(env, state.View(), substate.View(), t, b, frame);
      var result := RunOuter(t, substate, b, frame);
      r, o := Finalize(t, info, substate, result, b, frame, run, olds, w);
    }

    /** The outermost call or creation, once the gas is paid for. */
    method RunOuter(t: Tx.Transaction, substate: SubstateCell, b: BuiltinRun, frame: Frame) returns (r: Finalization)
      requires Ready() && depth == 0 && !staticFlag && Tx.BaseGas(env.schedule, t) <= t.gas
      requires t.value <= Balance(state.View(), t.sender)
      requires state.Loaded(substate.touched) && state.Loaded({t.sender})
      modifies state`cache, state`checkpoints, state`snapshots, state`level, state`trail, substate
      ensures Ready() && state.snapshots == old(state.snapshots)
      ensures state.Grew() && state.Loaded(substate.touched)
      ensures var run := Tx.OuterFrame(env, old(state.View()), old(substate.View()), t, b, frame);
              && state.View() == run.world && substate.View() == run.sub && r == run.result
              && state.trail == old(state.trail) + run.trail
    {
      var gas := t.gas - Tx.BaseGas(env.schedule, t);
      match t.action {
        case CreateContract(address) =>
          r := Create(Params(address, address, t.sender, gas, Moved(t.value), true, NoCall), substate, frame);
        case CallContract(to) =>
          r := CallOuter(Params(to, to, t.sender, gas, Moved(t.value), false, CallType.Call), substate, b, frame);
      }
    }

    /** The outermost call, with the code at its address. */
    method CallOuter(p: Params, substate: SubstateCell, b: BuiltinRun, frame: Frame) returns (r: Finalization)
      requires Ready() && depth == 0 && !staticFlag
      requires p.value.Moved? && p.value.amount <= Balance(state.View(), p.sender)
      requires state.Loaded(substate.touched) && state.Loaded({p.sender})
      modifies state`cache, state`checkpoints, state`snapshots, state`level, state`trail, substate
      ensures Ready() && state.snapshots == old(state.snapshots)
      ensures state.Grew() && state.Loaded(substate.touched)
      ensures var p' := p.(hasCode := CodeOf(old(state.View()), p.address) != []);
              var run := CallRun(env, 0, false, old(state.View()), old(substate.View()), p', b, frame);
              && state.View() == run.world && substate.View() == run.sub && r == run.result
              && state.trail == old(state.trail) + ([Asked(p.address)] + run.trail)
    {
      var hasCode := state.HasCode(p.address);
      var p' := p.(hasCode := hasCode);
      r := Call(p', substate, b, frame);
      Joined(old(state.trail), [Asked(p.address)],
             CallRun(env, 0, false, old(state.View()), old(substate.View()), p', b, frame).trail);
    }

    /** The checks that a transaction passes before anything changes. */
    method Check(t: Tx.Transaction, info: Tx.BlockInfo, checkNonce: bool) returns (r: Option<Tx.ExecutionError>)
      requires Ready()
      modifies state`cache, state`level, state`trail
      ensures Ready() && state.View() == old(state.View())
      ensures r == Tx.Rejection(env, info, state.View(), t, checkNonce)
      ensures state.trail == old(state.trail) + [Asked(t.sender)]
    {
      var account := state.EnsureCached(t.sender);
      var nonce := if account.Some? then account.value.nonce else env.startNonce;
      var baseGas := GasRequired(t);
      if t.gas < baseGas {
        return Some(Tx.NotEnoughBaseGas);
      }
      if !t.isUnsigned && checkNonce && env.schedule.killDust != Off && account.None? {
        return Some(Tx.SenderMustExist);
      }
      if checkNonce && t.nonce != nonce {
        return Some(Tx.InvalidNonce);
      }
      if info.gasUsed + t.gas > info.gasLimit {
        return Some(Tx.BlockGasLimitReached);
      }
      var balance := if account.Some? then account.value.balance else 0;
      if balance < t.value + t.gas * t.gasPrice {
        return Some(Tx.NotEnoughCash);
      }
      return None;
    }

    /** The base gas, summed over the data byte by byte. */
    method GasRequired(t: Tx.Transaction) returns (g: nat)
      ensures g == Tx.BaseGas(env.schedule, t)
    {
      var first := if t.action.CreateContract? then env.schedule.txCreateGas else env.schedule.txGas;
      g := first;
      var i := 0;
      while i < |t.data|
        invariant 0 <= i <= |t.data|
        invariant g == first + Tx.DataGas(env.schedule, t.data[..i])
      {
        assert t.data[..i + 1][..i] == t.data[..i];
        g := g + if t.data[i] == 0 then env.schedule.txDataZeroGas else env.schedule.txDataNonZeroGas;
        i := i + 1;
      }
      assert t.data[..|t.data|] == t.data;
    }

    /** Prepays, with reports of its own. */
    method Start(t: Tx.Transaction) returns (substate: SubstateCell)
      requires Ready() && state.snapshots == []
      requires t.value + t.gas * t.gasPrice <= Balance(state.View(), t.sender)
      requires state.loose == if Tx.SenderLoose(env, state.View(), t) then {t.sender} else {}
      modifies state`cache, state`checkpoints, state`level, state`trail
      ensures Ready() && state.View() == Tx.Prepaid(env, old(state.View()), t)
      ensures fresh(substate) && substate.View() == Tx.PrepaidSub(env, t)
      ensures t.value <= Balance(state.View(), t.sender)
      ensures state.Loaded({t.sender}) && state.Loaded(substate.touched)
      ensures state.trail == old(state.trail) + Tx.PrepaidTrail(env, old(state.View()), t)
    {
      substate := new SubstateCell();
      Prepay(t, substate);
    }

    /** Raises the nonce and takes the price of all the gas. */
    method Prepay(t: Tx.Transaction, substate: SubstateCell)
      requires Ready() && substate.View() == EmptySubstate
      requires t.value + t.gas * t.gasPrice <= Balance(state.View(), t.sender)
      requires state.loose == if Tx.SenderLoose(env, state.View(), t) then {t.sender} else {}
      modifies state`cache, state`checkpoints, state`level, state`trail, substate`touched
      ensures Ready() && state.View() == Tx.Prepaid(env, old(state.View()), t)
      ensures state.Loaded({t.sender}) && state.Loaded(substate.touched)
      ensures substate.View() == Tx.PrepaidSub(env, t)
      ensures t.value <= Balance(state.View(), t.sender)
      ensures state.trail == old(state.trail) + Tx.PrepaidTrail(env, old(state.View()), t)
    {
      assert t.sender in state.level || CodeOf(state.db, t.sender) == CodeOf(state.View(), t.sender) by {
        state.Opened();
      }
      RaiseNonce(t);
      ghost var w := state.View();
      TakeFrom(t.sender, t.gas * t.gasPrice, substate);
      Joined(old(state.trail), if Tx.RaisesNonce(env, t) then [Fetched(t.sender)] else [],
             SubTrail(w, t.sender, t.gas * t.gasPrice));
    }

    method TakeFrom(sender: Address, price: nat, substate: SubstateCell)
      requires Ready() && price <= Balance(state.View(), sender)
      modifies state`cache, state`checkpoints, state`level, state`trail, substate`touched
      ensures Ready() && state.View() == SubBalance(old(state.View()), sender, price, env.startNonce)
      ensures state.Grew() && (price != 0 || sender !in old(state.View()) ==> sender in state.level)
      ensures substate.touched == old(substate.touched) + if Mode(env.schedule).TrackTouched? then {sender} else {}
      ensures state.trail == old(state.trail) + SubTrail(old(state.View()), sender, price)
    {
      var touched := state.SubBalance(sender, price, Mode(env.schedule), substate.touched);
      substate.touched := touched;
    }

    method RaiseNonce(t: Tx.Transaction)
      requires Ready()
      modifies state`cache, state`checkpoints, state`level, state`trail
      ensures Ready() && state.Grew() && (Tx.RaisesNonce(env, t) ==> t.sender in state.level)
      ensures state.View() == if Tx.RaisesNonce(env, t) then IncNonce(old(state.View()), t.sender, env.startNonce)
                              else old(state.View())
      ensures state.trail == old(state.trail) + if Tx.RaisesNonce(env, t) then [Fetched(t.sender)] else []
    {
      if !env.schedule.eip86 || !t.isUnsigned {
        state.IncNonce(t.sender);
      }
    }

    /** Refunds, pays the author, and removes what the transaction leaves behind. */
    method Finalize(t: Tx.Transaction, info: Tx.BlockInfo, substate: SubstateCell, result: Finalization,
                    ghost b: BuiltinRun, ghost frame: Frame, ghost run: Run, ghost olds: map<Address, Option<nat>>,
                    ghost w: World)
      returns (r: Tx.TxResult, ghost o: Tx.Oracle)
      requires Ready() && state.snapshots == []
      requires state.View() == run.world && substate.View() == run.sub && result == run.result
      requires Tx.GasLeft(result) <= t.gas && state.Loaded(substate.touched)
      requires state.start == Between(olds)
      requires state.trail == [Asked(t.sender)] + Tx.PrepaidTrail(env, w, t) + run.trail
      requires state.loose == if Tx.SenderLoose(env, w, t) then {t.sender} else {}
      modifies state`cache, state`checkpoints, state`level, state`trail, substate`touched
      ensures Ready()
      ensures && state.View() == Tx.Finalized(env, info, t, run, o)
              && r == Tx.Report(env, info, t, run)
              && o == Tx.OracleAtEnd(env, info, w, t, b, frame, run, state.Source(), olds)
              && state.Olds() == Forgotten(Tx.OldsAtEnd(env, info, w, t, run, state.Source(), olds),
                                           Tx.RemovedAtEnd(env, info, t, run, o))
    {
      r := CreditAll(t, info, substate, result, run, w);
      o := Clear(t, info, substate, b, frame, run, olds, w);
    }

    /** Refunds, pays the author and reports. */
    method CreditAll(t: Tx.Transaction, info: Tx.BlockInfo, substate: SubstateCell, result: Finalization,
                     ghost run: Run, ghost w: World)
      returns (r: Tx.TxResult)
      requires Ready() && state.View() == run.world && substate.View() == run.sub && result == run.result
      requires Tx.GasLeft(result) <= t.gas && state.Loaded(substate.touched)
      requires state.trail == [Asked(t.sender)] + Tx.PrepaidTrail(env, w, t) + run.trail
      modifies state`cache, state`checkpoints, state`level, state`trail, substate`touched
      ensures Ready() && state.Loaded(substate.touched) && r == Tx.Report(env, info, t, run)
      ensures state.View() == Tx.Credited(env, info, t, run) && state.trail == Tx.TrailAtEnd(env, info, w, t, run)
      ensures substate.touched == Tx.TouchedAtEnd(env, info, t, run)
    {
      var gasUsed, refunded := Refunds(t, substate, result, run);
      Credit(t, info, gasUsed, substate, run, w);
      r := Reported(t, info, substate, result, gasUsed, refunded, run);
    }

    /** Removes accounts, going by what is remembered at the end. */
    method Clear(t: Tx.Transaction, info: Tx.BlockInfo, substate: SubstateCell, ghost b: BuiltinRun,
                 ghost frame: Frame, ghost run: Run, ghost olds: map<Address, Option<nat>>, ghost w: World)
      returns (ghost o: Tx.Oracle)
      requires Ready() && state.snapshots == [] && Tx.GasLeft(run.result) <= t.gas
      requires state.View() == Tx.Credited(env, info, t, run) && substate.suicides == run.sub.suicides
      requires substate.touched == Tx.TouchedAtEnd(env, info, t, run) && state.Loaded(substate.touched)
      requires state.start == Between(olds) && state.trail == Tx.TrailAtEnd(env, info, w, t, run)
      requires state.loose == if Tx.SenderLoose(env, w, t) then {t.sender} else {}
      modifies state`cache, state`checkpoints, state`level, state`trail
      ensures Ready() && state.View() == Tx.Finalized(env, info, t, run, o)
      ensures o == Tx.OracleAtEnd(env, info, w, t, b, frame, run, state.Source(), olds)
      ensures state.Olds() == Forgotten(Tx.OldsAtEnd(env, info, w, t, run, state.Source(), olds),
                                        Tx.RemovedAtEnd(env, info, t, run, o))
    {
      AtEnd(t, info, run, olds, w);
      o := Tx.OracleAtEnd(env, info, w, t, b, frame, run, state.Source(), olds);
      Sweep(t, substate, o);
    }

    /** What the state remembers when the removals begin. */
    lemma AtEnd(t: Tx.Transaction, info: Tx.BlockInfo, run: Run, olds: map<Address, Option<nat>>, w: World)
      requires state.Valid() && Tx.GasLeft(run.result) <= t.gas
      requires state.start == Between(olds) && state.trail == Tx.TrailAtEnd(env, info, w, t, run)
      ensures var end := Tx.OldsAtEnd(env, info, w, t, run, state.Source(), olds);
              state.Olds() == end && state.FirstSeen() == SeenIn(state.base, end) && state.level.Keys == end.Keys
    {
      state.Recalled();
    }

    /** What is reported of the run. */
    method Reported(t: Tx.Transaction, info: Tx.BlockInfo, substate: SubstateCell, result: Finalization, gasUsed: nat,
                    refunded: nat, ghost run: Run)
      returns (r: Tx.TxResult)
      requires result == run.result && Tx.GasLeft(result) <= t.gas
      requires substate.View() == run.sub.(touched := substate.touched)
      requires gasUsed == Tx.ChargedGas(env.schedule, t, run) && refunded == Tx.RefundedGas(env.schedule, t, run)
      ensures r == Tx.Report(env, info, t, run)
    {
      match result {
        case Err(error) =>
          if error.Internal? {
            r := Tx.Refused(Tx.InternalError);
          } else {
            r := Tx.Done(Tx.Executed(Some(error), t.gas, t.gas, 0, info.gasUsed + t.gas, [], []));
          }
        case Ok(_, applyState) =>
          r := Tx.Done(Tx.Executed(if applyState then None else Some(Reverted), t.gas, gasUsed, refunded,
                                   info.gasUsed + gasUsed, substate.logs, substate.created));
      }
    }

    /** The gas charged and the gas given back on top of what was left. */
    method Refunds(t: Tx.Transaction, substate: SubstateCell, result: Finalization, ghost run: Run)
      returns (gasUsed: nat, refunded: nat)
      requires substate.View() == run.sub && result == run.result && Tx.GasLeft(result) <= t.gas
      ensures gasUsed == Tx.ChargedGas(env.schedule, t, run) && refunded == Tx.RefundedGas(env.schedule, t, run)
    {
      var refundsBound := env.schedule.sstoreRefundGas * substate.sstoreClears
                          + env.schedule.suicideRefundGas * |substate.suicides|;
      var gasLeftPrerefund := if result.Ok? then result.gasLeft else 0;
      var half := (t.gas - gasLeftPrerefund) / 2;
      refunded := if refundsBound <= half then refundsBound else half;
      gasUsed := t.gas - (gasLeftPrerefund + refunded);
    }

    /** Gives the sender what is left and the author the fees. */
    method Credit(t: Tx.Transaction, info: Tx.BlockInfo, gasUsed: nat, substate: SubstateCell, ghost run: Run,
                  ghost w: World)
      requires Ready() && state.View() == run.world && substate.View() == run.sub
      requires Tx.GasLeft(run.result) <= t.gas && gasUsed == Tx.ChargedGas(env.schedule, t, run)
      requires state.Loaded(substate.touched)
      requires state.trail == [Asked(t.sender)] + Tx.PrepaidTrail(env, w, t) + run.trail
      modifies state`cache, state`checkpoints, state`level, state`trail, substate`touched
      ensures state.Loaded(substate.touched)
      ensures Ready() && state.View() == Tx.Credited(env, info, t, run)
      ensures substate.touched == Tx.TouchedAtEnd(env, info, t, run)
      ensures state.trail == Tx.TrailAtEnd(env, info, w, t, run)
    {
      PayOut(t.sender, Tx.RefundValue(t, gasUsed), info.author, Tx.FeesValue(t, gasUsed), substate);
    }

    method PayOut(sender: Address, refund: nat, author: Address, fees: nat, substate: SubstateCell)
      requires Ready() && state.Loaded(substate.touched)
      modifies state`cache, state`checkpoints, state`level, state`trail, substate`touched
      ensures Ready() && state.Loaded(substate.touched)
      ensures state.View() == Tx.PaidBack(env, old(state.View()), sender, refund, author, fees)
      ensures substate.touched ==
              old(substate.touched) + Tx.PaidTouches(env, old(state.View()), sender, refund, author, fees)
      ensures state.trail ==
              old(state.trail) + Tx.PaidBackTrail(env, old(state.View()), sender, refund, author, fees)
    {
      var _ := state.AddBalance(sender, refund, NoEmpty, {});
      var touched := state.AddBalance(author, fees, Mode(env.schedule), substate.touched);
      substate.touched := touched;
    }

    /** Removes the self-destructed accounts, then the touched ones that are empty or dust. */
    method Sweep(t: Tx.Transaction, substate: SubstateCell, ghost o: Tx.Oracle)
      requires Ready() && state.snapshots == []
      requires state.Loaded(substate.touched) && state.loose <= {t.sender}
      requires o.firstSeen == state.FirstSeen()
      requires o.senderLoaded <==> t.sender !in state.loose || t.sender in state.level
      modifies state`cache, state`checkpoints, state`level, state`trail
      ensures Ready()
      ensures var w := old(state.View()) - substate.suicides;
              var garbage := Tx.Dust(env, w, t, substate.touched, o);
              state.View() == w - garbage && state.Olds() == Forgotten(old(state.Olds()), substate.suicides + garbage)
    {
      state.KillAll(substate.suicides);
      SweepDust(t, substate, o);
      ForgottenTwice(old(state.Olds()), substate.suicides,
                     Tx.Dust(env, old(state.View()) - substate.suicides, t, substate.touched, o));
    }

    /** Removes the touched accounts that are empty or dust, once the self-destructed ones are gone. */
    method SweepDust(t: Tx.Transaction, substate: SubstateCell, ghost o: Tx.Oracle)
      requires Ready() && state.snapshots == []
      requires state.Loaded(substate.touched) && state.loose <= {t.sender}
      requires state.FirstSeen() == o.firstSeen - substate.suicides
      requires t.sender !in substate.suicides ==>
                 (o.senderLoaded <==> t.sender !in state.loose || t.sender in state.level)
      requires forall a :: a in substate.suicides ==> a !in state.View()
      modifies state`cache, state`checkpoints, state`level, state`trail
      ensures Ready()
      ensures var garbage := Tx.Dust(env, old(state.View()), t, substate.touched, o);
              state.View() == old(state.View()) - garbage && state.Olds() == Forgotten(old(state.Olds()), garbage)
    {
      var minBalance := if env.schedule.killDust != Off then Some(env.schedule.txGas * t.gasPrice) else None;
      var contracts := env.schedule.killDust == WithCodeAndStorage;
      SweptAll(substate.touched, substate.suicides, o.firstSeen, t.sender, o.senderLoaded, minBalance, contracts);
      state.KillGarbage(substate.touched, env.schedule.killEmpty, minBalance, contracts);
    }

    /** What is swept does not depend on what is loaded, but for a sender that need not be. */
    lemma SweptAll(touched: set<Address>, suicides: set<Address>, seen: map<Address, nat>, sender: Address,
                   loaded: bool, minBalance: Option<nat>, contracts: bool)
      requires state.Valid() && state.Loaded(touched) && state.loose <= {sender}
      requires sender !in suicides ==> (loaded <==> sender !in state.loose || sender in state.level)
      requires state.FirstSeen() == seen - suicides && (forall a :: a in suicides ==> a !in state.View())
      ensures Garbage(state.View(), touched * state.level.Keys, state.FirstSeen(), env.schedule.killEmpty, minBalance,
                      contracts) ==
              Garbage(state.View(), touched - (if loaded then {} else {sender}), seen, env.schedule.killEmpty,
                      minBalance, contracts)
    {
      state.Opened();
      Journal.OnlyLoadedMatter(state.db, state.cache, touched, state.loose, env.schedule.killEmpty, minBalance,
                               contracts);
      assert sender !in suicides ==> state.loose - state.level.Keys == if loaded then {} else {sender};
    }

    /** Calls a contract or built-in. */
    method Call(p: Params, substate: SubstateCell, b: BuiltinRun, frame: Frame) returns (r: Finalization)
      requires Ready()
      requires p.value.Moved? ==> p.value.amount <= Balance(state.View(), p.sender)
      requires state.Loaded(substate.touched)
      requires (p.value.Moved? ==> state.Loaded({p.sender})) && (p.hasCode ==> state.Loaded({p.address}))
      modifies state`cache, state`checkpoints, state`snapshots, state`level, state`trail, substate
      ensures Ready() && state.snapshots == old(state.snapshots)
      ensures state.Grew() && state.Loaded(substate.touched)
      ensures var run := CallRun(env, depth, staticFlag, old(state.View()), old(substate.View()), p, b, frame);
              && state.View() == run.world && substate.View() == run.sub && r == run.result
              && state.trail == old(state.trail) + run.trail
      ensures !Applies(r) ==> state.View() == old(state.View())
      decreases frame, 3
    {
      CallAtomic(env, depth, staticFlag, state.View(), substate.View(), p, b, frame);
      if (p.callType.StaticCall? || (p.callType.Call? && staticFlag)) && p.value.amount > 0 {
        return Err(MutableCallInStaticContext);
      }
      state.Checkpoint();
      Pay(p, substate);
      r := CallInside(p, substate, b, frame);
      CallJoined(old(state.trail), PaidTrail(env, old(state.View()), p),
                 PaidCall(env, depth, staticFlag, old(state.View()), Paid(env, old(state.View()), p),
                          PaidSub(env, old(state.View()), old(substate.View()), p), p, b, frame).trail);
    }

    lemma CallJoined(x: seq<Event>, y: seq<Event>, z: seq<Event>)
      ensures x + [Entered] + y + z == x + ([Entered] + y + z)
    {
    }

    /** Moves the value of a call. */
    method Pay(p: Params, substate: SubstateCell)
      requires Ready() && (p.value.Moved? ==> p.value.amount <= Balance(state.View(), p.sender))
      requires state.HeldLoaded(substate.touched) && (p.value.Moved? ==> state.HeldLoaded({p.sender}))
      requires state.AllHeld() && state.snapshots != []
      modifies state`cache, state`checkpoints, state`level, state`trail, substate`touched
      ensures state.Grew() && state.HeldLoaded(substate.touched)
      ensures Ready() && state.View() == Paid(env, old(state.View()), p)
      ensures substate.View() == PaidSub(env, old(state.View()), old(substate.View()), p)
      ensures state.trail == old(state.trail) + PaidTrail(env, old(state.View()), p)
    {
      if p.value.Moved? {
        var touched := state.TransferBalance(p.sender, p.address, p.value.amount, Mode(env.schedule), substate.touched);
        substate.touched := touched;
      }
    }

    /** The call under its checkpoint, once the value has moved. */
    method CallInside(p: Params, substate: SubstateCell, b: BuiltinRun, frame: Frame) returns (r: Finalization)
      requires Ready() && state.snapshots != []
      requires state.HeldLoaded(substate.touched)
      requires p.hasCode ==> state.Loaded({p.address})
      modifies state`cache, state`checkpoints, state`snapshots, state`level, state`trail, substate
      ensures Ready() && state.snapshots == old(state.snapshots)[..|old(state.snapshots)| - 1]
      ensures state.Popped() && state.Loaded(substate.touched)
      ensures var run := PaidCall(env, depth, staticFlag, old(state.snapshots)[|old(state.snapshots)| - 1],
                                  old(state.View()), old(substate.View()), p, b, frame);
              && state.View() == run.world && substate.View() == run.sub && r == run.result
              && state.trail == old(state.trail) + run.trail
      decreases frame, 2, 1
    {
      if p.codeAddress in env.builtins {
        r := CallBuiltin(p.gas, b);
      } else if p.hasCode {
        r := RunCode(p, substate, frame, false);
      } else {
        state.DiscardCheckpoint();
        r := Ok(p.gas, true);
      }
    }

    /** Charges and runs a built-in under the last checkpoint. */
    method CallBuiltin(gas: nat, b: BuiltinRun) returns (r: Finalization)
      requires Ready() && state.snapshots != []
      modifies state`cache, state`checkpoints, state`snapshots, state`level, state`trail
      ensures state.Popped()
      ensures Ready() && state.snapshots == old(state.snapshots)[..|old(state.snapshots)| - 1]
      ensures r == if b.cost > gas then Err(OutOfGas) else if b.accepts then Ok(gas - b.cost, true) else Err(BuiltIn)
      ensures state.View() == if r.Ok? then old(state.View()) else old(state.snapshots)[|old(state.snapshots)| - 1]
      ensures state.trail == old(state.trail) + [if r.Ok? then Left else Undone]
    {
      if b.cost <= gas {
        if !b.accepts {
          state.RevertToCheckpoint();
          r := Err(BuiltIn);
        } else {
          state.DiscardCheckpoint();
          r := Ok(gas - b.cost, true);
        }
      } else {
        state.RevertToCheckpoint();
        r := Err(OutOfGas);
      }
    }

    /** Runs code under the last checkpoint with a substate of its own, then keeps or undoes it. */
    method RunCode(p: Params, substate: SubstateCell, frame: Frame, init: bool) returns (r: Finalization)
      requires Ready() && state.snapshots != []
      requires state.HeldLoaded(substate.touched)
      requires state.Loaded({p.address})
      modifies state`cache, state`checkpoints, state`snapshots, state`level, state`trail, substate
      ensures Ready() && state.snapshots == old(state.snapshots)[..|old(state.snapshots)| - 1]
      ensures state.Popped() && state.Loaded(substate.touched)
      ensures var (inner, result) := VmRun(env, depth, staticFlag, old(state.View()), p, frame, init);
              var before := old(state.snapshots)[|old(state.snapshots)| - 1];
              && r == result
              && state.View() == Enacted(before, old(substate.View()), inner, result).world
              && substate.View() == Enacted(before, old(substate.View()), inner, result).sub
              && state.trail == old(state.trail) + Enacted(before, old(substate.View()), inner, result).trail
      decreases frame, 2, 0
    {
      var unconfirmed := new SubstateCell();
      r := ExecVm(p, unconfirmed, frame, init);
      EnactResult(r, substate, unconfirmed);
    }

    /** Creates a contract. */
    method Create(p: Params, substate: SubstateCell, frame: Frame) returns (r: Finalization)
      requires Ready()
      requires p.value.Moved? ==> p.value.amount <= Balance(state.View(), p.sender)
      requires state.Loaded(substate.touched)
      requires p.value.Moved? ==> state.Loaded({p.sender})
      modifies state`cache, state`checkpoints, state`snapshots, state`level, state`trail, substate
      ensures Ready() && state.snapshots == old(state.snapshots)
      ensures state.Grew() && state.Loaded(substate.touched)
      ensures var run := CreateRun(env, depth, staticFlag, old(state.View()), old(substate.View()), p, frame);
              && state.View() == run.world && substate.View() == run.sub && r == run.result
              && state.trail == old(state.trail) + run.trail
      ensures !Applies(r) ==> state.View() == old(state.View())
      decreases frame, 2, 2
    {
      CreateAtomic(env, depth, staticFlag, state.View(), substate.View(), p, frame);
      var taken := HasCodeOrNonceAt(p.address);
      if taken {
        return Err(OutOfGas);
      }
      if p.callType.StaticCall? || staticFlag {
        return Err(MutableCallInStaticContext);
      }
      r := CreateInside(p, substate, frame);
      CreateJoined(old(state.trail), Asked(p.address), EndowedTrail(old(state.View()), p),
                   EnactedOf(env, depth, staticFlag, old(state.View()), Endowed(env, old(state.View()), p),
                             EndowedSub(env, old(substate.View()), p), p, frame, true).trail);
    }

    lemma CreateJoined(x: seq<Event>, e: Event, y: seq<Event>, z: seq<Event>)
      ensures x + [e] + [Entered] + [e] + y + z == x + ([e, Entered, e] + y + z)
    {
    }

    /** The creation under a checkpoint of its own. */
    method CreateInside(p: Params, substate: SubstateCell, frame: Frame) returns (r: Finalization)
      requires Ready()
      requires p.value.Moved? ==> p.value.amount <= Balance(state.View(), p.sender)
      requires state.Loaded(substate.touched) && (p.value.Moved? ==> state.Loaded({p.sender}))
      modifies state`cache, state`checkpoints, state`snapshots, state`level, state`trail, substate
      ensures Ready() && state.snapshots == old(state.snapshots)
      ensures state.Grew() && state.Loaded(substate.touched)
      ensures var run := EnactedOf(env, depth, staticFlag, old(state.View()), Endowed(env, old(state.View()), p),
                                   EndowedSub(env, old(substate.View()), p), p, frame, true);
              && state.View() == run.world && substate.View() == run.sub && r == run.result
              && state.trail == old(state.trail) + [Entered] + [Asked(p.address)]
                                + EndowedTrail(old(state.View()), p) + run.trail
      decreases frame, 2, 1
    {
      state.Checkpoint();
      Endow(p, substate);
      r := RunCode(p, substate, frame, true);
    }

    /** Whether an address is taken: EIP-684. */
    method HasCodeOrNonceAt(a: Address) returns (r: bool)
      requires Ready()
      modifies state`cache, state`level, state`trail
      ensures Ready() && state.View() == old(state.View()) && state.Grew()
      ensures r == HasCodeOrNonce(state.View(), a, env.startNonce) && state.trail == old(state.trail) + [Asked(a)]
    {
      var existing := state.EnsureCached(a);
      r := existing.Some? && (existing.value.code != [] || existing.value.nonce != env.startNonce);
    }

    /** Sets up the account of a new contract, paid for by the sender. */
    method Endow(p: Params, substate: SubstateCell)
      requires Ready()
      requires p.value.Moved? ==> p.value.amount <= Balance(state.View(), p.sender)
      requires state.HeldLoaded(substate.touched) && (p.value.Moved? ==> state.HeldLoaded({p.sender}))
      requires state.AllHeld() && state.snapshots != []
      modifies state`cache, state`checkpoints, state`level, state`trail, substate`touched
      ensures state.Grew() && state.HeldLoaded(substate.touched) && p.address in state.level
      ensures Ready() && state.View() == Endowed(env, old(state.View()), p)
      ensures substate.View() == EndowedSub(env, old(substate.View()), p)
      ensures state.trail == old(state.trail) + [Asked(p.address)] + EndowedTrail(old(state.View()), p)
    {
      var nonceOffset := if env.schedule.noEmpty then 1 else 0;
      var prevBal := state.BalanceOf(p.address);
      EndowOver(p, substate, prevBal, nonceOffset);
    }

    /** Replaces the account of the contract, on top of what its address held. */
    method EndowOver(p: Params, substate: SubstateCell, prevBal: nat, nonceOffset: nat)
      requires Ready() && prevBal == Balance(state.View(), p.address)
      requires p.value.Moved? ==> p.value.amount <= Balance(state.View(), p.sender)
      requires nonceOffset == if env.schedule.noEmpty then 1 else 0
      requires state.HeldLoaded(substate.touched)
      requires p.value.Moved? ==> state.HeldLoaded({p.sender})
      modifies state`cache, state`checkpoints, state`level, state`trail, substate`touched
      ensures state.Grew() && state.HeldLoaded(substate.touched) && p.address in state.level
      ensures Ready() && state.View() == Endowed(env, old(state.View()), p)
      ensures substate.View() == EndowedSub(env, old(substate.View()), p)
      ensures state.trail == old(state.trail) + EndowedTrail(old(state.View()), p)
    {
      if p.value.Moved? {
        EndowPaid(p, substate, p.value.amount + prevBal, nonceOffset);
      } else {
        state.NewContract(p.address, prevBal, nonceOffset);
      }
    }

    method EndowPaid(p: Params, substate: SubstateCell, balance: nat, nonceOffset: nat)
      requires Ready() && p.value.Moved? && p.value.amount <= Balance(state.View(), p.sender)
      requires state.HeldLoaded(substate.touched) && state.HeldLoaded({p.sender})
      modifies state`cache, state`checkpoints, state`level, state`trail, substate`touched
      ensures state.Grew() && state.HeldLoaded(substate.touched) && p.address in state.level && Ready()
      ensures state.View() == SubBalance(old(state.View()), p.sender, p.value.amount, env.startNonce)
                                [p.address := NewBasic(balance, env.startNonce + nonceOffset)]
      ensures substate.View() == EndowedSub(env, old(substate.View()), p)
      ensures state.trail == old(state.trail) + (SubTrail(old(state.View()), p.sender, p.value.amount)
                                                 + [Replaced(p.address, Some(balance))])
    {
      PayFor(p, substate);
      state.NewContract(p.address, balance, nonceOffset);
      Joined(old(state.trail), SubTrail(old(state.View()), p.sender, p.value.amount),
             [Replaced(p.address, Some(balance))]);
    }

    /** Takes the endowment from the creator. */
    method PayFor(p: Params, substate: SubstateCell)
      requires Ready() && p.value.Moved? && p.value.amount <= Balance(state.View(), p.sender)
      requires state.HeldLoaded(substate.touched) && state.HeldLoaded({p.sender})
      modifies state`cache, state`checkpoints, state`level, state`trail, substate`touched
      ensures state.Grew() && state.HeldLoaded(substate.touched)
      ensures Ready() && state.View() == SubBalance(old(state.View()), p.sender, p.value.amount, env.startNonce)
      ensures substate.View() == EndowedSub(env, old(substate.View()), p)
      ensures state.trail == old(state.trail) + SubTrail(old(state.View()), p.sender, p.value.amount)
    {
      var touched := state.SubBalance(p.sender, p.value.amount, Mode(env.schedule), substate.touched);
      substate.touched := touched;
    }

    /** Runs the code of a frame through its externalities. */
    method ExecVm(p: Params, substate: SubstateCell, frame: Frame, init: bool) returns (r: Finalization)
      requires Ready() && substate.View() == EmptySubstate
      requires state.Loaded({p.address})
      modifies state`cache, state`checkpoints, state`snapshots, state`level, state`trail, substate
      ensures Ready() && state.snapshots == old(state.snapshots)
      ensures state.Grew() && state.Loaded(substate.touched)
      ensures var (inner, result) := VmRun(env, depth, staticFlag, old(state.View()), p, frame, init);
              && state.View() == inner.world && substate.View() == inner.sub && r == result
              && state.trail == old(state.trail) + inner.trail
      decreases frame, 1
    {
      var ext := new Externalities(state, env, substate,
                                   Context(p.address, p.sender, depth, staticFlag || p.callType.StaticCall?));
      ghost var start := Progress(state.View(), EmptySubstate, 0, []);
      ext.Exec(frame.requests);
      r := ext.Settle(frame.outcome, init, Requests(env, ext.ctx, start, frame.requests));
    }

    /** Keeps or undoes what the frame did. */
    method EnactResult(result: Finalization, substate: SubstateCell, unconfirmed: SubstateCell)
      requires Ready() && state.snapshots != [] && substate != unconfirmed
      requires state.HeldLoaded(substate.touched) && state.Loaded(unconfirmed.touched)
      modifies state`cache, state`checkpoints, state`snapshots, state`level, state`trail, substate
      ensures state.Popped() && state.Loaded(substate.touched)
      ensures Ready() && state.snapshots == old(state.snapshots)[..|old(state.snapshots)| - 1]
      ensures state.View() == if Applies(result) then old(state.View())
                              else old(state.snapshots)[|old(state.snapshots)| - 1]
      ensures substate.View() == if Applies(result) then Accrue(old(substate.View()), unconfirmed.View())
                                 else old(substate.View())
      ensures state.trail == old(state.trail) + [if Applies(result) then Left else Undone]
    {
      match result {
        case Ok(_, applyState) =>
          if applyState {
            state.DiscardCheckpoint();
            substate.AccrueFrom(unconfirmed);
          } else {
            state.RevertToCheckpoint();
          }
        case Err(error) =>
          if error.Internal? {
            state.DiscardCheckpoint();
            substate.AccrueFrom(unconfirmed);
          } else {
            state.RevertToCheckpoint();
          }
      }
    }
  }

  /** What running code may ask for. */
  class Externalities {
    const state: State
    const env: Env
    const substate: SubstateCell
    const ctx: Context
    /** What happened before. */
    ghost const from: seq<Event>

    ghost predicate Ready()
      reads state, state.backend, state.backend.accountCache
    {
      state.Valid() && state.accountStartNonce == env.startNonce
    }

    /** Whether state and substate are where `s` says. */
    ghost predicate At(s: Progress)
      reads state, substate
    {
      state.View() == s.world && substate.View() == s.sub && state.trail == from + s.trail
    }

    constructor (state: State, env: Env, substate: SubstateCell, ctx: Context)
      ensures this.state == state && this.env == env && this.substate == substate && this.ctx == ctx
      ensures from == state.trail
    {
      this.state, this.env, this.substate, this.ctx, from := state, env, substate, ctx, state.trail;
    }

    /** The progress after one more event. */
    ghost function Then(s: Progress, e: Event): Progress {
      s.(trail := s.trail + [e])
    }

    /** Answers the requests of a run in order. */
    method Exec(requests: seq<Request>)
      requires Ready() && state.trail == from
      requires state.Loaded(substate.touched) && state.Loaded({ctx.address})
      modifies state`cache, state`checkpoints, state`snapshots, state`level, state`trail, substate
      ensures Ready() && state.snapshots == old(state.snapshots)
      ensures state.Grew() && state.Loaded(substate.touched)
      ensures At(Requests(env, ctx, Progress(old(state.View()), old(substate.View()), 0, []), requests))
      decreases requests
    {
      ghost var start := Progress(state.View(), substate.View(), 0, []);
      assert from + [] == from;
      var i := 0;
      while i < |requests|
        invariant 0 <= i <= |requests|
        invariant Ready() && state.snapshots == old(state.snapshots)
        invariant state.Grew() && state.Loaded(substate.touched)
        invariant At(Requests(env, ctx, start, requests[..i]))
      {
        ghost var s := Requests(env, ctx, start, requests[..i]);
        assert requests[..i + 1][..i] == requests[..i];
        Answer(requests[i], s);
        i := i + 1;
      }
      assert requests[..|requests|] == requests;
    }

    method Answer(r: Request, ghost s: Progress)
      requires Ready() && At(s)
      requires state.Loaded(substate.touched) && state.Loaded({ctx.address})
      modifies state`cache, state`checkpoints, state`snapshots, state`level, state`trail, substate
      ensures Ready() && state.snapshots == old(state.snapshots)
      ensures state.Grew() && state.Loaded(substate.touched)
      ensures At(Requested(env, ctx, s, r))
      decreases r, 0
    {
      match r {
        case PutStorage(key, value) =>
          if !ctx.isStatic {
            state.SetStorage(ctx.address, key, value);
            Joined(from, s.trail, StorageTrail(s.world, ctx.address, key, value));
          }
        case PutLog(topics, data) =>
          if !ctx.isStatic {
            substate.logs := substate.logs + [LogEntry(ctx.address, topics, data)];
          }
        case SelfDestruct(refund) =>
          if !ctx.isStatic {
            Suicide(refund, s);
          }
        case IncSstoreClears =>
          substate.sstoreClears := substate.sstoreClears + 1;
        case Look(address) =>
          var _ := state.EnsureCached(address);
          Joined(from, s.trail, [Asked(address)]);
        case CallOut(kind, target, amount, gas, builtin, child) =>
          var balance := state.BalanceOf(ctx.address);
          Joined(from, s.trail, [Asked(ctx.address)]);
          if ctx.depth < env.schedule.maxDepth && (kind.DelegateCall? || kind.StaticCall? || amount <= balance) {
            CallContract(kind, target, amount, gas, builtin, child, s);
          }
        case CreateOut(address, amount, gas, child) =>
          var balance := state.BalanceOf(ctx.address);
          Joined(from, s.trail, [Asked(ctx.address)]);
          if amount <= balance && ctx.depth < env.schedule.maxDepth {
            CreateContract(address, amount, gas, child, s);
          }
      }
    }

    method CallContract(kind: CallType, target: Address, amount: nat, gas: nat, builtin: BuiltinRun, child: Frame,
                        ghost s: Progress)
      requires Ready() && At(Then(s, Asked(ctx.address))) && CanCall(env, ctx, s.world, kind, amount)
      requires state.Loaded(substate.touched) && state.Loaded({ctx.address})
      modifies state`cache, state`checkpoints, state`snapshots, state`level, state`trail, substate
      ensures Ready() && state.snapshots == old(state.snapshots)
      ensures state.Grew() && state.Loaded(substate.touched)
      ensures At(Requested(env, ctx, s, CallOut(kind, target, amount, gas, builtin, child)))
      decreases child, 6
    {
      var hasCode := state.HasCode(target);
      Joined(from, s.trail + [Asked(ctx.address)], [Asked(target)]);
      CallTarget(kind, target, amount, gas, hasCode, builtin, child, s);
    }

    method CallTarget(kind: CallType, target: Address, amount: nat, gas: nat, hasCode: bool, builtin: BuiltinRun,
                      child: Frame, ghost s: Progress)
      requires Ready() && At(Then(Then(s, Asked(ctx.address)), Asked(target)))
      requires CanCall(env, ctx, s.world, kind, amount)
      requires hasCode == (CodeOf(s.world, target) != []) && (hasCode ==> state.Loaded({target}))
      requires state.Loaded(substate.touched) && state.Loaded({ctx.address})
      modifies state`cache, state`checkpoints, state`snapshots, state`level, state`trail, substate
      ensures Ready() && state.snapshots == old(state.snapshots)
      ensures state.Grew() && state.Loaded(substate.touched)
      ensures At(Requested(env, ctx, s, CallOut(kind, target, amount, gas, builtin, child)))
      decreases child, 5
    {
      var p := OutgoingParams(kind, target, amount, gas, hasCode, s.world);
      ghost var run := CallRun(env, ctx.depth + 1, ctx.isStatic, state.View(), substate.View(), p, builtin, child);
      CallFrame(p, builtin, child, run);
      CallRequested(s, kind, target, amount, gas, builtin, child, run);
      OutJoined(s.trail, Asked(ctx.address), Asked(target), run.trail);
    }

    lemma CallRequested(s: Progress, kind: CallType, target: Address, amount: nat, gas: nat, builtin: BuiltinRun,
                        child: Frame, run: Run)
      requires CanCall(env, ctx, s.world, kind, amount)
      requires var p := CallParams(ctx, s.world, kind, target, amount, gas);
               run == CallRun(env, ctx.depth + 1, ctx.isStatic, s.world, s.sub, p, builtin, child)
      ensures var s' := Requested(env, ctx, s, CallOut(kind, target, amount, gas, builtin, child));
              && s'.world == run.world && s'.sub == run.sub
              && s'.trail == s.trail + [Asked(ctx.address), Asked(target)] + run.trail
    {
    }

    lemma OutJoined(x: seq<Event>, e: Event, f: Event, z: seq<Event>)
      ensures from + (x + [e] + [f]) + z == from + (x + [e, f] + z)
    {
    }

    /** Calls one level deeper. */
    method CallFrame(p: Params, builtin: BuiltinRun, child: Frame, ghost run: Run)
      requires Ready() && (p.value.Moved? ==> p.value.amount <= Balance(state.View(), p.sender))
      requires run == CallRun(env, ctx.depth + 1, ctx.isStatic, state.View(), substate.View(), p, builtin, child)
      requires state.Loaded(substate.touched)
      requires (p.value.Moved? ==> state.Loaded({p.sender})) && (p.hasCode ==> state.Loaded({p.address}))
      modifies state`cache, state`checkpoints, state`snapshots, state`level, state`trail, substate
      ensures state.Grew() && state.Loaded(substate.touched)
      ensures Ready() && state.snapshots == old(state.snapshots)
      ensures state.View() == run.world && substate.View() == run.sub && state.trail == old(state.trail) + run.trail
      decreases child, 4
    {
      var ex := new Executive.FromParent(state, env, ctx.depth, ctx.isStatic);
      var _ := ex.Call(p, substate, builtin, child);
    }

    /** The sender, receiver and value of an outgoing call. */
    method OutgoingParams(kind: CallType, target: Address, amount: nat, gas: nat, hasCode: bool, ghost w: World)
      returns (p: Params)
      requires hasCode == (CodeOf(w, target) != []) && CanCall(env, ctx, w, kind, amount)
      ensures p == CallParams(ctx, w, kind, target, amount, gas) && p.hasCode == hasCode
      ensures p.value.Moved? ==> p.sender == ctx.address && p.value.amount <= Balance(w, ctx.address)
      ensures p.address == ctx.address || p.address == target
    {
      p := match kind
        case CallCode => Params(target, ctx.address, ctx.address, gas, Moved(amount), hasCode, kind)
        case DelegateCall => Params(target, ctx.address, ctx.sender, gas, Apparent(amount), hasCode, kind)
        case StaticCall => Params(target, target, ctx.address, gas, Moved(0), hasCode, kind)
        case _ => Params(target, target, ctx.address, gas, Moved(amount), hasCode, CallType.Call);
    }

    method CreateContract(address: Address, amount: nat, gas: nat, child: Frame, ghost s: Progress)
      requires Ready() && At(Then(s, Asked(ctx.address)))
      requires amount <= Balance(s.world, ctx.address) && ctx.depth < env.schedule.maxDepth
      requires state.Loaded(substate.touched) && state.Loaded({ctx.address})
      modifies state`cache, state`checkpoints, state`snapshots, state`level, state`trail, substate
      ensures state.Grew() && state.Loaded(substate.touched)
      ensures Ready() && state.snapshots == old(state.snapshots)
      ensures At(Requested(env, ctx, s, CreateOut(address, amount, gas, child)))
      decreases child, 5
    {
      Announce();
      Joined(from, s.trail + [Asked(ctx.address)], AnnouncedTrail(env, ctx));
      CreateTarget(address, amount, gas, child, s);
    }

    /** Tries the creation that was announced. */
    method CreateTarget(address: Address, amount: nat, gas: nat, child: Frame, ghost s: Progress)
      requires Ready() && state.View() == Announced(env, ctx, s.world) && substate.View() == s.sub
      requires state.trail == from + (s.trail + [Asked(ctx.address)] + AnnouncedTrail(env, ctx))
      requires amount <= Balance(s.world, ctx.address) && ctx.depth < env.schedule.maxDepth
      requires state.Loaded(substate.touched) && state.Loaded({ctx.address})
      modifies state`cache, state`checkpoints, state`snapshots, state`level, state`trail, substate
      ensures state.Grew() && state.Loaded(substate.touched)
      ensures Ready() && state.snapshots == old(state.snapshots)
      ensures At(Requested(env, ctx, s, CreateOut(address, amount, gas, child)))
      decreases child, 4
    {
      var p := Params(address, address, ctx.address, gas, Moved(amount), true, NoCall);
      ghost var run := CreateRun(env, ctx.depth + 1, ctx.isStatic, state.View(), substate.View(), p, child);
      CreateFrame(p, child, run);
      CreateRequested(s, address, amount, gas, child, run);
      Joined(from, s.trail + [Asked(ctx.address)] + AnnouncedTrail(env, ctx), run.trail);
    }

    lemma CreateRequested(s: Progress, address: Address, amount: nat, gas: nat, child: Frame, run: Run)
      requires amount <= Balance(s.world, ctx.address) && ctx.depth < env.schedule.maxDepth
      requires var p := Params(address, address, ctx.address, gas, Moved(amount), true, NoCall);
               run == CreateRun(env, ctx.depth + 1, ctx.isStatic, Announced(env, ctx, s.world), s.sub, p, child)
      ensures var s' := Requested(env, ctx, s, CreateOut(address, amount, gas, child));
              && s'.world == run.world
              && s'.sub == (if run.result.Ok? && run.result.applyState
                            then run.sub.(created := run.sub.created + [address]) else run.sub)
              && s'.trail == s.trail + [Asked(ctx.address)] + AnnouncedTrail(env, ctx) + run.trail
    {
    }

    /** Creates the contract one level deeper, and reports it when the creation applies. */
    method CreateFrame(p: Params, child: Frame, ghost run: Run)
      requires Ready() && (p.value.Moved? ==> p.value.amount <= Balance(state.View(), p.sender))
      requires run == CreateRun(env, ctx.depth + 1, ctx.isStatic, state.View(), substate.View(), p, child)
      requires state.Loaded(substate.touched)
      requires p.value.Moved? ==> state.Loaded({p.sender})
      modifies state`cache, state`checkpoints, state`snapshots, state`level, state`trail, substate
      ensures state.Grew() && state.Loaded(substate.touched)
      ensures Ready() && state.snapshots == old(state.snapshots)
      ensures state.View() == run.world && state.trail == old(state.trail) + run.trail
      ensures substate.View() == if run.result.Ok? && run.result.applyState
                                 then run.sub.(created := run.sub.created + [p.address]) else run.sub
      decreases child, 3
    {
      var ex := new Executive.FromParent(state, env, ctx.depth, ctx.isStatic);
      var r := ex.Create(p, substate, child);
      if r.Ok? && r.applyState {
        substate.created := substate.created + [p.address];
      }
    }

    /** Raises the creator's nonce. */
    method Announce()
      requires Ready()
      modifies state`cache, state`checkpoints, state`level, state`trail
      ensures state.Grew()
      ensures Ready() && state.View() == Announced(env, ctx, old(state.View()))
      ensures state.trail == old(state.trail) + AnnouncedTrail(env, ctx)
    {
      if !ctx.isStatic {
        if !env.schedule.eip86 || ctx.address != UNSIGNED_SENDER {
          state.IncNonce(ctx.address);
        }
      }
    }

    method Suicide(refund: Address, ghost s: Progress)
      requires Ready() && At(s) && !ctx.isStatic
      requires state.Loaded(substate.touched) && state.Loaded({ctx.address})
      modifies state`cache, state`checkpoints, state`snapshots, state`level, state`trail, substate
      ensures state.Grew() && state.Loaded(substate.touched)
      ensures Ready() && state.snapshots == old(state.snapshots)
      ensures At(Destructed(env, ctx, s, refund))
    {
      var balance := state.BalanceOf(ctx.address);
      Joined(from, s.trail, [Asked(ctx.address)]);
      Bequeath(refund, balance, s);
      substate.suicides := substate.suicides + {ctx.address};
    }

    /** Moves the balance to the heir, or burns it when that is the account itself. */
    method Bequeath(refund: Address, balance: nat, ghost s: Progress)
      requires Ready() && At(Then(s, Asked(ctx.address))) && balance == Balance(s.world, ctx.address)
      requires state.Loaded(substate.touched) && state.Loaded({ctx.address})
      modifies state`cache, state`checkpoints, state`level, state`trail, substate`touched
      ensures state.Grew() && state.Loaded(substate.touched) && Ready()
      ensures var s' := Destructed(env, ctx, s, refund);
              && state.View() == s'.world && substate.touched == s'.sub.touched && state.trail == from + s'.trail
    {
      if ctx.address == refund {
        var _ := state.SubBalance(ctx.address, balance, NoEmpty, {});
        Joined(from, s.trail + [Asked(ctx.address)], SubTrail(s.world, ctx.address, balance));
      } else {
        var touched := state.TransferBalance(ctx.address, refund, balance, Mode(env.schedule), substate.touched);
        Joined(from, s.trail + [Asked(ctx.address)],
               TransferTrail(s.world, ctx.address, refund, balance, Mode(env.schedule), env.startNonce));
        substate.touched := touched;
      }
    }

    /** Ends the run, storing the code that a creation returned when it is paid for. */
    method Settle(outcome: VmResult, init: bool, ghost s: Progress) returns (r: Finalization)
      requires Ready() && At(s)
      modifies state`cache, state`checkpoints, state`snapshots, state`level, state`trail
      ensures state.Grew()
      ensures Ready() && state.snapshots == old(state.snapshots)
      ensures var (inner, result) := Settled(env, ctx, s, outcome, init);
              At(inner) && r == result
    {
      match outcome {
        case Known(gasLeft) => r := Ok(gasLeft, true);
        case Failed(error) => r := Err(error);
        case NeedsReturn(gasLeft, data, applyState) =>
          if init && applyState {
            var returnCost := |data| * env.schedule.createDataGas;
            if returnCost > gasLeft || |data| > env.schedule.createDataLimit {
              r := if env.schedule.exceptionalFailedCodeDeposit then Err(OutOfGas) else Ok(gasLeft, true);
            } else {
              state.InitCode(ctx.address, data);
              Joined(from, s.trail, [Fetched(ctx.address)]);
              r := Ok(gasLeft - returnCost, true);
            }
          } else {
            r := Ok(gasLeft, applyState);
          }
      }
    }
  }
}
