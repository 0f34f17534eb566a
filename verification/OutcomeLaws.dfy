/** What an accepted transaction comes to, told from the accounts it starts on: who has what afterwards, where its code
    starts, what a creation leaves, which error a refusal names and what the report says. */
module OutcomeLaws {
  import opened Types
  import opened Accounts
  import opened Vm
  import opened Execution
  import opened ExecutionLaws
  import opened CallLaws
  import opened Transaction
  import opened TransactionLaws

  // ---------------------------------------------------------------------------------------
  // Price and refusal

  /** A transaction pays a fixed price for its kind, one price for each zero byte of its data and another for each other
      byte. */
  lemma {:induction false} BaseGasExactly(s: Schedule, t: Transaction)
    ensures BaseGas(s, t) ==
            (if t.action.CreateContract? then s.txCreateGas else s.txGas)
            + s.txDataZeroGas * multiset(t.data)[0] + s.txDataNonZeroGas * (|t.data| - multiset(t.data)[0])
  {
    DataGasExactly(s, t.data);
  }

  lemma {:induction false} DataGasExactly(s: Schedule, data: Bytes)
    ensures multiset(data)[0] <= |data|
    ensures DataGas(s, data) ==
            s.txDataZeroGas * multiset(data)[0] + s.txDataNonZeroGas * (|data| - multiset(data)[0])
  {
    if data != [] {
      var last := |data| - 1;
      DataGasExactly(s, data[..last]);
      assert data == data[..last] + [data[last]];
      var zeros := multiset(data[..last])[0];
      OneMore(s.txDataZeroGas, zeros);
      OneMore(s.txDataNonZeroGas, last - zeros);
    }
  }

  lemma OneMore(price: nat, n: nat)
    ensures price * (n + 1) == price * n + price
  {
  }

  /** A refusal names the first of five things that is wrong, in this order: too little gas for the base price, no
      sender where dust is removed, a nonce that is not the sender's, no room in the block, and too little money. */
  lemma RefusedFor(env: Env, info: BlockInfo, w: World, t: Transaction, checkNonce: bool)
    ensures var noGas := t.gas < BaseGas(env.schedule, t);
            var noSender := checkNonce && !t.isUnsigned && !env.schedule.killDust.Off? && t.sender !in w;
            var wrongNonce := checkNonce && t.nonce != if t.sender in w then w[t.sender].nonce else env.startNonce;
            var noRoom := info.gasLimit < info.gasUsed + t.gas;
            var noMoney := Balance(w, t.sender) < t.gas * t.gasPrice + t.value;
            var r := Rejection(env, info, w, t, checkNonce);
            && (r == Some(NotEnoughBaseGas) <==> noGas)
            && (r == Some(SenderMustExist) <==> !noGas && noSender)
            && (r == Some(InvalidNonce) <==> !noGas && !noSender && wrongNonce)
            && (r == Some(BlockGasLimitReached) <==> !noGas && !noSender && !wrongNonce && noRoom)
            && (r == Some(NotEnoughCash) <==> !noGas && !noSender && !wrongNonce && !noRoom && noMoney)
            && (r == None <==> !noGas && !noSender && !wrongNonce && !noRoom && !noMoney)
  {
  }

  // ---------------------------------------------------------------------------------------
  // Refunds and reports

  /** Nothing is earned back without a report; one more cleared slot earns the price of a cleared slot, and one more
      destroyed account the price of a destruction. */
  lemma RefundsEarned(s: Schedule, run: Run, run': Run, a: Address)
    ensures run.sub.sstoreClears == 0 && run.sub.suicides == {} ==> RefundsAsked(s, run) == 0
    ensures run'.sub.sstoreClears == run.sub.sstoreClears + 1 && run'.sub.suicides == run.sub.suicides ==>
              RefundsAsked(s, run') == RefundsAsked(s, run) + s.sstoreRefundGas
    ensures && run'.sub.sstoreClears == run.sub.sstoreClears
            && a !in run.sub.suicides && run'.sub.suicides == run.sub.suicides + {a} ==>
              RefundsAsked(s, run') == RefundsAsked(s, run) + s.suicideRefundGas
  {
    if run.sub.sstoreClears == 0 && run.sub.suicides == {} {
      assert s.sstoreRefundGas * run.sub.sstoreClears == 0 && s.suicideRefundGas * |run.sub.suicides| == 0;
    }
    OneMore(s.sstoreRefundGas, run.sub.sstoreClears);
    OneMore(s.suicideRefundGas, |run.sub.suicides|);
  }

  /** A report has an exception exactly when the run does not apply: the error of a failed run, or that it was reverted.
      A run that applies reports its logs and contracts. */
  lemma ReportExactly(env: Env, info: BlockInfo, t: Transaction, run: Run)
    requires GasLeft(run.result) <= t.gas
    ensures var report := Report(env, info, t, run);
            && (report == Refused(InternalError) <==> run.result == Err(Internal))
            && (report.Refused? ==> report.error == InternalError)
            && (report.Done? ==>
                  && report.executed.gas == t.gas
                  && report.executed.exception ==
                       (if run.result.Err? then Some(run.result.error)
                        else if run.result.applyState then None else Some(Reverted))
                  && (report.executed.exception.None? ==>
                        report.executed.logs == run.sub.logs && report.executed.contractsCreated == run.sub.created))
  {
  }

  // ---------------------------------------------------------------------------------------
  // Calls

  /** The accounts that `w` becomes when the sender has paid for all the gas and sent the value to `to`. */
  ghost predicate Sent(env: Env, w: World, w': World, t: Transaction, price: nat, value: nat, to: Address) {
    && (forall a :: Balance(w', a) ==
          Balance(w, a) - (if a == t.sender then price + value else 0) + (if a == to then value else 0))
    && (forall a :: Nonce(w', a, env.startNonce) ==
          Nonce(w, a, env.startNonce) + (if a == t.sender && !(env.schedule.eip86 && t.isUnsigned) then 1 else 0))
    && (forall a :: CodeOf(w', a) == CodeOf(w, a))
    && (forall a, k :: StorageAt(w', a, k) == StorageAt(w, a, k))
  }

  lemma PrepaidSends(env: Env, w: World, t: Transaction)
    requires t.value + t.gas * t.gasPrice <= Balance(w, t.sender)
    ensures Sent(env, w, Prepaid(env, w, t), t, t.gas * t.gasPrice, 0, t.sender)
    ensures t.value <= Balance(Prepaid(env, w, t), t.sender)
  {
    PriceTaken(env, w, t, t.gas * t.gasPrice);
  }

  lemma PriceTaken(env: Env, w: World, t: Transaction, price: nat)
    requires price <= Balance(w, t.sender)
    ensures var w1 := if RaisesNonce(env, t) then IncNonce(w, t.sender, env.startNonce) else w;
            && price <= Balance(w1, t.sender)
            && Sent(env, w, SubBalance(w1, t.sender, price, env.startNonce), t, price, 0, t.sender)
  {
  }

  lemma TransferSends(env: Env, w: World, w1: World, t: Transaction, price: nat, to: Address, mode: CleanupMode)
    requires Sent(env, w, w1, t, price, 0, t.sender) && t.value <= Balance(w1, t.sender)
    requires price + t.value <= Balance(w, t.sender)
    ensures Sent(env, w, Transfer(w1, t.sender, to, t.value, mode, env.startNonce), t, price, t.value, to)
  {
    TransferMoves(w1, t.sender, to, t.value, mode, env.startNonce);
  }

  /** A call to an address without code costs the base price and moves the value: the sender has less by both, the
      receiver more by the value and the author by the price. No other account changes, the sender's nonce is one
      higher, and the report says so. */
  lemma {:induction false} TransferTransaction(env: Env, info: BlockInfo, w: World, t: Transaction, checkNonce: bool,
                                               o: Oracle)
    requires Rejection(env, info, w, t, checkNonce).None? && t.action.CallContract?
    requires t.action.to !in env.builtins && CodeOf(w, t.action.to) == []
    ensures var run := OuterRun(env, w, t, o);
            var used := BaseGas(env.schedule, t);
            && run.result == Ok(t.gas - used, true)
            && Report(env, info, t, run) == Done(Executed(None, t.gas, used, 0, info.gasUsed + used, [], []))
            && (forall a :: Balance(Credited(env, info, t, run), a) ==
                  Balance(w, a) - (if a == t.sender then t.value + used * t.gasPrice else 0)
                                + (if a == t.action.to then t.value else 0)
                                + (if a == info.author then used * t.gasPrice else 0))
            && (forall a :: Nonce(Credited(env, info, t, run), a, env.startNonce) ==
                  Nonce(w, a, env.startNonce)
                  + (if a == t.sender && !(env.schedule.eip86 && t.isUnsigned) then 1 else 0))
            && (forall a :: CodeOf(Credited(env, info, t, run), a) == CodeOf(w, a))
            && (forall a, k :: StorageAt(Credited(env, info, t, run), a, k) == StorageAt(w, a, k))
  {
    var run := UncodedTransaction(env, w, t, o);
    var used := BaseGas(env.schedule, t);
    NothingEarned(env.schedule, t, run);
    CreditedSends(env, info, w, run.world, t, used, t.action.to);
  }

  lemma UncodedTransaction(env: Env, w: World, t: Transaction, o: Oracle) returns (run: Run)
    requires BaseGas(env.schedule, t) <= t.gas && t.value + t.gas * t.gasPrice <= Balance(w, t.sender)
    requires t.action.CallContract? && t.action.to !in env.builtins && CodeOf(w, t.action.to) == []
    ensures run == OuterRun(env, w, t, o) && run.result == Ok(t.gas - BaseGas(env.schedule, t), true)
    ensures Sent(env, w, run.world, t, t.gas * t.gasPrice, t.value, t.action.to)
    ensures run.sub == EmptySubstate.(touched := run.sub.touched)
  {
    PrepaidSends(env, w, t);
    var w1 := Prepaid(env, w, t);
    assert CodeOf(w1, t.action.to) == [];
    var p := OuterParams(env, w1, t);
    UncodedRun(env, 0, false, w1, PrepaidSub(env, t), p, o.builtin, o.frame);
    PlainCallMoves(env, 0, false, w1, PrepaidSub(env, t), p, o.builtin, o.frame);
    TransferSends(env, w, w1, t, t.gas * t.gasPrice, t.action.to, Mode(env.schedule));
    run := OuterRun(env, w, t, o);
  }

  lemma NothingEarned(s: Schedule, t: Transaction, run: Run)
    requires run.result.Ok? && run.result.gasLeft <= t.gas && run.sub == EmptySubstate.(touched := run.sub.touched)
    ensures RefundedGas(s, t, run) == 0 && ChargedGas(s, t, run) == t.gas - run.result.gasLeft
  {
    assert s.sstoreRefundGas * 0 == 0 && s.suicideRefundGas * 0 == 0;
    assert |run.sub.suicides| == 0;
  }

  /** Getting back the price of the gas that was not used. */
  lemma CreditedSends(env: Env, info: BlockInfo, w: World, w1: World, t: Transaction, used: nat, to: Address)
    requires used <= t.gas && t.value + t.gas * t.gasPrice <= Balance(w, t.sender)
    requires Sent(env, w, w1, t, t.gas * t.gasPrice, t.value, to)
    ensures var w' := CreditedFor(env, info, t, w1, used);
            && (forall a :: Balance(w', a) ==
                  Balance(w, a) - (if a == t.sender then t.value + used * t.gasPrice else 0)
                                + (if a == to then t.value else 0)
                                + (if a == info.author then used * t.gasPrice else 0))
            && OnlyBalances(w1, w', env.startNonce)
  {
    Distributes(t.gas, used, t.gasPrice);
    CreditedToAll(env, info, t, w1, used);
    CreditsOnlyBalances(w1, t.sender, RefundValue(t, used), info.author, FeesValue(t, used), Mode(env.schedule),
                        env.startNonce);
  }

  lemma CreditsOnlyBalances(w: World, sender: Address, refund: nat, author: Address, fees: nat, mode: CleanupMode,
                            start: nat)
    ensures OnlyBalances(w, AddBalance(AddBalance(w, sender, refund, NoEmpty, start), author, fees, mode, start), start)
  {
    var w1 := AddBalance(w, sender, refund, NoEmpty, start);
    assert OnlyBalances(w, w1, start);
    assert OnlyBalances(w1, AddBalance(w1, author, fees, mode, start), start);
  }

  /** The code of a called contract starts on accounts where the sender has paid for all the gas and the contract has
      received the value; it runs as the contract, called by the sender, at depth zero. When it keeps its changes they
      stand, otherwise only the gas is paid for. */
  lemma {:induction false} CallTransaction(env: Env, w: World, t: Transaction, o: Oracle) returns (start: World)
    requires BaseGas(env.schedule, t) <= t.gas && t.value + t.gas * t.gasPrice <= Balance(w, t.sender)
    requires t.action.CallContract? && t.action.to !in env.builtins && CodeOf(w, t.action.to) != []
    ensures Sent(env, w, start, t, t.gas * t.gasPrice, t.value, t.action.to)
    ensures var run := OuterRun(env, w, t, o);
            var inner := Requests(env, Context(t.action.to, t.sender, 0, false),
                                  Progress(start, EmptySubstate, 0, []), o.frame.requests);
            && (if Keeps(o.frame.outcome)
                then && run.world == inner.world && run.burned == inner.burned
                     && run.sub.logs == inner.sub.logs && run.sub.created == inner.sub.created
                     && run.sub.suicides == inner.sub.suicides && run.sub.sstoreClears == inner.sub.sstoreClears
                     && inner.sub.touched <= run.sub.touched
                else && Sent(env, w, run.world, t, t.gas * t.gasPrice, 0, t.sender) && run.burned == 0
                     && run.sub == EmptySubstate.(touched := run.sub.touched))
            && (run.result.Err? <==> o.frame.outcome.Failed?)
            && (run.result.Err? ==> run.result.error == o.frame.outcome.error)
            && (run.result.Ok? ==> run.result.gasLeft == o.frame.outcome.gasLeft)
  {
    PrepaidSends(env, w, t);
    start := CodedFrame(env, w, Prepaid(env, w, t), PrepaidSub(env, t), t, o, t.gas * t.gasPrice);
  }

  lemma CodedFrame(env: Env, w: World, w1: World, sub: Substate, t: Transaction, o: Oracle, price: nat)
    returns (start: World)
    requires BaseGas(env.schedule, t) <= t.gas && t.value <= Balance(w1, t.sender)
    requires price + t.value <= Balance(w, t.sender) && Sent(env, w, w1, t, price, 0, t.sender)
    requires t.action.CallContract? && t.action.to !in env.builtins && CodeOf(w, t.action.to) != []
    ensures Sent(env, w, start, t, price, t.value, t.action.to)
    ensures var run := OuterFrame(env, w1, sub, t, o.builtin, o.frame);
            var inner := Requests(env, Context(t.action.to, t.sender, 0, false),
                                  Progress(start, EmptySubstate, 0, []), o.frame.requests);
            && (if Keeps(o.frame.outcome)
                then && run.world == inner.world && run.burned == inner.burned
                     && run.sub.logs == sub.logs + inner.sub.logs && run.sub.created == sub.created + inner.sub.created
                     && run.sub.suicides == sub.suicides + inner.sub.suicides
                     && run.sub.sstoreClears == sub.sstoreClears + inner.sub.sstoreClears
                     && inner.sub.touched <= run.sub.touched
                else && run.world == w1 && run.burned == 0 && run.sub == sub.(touched := run.sub.touched))
            && sub.touched <= run.sub.touched
            && (run.result.Err? <==> o.frame.outcome.Failed?)
            && (run.result.Err? ==> run.result.error == o.frame.outcome.error)
            && (run.result.Ok? ==> run.result.gasLeft == o.frame.outcome.gasLeft)
  {
    assert CodeOf(w1, t.action.to) != [];
    var p := OuterParams(env, w1, t);
    CodeCallRuns(env, 0, false, w1, sub, p, o.builtin, o.frame);
    CallTouches(env, 0, false, w1, sub, p, o.builtin, o.frame);
    TransferSends(env, w, w1, t, price, t.action.to, Mode(env.schedule));
    start := Paid(env, w1, p);
  }

  /** A call to a built-in moves the value when the gas covers its price and it accepts its input; otherwise only the
      gas is paid for. */
  lemma {:induction false} BuiltinTransaction(env: Env, w: World, t: Transaction, o: Oracle)
    requires BaseGas(env.schedule, t) <= t.gas && t.value + t.gas * t.gasPrice <= Balance(w, t.sender)
    requires t.action.CallContract? && t.action.to in env.builtins
    ensures var run := OuterRun(env, w, t, o);
            var gas := t.gas - BaseGas(env.schedule, t);
            if o.builtin.cost <= gas && o.builtin.accepts
            then run.result == Ok(gas - o.builtin.cost, true) &&
                 Sent(env, w, run.world, t, t.gas * t.gasPrice, t.value, t.action.to)
            else run.result == Err(if o.builtin.cost > gas then OutOfGas else BuiltIn) &&
                 Sent(env, w, run.world, t, t.gas * t.gasPrice, 0, t.sender)
  {
    PrepaidSends(env, w, t);
    var w1 := Prepaid(env, w, t);
    var p := OuterParams(env, w1, t);
    UncodedRun(env, 0, false, w1, PrepaidSub(env, t), p, o.builtin, o.frame);
    TransferSends(env, w, w1, t, t.gas * t.gasPrice, t.action.to, Mode(env.schedule));
  }

  // ---------------------------------------------------------------------------------------
  // Creations

  /** The code of a new contract starts on accounts where the sender has paid for all the gas and for the endowment, and
      the contract has the endowment on top of what its address held, no code and no storage. What it leaves behind goes
      by how it ends. At a taken address only the gas is paid for. */
  lemma {:induction false} CreateTransaction(env: Env, w: World, t: Transaction, o: Oracle)
    returns (paid: World, start: World)
    requires BaseGas(env.schedule, t) <= t.gas && t.value + t.gas * t.gasPrice <= Balance(w, t.sender)
    requires t.action.CreateContract?
    ensures Sent(env, w, paid, t, t.gas * t.gasPrice, 0, t.sender)
    ensures var a := t.action.address;
            && a in start
            && start[a] == Account(Balance(paid, a) + t.value,
                                   env.startNonce + (if env.schedule.noEmpty then 1 else 0), [], map[])
            && (a != t.sender ==> Balance(start, t.sender) == Balance(paid, t.sender) - t.value)
            && (forall b :: b != a && b != t.sender ==> Get(start, b) == Get(paid, b))
    ensures var run := OuterRun(env, w, t, o);
            var a := t.action.address;
            if HasCodeOrNonce(paid, a, env.startNonce) then
              && run.world == paid && run.result == Err(OutOfGas)
              && run.sub == EmptySubstate.(touched := if Tracks(env.schedule) then {t.sender} else {})
            else
              var inner := Requests(env, Context(a, t.sender, 0, false), Progress(start, EmptySubstate, 0, []),
                                    o.frame.requests);
              && run.result == CreationResult(env, o.frame.outcome)
              && LeftBehind(env, paid, inner.world, run.world, a, o.frame.outcome)
              && HandedOver(EmptySubstate, inner.sub, run.sub, Applies(run.result),
                            if Tracks(env.schedule) then {t.sender} else {}, [])
  {
    PrepaidSends(env, w, t);
    paid := Prepaid(env, w, t);
    var p := OuterParams(env, paid, t);
    EndowedExactly(env, paid, p);
    start := Endowed(env, paid, p);
    if HasCodeOrNonce(paid, p.address, env.startNonce) {
      CreationRefused(env, 0, false, paid, PrepaidSub(env, t), p, o.frame);
    } else {
      CreationRuns(env, 0, paid, PrepaidSub(env, t), p, o.frame);
    }
  }

  // ---------------------------------------------------------------------------------------
  // Removals

  /** Paying for the gas touches the sender, whatever comes of the run. */
  lemma {:induction false} SenderTouched(env: Env, w: World, t: Transaction, o: Oracle)
    requires BaseGas(env.schedule, t) <= t.gas && t.value + t.gas * t.gasPrice <= Balance(w, t.sender)
    ensures Tracks(env.schedule) ==> t.sender in OuterRun(env, w, t, o).sub.touched
  {
    PrepaidSends(env, w, t);
    FrameTouches(env, Prepaid(env, w, t), PrepaidSub(env, t), t, o);
  }

  lemma FrameTouches(env: Env, w: World, sub: Substate, t: Transaction, o: Oracle)
    requires BaseGas(env.schedule, t) <= t.gas && t.value <= Balance(w, t.sender)
    ensures sub.touched <= OuterFrame(env, w, sub, t, o.builtin, o.frame).sub.touched
  {
    var p := OuterParams(env, w, t);
    if t.action.CreateContract? {
      if HasCodeOrNonce(w, p.address, env.startNonce) {
        CreationRefused(env, 0, false, w, sub, p, o.frame);
      } else {
        CreationRuns(env, 0, w, sub, p, o.frame);
      }
    } else if p.codeAddress in env.builtins || !p.hasCode {
      UncodedRun(env, 0, false, w, sub, p, o.builtin, o.frame);
    } else {
      CodeCallRuns(env, 0, false, w, sub, p, o.builtin, o.frame);
      CallTouches(env, 0, false, w, sub, p, o.builtin, o.frame);
    }
  }

  /** Which accounts a transfer leaves: those before, the sender, and a receiver and an author that get something, or
      that get nothing where that creates accounts. */
  lemma {:induction false} TransferCreates(env: Env, info: BlockInfo, w: World, t: Transaction, checkNonce: bool,
                                           o: Oracle, a: Address)
    requires Rejection(env, info, w, t, checkNonce).None? && t.action.CallContract?
    requires t.action.to !in env.builtins && CodeOf(w, t.action.to) == []
    ensures var run := OuterRun(env, w, t, o);
            && GasLeft(run.result) <= t.gas
            && (a in Credited(env, info, t, run) <==>
                  || a in w || a == t.sender
                  || (a == t.action.to && (t.value > 0 || CreatesEmpty(env.schedule)))
                  || (a == info.author && (BaseGas(env.schedule, t) * t.gasPrice > 0 || CreatesEmpty(env.schedule))))
  {
    var run := UncodedTransaction(env, w, t, o);
    NothingEarned(env.schedule, t, run);
    RunKeys(env, w, t, o, a);
    var used := BaseGas(env.schedule, t);
    CreditedKeys(run.world, t.sender, RefundValue(t, used), info.author, FeesValue(t, used), Mode(env.schedule),
                 env.startNonce, a);
  }

  lemma RunKeys(env: Env, w: World, t: Transaction, o: Oracle, a: Address)
    requires BaseGas(env.schedule, t) <= t.gas && t.value + t.gas * t.gasPrice <= Balance(w, t.sender)
    requires t.action.CallContract? && t.action.to !in env.builtins && CodeOf(w, t.action.to) == []
    ensures var w' := OuterRun(env, w, t, o).world;
            && t.sender in w'
            && (a in w' <==> || a in w || a == t.sender
                             || (a == t.action.to && (t.value > 0 || CreatesEmpty(env.schedule))))
  {
    PrepaidSends(env, w, t);
    PrepaidKeys(env, w, t);
    var w1 := Prepaid(env, w, t);
    UncodedRun(env, 0, false, w1, PrepaidSub(env, t), OuterParams(env, w1, t), o.builtin, o.frame);
    TransferKeys(w1, t.sender, t.action.to, t.value, Mode(env.schedule), env.startNonce);
  }

  lemma PrepaidKeys(env: Env, w: World, t: Transaction)
    requires t.gas * t.gasPrice <= Balance(w, t.sender)
    ensures Prepaid(env, w, t).Keys == w.Keys + {t.sender}
  {
  }

  lemma TransferKeys(w: World, from: Address, to: Address, value: nat, mode: CleanupMode, start: nat)
    requires value <= Balance(w, from) && from in w
    ensures Transfer(w, from, to, value, mode, start).Keys ==
            w.Keys + if value > 0 || mode.ForceCreate? then {to} else {}
  {
  }

  lemma CreditedKeys(w: World, sender: Address, refund: nat, author: Address, fees: nat, mode: CleanupMode, start: nat,
                     a: Address)
    requires sender in w
    ensures a in AddBalance(AddBalance(w, sender, refund, NoEmpty, start), author, fees, mode, start) <==>
              a in w || (a == author && (fees > 0 || mode.ForceCreate?))
  {
  }

  /** Which of the loaded touched accounts are removed after the self-destructed ones. */
  lemma DustExactly(env: Env, info: BlockInfo, t: Transaction, run: Run, o: Oracle, a: Address)
    requires GasLeft(run.result) <= t.gas
    ensures var w := Credited(env, info, t, run) - run.sub.suicides;
            a in DustAtEnd(env, info, t, run, o) <==>
              && a in TouchedAtEnd(env, info, t, run) && (a == t.sender ==> o.senderLoaded)
              && a in w && Swept(env, t, w[a], Get(o.firstSeen, a))
  {
  }

  /** EIP-161 for a transfer: of the accounts that end empty, exactly the sender, a receiver of nothing and an author of
      no fees are removed; all other accounts stay. */
  lemma {:induction false} TransferRemoves(env: Env, info: BlockInfo, w: World, t: Transaction, checkNonce: bool,
                                           o: Oracle, a: Address)
    requires Rejection(env, info, w, t, checkNonce).None? && t.action.CallContract?
    requires t.action.to !in env.builtins && CodeOf(w, t.action.to) == []
    requires env.schedule.killDust.Off? && env.schedule.noEmpty && env.schedule.killEmpty && o.senderLoaded
    ensures var run := OuterRun(env, w, t, o);
            && GasLeft(run.result) <= t.gas
            && var credited := Credited(env, info, t, run);
               var fees := BaseGas(env.schedule, t) * t.gasPrice;
               a in Finalized(env, info, t, run, o) <==>
                 && a in credited
                 && !(IsNull(credited[a]) &&
                      (a == t.sender || (a == t.action.to && t.value == 0) || (a == info.author && fees == 0)))
  {
    TransferTransaction(env, info, w, t, checkNonce, o);
    var run := UncodedTransaction(env, w, t, o);
    NothingEarned(env.schedule, t, run);
    TransferTouched(env, info, w, t, o, run);
    DustExactly(env, info, t, run, o, a);
  }

  lemma TransferTouched(env: Env, info: BlockInfo, w: World, t: Transaction, o: Oracle, run: Run)
    requires BaseGas(env.schedule, t) <= t.gas && t.value + t.gas * t.gasPrice <= Balance(w, t.sender)
    requires t.action.CallContract? && t.action.to !in env.builtins && CodeOf(w, t.action.to) == []
    requires Mode(env.schedule).TrackTouched? && run == OuterRun(env, w, t, o)
    requires run.result == Ok(t.gas - BaseGas(env.schedule, t), true)
    requires ChargedGas(env.schedule, t, run) == BaseGas(env.schedule, t)
    ensures var credited := Credited(env, info, t, run);
            var fees := BaseGas(env.schedule, t) * t.gasPrice;
            forall a :: a in credited && IsNull(credited[a]) ==>
              (a in TouchedAtEnd(env, info, t, run) <==>
                 a == t.sender || (a == t.action.to && t.value == 0) || (a == info.author && fees == 0))
  {
    PrepaidSends(env, w, t);
    var w1 := Prepaid(env, w, t);
    assert CodeOf(w1, t.action.to) == [];
    UncodedRun(env, 0, false, w1, PrepaidSub(env, t), OuterParams(env, w1, t), o.builtin, o.frame);
    var used := BaseGas(env.schedule, t);
    EmptyTouched(w1, t.sender, t.action.to, t.value, RefundValue(t, used), info.author, FeesValue(t, used),
                 env.startNonce);
  }

  /** What ends empty was there all the time, so paying it nothing touched it. */
  lemma EmptyTouched(w: World, sender: Address, to: Address, value: nat, refund: nat, author: Address, fees: nat,
                     start: nat)
    requires value <= Balance(w, sender) && sender in w
    ensures var w1 := Transfer(w, sender, to, value, TrackTouched, start);
            var w2 := AddBalance(w1, sender, refund, NoEmpty, start);
            var end := AddBalance(w2, author, fees, TrackTouched, start);
            var touched := {sender} + TransferTouches(w, sender, to, value, TrackTouched, start)
                           + (if fees == 0 && author in w2 then {author} else {});
            forall a :: a in end && IsNull(end[a]) ==>
              (a in touched <==> a == sender || (a == to && value == 0) || (a == author && fees == 0))
  {
  }
}
