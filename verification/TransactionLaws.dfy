/** Laws of every accepted transaction. */
module TransactionLaws {
  import opened Types
  import opened Accounts
  import opened Vm
  import opened Execution
  import opened ExecutionLaws
  import opened Transaction

  /** The outer run keeps within the gas the transaction has after its base cost. */
  lemma OuterGas(env: Env, info: BlockInfo, w: World, t: Transaction, checkNonce: bool, o: Oracle)
    requires Rejection(env, info, w, t, checkNonce).None? && OracleFits(env, t, o)
    ensures GasLeft(OuterRun(env, w, t, o).result) <= t.gas - BaseGas(env.schedule, t)
  {
    var w1 := Prepaid(env, w, t);
    GasBounded(env, 0, false, w1, PrepaidSub(env, t), OuterParams(env, w1, t), o.builtin, o.frame);
  }

  /** The gas charged is positive, never above the gas limit of the transaction, and keeps the
      block within its own limit. */
  lemma ChargeBounds(env: Env, info: BlockInfo, w: World, t: Transaction, checkNonce: bool, o: Oracle)
    requires Rejection(env, info, w, t, checkNonce).None? && OracleFits(env, t, o)
    ensures var run := OuterRun(env, w, t, o);
            && GasLeft(run.result) <= t.gas
            && info.gasUsed + ChargedGas(env.schedule, t, run) <= info.gasLimit
            && (BaseGas(env.schedule, t) > 0 ==> ChargedGas(env.schedule, t, run) > 0)
  {
    OuterGas(env, info, w, t, checkNonce, o);
  }

  /** A failed or reverted transaction leaves the accounts as they were once the gas was prepaid,
      and a substate without refunds, logs or contracts. */
  lemma OuterAtomic(env: Env, w: World, t: Transaction, o: Oracle)
    requires BaseGas(env.schedule, t) <= t.gas
    requires t.value + t.gas * t.gasPrice <= Balance(w, t.sender)
    ensures var run := OuterRun(env, w, t, o);
            !Applies(run.result) ==>
              && run.world == Prepaid(env, w, t) && run.burned == 0
              && run.sub == EmptySubstate.(touched := run.sub.touched)
  {
    var w1 := Prepaid(env, w, t);
    var p := OuterParams(env, w1, t);
    if t.action.CreateContract? {
      CreateAtomic(env, 0, false, w1, PrepaidSub(env, t), p, o.frame);
    } else {
      CallAtomic(env, 0, false, w1, PrepaidSub(env, t), p, o.builtin, o.frame);
    }
  }

  /** Whether a report tells what happens to balances: the sender gets back the price of all the gas it does not
      name as used and the author the price of what it does. The refund is the gas that is neither used nor left;
      it is what was asked for, or half of what was consumed when that is less. */
  ghost predicate Honest(env: Env, info: BlockInfo, t: Transaction, run: Run, e: Executed)
    requires GasLeft(run.result) <= t.gas
  {
    && e.gasUsed <= t.gas
    && (forall a :: Balance(Credited(env, info, t, run), a) ==
          Balance(run.world, a) + (if a == t.sender then (t.gas - e.gasUsed) * t.gasPrice else 0)
                                + (if a == info.author then e.gasUsed * t.gasPrice else 0))
    && e.gasUsed + e.refunded + GasLeft(run.result) == t.gas
    && e.refunded == Min(RefundsAsked(env.schedule, run), (t.gas - GasLeft(run.result)) / 2)
    && e.cumulativeGasUsed == info.gasUsed + e.gasUsed
  }

  /** The branch that reports a failure without looking at the refunds is right because a run that
      failed has none. */
  lemma FailureHonest(env: Env, info: BlockInfo, t: Transaction, run: Run)
    requires run.result.Err? && run.sub == EmptySubstate.(touched := run.sub.touched)
    ensures RefundedGas(env.schedule, t, run) == 0 && ChargedGas(env.schedule, t, run) == t.gas
  {
    assert env.schedule.sstoreRefundGas * run.sub.sstoreClears == 0;
    assert env.schedule.suicideRefundGas * |run.sub.suicides| == 0;
  }

  /** A transaction is accepted exactly when it pays its base gas, its sender exists where dust is removed,
      its nonce is the sender's, it fits in the block, and the sender can pay for gas and value. */
  lemma AcceptedExactly(env: Env, info: BlockInfo, w: World, t: Transaction, checkNonce: bool)
    ensures Rejection(env, info, w, t, checkNonce).None? <==>
              && BaseGas(env.schedule, t) <= t.gas
              && (t.sender in w || t.isUnsigned || !checkNonce || env.schedule.killDust.Off?)
              && (checkNonce ==> t.nonce == Nonce(w, t.sender, env.startNonce))
              && info.gasUsed + t.gas <= info.gasLimit
              && t.gas * t.gasPrice + t.value <= Balance(w, t.sender)
  {
  }

  /** The sender gets back the price of the gas that was not charged and the author the price of the rest;
      nothing else changes. */
  lemma CreditedExactly(env: Env, info: BlockInfo, t: Transaction, w: World, used: nat, a: Address)
    requires used <= t.gas
    ensures Balance(CreditedFor(env, info, t, w, used), a) ==
              Balance(w, a) + (if a == t.sender then (t.gas - used) * t.gasPrice else 0)
                            + (if a == info.author then used * t.gasPrice else 0)
  {
    var refund, fees := (t.gas - used) * t.gasPrice, used * t.gasPrice;
    CreditedBalance(w, t.sender, refund, info.author, fees, Mode(env.schedule), env.startNonce, a);
  }

  lemma CreditedBalance(w: World, sender: Address, refund: nat, author: Address, fees: nat, mode: CleanupMode,
                        start: nat, a: Address)
    ensures Balance(AddBalance(AddBalance(w, sender, refund, NoEmpty, start), author, fees, mode, start), a)
         == Balance(w, a) + (if a == sender then refund else 0) + (if a == author then fees else 0)
  {
  }

  /** The gas a report names is the gas charged. */
  lemma ReportNamesCharge(env: Env, info: BlockInfo, w: World, t: Transaction, checkNonce: bool, o: Oracle)
    requires Rejection(env, info, w, t, checkNonce).None? && OracleFits(env, t, o)
    ensures var run := OuterRun(env, w, t, o);
            && GasLeft(run.result) <= t.gas
            && var report := Report(env, info, t, run);
               && (report.Refused? <==> run.result == Err(Internal))
               && (report.Done? ==>
                     && report.executed.gasUsed == ChargedGas(env.schedule, t, run)
                     && report.executed.refunded == RefundedGas(env.schedule, t, run)
                     && report.executed.cumulativeGasUsed == info.gasUsed + report.executed.gasUsed)
               && (report.Done? && report.executed.exception.Some? ==>
                     report.executed.logs == [] && report.executed.contractsCreated == [])
  {
    OuterGas(env, info, w, t, checkNonce, o);
    OuterAtomic(env, w, t, o);
    var run := OuterRun(env, w, t, o);
    if run.result.Err? && !run.result.error.Internal? {
      FailureHonest(env, info, t, run);
    }
  }

  /** The report is honest, and a failed or reverted transaction reports no logs and no contracts. */
  lemma {:induction false} ReportHonest(env: Env, info: BlockInfo, w: World, t: Transaction, checkNonce: bool,
                                        o: Oracle)
    requires Rejection(env, info, w, t, checkNonce).None? && OracleFits(env, t, o)
    ensures var run := OuterRun(env, w, t, o);
            && GasLeft(run.result) <= t.gas
            && var report := Report(env, info, t, run);
               && (report.Refused? <==> run.result == Err(Internal))
               && (report.Done? ==> Honest(env, info, t, run, report.executed))
               && (report.Done? && report.executed.exception.Some? ==>
                     report.executed.logs == [] && report.executed.contractsCreated == [])
  {
    ReportNamesCharge(env, info, w, t, checkNonce, o);
    var run := OuterRun(env, w, t, o);
    var report := Report(env, info, t, run);
    if report.Done? {
      NamingIsHonest(env, info, t, run, report.executed);
    }
  }

  lemma NamingIsHonest(env: Env, info: BlockInfo, t: Transaction, run: Run, e: Executed)
    requires GasLeft(run.result) <= t.gas
    requires e.gasUsed == ChargedGas(env.schedule, t, run) && e.refunded == RefundedGas(env.schedule, t, run)
    requires e.cumulativeGasUsed == info.gasUsed + e.gasUsed
    ensures Honest(env, info, t, run, e)
  {
    CreditedToAll(env, info, t, run.world, e.gasUsed);
  }

  lemma CreditedToAll(env: Env, info: BlockInfo, t: Transaction, w: World, used: nat)
    requires used <= t.gas
    ensures forall a :: Balance(CreditedFor(env, info, t, w, used), a) ==
                        Balance(w, a) + (if a == t.sender then (t.gas - used) * t.gasPrice else 0)
                                      + (if a == info.author then used * t.gasPrice else 0)
  {
    forall a
      ensures Balance(CreditedFor(env, info, t, w, used), a) ==
              Balance(w, a) + (if a == t.sender then (t.gas - used) * t.gasPrice else 0)
                            + (if a == info.author then used * t.gasPrice else 0)
    {
      CreditedExactly(env, info, t, w, used, a);
    }
  }

  /** A transaction that fails or reverts costs its sender the price of the gas it reports, which the author gets;
      no other balance changes. */
  lemma {:induction false} FailureCosts(env: Env, info: BlockInfo, w: World, t: Transaction, checkNonce: bool,
                                        o: Oracle, a: Address)
    requires Rejection(env, info, w, t, checkNonce).None? && OracleFits(env, t, o)
    ensures var run := OuterRun(env, w, t, o);
            && GasLeft(run.result) <= t.gas
            && var report := Report(env, info, t, run);
               report.Done? && report.executed.exception.Some? ==>
                 && report.executed.gasUsed * t.gasPrice <= Balance(w, t.sender)
                 && Balance(Credited(env, info, t, run), a) ==
                      Balance(w, a) - (if a == t.sender then report.executed.gasUsed * t.gasPrice else 0)
                                    + (if a == info.author then report.executed.gasUsed * t.gasPrice else 0)
  {
    ReportNamesCharge(env, info, w, t, checkNonce, o);
    OuterAtomic(env, w, t, o);
    PrepaidAndCredited(env, info, w, t, ChargedGas(env.schedule, t, OuterRun(env, w, t, o)), a);
  }

  /** Paying for all the gas and getting back what is not used is paying for what is. */
  lemma PrepaidAndCredited(env: Env, info: BlockInfo, w: World, t: Transaction, used: nat, a: Address)
    requires t.gas * t.gasPrice <= Balance(w, t.sender) && used <= t.gas
    ensures used * t.gasPrice <= t.gas * t.gasPrice
    ensures Balance(CreditedFor(env, info, t, Prepaid(env, w, t), used), a) ==
            Balance(w, a) - (if a == t.sender then used * t.gasPrice else 0)
                          + (if a == info.author then used * t.gasPrice else 0)
  {
    var w1 := if RaisesNonce(env, t) then IncNonce(w, t.sender, env.startNonce) else w;
    Distributes(t.gas, used, t.gasPrice);
    NetCharge(w1, t.sender, t.gas * t.gasPrice, (t.gas - used) * t.gasPrice, info.author, used * t.gasPrice,
              Mode(env.schedule), env.startNonce, a);
  }

  lemma NetCharge(w: World, sender: Address, prepaid: nat, refund: nat, author: Address, fees: nat, mode: CleanupMode,
                  start: nat, a: Address)
    requires refund + fees == prepaid <= Balance(w, sender)
    ensures Balance(AddBalance(AddBalance(SubBalance(w, sender, prepaid, start), sender, refund, NoEmpty, start),
                               author, fees, mode, start), a)
         == Balance(w, a) - (if a == sender then fees else 0) + (if a == author then fees else 0)
  {
    CreditedBalance(SubBalance(w, sender, prepaid, start), sender, refund, author, fees, mode, start, a);
  }

  /** The address that the outermost frame runs as. */
  function OuterAddress(t: Transaction): Address {
    match t.action
    case CreateContract(a) => a
    case CallContract(to) => to
  }

  /** Nothing that the transaction creates hashes onto its own creator. */
  ghost predicate HashesApart(t: Transaction, o: Oracle) {
    CreatesApart(o.frame.requests, OuterAddress(t)) && (t.action.CreateContract? ==> t.action.address != t.sender)
  }

  /** Nothing hashes onto the one sender whose nonce does not rise. */
  ghost predicate HashesElsewhere(env: Env, t: Transaction, o: Oracle) {
    env.schedule.eip86 ==>
      && CreatesElsewhere(o.frame.requests)
      && (t.action.CreateContract? && t.isUnsigned ==> t.action.address != t.sender)
  }

  /** What keeps a creation from paying itself: either of two things, as for its frames. */
  ghost predicate HashesSafely(env: Env, w: World, t: Transaction, o: Oracle) {
    HashesApart(t, o) || (NoncesStarted(w, env.startNonce) && HashesElsewhere(env, t, o))
  }

  /** Where dust is removed, a block takes only nonces below the start nonce; an accepted signed transaction of it
      has a sender that is there and below the start nonce. */
  lemma DustBelowStart(env: Env, info: BlockInfo, w: World, t: Transaction)
    requires !env.schedule.killDust.Off? && !t.isUnsigned && t.nonce < env.startNonce
    requires Rejection(env, info, w, t, true).None?
    ensures !NoncesStarted(w, env.startNonce)
  {
    AcceptedExactly(env, info, w, t, true);
    assert t.sender in w && w[t.sender].nonce < env.startNonce;
  }

  lemma PrepaidConserves(env: Env, w: World, t: Transaction)
    requires t.value + t.gas * t.gasPrice <= Balance(w, t.sender)
    ensures var w1 := Prepaid(env, w, t);
            && Total(w1) == Total(w) - t.gas * t.gasPrice
            && t.value <= Balance(w1, t.sender)
  {
    var acc := Existing(w, t.sender, env.startNonce);
    TotalUpdate(w, t.sender, acc.(nonce := acc.nonce + 1));
    var w1 := if RaisesNonce(env, t) then IncNonce(w, t.sender, env.startNonce) else w;
    assert Balance(w1, t.sender) == Balance(w, t.sender);
    SubTotal(w1, t.sender, t.gas * t.gasPrice, env.startNonce);
  }

  /** Only the sender's nonce rises, and by one. */
  lemma PrepaidNonces(env: Env, w: World, t: Transaction)
    requires t.gas * t.gasPrice <= Balance(w, t.sender)
    ensures var w1 := Prepaid(env, w, t);
            && (forall a :: Nonce(w1, a, env.startNonce) ==
                            Nonce(w, a, env.startNonce) + if RaisesNonce(env, t) && a == t.sender then 1 else 0)
            && t.sender in w1
            && (NoncesStarted(w, env.startNonce) ==> NoncesStarted(w1, env.startNonce))
  {
    var w1 := Prepaid(env, w, t);
    forall a ensures Nonce(w1, a, env.startNonce) ==
                     Nonce(w, a, env.startNonce) + if RaisesNonce(env, t) && a == t.sender then 1 else 0
    {
    }
    if NoncesStarted(w, env.startNonce) {
      RisenStarted(w, w1, env.startNonce);
    }
  }

  /** An outermost creation onto the sender itself is refused. */
  predicate OuterSafe(env: Env, w: World, t: Transaction) {
    t.action.CreateContract? && t.action.address == t.sender ==> HasCodeOrNonce(w, t.sender, env.startNonce)
  }

  lemma PrepaidSafe(env: Env, w: World, t: Transaction, o: Oracle)
    requires t.gas * t.gasPrice <= Balance(w, t.sender) && HashesSafely(env, w, t, o)
    ensures var w1 := Prepaid(env, w, t);
            CreatesSafely(env, w1, o.frame.requests, OuterAddress(t)) && OuterSafe(env, w1, t)
  {
    PrepaidNonces(env, w, t);
    if !HashesApart(t, o) && t.action.CreateContract? && t.action.address == t.sender {
      assert RaisesNonce(env, t);
      assert Nonce(Prepaid(env, w, t), t.sender, env.startNonce) == Nonce(w, t.sender, env.startNonce) + 1;
    }
  }

  lemma OuterConserves(env: Env, w: World, t: Transaction, o: Oracle)
    requires BaseGas(env.schedule, t) <= t.gas
    requires t.value + t.gas * t.gasPrice <= Balance(w, t.sender)
    requires HashesSafely(env, w, t, o)
    ensures var run := OuterRun(env, w, t, o);
            Total(run.world) + run.burned == Total(w) - t.gas * t.gasPrice
  {
    PrepaidConserves(env, w, t);
    PrepaidSafe(env, w, t, o);
    var w1 := Prepaid(env, w, t);
    var p := OuterParams(env, w1, t);
    if t.action.CreateContract? {
      CreateConserves(env, 0, false, w1, PrepaidSub(env, t), p, o.frame);
    } else {
      CallConserves(env, 0, false, w1, PrepaidSub(env, t), p, o.builtin, o.frame);
    }
  }

  /** What is given back and what the author gets is what was prepaid. */
  lemma {:induction false} CreditsAddUp(env: Env, info: BlockInfo, t: Transaction, run: Run)
    requires GasLeft(run.result) <= t.gas
    ensures Total(Credited(env, info, t, run)) == Total(run.world) + t.gas * t.gasPrice
  {
    PaidOut(env, info, t, run.world, ChargedGas(env.schedule, t, run));
  }

  lemma PaidOut(env: Env, info: BlockInfo, t: Transaction, w: World, used: nat)
    requires used <= t.gas
    ensures Total(CreditedFor(env, info, t, w, used)) == Total(w) + t.gas * t.gasPrice
  {
    CreditTotals(w, t.sender, (t.gas - used) * t.gasPrice, info.author, used * t.gasPrice, Mode(env.schedule),
                 env.startNonce);
    Distributes(t.gas, used, t.gasPrice);
  }

  lemma CreditTotals(w: World, sender: Address, refund: nat, author: Address, fees: nat, mode: CleanupMode, start: nat)
    ensures Total(AddBalance(AddBalance(w, sender, refund, NoEmpty, start), author, fees, mode, start))
         == Total(w) + refund + fees
  {
    AddTotal(w, sender, refund, NoEmpty, start);
    AddTotal(AddBalance(w, sender, refund, NoEmpty, start), author, fees, mode, start);
  }

  lemma Distributes(gas: nat, used: nat, price: nat)
    requires used <= gas
    ensures (gas - used) * price + used * price == gas * price
  {
  }

  /** Ether is conserved by every accepted transaction: the sum of all balances goes down by exactly
      what self-heirs burned and what the removed accounts held. */
  lemma {:induction false} EtherConserved(env: Env, info: BlockInfo, w: World, t: Transaction, checkNonce: bool,
                                          o: Oracle)
    requires Rejection(env, info, w, t, checkNonce).None? && OracleFits(env, t, o)
    requires HashesSafely(env, w, t, o)
    ensures var run := OuterRun(env, w, t, o);
            && GasLeft(run.result) <= t.gas
            && var credited := Credited(env, info, t, run);
               Total(w) == Total(Finalized(env, info, t, run, o))
                         + run.burned
                         + Held(credited, run.sub.suicides)
                         + Held(credited - run.sub.suicides, DustAtEnd(env, info, t, run, o))
  {
    OuterGas(env, info, w, t, checkNonce, o);
    OuterConserves(env, w, t, o);
    var run := OuterRun(env, w, t, o);
    CreditsAddUp(env, info, t, run);
    var credited := Credited(env, info, t, run);
    RemovedTotal(credited, run.sub.suicides);
    RemovedTotal(credited - run.sub.suicides, DustAtEnd(env, info, t, run, o));
  }

  /** A transaction lowers the nonce of no account that it leaves, and raises its sender's. */
  lemma NoncesKept(env: Env, info: BlockInfo, w: World, t: Transaction, checkNonce: bool, o: Oracle)
    requires Rejection(env, info, w, t, checkNonce).None? && OracleFits(env, t, o)
    ensures var run := OuterRun(env, w, t, o);
            && GasLeft(run.result) <= t.gas
            && var w' := Finalized(env, info, t, run, o);
               && (forall a :: a in w' ==> Nonce(w, a, env.startNonce) <= w'[a].nonce)
               && (t.sender in w' && RaisesNonce(env, t) ==> Nonce(w, t.sender, env.startNonce) < w'[t.sender].nonce)
               && (NoncesStarted(w, env.startNonce) ==> NoncesStarted(w', env.startNonce))
  {
    OuterGas(env, info, w, t, checkNonce, o);
    PrepaidNonces(env, w, t);
    OuterNonces(env, w, t, o);
    var run := OuterRun(env, w, t, o);
    var w1, used := Prepaid(env, w, t), ChargedGas(env.schedule, t, run);
    CreditedNonces(env, info, t, run.world, used);
    var credited, w' := CreditedFor(env, info, t, run.world, used), Finalized(env, info, t, run, o);
    forall a | a in w' ensures Nonce(w1, a, env.startNonce) <= w'[a].nonce {
      assert a in credited && w'[a] == credited[a];
      assert Nonce(w1, a, env.startNonce) <= Nonce(run.world, a, env.startNonce) <= Nonce(credited, a, env.startNonce);
    }
  }

  lemma OuterNonces(env: Env, w: World, t: Transaction, o: Oracle)
    requires BaseGas(env.schedule, t) <= t.gas
    requires t.value + t.gas * t.gasPrice <= Balance(w, t.sender)
    ensures NoncesRise(Prepaid(env, w, t), OuterRun(env, w, t, o).world, env.startNonce)
  {
    var w1 := Prepaid(env, w, t);
    var p := OuterParams(env, w1, t);
    if t.action.CreateContract? {
      CreateNonces(env, 0, false, w1, PrepaidSub(env, t), p, o.frame);
    } else {
      CallNonces(env, 0, false, w1, PrepaidSub(env, t), p, o.builtin, o.frame);
    }
  }

  lemma CreditedNonces(env: Env, info: BlockInfo, t: Transaction, w: World, used: nat)
    requires used <= t.gas
    ensures NoncesRise(w, CreditedFor(env, info, t, w, used), env.startNonce)
  {
    var refund, fees := (t.gas - used) * t.gasPrice, used * t.gasPrice;
    var w1 := AddBalance(w, t.sender, refund, NoEmpty, env.startNonce);
    assert NoncesRise(w, w1, env.startNonce);
    assert NoncesRise(w1, AddBalance(w1, info.author, fees, Mode(env.schedule), env.startNonce), env.startNonce);
  }

  /** No replay: once a transaction that raises its sender's nonce was accepted, it is refused on the accounts it
      leaves, under any rules and in any block, unless its sender was removed, it costs nothing and it carries the
      start nonce. */
  lemma {:induction false} ReplayRefused(env: Env, info: BlockInfo, w: World, t: Transaction, o: Oracle, env': Env,
                                         info': BlockInfo)
    requires Rejection(env, info, w, t, true).None? && OracleFits(env, t, o) && RaisesNonce(env, t)
    ensures var run := OuterRun(env, w, t, o);
            && GasLeft(run.result) <= t.gas
            && var w' := Finalized(env, info, t, run, o);
               Rejection(env', info', w', t, true).None? ==>
                 t.sender !in w' && t.nonce == env'.startNonce && t.gas * t.gasPrice + t.value == 0
  {
    NoncesKept(env, info, w, t, true, o);
    AcceptedExactly(env, info, w, t, true);
    MovedOn(env', info', Finalized(env, info, t, OuterRun(env, w, t, o), o), t);
  }

  /** A transaction whose nonce is below that of its sender is refused. */
  lemma MovedOn(env: Env, info: BlockInfo, w: World, t: Transaction)
    requires t.sender in w ==> t.nonce < w[t.sender].nonce
    ensures Rejection(env, info, w, t, true).None? ==>
              t.sender !in w && t.nonce == env.startNonce && t.gas * t.gasPrice + t.value == 0
  {
    AcceptedExactly(env, info, w, t, true);
  }

  // ---------------------------------------------------------------------------------------
  // What is removed

  /** The touched accounts that end empty. */
  function EmptyAtEnd(env: Env, info: BlockInfo, t: Transaction, run: Run): set<Address>
    requires GasLeft(run.result) <= t.gas
  {
    var w := Credited(env, info, t, run) - run.sub.suicides;
    set a | a in TouchedAtEnd(env, info, t, run) && a in w && IsNull(w[a])
  }

  /** Where dust is not removed, a transaction ends on the credited accounts without the self-destructed and the
      touched empty ones: nothing that the state loaded or remembers makes a difference. */
  lemma FinalizedPlainly(env: Env, info: BlockInfo, t: Transaction, run: Run, o: Oracle)
    requires GasLeft(run.result) <= t.gas && env.schedule.killDust.Off? && o.senderLoaded
    ensures Finalized(env, info, t, run, o) ==
            Credited(env, info, t, run) - run.sub.suicides
              - (if env.schedule.killEmpty then EmptyAtEnd(env, info, t, run) else {})
  {
    assert DustAtEnd(env, info, t, run, o) ==
           if env.schedule.killEmpty then EmptyAtEnd(env, info, t, run) else {};
  }

  /** Whether a touched account with `account`, first seen with `first`, is removed. */
  predicate Swept(env: Env, t: Transaction, account: Account, first: Option<nat>) {
    || (env.schedule.killEmpty && IsNull(account))
    || (!env.schedule.killDust.Off? && (account.code == [] || env.schedule.killDust.WithCodeAndStorage?) &&
        account.balance < env.schedule.txGas * t.gasPrice && first.Some? && account.balance < first.value)
  }

  /** Whether the sender was loaded shows exactly when it is touched, did not destruct itself, and ends with an account
      that is to be removed. */
  lemma SenderShows(env: Env, info: BlockInfo, t: Transaction, run: Run, o: Oracle)
    requires GasLeft(run.result) <= t.gas
    ensures Finalized(env, info, t, run, o.(senderLoaded := true)) !=
              Finalized(env, info, t, run, o.(senderLoaded := false)) <==>
            var w := Credited(env, info, t, run) - run.sub.suicides;
            && t.sender in TouchedAtEnd(env, info, t, run)
            && t.sender in w && Swept(env, t, w[t.sender], Get(o.firstSeen, t.sender))
  {
    var loaded, loose := o.(senderLoaded := true), o.(senderLoaded := false);
    var dust := DustAtEnd(env, info, t, run, loaded);
    assert DustAtEnd(env, info, t, run, loose) == dust - {t.sender};
    ShowsWhenIn(Credited(env, info, t, run) - run.sub.suicides, dust, t.sender);
  }

  lemma ShowsWhenIn(w: World, dust: set<Address>, a: Address)
    requires dust <= w.Keys
    ensures w - dust != w - (dust - {a}) <==> a in dust
  {
    if a in dust {
      assert a in w - (dust - {a}) && a !in w - dust;
    } else {
      assert dust - {a} == dust;
    }
  }

  lemma FreeCredits(env: Env, info: BlockInfo, t: Transaction, w: World, used: nat)
    requires used <= t.gas && t.gasPrice == 0 && Mode(env.schedule).TrackTouched?
    ensures CreditedFor(env, info, t, w, used) == w
  {
    assert (t.gas - used) * t.gasPrice == 0 && used * t.gasPrice == 0;
  }

  /** Without self-destruction and dust removal nothing is lost at all. */
  lemma EtherKept(env: Env, info: BlockInfo, w: World, t: Transaction, checkNonce: bool, o: Oracle)
    requires Rejection(env, info, w, t, checkNonce).None? && OracleFits(env, t, o)
    requires HashesSafely(env, w, t, o)
    requires env.schedule.killDust.Off?
    requires var run := OuterRun(env, w, t, o); run.sub.suicides == {} && run.burned == 0
    ensures var run := OuterRun(env, w, t, o);
            GasLeft(run.result) <= t.gas && Total(Finalized(env, info, t, run, o)) == Total(w)
  {
    EtherConserved(env, info, w, t, checkNonce, o);
    var run := OuterRun(env, w, t, o);
    var credited := Credited(env, info, t, run);
    EmptyAccountsHoldNothing(credited, run.sub.suicides);
    EmptyAccountsHoldNothing(credited - run.sub.suicides, DustAtEnd(env, info, t, run, o));
  }

  lemma {:induction false} EmptyAccountsHoldNothing(w: World, s: set<Address>)
    requires forall a :: a in s && a in w ==> w[a].balance == 0
    ensures Held(w, s) == 0
    decreases s
  {
    if s == {} {
      assert Part(w, s) == map[];
    } else {
      var a :| a in s;
      EmptyAccountsHoldNothing(w, s - {a});
      assert Part(w, s) - {a} == Part(w, s - {a});
      TotalWithout(Part(w, s), a);
    }
  }
}
