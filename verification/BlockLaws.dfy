/** What a push comes to, told from the block as it stands. */
module BlockLaws {
  import opened Types
  import opened Accounts
  import opened Vm
  import opened Execution
  import opened Transaction
  import opened BlockSpec
  import TransactionLaws
  import OutcomeLaws

  /** A push is accepted exactly when its hash is new, the transaction passes its checks on the block's accounts, it
      fits into what the last receipt leaves of the block's gas, and its run has no internal error. */
  lemma PushAccepted(env: Env, b: Block, t: Transaction, h: Option<H256>, o: Oracle)
    requires OracleFits(env, t, o)
    ensures var used := if b.receipts == [] then 0 else b.receipts[|b.receipts| - 1].gasUsed;
            Pushed(env, b, t, h, o).error.None? <==>
              && t.hash !in b.seen
              && BaseGas(env.schedule, t) <= t.gas
              && (t.sender in b.world || t.isUnsigned || env.schedule.killDust.Off?)
              && t.nonce == Nonce(b.world, t.sender, env.startNonce)
              && used + t.gas <= b.gasLimit
              && t.gas * t.gasPrice + t.value <= Balance(b.world, t.sender)
              && OuterRun(env, b.world, t, o).result != Err(Internal)
  {
    TransactionLaws.AcceptedExactly(env, InfoOf(b), b.world, t, true);
    PushExactly(env, b, t, h, o);
  }

  /** The receipt of an accepted push says whether the run applied, and has the logs of a run that did. Its gas is that
      of the receipt before it and the charge. */
  lemma ReceiptExactly(env: Env, b: Block, t: Transaction, h: Option<H256>, o: Oracle)
    requires OracleFits(env, t, o) && Pushed(env, b, t, h, o).error.None? && |b.charges| == |b.receipts|
    ensures var c, n := Pushed(env, b, t, h, o).block, |b.receipts|;
            var run := OuterRun(env, b.world, t, o);
            && |c.receipts| == |c.charges| == n + 1
            && (c.receipts[n].success <==> run.result.Ok? && run.result.applyState)
            && c.receipts[n].logs == (if c.receipts[n].success then run.sub.logs else [])
            && c.receipts[n].gasUsed == GasSoFar(b) + c.charges[n]
  {
    PushAccepted(env, b, t, h, o);
    TransactionLaws.ReportNamesCharge(env, InfoOf(b), b.world, t, true, o);
    var run := OuterRun(env, b.world, t, o);
    OutcomeLaws.ReportExactly(env, InfoOf(b), t, run);
  }

  /** A pushed transfer moves the value from the sender to the receiver and the base price from the sender to the
      block's author, and its receipt has no logs. */
  lemma {:induction false} TransferPushed(env: Env, b: Block, t: Transaction, h: Option<H256>, o: Oracle, a: Address)
    requires OracleFits(env, t, o) && Pushed(env, b, t, h, o).error.None? && env.schedule.killDust.Off?
    requires t.action.CallContract? && t.action.to !in env.builtins && CodeOf(b.world, t.action.to) == []
    ensures var c := Pushed(env, b, t, h, o).block;
            var used := BaseGas(env.schedule, t);
            && c.receipts == b.receipts + [Receipt(GasSoFar(b) + used, [], true)]
            && Balance(c.world, a) ==
                 Balance(b.world, a) - (if a == t.sender then t.value + used * t.gasPrice else 0)
                                     + (if a == t.action.to then t.value else 0)
                                     + (if a == b.author then used * t.gasPrice else 0)
  {
    PushAccepted(env, b, t, h, o);
    OutcomeLaws.TransferTransaction(env, InfoOf(b), b.world, t, true, o);
    var run := OutcomeLaws.UncodedTransaction(env, b.world, t, o);
    EmptyRemoved(env, InfoOf(b), t, run, o, a);
  }

  /** Without dust removal and self-destruction, what is removed had no balance. */
  lemma EmptyRemoved(env: Env, info: BlockInfo, t: Transaction, run: Run, o: Oracle, a: Address)
    requires GasLeft(run.result) <= t.gas && env.schedule.killDust.Off? && run.sub.suicides == {}
    ensures Balance(Finalized(env, info, t, run, o), a) == Balance(Credited(env, info, t, run), a)
  {
    OutcomeLaws.DustExactly(env, info, t, run, o, a);
    assert Credited(env, info, t, run) - {} == Credited(env, info, t, run);
  }
}
