/** A block under construction, as a value: transactions pushed one by one, closing and reopening. */
module BlockSpec {
  import opened Types
  import opened Accounts
  import opened Vm
  import opened Execution
  import opened Transaction
  import TransactionLaws
  import ExecutionLaws

  /** `gasUsed` is cumulative over the block. */
  datatype Receipt = Receipt(gasUsed: nat, logs: seq<LogEntry>, success: bool)

  /** `charges` keeps what each transaction was really charged, beside what its receipt says. */
  datatype Block = Block(
    author: Address,
    gasLimit: nat,
    transactions: seq<Transaction>,
    receipts: seq<Receipt>,
    seen: set<H256>,
    world: World,
    charges: seq<nat>)

  datatype PushError = AlreadyImported | Execution(error: ExecutionError)

  datatype Pushing = Pushing(block: Block, error: Option<PushError>)

  function GasSoFar(b: Block): nat {
    if b.receipts == [] then 0 else b.receipts[|b.receipts| - 1].gasUsed
  }

  /** `ExecutedBlock::env_info`. */
  function InfoOf(b: Block): BlockInfo {
    BlockInfo(b.author, GasSoFar(b), b.gasLimit)
  }

  /** Pushing a transaction. `h` overrides the hash it is remembered by. */
  function Pushed(env: Env, b: Block, t: Transaction, h: Option<H256>, o: Oracle): Pushing
    requires OracleFits(env, t, o)
  {
    if t.hash in b.seen then Pushing(b, Some(AlreadyImported))
    else
      var refusal := Rejection(env, InfoOf(b), b.world, t, true);
      if refusal.Some? then Pushing(b, Some(Execution(refusal.value)))
      else
        TransactionLaws.OuterGas(env, InfoOf(b), b.world, t, true, o);
        var run := OuterRun(env, b.world, t, o);
        var b' := b.(world := Finalized(env, InfoOf(b), t, run, o));
        match Report(env, InfoOf(b), t, run)
        case Refused(error) => Pushing(b', Some(Execution(error)))
        case Done(e) => Pushing(Archived(b', t, h, e, ChargedGas(env.schedule, t, run)), None)
  }

  /** The block with an executed transaction and its receipt appended. */
  function Archived(b: Block, t: Transaction, h: Option<H256>, e: Executed, charge: nat): Block {
    b.(transactions := b.transactions + [t],
       receipts := b.receipts + [Receipt(e.cumulativeGasUsed, e.logs, e.exception.None?)],
       seen := b.seen + {if h.Some? then h.value else t.hash},
       charges := b.charges + [charge])
  }

  // ---------------------------------------------------------------------------------------
  // Gas accounting

  function Sum(s: seq<nat>): nat {
    if s == [] then 0 else Sum(s[..|s| - 1]) + s[|s| - 1]
  }

  /** Receipts add up: each holds the sum of all charges so far, charges are positive, and the block
      stays within its gas limit. */
  ghost predicate GasAddsUp(b: Block) {
    && |b.receipts| == |b.transactions| == |b.charges|
    && (forall i :: 0 <= i < |b.receipts| ==> b.receipts[i].gasUsed == Sum(b.charges[..i + 1]))
    && (forall i :: 0 <= i < |b.charges| ==> b.charges[i] > 0)
    && GasSoFar(b) <= b.gasLimit
  }

  /** Every transaction of the block is remembered under its own hash, and no hash comes twice. */
  ghost predicate NoRepeats(b: Block) {
    && (forall i :: 0 <= i < |b.transactions| ==> b.transactions[i].hash in b.seen)
    && (forall i, j :: 0 <= i < j < |b.transactions| ==> b.transactions[i].hash != b.transactions[j].hash)
  }

  /** The cumulative gas of the receipts strictly increases. */
  lemma ReceiptsIncrease(b: Block, i: nat, j: nat)
    requires GasAddsUp(b) && i < j < |b.receipts|
    ensures b.receipts[i].gasUsed < b.receipts[j].gasUsed
    decreases j
  {
    assert b.charges[..j + 1][..j] == b.charges[..j];
    if i + 1 < j {
      ReceiptsIncrease(b, i, j - 1);
    }
  }

  /** No receipt is above the gas limit of the block. */
  lemma ReceiptsWithinLimit(b: Block, i: nat)
    requires GasAddsUp(b) && i < |b.receipts|
    ensures b.receipts[i].gasUsed <= b.gasLimit
  {
    if i < |b.receipts| - 1 {
      ReceiptsIncrease(b, i, |b.receipts| - 1);
    }
  }

  /** Every push, accepted or not, keeps the accounts of the block. */
  lemma {:induction false} PushKeepsGas(env: Env, b: Block, t: Transaction, h: Option<H256>, o: Oracle)
    requires OracleFits(env, t, o) && BaseGas(env.schedule, t) > 0
    requires GasAddsUp(b)
    ensures GasAddsUp(Pushed(env, b, t, h, o).block)
  {
    if t.hash !in b.seen && Rejection(env, InfoOf(b), b.world, t, true).None? {
      TransactionLaws.ChargeBounds(env, InfoOf(b), b.world, t, true, o);
      TransactionLaws.ReportNamesCharge(env, InfoOf(b), b.world, t, true, o);
      var c := Pushed(env, b, t, h, o).block;
      if c.receipts != b.receipts {
        Appended(b, c);
      }
    }
  }

  /** A receipt with the next charge added keeps the receipts adding up. */
  lemma Appended(b: Block, c: Block)
    requires GasAddsUp(b) && |c.charges| == |c.receipts| == |c.transactions| == |b.receipts| + 1
    requires c.receipts[..|b.receipts|] == b.receipts && c.charges[..|b.charges|] == b.charges
    requires c.charges[|b.charges|] > 0 && c.gasLimit == b.gasLimit
    requires c.receipts[|b.receipts|].gasUsed == GasSoFar(b) + c.charges[|b.charges|] <= b.gasLimit
    ensures GasAddsUp(c)
  {
    var n := |b.receipts|;
    forall i | 0 <= i < |c.receipts| ensures c.receipts[i].gasUsed == Sum(c.charges[..i + 1]) {
      if i < n {
        assert c.receipts[i] == b.receipts[i] && c.charges[..i + 1] == b.charges[..i + 1];
      } else {
        assert c.charges[..n + 1] == c.charges && c.charges[..n + 1][..n] == b.charges;
        assert b.charges == b.charges[..n];
      }
    }
    forall i | 0 <= i < |c.charges| ensures c.charges[i] > 0 {
      if i < n {
        assert c.charges[i] == b.charges[i];
      }
    }
  }

  predicate Rejected(env: Env, b: Block, t: Transaction) {
    Rejection(env, InfoOf(b), b.world, t, true).Some?
  }

  /** What an accepted transaction is charged. */
  ghost function Charge(env: Env, b: Block, t: Transaction, o: Oracle): nat
    requires OracleFits(env, t, o)
  {
    if Rejected(env, b, t) then 0
    else
      TransactionLaws.OuterGas(env, InfoOf(b), b.world, t, true, o);
      ChargedGas(env.schedule, t, OuterRun(env, b.world, t, o))
  }

  /** What executing a transaction on the accounts of a block gives. */
  ghost predicate Transacted(env: Env, b: Block, t: Transaction, o: Oracle, world: World, result: TxResult)
    requires OracleFits(env, t, o)
  {
    if Rejected(env, b, t) then
      world == b.world && result == Refused(Rejection(env, InfoOf(b), b.world, t, true).value)
    else
      var run := OuterRun(env, b.world, t, o);
      && GasLeft(run.result) <= t.gas
      && world == Finalized(env, InfoOf(b), t, run, o)
      && result == Report(env, InfoOf(b), t, run)
  }

  /** Pushing a transaction that is new is executing it and archiving the result. */
  lemma PushedCases(env: Env, b: Block, t: Transaction, h: Option<H256>, o: Oracle, world: World, result: TxResult)
    requires OracleFits(env, t, o) && t.hash !in b.seen && Transacted(env, b, t, o, world, result)
    ensures var b' := b.(world := world);
            Pushed(env, b, t, h, o) ==
            match result
            case Refused(error) => Pushing(b', Some(Execution(error)))
            case Done(e) => Pushing(Archived(b', t, h, e, Charge(env, b, t, o)), None)
  {
  }

  /** A push succeeds exactly when the hash is new, the checks pass and the run has no internal error; then
      the transaction and its receipt are appended. A push that is refused leaves the block as it was, unless
      the error is internal. */
  lemma PushExactly(env: Env, b: Block, t: Transaction, h: Option<H256>, o: Oracle)
    requires OracleFits(env, t, o)
    ensures var p := Pushed(env, b, t, h, o);
            && (p.error.None? <==>
                  && t.hash !in b.seen
                  && Rejection(env, InfoOf(b), b.world, t, true).None?
                  && OuterRun(env, b.world, t, o).result != Err(Internal))
            && (p.error.None? ==>
                  && p.block.transactions == b.transactions + [t]
                  && |p.block.receipts| == |b.receipts| + 1 && p.block.receipts[..|b.receipts|] == b.receipts
                  && p.block.seen == b.seen + {if h.Some? then h.value else t.hash})
            && (p.error.Some? && p.error != Some(Execution(InternalError)) ==> p.block == b)
            && (p.error.Some? ==> p.block.(world := b.world) == b)
  {
    if t.hash !in b.seen && Rejection(env, InfoOf(b), b.world, t, true).None? {
      TransactionLaws.ReportNamesCharge(env, InfoOf(b), b.world, t, true, o);
    }
  }

  lemma PushKeepsDistinct(env: Env, b: Block, t: Transaction, o: Oracle)
    requires OracleFits(env, t, o)
    requires NoRepeats(b)
    ensures NoRepeats(Pushed(env, b, t, None, o).block)
  {
  }

  // ---------------------------------------------------------------------------------------
  // Closing and reopening

  datatype Reward = Reward(to: Address, amount: nat)

  /** The rewards paid when a block is closed. */
  function Rewarded(w: World, rewards: seq<Reward>, start: nat): World {
    if rewards == [] then w
    else
      var last := |rewards| - 1;
      AddBalance(Rewarded(w, rewards[..last], start), rewards[last].to, rewards[last].amount, NoEmpty, start)
  }

  function Amounts(rewards: seq<Reward>): seq<nat> {
    seq(|rewards|, i requires 0 <= i < |rewards| => rewards[i].amount)
  }

  /** Closing raises the sum of all balances by exactly the rewards. */
  lemma {:induction false} RewardedTotal(w: World, rewards: seq<Reward>, start: nat)
    ensures Total(Rewarded(w, rewards, start)) == Total(w) + Sum(Amounts(rewards))
  {
    if rewards != [] {
      var last := |rewards| - 1;
      RewardedTotal(w, rewards[..last], start);
      assert Amounts(rewards)[..last] == Amounts(rewards[..last]);
      AddTotal(Rewarded(w, rewards[..last], start), rewards[last].to, rewards[last].amount, NoEmpty, start);
    }
  }

  function RewardsTo(rewards: seq<Reward>, a: Address): nat {
    if rewards == [] then 0
    else
      var last := rewards[|rewards| - 1];
      RewardsTo(rewards[..|rewards| - 1], a) + if last.to == a then last.amount else 0
  }

  /** Every account gets exactly the rewards that name it. */
  lemma {:induction false} RewardedExactly(w: World, rewards: seq<Reward>, start: nat, a: Address)
    ensures Balance(Rewarded(w, rewards, start), a) == Balance(w, a) + RewardsTo(rewards, a)
  {
    if rewards != [] {
      RewardedExactly(w, rewards[..|rewards| - 1], start, a);
    }
  }

  /** And nothing but balances changes. */
  lemma {:induction false} RewardsOnlyBalances(w: World, rewards: seq<Reward>, start: nat)
    ensures OnlyBalances(w, Rewarded(w, rewards, start), start)
  {
    if rewards != [] {
      RewardsOnlyBalances(w, rewards[..|rewards| - 1], start);
    }
  }

  datatype Stage = Open(block: Block) | Closed(block: Block, unclosed: World)

  /** What the owner of a block may do with it. */
  datatype Step =
    | Push(t: Transaction, h: Option<H256>, o: Oracle)
    | Close(rewards: seq<Reward>)
    | Reopen

  predicate StepFits(env: Env, s: Step) {
    s.Push? ==> OracleFits(env, s.t, s.o)
  }

  /** Closing pays the rewards and keeps the state before them; reopening takes that state back. A
      step that the stage does not offer changes nothing. */
  function Stepped(env: Env, stage: Stage, s: Step): Stage
    requires StepFits(env, s)
  {
    match stage
    case Open(b) =>
      (match s
       case Push(t, h, o) => Open(Pushed(env, b, t, h, o).block)
       case Close(rewards) => Closed(b.(world := Rewarded(b.world, rewards, env.startNonce)), b.world)
       case Reopen => stage)
    case Closed(b, unclosed) =>
      if s.Reopen? then Open(b.(world := unclosed)) else stage
  }

  function Steps(env: Env, stage: Stage, steps: seq<Step>): Stage
    requires forall i :: 0 <= i < |steps| ==> StepFits(env, steps[i])
  {
    if steps == [] then stage
    else
      var last := |steps| - 1;
      Stepped(env, Steps(env, stage, steps[..last]), steps[last])
  }

  /** Why a push to an open block is refused, if it is. */
  function Refusal(env: Env, stage: Stage, s: Step): Option<PushError>
    requires StepFits(env, s)
  {
    if stage.Open? && s.Push? then Pushed(env, stage.block, s.t, s.h, s.o).error else None
  }

  /** No step is refused. */
  predicate AllAccepted(env: Env, stage: Stage, steps: seq<Step>)
    requires forall i :: 0 <= i < |steps| ==> StepFits(env, steps[i])
  {
    steps == [] ||
    var last := |steps| - 1;
    && AllAccepted(env, stage, steps[..last])
    && Refusal(env, Steps(env, stage, steps[..last]), steps[last]).None?
  }

  /** All steps before the last are accepted, and the last is refused with `error`. */
  predicate RefusedAtLast(env: Env, stage: Stage, steps: seq<Step>, error: PushError)
    requires forall i :: 0 <= i < |steps| ==> StepFits(env, steps[i])
  {
    && steps != []
    && var last := |steps| - 1;
       && AllAccepted(env, stage, steps[..last])
       && Refusal(env, Steps(env, stage, steps[..last]), steps[last]) == Some(error)
  }

  lemma {:induction false} StepsAppended(env: Env, stage: Stage, steps: seq<Step>, s: Step)
    requires StepFits(env, s) && forall i :: 0 <= i < |steps| ==> StepFits(env, steps[i])
    ensures forall i :: 0 <= i < |steps + [s]| ==> StepFits(env, (steps + [s])[i])
    ensures Steps(env, stage, steps + [s]) == Stepped(env, Steps(env, stage, steps), s)
    ensures AllAccepted(env, stage, steps + [s]) <==>
              AllAccepted(env, stage, steps) && Refusal(env, Steps(env, stage, steps), s).None?
  {
    assert (steps + [s])[..|steps|] == steps;
  }

  lemma {:induction false} LastRefused(env: Env, stage: Stage, steps: seq<Step>, s: Step)
    requires StepFits(env, s) && forall i :: 0 <= i < |steps| ==> StepFits(env, steps[i])
    requires AllAccepted(env, stage, steps) && Refusal(env, Steps(env, stage, steps), s).Some?
    ensures forall i :: 0 <= i < |steps + [s]| ==> StepFits(env, (steps + [s])[i])
    ensures RefusedAtLast(env, stage, steps + [s], Refusal(env, Steps(env, stage, steps), s).value)
  {
    var all := steps + [s];
    assert all[..|all| - 1] == steps && all[|all| - 1] == s;
  }

  /** A step as it would be on a state that loaded everything and remembers nothing. */
  function Plain(s: Step): Step {
    if s.Push? then s.(o := s.o.(firstSeen := map[], senderLoaded := true)) else s
  }

  function PlainAll(steps: seq<Step>): seq<Step> {
    seq(|steps|, i requires 0 <= i < |steps| => Plain(steps[i]))
  }

  /** Where dust is not removed and every sender is loaded, nothing that the state loaded or remembers shows. */
  lemma PlainStep(env: Env, stage: Stage, s: Step)
    requires StepFits(env, s) && env.schedule.killDust.Off? && (s.Push? ==> s.o.senderLoaded)
    ensures StepFits(env, Plain(s))
    ensures Stepped(env, stage, Plain(s)) == Stepped(env, stage, s)
    ensures Refusal(env, stage, Plain(s)) == Refusal(env, stage, s)
  {
    if stage.Open? && s.Push? {
      var b, t := stage.block, s.t;
      if t.hash !in b.seen && Rejection(env, InfoOf(b), b.world, t, true).None? {
        TransactionLaws.OuterGas(env, InfoOf(b), b.world, t, true, s.o);
        var run := OuterRun(env, b.world, t, s.o);
        assert run == OuterRun(env, b.world, t, Plain(s).o);
        TransactionLaws.FinalizedPlainly(env, InfoOf(b), t, run, s.o);
        TransactionLaws.FinalizedPlainly(env, InfoOf(b), t, run, Plain(s).o);
      }
    }
  }

  lemma {:induction false} PlainSteps(env: Env, stage: Stage, steps: seq<Step>)
    requires forall i :: 0 <= i < |steps| ==> StepFits(env, steps[i]) && (steps[i].Push? ==> steps[i].o.senderLoaded)
    requires env.schedule.killDust.Off?
    ensures forall i :: 0 <= i < |steps| ==> StepFits(env, PlainAll(steps)[i])
    ensures Steps(env, stage, PlainAll(steps)) == Steps(env, stage, steps)
    ensures AllAccepted(env, stage, PlainAll(steps)) <==> AllAccepted(env, stage, steps)
  {
    if steps != [] {
      var last := |steps| - 1;
      PlainSteps(env, stage, steps[..last]);
      assert PlainAll(steps)[..last] == PlainAll(steps[..last]);
      PlainStep(env, Steps(env, stage, steps[..last]), steps[last]);
    }
  }

  /** The pushes that happened while the block was open, in order. */
  function Pushes(env: Env, stage: Stage, steps: seq<Step>): seq<Step>
    requires forall i :: 0 <= i < |steps| ==> StepFits(env, steps[i])
  {
    if steps == [] then []
    else
      var last := |steps| - 1;
      var earlier := Pushes(env, stage, steps[..last]);
      if steps[last].Push? && Steps(env, stage, steps[..last]).Open? then earlier + [steps[last]] else earlier
  }

  /** The block as it would be if it were open. */
  function Unclosed(stage: Stage): Block {
    if stage.Open? then stage.block else stage.block.(world := stage.unclosed)
  }

  lemma {:induction false} PushesFit(env: Env, stage: Stage, steps: seq<Step>)
    requires forall i :: 0 <= i < |steps| ==> StepFits(env, steps[i])
    ensures forall i :: 0 <= i < |Pushes(env, stage, steps)| ==>
                          Pushes(env, stage, steps)[i].Push? && StepFits(env, Pushes(env, stage, steps)[i])
  {
    if steps != [] {
      PushesFit(env, stage, steps[..|steps| - 1]);
    }
  }

  /** Step `i` closed the block and nothing has reopened it since. */
  ghost predicate ClosedBy(env: Env, b: Block, steps: seq<Step>, i: nat)
    requires i < |steps|
    requires forall j :: 0 <= j < |steps| ==> StepFits(env, steps[j])
  {
    && steps[i].Close?
    && Steps(env, Open(b), steps[..i]).Open?
    && forall j :: i < j < |steps| ==> !steps[j].Reopen?
  }

  /** Closing and reopening is transparent: after any interleaving the block is what the pushes alone
      would have made it. */
  lemma {:induction false} ReopenTransparent(env: Env, b: Block, steps: seq<Step>)
    requires forall i :: 0 <= i < |steps| ==> StepFits(env, steps[i])
    ensures forall i :: 0 <= i < |Pushes(env, Open(b), steps)| ==> StepFits(env, Pushes(env, Open(b), steps)[i])
    ensures Open(Unclosed(Steps(env, Open(b), steps))) == Steps(env, Open(b), Pushes(env, Open(b), steps))
  {
    PushesFit(env, Open(b), steps);
    if steps != [] {
      var last := |steps| - 1;
      ReopenTransparent(env, b, steps[..last]);
      var ps := Pushes(env, Open(b), steps[..last]);
      var before := Steps(env, Open(b), steps[..last]);
      if steps[last].Push? && before.Open? {
        StepsAppended(env, Open(b), ps, steps[last]);
      } else {
        UnclosedKept(env, before, steps[last]);
      }
    }
  }

  /** Where dust is not removed and every sender is loaded, so it is whatever the state remembers, although a state
      that was reopened has forgotten what was written to the trie. */
  lemma ReopenedPlainly(env: Env, b: Block, steps: seq<Step>)
    requires forall i :: 0 <= i < |steps| ==> StepFits(env, steps[i]) && (steps[i].Push? ==> steps[i].o.senderLoaded)
    requires env.schedule.killDust.Off?
    ensures var plain := PlainAll(Pushes(env, Open(b), steps));
            && (forall i :: 0 <= i < |plain| ==> StepFits(env, plain[i]))
            && Open(Unclosed(Steps(env, Open(b), steps))) == Steps(env, Open(b), plain)
  {
    ReopenTransparent(env, b, steps);
    PushesAmong(env, Open(b), steps);
    forall i | 0 <= i < |Pushes(env, Open(b), steps)| ensures Pushes(env, Open(b), steps)[i] in steps {
    }
    PlainSteps(env, Open(b), Pushes(env, Open(b), steps));
  }

  lemma {:induction false} PushesAmong(env: Env, stage: Stage, steps: seq<Step>)
    requires forall i :: 0 <= i < |steps| ==> StepFits(env, steps[i])
    ensures forall s :: s in Pushes(env, stage, steps) ==> s in steps
  {
    if steps != [] {
      PushesAmong(env, stage, steps[..|steps| - 1]);
    }
  }

  lemma UnclosedKept(env: Env, stage: Stage, s: Step)
    requires StepFits(env, s) && !(s.Push? && stage.Open?)
    ensures Unclosed(Stepped(env, stage, s)) == Unclosed(stage)
  {
  }

  /** Rewards are applied once: a closed block has, on top of its unclosed state, exactly the rewards
      of the one closing that still stands. */
  lemma {:induction false} RewardsOnce(env: Env, b: Block, steps: seq<Step>) returns (i: nat)
    requires forall i :: 0 <= i < |steps| ==> StepFits(env, steps[i])
    requires Steps(env, Open(b), steps).Closed?
    ensures i < |steps| && ClosedBy(env, b, steps, i)
    ensures var stage := Steps(env, Open(b), steps);
            stage.block.world == Rewarded(stage.unclosed, steps[i].rewards, env.startNonce)
  {
    var last := |steps| - 1;
    var before := Steps(env, Open(b), steps[..last]);
    if before.Closed? {
      i := RewardsOnce(env, b, steps[..last]);
      assert steps[..last][..i] == steps[..i];
    } else {
      i := last;
    }
  }

  /** Gas accounting over every run of pushes, closings and reopenings. */
  lemma {:induction false} RunKeepsGas(env: Env, b: Block, steps: seq<Step>)
    requires forall i :: 0 <= i < |steps| ==> StepFits(env, steps[i])
    requires forall i :: 0 <= i < |steps| && steps[i].Push? ==> BaseGas(env.schedule, steps[i].t) > 0
    requires GasAddsUp(b)
    ensures GasAddsUp(Steps(env, Open(b), steps).block)
  {
    if steps != [] {
      var last := |steps| - 1;
      RunKeepsGas(env, b, steps[..last]);
      var before := Steps(env, Open(b), steps[..last]);
      if before.Open? && steps[last].Push? {
        PushKeepsGas(env, before.block, steps[last].t, steps[last].h, steps[last].o);
      }
    }
  }

  /** With no override of the hash, no transaction comes twice. */
  lemma {:induction false} RunKeepsDistinct(env: Env, b: Block, steps: seq<Step>)
    requires forall i :: 0 <= i < |steps| ==> StepFits(env, steps[i])
    requires forall i :: 0 <= i < |steps| && steps[i].Push? ==> steps[i].h.None?
    requires NoRepeats(b)
    ensures NoRepeats(Steps(env, Open(b), steps).block)
  {
    if steps != [] {
      var last := |steps| - 1;
      RunKeepsDistinct(env, b, steps[..last]);
      var before := Steps(env, Open(b), steps[..last]);
      if before.Open? && steps[last].Push? {
        PushKeepsDistinct(env, before.block, steps[last].t, steps[last].o);
      }
    }
  }

  // ---------------------------------------------------------------------------------------
  // Supply

  /** No creation of a pushed transaction pays itself, on accounts with the nonces of `w` or higher ones. */
  ghost predicate PushSafe(env: Env, w: World, s: Step) {
    s.Push? ==> TransactionLaws.HashesSafely(env, w, s.t, s.o)
  }

  /** No push, accepted or not, raises the sum of all balances. */
  lemma {:induction false} PushNeverMints(env: Env, b: Block, t: Transaction, h: Option<H256>, o: Oracle)
    requires OracleFits(env, t, o) && TransactionLaws.HashesSafely(env, b.world, t, o)
    ensures Total(Pushed(env, b, t, h, o).block.world) <= Total(b.world)
  {
    if t.hash !in b.seen && Rejection(env, InfoOf(b), b.world, t, true).None? {
      TransactionLaws.EtherConserved(env, InfoOf(b), b.world, t, true, o);
    }
  }

  lemma PushKeepsStarted(env: Env, b: Block, t: Transaction, h: Option<H256>, o: Oracle)
    requires OracleFits(env, t, o) && ExecutionLaws.NoncesStarted(b.world, env.startNonce)
    ensures ExecutionLaws.NoncesStarted(Pushed(env, b, t, h, o).block.world, env.startNonce)
  {
    if t.hash !in b.seen && Rejection(env, InfoOf(b), b.world, t, true).None? {
      TransactionLaws.NoncesKept(env, InfoOf(b), b.world, t, true, o);
    }
  }

  lemma {:induction false} RunNeverMints(env: Env, b: Block, steps: seq<Step>)
    requires forall i :: 0 <= i < |steps| ==> StepFits(env, steps[i]) && PushSafe(env, b.world, steps[i])
    ensures var open := Unclosed(Steps(env, Open(b), steps));
            && Total(open.world) <= Total(b.world)
            && (ExecutionLaws.NoncesStarted(b.world, env.startNonce) ==>
                  ExecutionLaws.NoncesStarted(open.world, env.startNonce))
  {
    if steps != [] {
      var last := |steps| - 1;
      RunNeverMints(env, b, steps[..last]);
      var before := Steps(env, Open(b), steps[..last]);
      assert PushSafe(env, b.world, steps[last]);
      if before.Open? && steps[last].Push? {
        PushNeverMints(env, before.block, steps[last].t, steps[last].h, steps[last].o);
        if ExecutionLaws.NoncesStarted(b.world, env.startNonce) {
          PushKeepsStarted(env, before.block, steps[last].t, steps[last].h, steps[last].o);
        }
      } else {
        UnclosedKept(env, before, steps[last]);
      }
    }
  }

  /** However a block is built, closed and reopened, a closed block holds at most the ether it started
      from plus the rewards of the one closing that stands. */
  lemma {:induction false} SupplyBounded(env: Env, b: Block, steps: seq<Step>) returns (i: nat)
    requires forall i :: 0 <= i < |steps| ==> StepFits(env, steps[i]) && PushSafe(env, b.world, steps[i])
    requires Steps(env, Open(b), steps).Closed?
    ensures i < |steps| && ClosedBy(env, b, steps, i)
    ensures Total(Steps(env, Open(b), steps).block.world) <= Total(b.world) + Sum(Amounts(steps[i].rewards))
  {
    RunNeverMints(env, b, steps);
    i := RewardsOnce(env, b, steps);
    var stage := Steps(env, Open(b), steps);
    RewardedTotal(stage.unclosed, steps[i].rewards, env.startNonce);
  }
}
