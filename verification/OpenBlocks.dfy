/** Blocks under construction, in place, on top of the transaction executor. */
module OpenBlocks {
  import opened Types
  import opened Accounts
  import opened Vm
  import opened LiveState
  import opened Memory
  import opened Recall
  import Journal
  import opened ExecutiveModel
  import Tx = Transaction
  import Spec = BlockSpec

  /** The parts that open and closed blocks share. */
  class ExecutedBlock {
    const env: Env
    var author: Address
    var gasLimit: nat
    var headerGasUsed: nat
    var transactions: seq<Tx.Transaction>
    var receipts: seq<Spec.Receipt>
    var transactionsSet: set<H256>
    var state: State
    ghost var charges: seq<nat>

    ghost predicate Valid()
      reads this, state, state.backend, state.backend.accountCache
    {
      state.Valid() && state.snapshots == [] && state.accountStartNonce == env.startNonce
    }

    ghost function View(): Spec.Block
      reads this, state
    {
      Spec.Block(author, gasLimit, transactions, receipts, transactionsSet, state.View(), charges)
    }

    constructor (env: Env, state: State, author: Address, gasLimit: nat)
      requires state.Valid() && state.snapshots == [] && state.accountStartNonce == env.startNonce
      ensures Valid() && this.state == state && this.env == env
      ensures View() == Spec.Block(author, gasLimit, [], [], {}, state.View(), [])
    {
      this.env, this.state, this.author, this.gasLimit := env, state, author, gasLimit;
      headerGasUsed, transactions, receipts, transactionsSet, charges := 0, [], [], {}, [];
    }

    method EnvInfo() returns (info: Tx.BlockInfo)
      ensures info == Spec.InfoOf(View())
    {
      var gasUsed := if receipts == [] then 0 else receipts[|receipts| - 1].gasUsed;
      info := Tx.BlockInfo(author, gasUsed, gasLimit);
    }
  }

  class OpenBlock {
    const block: ExecutedBlock

    constructor (block: ExecutedBlock)
      ensures this.block == block
    {
      this.block := block;
    }

    /** Pushes a transaction. If valid, it is executed and archived together with its receipt. */
    method PushTransaction(job: Job, h: Option<H256>, commitBetween: bool)
      returns (error: Option<Spec.PushError>, ghost o: Tx.Oracle)
      requires block.Valid() && JobFits(block.env, job)
      modifies block, block.state
      ensures block.Valid() && block.state == old(block.state)
      ensures o == Recalled(block.env, block.state.Source(), old(block.state.Olds()), old(block.View()), job)
      ensures Spec.Pushing(block.View(), error) == Spec.Pushed(block.env, old(block.View()), job.t, h, o)
      ensures block.state.Olds() ==
              OldsAfter(block.env, block.state.Source(), old(block.state.Olds()), old(block.View()), job)
    {
      if job.t.hash in block.transactionsSet {
        return Some(Spec.AlreadyImported), Bare(job);
      }
      error, o := Apply(job, h, commitBetween);
    }

    /** Executes a transaction that is new to the block. */
    method Apply(job: Job, h: Option<H256>, commitBetween: bool)
      returns (error: Option<Spec.PushError>, ghost o: Tx.Oracle)
      requires block.Valid() && JobFits(block.env, job) && job.t.hash !in block.transactionsSet
      modifies block, block.state
      ensures block.Valid() && block.state == old(block.state)
      ensures o == Recalled(block.env, block.state.Source(), old(block.state.Olds()), old(block.View()), job)
      ensures Spec.Pushing(block.View(), error) == Spec.Pushed(block.env, old(block.View()), job.t, h, o)
      ensures block.state.Olds() ==
              OldsAfter(block.env, block.state.Source(), old(block.state.Olds()), old(block.View()), job)
    {
      ghost var before := block.View();
      var result;
      result, o := Execute(job);
      Spec.PushedCases(block.env, before, job.t, h, o, block.state.View(), result);
      error := Record(job.t, h, result, commitBetween, Spec.Charge(block.env, before, job.t, o));
    }

    method Execute(job: Job) returns (result: Tx.TxResult, ghost o: Tx.Oracle)
      requires block.Valid() && JobFits(block.env, job) && job.t.hash !in block.transactionsSet
      modifies block.state
      ensures block.Valid()
      ensures o == Recalled(block.env, block.state.Source(), old(block.state.Olds()), old(block.View()), job)
      ensures Spec.Transacted(block.env, old(block.View()), job.t, o, block.state.View(), result)
      ensures block.state.Olds() ==
              OldsAfter(block.env, block.state.Source(), old(block.state.Olds()), old(block.View()), job)
    {
      var info := block.EnvInfo();
      var ex := new Executive(block.state, block.env);
      result, o := ex.Transact(job.t, info, true, job.builtin, job.frame);
    }

    /** Archives a transaction that was executed. */
    method Record(t: Tx.Transaction, h: Option<H256>, result: Tx.TxResult, commitBetween: bool, ghost charge: nat)
      returns (error: Option<Spec.PushError>)
      requires block.Valid()
      modifies block, block.state
      ensures block.Valid() && block.state == old(block.state)
      ensures block.state.Olds() == old(block.state.Olds())
      ensures match result
              case Refused(e) => error == Some(Spec.Execution(e)) && block.View() == old(block.View())
              case Done(e) => error.None? && block.View() == Spec.Archived(old(block.View()), t, h, e, charge)
    {
      match result {
        case Refused(e) => error := Some(Spec.Execution(e));
        case Done(e) =>
          if commitBetween {
            block.state.Commit();
          }
          Archive(t, h, e, charge);
          error := None;
      }
    }

    method Archive(t: Tx.Transaction, h: Option<H256>, e: Tx.Executed, ghost charge: nat)
      requires block.Valid()
      modifies block`transactions, block`receipts, block`transactionsSet, block`charges
      ensures block.Valid() && block.View() == Spec.Archived(old(block.View()), t, h, e, charge)
    {
      block.transactionsSet := block.transactionsSet + {if h.Some? then h.value else t.hash};
      block.transactions := block.transactions + [t];
      block.receipts := block.receipts + [Spec.Receipt(e.cumulativeGasUsed, e.logs, e.exception.None?)];
      block.charges := block.charges + [charge];
    }

    /** The steps so far are those that the first jobs lead to, and the block and what its state remembers are where
        they lead. */
    ghost predicate Along(b: Spec.Block, olds: Olds, steps: seq<Spec.Step>, jobs: seq<Job>)
      requires forall i :: 0 <= i < |jobs| ==> JobFits(block.env, jobs[i])
      reads block, block.state, block.state.backend, block.state.backend.accountCache
    {
      && |steps| <= |jobs|
      && Course(steps, block.state.Olds()) ==
         Played(block.env, block.state.Source(), b, olds, jobs[..|steps|])
      && Spec.Steps(block.env, Spec.Open(b), steps) == Spec.Open(block.View())
    }

    /** Pushes the next transaction of some jobs. */
    method PushNext(jobs: seq<Job>, i: nat, commitBetween: bool, ghost b: Spec.Block, ghost olds: Olds,
                    ghost steps: seq<Spec.Step>)
      returns (error: Option<Spec.PushError>, ghost steps': seq<Spec.Step>)
      requires block.Valid() && i == |steps| < |jobs| && forall k :: 0 <= k < |jobs| ==> JobFits(block.env, jobs[k])
      requires Along(b, olds, steps, jobs) && Spec.AllAccepted(block.env, Spec.Open(b), steps)
      modifies block, block.state
      ensures block.Valid() && block.state == old(block.state)
      ensures |steps'| == |steps| + 1 && Along(b, olds, steps', jobs)
      ensures if error.None? then Spec.AllAccepted(block.env, Spec.Open(b), steps')
              else Spec.RefusedAtLast(block.env, Spec.Open(b), steps', error.value)
    {
      ghost var o;
      error, o := PushTransaction(jobs[i], None, commitBetween);
      ghost var step := Spec.Push(jobs[i].t, None, o);
      steps' := steps + [step];
      Advanced(b, olds, steps, jobs, old(block.View()), old(block.state.Olds()), step, error);
    }

    /** One more push takes the course one step further. */
    lemma {:induction false} Advanced(b: Spec.Block, olds: Olds, steps: seq<Spec.Step>, jobs: seq<Job>,
                                      before: Spec.Block, oldsBefore: Olds, step: Spec.Step,
                                      error: Option<Spec.PushError>)
      requires |steps| < |jobs| && forall k :: 0 <= k < |jobs| ==> JobFits(block.env, jobs[k])
      requires Course(steps, oldsBefore) == Played(block.env, block.state.Source(), b, olds, jobs[..|steps|])
      requires Spec.Steps(block.env, Spec.Open(b), steps) == Spec.Open(before)
      requires Spec.AllAccepted(block.env, Spec.Open(b), steps)
      requires var job := jobs[|steps|];
               && step == Spec.Push(job.t, None, Recalled(block.env, block.state.Source(), oldsBefore, before, job))
               && Spec.Pushing(block.View(), error) == Spec.Pushed(block.env, before, job.t, None, step.o)
               && block.state.Olds() == OldsAfter(block.env, block.state.Source(), oldsBefore, before, job)
      ensures Along(b, olds, steps + [step], jobs)
      ensures if error.None? then Spec.AllAccepted(block.env, Spec.Open(b), steps + [step])
              else Spec.RefusedAtLast(block.env, Spec.Open(b), steps + [step], error.value)
    {
      PlayedNext(block.env, block.state.Source(), b, olds, jobs, |steps|);
      Spec.StepsAppended(block.env, Spec.Open(b), steps, step);
      if error.Some? {
        Spec.LastRefused(block.env, Spec.Open(b), steps, step);
      }
    }

    /** Pushes the transactions of a block one by one, up to the first that is refused. */
    method PushTransactions(jobs: seq<Job>, commitBetween: bool)
      returns (error: Option<Spec.PushError>, ghost steps: seq<Spec.Step>)
      requires block.Valid() && forall i :: 0 <= i < |jobs| ==> JobFits(block.env, jobs[i])
      modifies block, block.state
      ensures block.Valid() && block.state == old(block.state)
      ensures Along(old(block.View()), old(block.state.Olds()), steps, jobs)
      ensures if error.None? then |steps| == |jobs| && Spec.AllAccepted(block.env, Spec.Open(old(block.View())), steps)
              else Spec.RefusedAtLast(block.env, Spec.Open(old(block.View())), steps, error.value)
    {
      steps, error := [], None;
      ghost var b, olds := block.View(), block.state.Olds();
      var i := 0;
      while i < |jobs|
        invariant 0 <= i <= |jobs| && |steps| == i && error.None?
        invariant block.Valid() && block.state == old(block.state)
        invariant Along(b, olds, steps, jobs) && Spec.AllAccepted(block.env, Spec.Open(b), steps)
      {
        error, steps := PushNext(jobs, i, commitBetween, b, olds, steps);
        if error.Some? {
          return;
        }
        i := i + 1;
      }
    }

    /** Closes the block, and remembers the state before its rewards. */
    method Close(rewards: seq<Spec.Reward>) returns (c: ClosedBlock)
      requires block.Valid()
      modifies block`headerGasUsed, block.state
      ensures fresh(c) && c.block == block && c.Valid() && block.state == old(block.state)
      ensures Spec.Closed(block.View(), c.unclosedState.View()) ==
              Spec.Stepped(block.env, Spec.Open(old(block.View())), Spec.Close(rewards))
      ensures block.headerGasUsed == Spec.GasSoFar(block.View())
      ensures c.unclosedState.FirstSeen() == old(block.state.FirstSeen()) <==>
                old(Journal.AsFirstSeen(block.state.cache))
      ensures c.unclosedState.Source() == Reader(old(block.state.db), {})
      ensures c.unclosedState.Olds() == Journal.OldsOf(Journal.Unwritten(old(block.state.cache)))
    {
      var unclosed := block.state.Clone();
      CloseKeeping(rewards, unclosed);
      c := new ClosedBlock(block, unclosed);
    }

    /** Closes the block beside another state, which stays as it is. */
    method CloseKeeping(rewards: seq<Spec.Reward>, unclosed: State)
      requires block.Valid() && unclosed != block.state && unclosed.Valid()
      modifies block`headerGasUsed, block.state
      ensures block.Valid() && unclosed.Valid()
      ensures Spec.Closed(block.View(), old(block.state.View())) ==
              Spec.Stepped(block.env, Spec.Open(old(block.View())), Spec.Close(rewards))
      ensures block.headerGasUsed == Spec.GasSoFar(block.View())
    {
      CloseAndLock(rewards);
    }

    /** Closes the block for good: pays the rewards and writes the accounts to the trie. */
    method CloseAndLock(rewards: seq<Spec.Reward>)
      requires block.Valid()
      modifies block`headerGasUsed, block.state
      ensures block.Valid()
      ensures Spec.Closed(block.View(), old(block.state.View())) ==
              Spec.Stepped(block.env, Spec.Open(old(block.View())), Spec.Close(rewards))
      ensures block.headerGasUsed == Spec.GasSoFar(block.View())
      ensures forall a :: a in block.state.cache ==> !block.state.cache[a].state.Dirty?
    {
      PayRewards(rewards);
      block.state.Commit();
      block.headerGasUsed := if block.receipts == [] then 0 else block.receipts[|block.receipts| - 1].gasUsed;
    }

    method PayRewards(rewards: seq<Spec.Reward>)
      requires block.Valid()
      modifies block.state
      ensures block.Valid()
      ensures block.state.View() == Spec.Rewarded(old(block.state.View()), rewards, block.env.startNonce)
    {
      var state := block.state;
      ghost var w := state.View();
      var i := 0;
      while i < |rewards|
        invariant 0 <= i <= |rewards| && block.Valid()
        invariant state.View() == Spec.Rewarded(w, rewards[..i], block.env.startNonce)
      {
        assert rewards[..i + 1][..i] == rewards[..i];
        var _ := state.AddBalance(rewards[i].to, rewards[i].amount, NoEmpty, {});
        i := i + 1;
      }
      assert rewards[..|rewards|] == rewards;
    }
  }

  class ClosedBlock {
    const block: ExecutedBlock
    const unclosedState: State

    ghost predicate Valid()
      reads block, block.state, block.state.backend, block.state.backend.accountCache
      reads unclosedState, unclosedState.backend, unclosedState.backend.accountCache
    {
      && block.Valid()
      && unclosedState != block.state
      && unclosedState.Valid() && unclosedState.snapshots == []
      && unclosedState.accountStartNonce == block.env.startNonce
    }

    constructor (block: ExecutedBlock, unclosedState: State)
      requires block.Valid() && unclosedState != block.state && unclosedState.Valid() && unclosedState.snapshots == []
      requires unclosedState.accountStartNonce == block.env.startNonce
      ensures this.block == block && this.unclosedState == unclosedState && Valid()
    {
      this.block, this.unclosedState := block, unclosedState;
    }

    /** Reopens the block with the state it had before its rewards. */
    method Reopen() returns (o: OpenBlock)
      requires Valid()
      modifies block`state
      ensures fresh(o) && o.block == block && block.Valid()
      ensures Spec.Open(block.View()) ==
              Spec.Stepped(block.env, Spec.Closed(old(block.View()), old(unclosedState.View())), Spec.Reopen)
      ensures block.state.Source() == old(unclosedState.Source()) && block.state.Olds() == old(unclosedState.Olds())
      ensures block.state.FirstSeen() == old(unclosedState.FirstSeen())
    {
      block.state := unclosedState;
      o := new OpenBlock(block);
    }
  }
}
