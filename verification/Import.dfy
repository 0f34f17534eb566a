/** Opening a state on a committed block, working on it through the shared cache, and committing the block it
    leads to. */
module Import {
  import opened Types
  import opened Accounts
  import opened BlockTree
  import opened CacheSpec
  import opened CacheSoundness
  import opened CacheRuns
  import opened StateDb
  import opened LiveState
  import opened OpenBlocks
  import Memory
  import opened Recall
  import MemoryLaws
  import Vm
  import Tx = Transaction
  import Spec = BlockSpec

  /** Whatever the shared cache answers to a reader on a committed block is that block's account. */
  lemma AnswersTrueOn(n: Node, parent: H256)
    requires Invariant(n) && parent in n.tree
    ensures AnswersTrue(n.cache, Some(parent), n.tree[parent].state)
  {
    forall a | Lookup(n.cache, Some(parent), a).Some?
      ensures Lookup(n.cache, Some(parent), a).value == Get(n.tree[parent].state, a)
    {
      LookupSound(n, Some(parent), a);
    }
  }

  /** A state keeps being answered truly while other blocks are imported, rerouted and evicted around it. */
  lemma EventKeepsReaders(n: Node, e: Event, parent: H256)
    requires Invariant(n) && Permitted(n, e) && parent in n.tree
    ensures AnswersTrue(After(n, e).cache, Some(parent), n.tree[parent].state)
  {
    EventKeeps(n, e);
    AnswersTrueOn(After(n, e), parent);
  }

  /** The state on top of the block that a clone of the database stands on. */
  method OpenState(db: StateDB, root: World, startNonce: nat, ghost n: Node) returns (state: State)
    requires Invariant(n) && n.cache == db.accountCache.View()
    requires db.parentHash.Some? && db.parentHash.value in n.tree && root == n.tree[db.parentHash.value].state
    ensures fresh(state) && state.Valid() && state.snapshots == [] && state.backend == db
    ensures state.base == state.View() == n.tree[db.parentHash.value].state && state.accountStartNonce == startNonce
    ensures state.Source() == Memory.Reader(root, Answered(n.cache, db.parentHash)) && state.Olds() == map[]
  {
    AnswersTrueOn(n, db.parentHash.value);
    state := new State.FromExisting(db, root, startNonce);
  }

  /** Ends a committed state: its accounts are queued in its database. */
  method Drop(state: State) returns (db: StateDB)
    requires state.Valid() && state.snapshots == [] && forall a :: a in state.cache ==> !state.cache[a].state.Dirty?
    requires state.backend.localCache == []
    modifies state, state.backend`localCache
    ensures db == state.backend && QueueTrue(state.base, old(state.View()), db.localCache)
  {
    db := state.backend;
    var queue := state.PropagateToGlobalCache();
    var i := 0;
    while i < |queue|
      invariant 0 <= i <= |queue| && db.localCache == queue[..i]
    {
      db.AddToAccountCache(queue[i].address, queue[i].account, queue[i].modified);
      i := i + 1;
    }
    assert db.localCache == queue;
  }

  /** Hands the accounts of a committed state to its database, journals the block and follows the best chain. The
      cache agrees with the block tree afterwards: it did before, so what the state read from it was true, so
      what the state queues is true. `evicted` is what the LRU policy drops at each insertion. */
  method CommitBlock(state: State, number: nat, hash: H256, enacted: seq<H256>, retracted: seq<H256>,
                     evicted: nat -> set<Address>, ghost n: Node, ghost next: H256)
    requires Invariant(n) && n.cache == state.backend.accountCache.View()
    requires state.backend.parentHash.Some? && state.backend.localCache == []
    requires state.Valid() && state.snapshots == [] && forall a :: a in state.cache ==> !state.cache[a].state.Dirty?
    requires state.backend.parentHash.value in n.tree && state.base == n.tree[state.backend.parentHash.value].state
    requires NewBlock(n, hash, Block(state.backend.parentHash.value, number, state.View()), enacted, retracted, next)
    requires next == hash <==> enacted != [] && enacted[|enacted| - 1] == hash
    modifies state, state.backend, state.backend.accountCache
    ensures Invariant(Node(state.backend.accountCache.View(),
                           n.tree[hash := Block(old(state.backend.parentHash).value, number, old(state.View()))],
                           next))
    ensures state.backend.localCache == []
  {
    ghost var block := Block(state.backend.parentHash.value, number, state.View());
    var db := Drop(state);
    db.JournalUnder(number, hash);
    var isCanon := enacted != [] && enacted[|enacted| - 1] == hash;
    var drops := seq(|db.localCache|, (k: nat) => evicted(k));
    EventKeeps(n, Event.Import(hash, block, db.localCache, drops, enacted, retracted, next));
    db.SyncCache(enacted, retracted, isCanon, drops);
  }

  /** Commits a sealed block whose state was reopened: its database is a clone without a parent, so the block is not
      recorded, and the route is told to the client's own database afterwards. */
  method CommitReopened(shared: StateDB, state: State, number: nat, hash: H256, enacted: seq<H256>,
                        retracted: seq<H256>, ghost parent: H256, ghost n: Node, ghost next: H256)
    requires Invariant(n) && n.cache == shared.accountCache.View()
    requires shared.Committing() == Commit(None, None, None) && shared.localCache == []
    requires state.backend != shared && state.backend.accountCache == shared.accountCache
    requires state.backend.parentHash.None? && state.backend.localCache == []
    requires state.Valid() && state.snapshots == [] && forall a :: a in state.cache ==> !state.cache[a].state.Dirty?
    requires NewBlock(n, hash, Block(parent, number, state.View()), enacted, retracted, next)
    requires hash in enacted <==> next == hash
    modifies state, state.backend, shared`localCache, shared.accountCache
    ensures Invariant(Node(shared.accountCache.View(), n.tree[hash := Block(parent, number, old(state.View()))], next))
  {
    EventKeeps(n, ImportReopened(hash, Block(parent, number, state.View()), enacted, retracted, next));
    var db := Drop(state);
    db.JournalUnder(number, hash);
    var isCanon := enacted != [] && enacted[|enacted| - 1] == hash;
    db.SyncCache(enacted, retracted, isCanon, seq(|db.localCache|, _ => {}));
    shared.SyncCache(enacted, retracted, false, []);
  }

  /** A block with nothing in it yet, on top of `root`. */
  function Unfilled(author: Address, gasLimit: nat, root: World): Spec.Block {
    Spec.Block(author, gasLimit, [], [], {}, root, [])
  }

  /** The steps that the jobs of a block ask for, with nothing of the state in them. */
  function AskedFor(jobs: seq<Job>, rewards: seq<Spec.Reward>): seq<Spec.Step> {
    seq(|jobs|, i requires 0 <= i < |jobs| =>
      Spec.Push(jobs[i].t, None, Tx.Oracle(jobs[i].builtin, jobs[i].frame, map[], true))) + [Spec.Close(rewards)]
  }

  /** What the steps of an imported block are: those that its jobs lead to on a state that starts with nothing loaded,
      up to the first that is refused, or all of them and the closing. */
  ghost predicate Imported(env: Vm.Env, hits: set<Address>, b: Spec.Block, jobs: seq<Job>, rewards: seq<Spec.Reward>,
                           error: Option<Spec.PushError>, steps: seq<Spec.Step>)
    requires forall i :: 0 <= i < |jobs| ==> JobFits(env, jobs[i])
  {
    && (forall i :: 0 <= i < |steps| ==> Spec.StepFits(env, steps[i]))
    && if error.None? then
         && steps == Played(env, Memory.Reader(b.world, hits), b, map[], jobs).steps + [Spec.Close(rewards)]
         && Spec.AllAccepted(env, Spec.Open(b), steps)
       else
         && |steps| <= |jobs|
         && steps == Played(env, Memory.Reader(b.world, hits), b, map[], jobs[..|steps|]).steps
         && Spec.RefusedAtLast(env, Spec.Open(b), steps, error.value)
  }

  /** Where dust is not removed and every transaction raises a nonce, the steps are as good as those asked for: no
      trace of what was cached or loaded is left. */
  lemma ImportedPlainly(env: Vm.Env, hits: set<Address>, b: Spec.Block, jobs: seq<Job>, rewards: seq<Spec.Reward>,
                        steps: seq<Spec.Step>)
    requires forall i :: 0 <= i < |jobs| ==> JobFits(env, jobs[i]) && Tx.RaisesNonce(env, jobs[i].t)
    requires Imported(env, hits, b, jobs, rewards, None, steps) && env.schedule.killDust.Off?
    ensures forall i :: 0 <= i < |AskedFor(jobs, rewards)| ==> Spec.StepFits(env, AskedFor(jobs, rewards)[i])
    ensures Spec.Steps(env, Spec.Open(b), steps) == Spec.Steps(env, Spec.Open(b), AskedFor(jobs, rewards))
    ensures Spec.AllAccepted(env, Spec.Open(b), AskedFor(jobs, rewards))
  {
    var pushes := Played(env, Memory.Reader(b.world, hits), b, map[], jobs).steps;
    forall i | 0 <= i < |steps|
      ensures steps[i].Push? ==> steps[i].o.senderLoaded
      ensures Spec.PlainAll(steps)[i] == AskedFor(jobs, rewards)[i]
    {
      if i < |jobs| {
        assert steps[i] == pushes[i] && Does(pushes[i], jobs[i]);
      }
    }
    assert Spec.PlainAll(steps) == AskedFor(jobs, rewards);
    Spec.PlainSteps(env, Spec.Open(b), steps);
  }

  /** Where dust is removed or a nonce does not rise, an import still does not depend on the shared cache, unless the
      cache answers for an address that a contract is created at or for a sender whose nonce does not rise. */
  lemma ImportedAlone(env: Vm.Env, hits: set<Address>, b: Spec.Block, jobs: seq<Job>, rewards: seq<Spec.Reward>,
                      error: Option<Spec.PushError>, steps: seq<Spec.Step>, places: set<Address>)
    requires forall i :: 0 <= i < |jobs| ==> JobFits(env, jobs[i]) && MemoryLaws.Covers(env, jobs[i], places)
    requires places !! hits
    ensures Imported(env, hits, b, jobs, rewards, error, steps) <==> Imported(env, {}, b, jobs, rewards, error, steps)
  {
    MemoryLaws.CacheHidden(env, hits, b.world, b, jobs, places);
    if |steps| <= |jobs| {
      MemoryLaws.CacheHidden(env, hits, b.world, b, jobs[..|steps|], places);
    }
  }

  /** An open block on the state of its parent. */
  method OpenOn(state: State, env: Vm.Env, author: Address, gasLimit: nat) returns (open: OpenBlock)
    requires state.Valid() && state.snapshots == [] && state.accountStartNonce == env.startNonce
    ensures fresh(open) && fresh(open.block) && open.block.Valid()
    ensures open.block.state == state && open.block.env == env
    ensures open.block.View() == Unfilled(author, gasLimit, state.View())
  {
    var block := new ExecutedBlock(env, state, author, gasLimit);
    open := new OpenBlock(block);
  }

  /** Executes the transactions of a block on the state of its parent, which reads through the shared cache, and
      closes it. */
  method Enact(state: State, env: Vm.Env, author: Address, gasLimit: nat, jobs: seq<Job>, rewards: seq<Spec.Reward>,
               commitBetween: bool)
    returns (error: Option<Spec.PushError>, ghost steps: seq<Spec.Step>)
    requires state.Valid() && state.snapshots == [] && state.accountStartNonce == env.startNonce
    requires state.Olds() == map[] && state.base == state.View()
    requires forall i :: 0 <= i < |jobs| ==> JobFits(env, jobs[i])
    modifies state
    ensures Imported(env, state.Source().hits, Unfilled(author, gasLimit, old(state.View())), jobs, rewards, error,
                     steps)
    ensures error.None? ==>
              && state.Valid() && state.snapshots == []
              && (forall a :: a in state.cache ==> !state.cache[a].state.Dirty?)
              && state.View() ==
                 Spec.Steps(env, Spec.Open(Unfilled(author, gasLimit, old(state.View()))), steps).block.world
  {
    ghost var b := Unfilled(author, gasLimit, state.View());
    var open := OpenOn(state, env, author, gasLimit);
    error, steps := open.PushTransactions(jobs, commitBetween);
    if error.None? {
      assert jobs[..|jobs|] == jobs;
      steps := CloseFilled(open, rewards, Spec.Open(b), steps);
    }
  }

  /** Closes a block whose transactions were all accepted. */
  method CloseFilled(open: OpenBlock, rewards: seq<Spec.Reward>, ghost start: Spec.Stage, ghost steps: seq<Spec.Step>)
    returns (ghost steps': seq<Spec.Step>)
    requires open.block.Valid()
    requires forall i :: 0 <= i < |steps| ==> Spec.StepFits(open.block.env, steps[i])
    requires Spec.Steps(open.block.env, start, steps) == Spec.Open(open.block.View())
    requires Spec.AllAccepted(open.block.env, start, steps)
    modifies open.block`headerGasUsed, open.block.state
    ensures open.block.Valid() && steps' == steps + [Spec.Close(rewards)]
    ensures forall a :: a in open.block.state.cache ==> !open.block.state.cache[a].state.Dirty?
    ensures forall i :: 0 <= i < |steps'| ==> Spec.StepFits(open.block.env, steps'[i])
    ensures Spec.AllAccepted(open.block.env, start, steps')
    ensures Spec.Steps(open.block.env, start, steps').block.world == open.block.state.View()
  {
    open.CloseAndLock(rewards);
    Spec.StepsAppended(open.block.env, start, steps, Spec.Close(rewards));
    steps' := steps + [Spec.Close(rewards)];
  }

  /** Imports a block on top of `parent`: the parent's accounts are read through the shared cache, the transactions
      executed, the rewards paid, and the result committed. The block is recorded with the accounts that the plain
      functions give on the parent's, and the cache agrees with the grown tree. A block with a transaction that is
      refused leaves the shared cache alone. */
  method ImportBlock(shared: StateDB, parent: H256, root: World, env: Vm.Env, author: Address, gasLimit: nat,
                     jobs: seq<Job>, rewards: seq<Spec.Reward>, commitBetween: bool, number: nat, hash: H256,
                     enacted: seq<H256>, retracted: seq<H256>, evicted: nat -> set<Address>, ghost n: Node,
                     ghost next: H256)
    returns (error: Option<Spec.PushError>, ghost steps: seq<Spec.Step>)
    requires Invariant(n) && n.cache == shared.accountCache.View()
    requires parent in n.tree && root == n.tree[parent].state
    requires forall i :: 0 <= i < |jobs| ==> JobFits(env, jobs[i])
    requires NewBlock(n, hash, Block(parent, number, map[]), enacted, retracted, next)
    requires next == hash <==> enacted != [] && enacted[|enacted| - 1] == hash
    modifies shared.accountCache
    ensures Imported(env, Answered(n.cache, Some(parent)), Unfilled(author, gasLimit, n.tree[parent].state), jobs,
                     rewards, error, steps)
    ensures error.Some? ==> shared.accountCache.View() == n.cache
    ensures error.None? ==>
              var end := Spec.Steps(env, Spec.Open(Unfilled(author, gasLimit, n.tree[parent].state)), steps);
              Invariant(Node(shared.accountCache.View(),
                             n.tree[hash := Block(parent, number, end.block.world)], next))
    ensures error.None? && env.schedule.killDust.Off? &&
            (forall i :: 0 <= i < |jobs| ==> Tx.RaisesNonce(env, jobs[i].t)) ==>
              && (forall i :: 0 <= i < |AskedFor(jobs, rewards)| ==> Spec.StepFits(env, AskedFor(jobs, rewards)[i]))
              && var b := Unfilled(author, gasLimit, n.tree[parent].state);
                 Spec.Steps(env, Spec.Open(b), steps) == Spec.Steps(env, Spec.Open(b), AskedFor(jobs, rewards))
  {
    var db := shared.BoxedCloneCanon(parent);
    var state := OpenState(db, root, env.startNonce, n);
    error, steps := Enact(state, env, author, gasLimit, jobs, rewards, commitBetween);
    if error.None? {
      if env.schedule.killDust.Off? && forall i :: 0 <= i < |jobs| ==> Tx.RaisesNonce(env, jobs[i].t) {
        ImportedPlainly(env, Answered(n.cache, Some(parent)), Unfilled(author, gasLimit, n.tree[parent].state), jobs,
                        rewards, steps);
      }
      CommitBlock(state, number, hash, enacted, retracted, evicted, n, next);
    }
  }

  /** A reader on top of a committed block gets that block's account, or nothing. */
  method ReadAccount(db: StateDB, addr: Address, ghost n: Node) returns (r: Option<Option<Account>>)
    requires Invariant(n) && n.cache == db.accountCache.View()
    requires db.parentHash.Some? ==> db.parentHash.value in n.tree
    ensures r.Some? ==> db.parentHash.Some? && r.value == Value(n.tree, db.parentHash.value, addr)
  {
    LookupSound(n, db.parentHash, addr);
    r := db.GetCachedAccount(addr);
  }
}
