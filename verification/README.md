# Parity Ethereum client: verified models

A Dafny model of the parts of the Parity Ethereum client where state, nesting or arithmetic make
mistakes easy, with proofs of what those parts promise. `dafny verify dfyconfig.toml` checks the
whole project. Nothing here runs the client.

## What is modelled

**The shared account cache** (`BlockTree`, `CacheSpec`, `CacheSoundness`, `CacheRuns`, `CacheLaws`,
`StateDb`, `Import`). All clones of the state database share one cache of accounts that follows the best chain. It
remembers which accounts the twelve latest blocks changed, and decides from that whether a reader
on some block may use an entry. The plain thing it stands for is a tree of blocks, each with its
full account map. `StateDb` is the code in place, equal to the functions of `CacheSpec`. The main
theorem, `CacheRuns.CacheSound`, says that after every run of imports, side branches,
reorganisations and evictions every answer equals the account in the reader's own block. `CacheLaws`
is the other half: what is queued is stored and served, and nothing is dropped without a reason. Callers
keep to `CacheRuns.Permitted`: a block is committed once and on its real parent, the route tells
the whole move of the best chain, and the queue is true. The queue in turn is filled by a state that
reads through the cache. `Import` closes this loop in place: a state opened on a committed block is
answered truly (`OpenState`) and stays so while other blocks come in (`EventKeepsReaders`), so what it
queues is true, so committing it keeps the cache right (`CommitBlock`). `ImportBlock` runs the whole
import, from the clone of the database over the executed transactions to the commit. It reports no
error exactly when every transaction was accepted, and then records the block with the accounts that
the plain functions give on the parent's. Besides the transactions and the parent's accounts, these
functions take one thing only: the set of addresses that the shared cache answers for (`Imported`).
Where dust is not removed and every transaction raises a nonce, it makes no difference
(`ImportedPlainly`). Otherwise it makes none unless the cache answers for an address that a contract
is created at, or for a sender whose nonce does not rise (`ImportedAlone`). A sealed block whose state was reopened commits through a clone without a parent; the second
`sync_cache` of its import is what keeps the cache right (`CommitReopened`).

**The state with checkpoints** (`Accounts`, `Journal`, `Memory`, `LiveState`). A state caches accounts
over a trie and the shared cache. Checkpoints are journals of overwritten entries. They are proved to
stand for a stack of full snapshots. The removal of empty accounts and dust at the end of a transaction
only looks at loaded accounts, and at the balances they were first seen with. So what is loaded and
remembered is proved too: a run leaves a trail of reads, changes, new entries and checkpoints, and the
cache always holds what replaying the trail tells (`Memory.Replay`).

**The transaction executor** (`Vm`, `Execution`, `ExecutionLaws`, `CallLaws`, `ExecutiveModel`,
`Transaction`, `TransactionLaws`, `OutcomeLaws`, `Traces`). A run of code is a finite tree of requests with an arbitrary end. `Execution`
gives nested calls and creations as functions on account maps, where undoing a frame is returning
the map it started from. `ExecutiveModel` is the code in place, over the journalled state, and is
proved equal to these functions. Conservation of ether, atomicity, static isolation and honest
reports are proved by induction over the tree. `CallLaws` and `OutcomeLaws` tell from the accounts before
what every kind of request and transaction comes to. What is taken from the interpreter: it asks for a
call or creation only when it can pay and is not too deep, a call code passes one account as sender
and receiver, running empty code does nothing, and code never gives back more gas than it got.

**Blocks** (`BlockSpec`, `BlockLaws`, `Recall`, `MemoryLaws`, `OpenBlocks`). Pushing, closing and reopening on top of
the executor: gas accounting, no repeated transaction, rewards applied once, bounded supply. `Recall`
gives what each push goes by as a function of the pushes before it. `MemoryLaws` says when two states
that have loaded different accounts lead the same transactions to the same block.

**Arithmetic** (`Modular`, `Modexp`, `ModexpPrice`, `Machine`, `Ethash`): modular exponentiation
and its price under EIP-198, the block gas limit, the DAO transfers, the Ethash sizes.

**Small caches, iterators and algebra** (`Ethash`, `Phrases`, `Derivation`, `PodDiff`): seed
hashes, the two-slot light cache, the phrase odometer, key derivation of BIP-32, state diffs.

## Findings

- Reverting a checkpoint does not bring back an account that was killed under it
  (`Journal.RemovedStaysRemoved`); `Journal.RevertExactly` gives the exact condition, and
  `LiveState.State.KillAccount` the one under which a removal keeps every snapshot restorable. The
  executor kills accounts only when no checkpoint is active, so its own runs meet it.
- Reverting a creation on top of an existing account leaves the new contract's balance as the balance
  the account was first seen with (`Journal.CreationKeepsOldBalance`), and the dust rule then removes an
  account that still has all it had (`Journal.UndoneCreationIsDust`). `Journal.OldBalancesExactly` says
  which writes break the old balances.
- Such an undone creation also makes the shared cache show. Reading an account does not load it when the
  shared cache answers. Then undoing the creation unloads the address, which counts as first seen with
  what it had. Otherwise it counts as first seen with what the contract got
  (`MemoryLaws.UndoneCreationShows`). An address where no contract is created always keeps the balance it
  was first seen with (`MemoryLaws.PushRemembers`).
- Removing empty accounts only looks at accounts that the state has loaded. This shows for one kind of
  account only: the unsigned sender of EIP-86, when it pays nothing and exists without code
  (`Transaction.SenderLoose`). It is loaded exactly when it was before, the shared cache does not answer
  for it, or the transaction fetches it (`MemoryLaws.SenderLoaded`). So an empty one that calls an address
  without code is removed or kept depending on the cache (`MemoryLaws.UnsignedShows`).
  `TransactionLaws.SenderShows` gives the exact condition on its account. Every other touched account is
  loaded or has code.
- Closing and reopening a block is not transparent where dust is removed. The reopened state has
  forgotten the entries that were written to the trie, and with them the balances they were first seen
  with. An account first seen with 100 and written with 50 is dust under a threshold of 60 before, and not
  after (`Journal.ReopenForgets`). The balances first seen survive exactly when every entry without
  unwritten changes still has its own (`Journal.CloneRemembers`, `LiveState.State.Clone`). Then later
  transactions lead to the same block (`MemoryLaws.ReopenHidden`). Where dust is not removed and senders
  are loaded, reopening never shows (`BlockSpec.ReopenedPlainly`).
- Rounding to multiples of 37 can hold the block gas limit below the floor for good
  (`Machine.StuckBelowFloor`, for instance at 5032 with the usual divisor);
  `Machine.RisesExactly` says exactly when the limit rises.
- From above, the gas limit comes down into the target range only while it is small. It is at or below
  the ceiling in the next block exactly when the ceiling is within reach and the first multiple of 37
  above it is not, and in the range exactly when the multiple below the ceiling does not take it below
  the floor (`Machine.EntersExactly`; 5001 comes down to 5000, for instance). Once the quotient at
  the ceiling is at least 39 this never happens: the limit settles on the first multiple of 37 above the
  ceiling (`Machine.SettlesAboveCeil`). With a quotient of at most 38 it can be stuck on any multiple
  higher up (`Machine.StuckAboveCeil`). `Machine.FallsExactly` says exactly when it falls.
- Inside the range the limit goes by the gas that the header of the new block says is used, which is none
  for a fresh header. It then comes down to the first multiple of 37 above the floor
  (`Machine.SettlesAboveFloor`), or is stuck on a multiple higher up when the quotient is at most 38
  (`Machine.StuckInside`).
- Public key derivation stops on a failed expectation when the hash is zero, although a comment at
  ethkey/src/extended.rs:335-336 says it cannot fail. `Derivation.StepCommutes` says exactly when
  it succeeds, fails and stops.
- A creation onto the creator's own address would mint its endowment
  (`ExecutionLaws.SelfCreationMints`). The collision check refuses it exactly when the creator has code or
  its nonce does not rise to the start nonce (`ExecutionLaws.AnnouncedCollides`); a nonce of 127 with the
  start nonce 128 gets through. Ether is conserved under either of two conditions
  (`ExecutionLaws.CreatesSafely`): nothing hashes onto its own creator, or no nonce is below the start
  nonce. Where dust is removed only the first can hold, for the senders of a block are below it
  (`TransactionLaws.DustBelowStart`).

## Model

| member | source | states |
|---|---|---|
| CacheRuns.CacheSound | ethcore/src/state_db.rs:217-437 | after any run, what the cache answers to a reader on any committed block (head, older or side branch) is that block's account |
| Import.ImportBlock | ethcore/src/client/client.rs:448-461 | importing a block, from the clone of the database to the commit: no error if and only if every transaction is accepted, else the first refusal and an untouched cache; without error the block is recorded with the accounts that its transactions lead to on its parent's, as a function of these and of the addresses that the shared cache answers for, and the cache agrees with the grown tree |
| Import.ImportedPlainly | ethcore/src/block.rs:613-654 | where dust is not removed and nonces rise, the steps of an import lead where those its transactions ask for do, with nothing of what was cached or loaded |
| Import.ImportedAlone | ethcore/src/block.rs:613-654 | in general, an import is what it would be without a shared cache, unless the cache answers for an address that is created at or for a sender whose nonce does not rise |
| Import.CommitBlock | ethcore/src/client/client.rs:652-699 | committing a block from its own state, which read through the shared cache, keeps the cache in agreement with the block tree, for best and side blocks |
| Import.CommitReopened | ethcore/src/client/client.rs:1939-1956 | so does committing a sealed block through a clone without a parent and telling the route again |
| Import.OpenState | ethcore/src/client/client.rs:448-450 | a state opened on a committed block shows that block's accounts and has nothing loaded, and the shared cache answers it truly |
| Import.EventKeepsReaders | ethcore/src/state_db.rs:217-306 | a state that stands on a committed block goes on being answered truly through every import, reroute and eviction |
| Import.Enact | ethcore/src/block.rs:613-654 | executing and closing a block over a state that reads through the shared cache takes exactly the steps that its transactions lead to on such a state, and ends on their accounts |
| Import.Drop | ethcore/src/state/mod.rs:470-473 | ending a state queues true accounts in its database |
| Import.ReadAccount | ethcore/src/state_db.rs:431-437 | a reader on a committed block gets that block's account or nothing |
| CacheRuns.ReachedKeeps | ethcore/src/state_db.rs:224-304 | over every run the list has at most 12 entries in descending number, marks exactly the listed blocks of the best chain, lists what stands on a listed block of that chain, is empty only with an empty cache, and the cache agrees with the head |
| CacheRuns.EventKeeps | ethcore/src/state_db.rs:217-306 | every import, reroute, eviction and reopened import keeps that invariant |
| CacheRuns.EventKeepsChildren | ethcore/src/state_db.rs:290-304 | while every block is recorded, each committed child of a listed block is listed |
| CacheRuns.ReachedKeepsChildren | ethcore/src/state_db.rs:290-304 | over every run in which each block is recorded, everything that stands on a listed block is listed |
| CacheRuns.DescendantsListed | ethcore/src/state_db.rs:386-390 | hence every committed descendant of a listed block is listed |
| CacheRuns.PurgeMarks | ethcore/src/state_db.rs:224-255 | a round of marking that meets no unknown block moves exactly the marks named and leaves no account changed by a named block |
| CacheRuns.PurgeMovesHead | ethcore/src/state_db.rs:222-261 | purging the route hands a cache that is right for the old best chain to the new one |
| CacheRuns.SurvivorKept | ethcore/src/state_db.rs:241-255 | an entry that survives the purge has the same value on both chains |
| CacheRuns.UnrecordedWipes | ethcore/src/client/client.rs:1952-1954 | telling the route again after an unrecorded best block wipes the cache |
| CacheRuns.QueueAgrees | ethcore/src/state_db.rs:272-288 | draining a true queue leaves new values, or parent values of accounts not queued as modified, whatever is evicted |
| CacheRuns.RecordKeeps | ethcore/src/state_db.rs:263-305 | recording a new block, best or not, keeps the invariant over the grown tree |
| CacheRuns.InsertedDescending | ethcore/src/state_db.rs:298-304 | insertion by number keeps the list descending |
| CacheRuns.DroppedKeeps | ethcore/src/state_db.rs:267-269 | dropping the oldest entry keeps the invariant and makes room |
| CacheLaws.QueuedIsCached | ethcore/src/state_db.rs:272-288 | an account that is queued and not evicted afterwards is cached, with the queued value, or with the cached one where both exist and the queued one was not modified |
| CacheLaws.UnqueuedStays | ethcore/src/state_db.rs:272-288 | an account neither queued nor evicted stays as it was |
| CacheLaws.PurgedExactly | ethcore/src/state_db.rs:222-261 | a route wipes the cache if and only if it names a block that is not listed; otherwise the list stays, and exactly the accounts that no named block changed |
| CacheLaws.RecordedExactly | ethcore/src/state_db.rs:263-305 | recording a block adds its entry and keeps all others, but for the oldest of twelve; a block that is not the best leaves the accounts alone |
| CacheLaws.CachedIsServed | ethcore/src/state_db.rs:375-437 | a reader on a block just committed as the best one gets every cached account that nothing listed at its number or above changed |
| CacheLaws.QueuedIsServed | ethcore/src/state_db.rs:263-437 | so it gets every queued account that is not evicted |
| CacheLaws.KeptIsServed | ethcore/src/state_db.rs:217-437 | and every account cached before that no block of the route changed, when the route names listed blocks only |
| CacheSoundness.AllowedExactly | ethcore/src/state_db.rs:375-405 | a reader is let in if and only if nothing is listed, or some listed block of the best chain is its block or below, all blocks from there up are listed, and nothing listed before it changed the address |
| CacheSoundness.ServedAgrees | ethcore/src/state_db.rs:386-402 | then the reader's block and the head agree on the address |
| CacheSoundness.LookupSound | ethcore/src/state_db.rs:431-437 | under the invariant every answer is the account of the reader's block |
| StateDb.StateDB.SyncCache | ethcore/src/state_db.rs:217-306 | in place, does exactly what the specification of one synchronisation says, and drains the queue when it records |
| StateDb.StateDB.Purge | ethcore/src/state_db.rs:222-261 | both loops, with the committing block skipped and the wipe at the end |
| StateDb.AccountCache.Mark | ethcore/src/state_db.rs:227-237 | marks the first entry of a block and drops its accounts, or reports it unknown |
| StateDb.AccountCache.Absorb | ethcore/src/state_db.rs:276-287 | overwrites, keeps or inserts one queued account |
| StateDb.AccountCache.Insert | ethcore/src/state_db.rs:298-304 | inserts before the first entry with a smaller number |
| StateDb.StateDB.DrainQueue | ethcore/src/state_db.rs:270-288 | applies the whole queue to a best block, collects the modified addresses, empties the queue |
| StateDb.StateDB.IsAllowed | ethcore/src/state_db.rs:375-405 | the loop decides the recursive condition that `AllowedExactly` characterises |
| StateDb.StateDB.GetCachedAccount | ethcore/src/state_db.rs:431-437 | answers as the specification looks up |
| StateDb.StateDB.BoxedClone | ethcore/src/state_db.rs:319-331 | shares the cache and has no parent |
| StateDb.StateDB.BoxedCloneCanon | ethcore/src/state_db.rs:334-346 | shares the cache and stands on the given block |
| StateDb.StateDB.JournalUnder | ethcore/src/state_db.rs:194-203 | sets the committing hash and number, not the parent |
| StateDb.StateDB.AddToAccountCache | ethcore/src/state_db.rs:417-423 | appends one item to the queue |
| Journal.RevertExactly | ethcore/src/state/mod.rs:419-445 | undoing a checkpoint restores the view if and only if no account it holds was removed since |
| Journal.RemovedStaysRemoved | ethcore/src/state/mod.rs:179-189 | an existing account removed under a checkpoint does not come back |
| Journal.OldBalancesExactly | ethcore/src/state/mod.rs:179-189 | a write leaves the old balances that undoing gives if and only if the entry it replaces would be dropped or has the same old balance |
| Journal.CreationKeepsOldBalance | ethcore/src/state/mod.rs:482-484 | an undone creation leaves its own balance as the old one |
| Journal.UndoneCreationIsDust | ethcore/src/state/mod.rs:796-812 | and the dust rule then removes an account that has all it was first seen with |
| Journal.RevertRemembers | ethcore/src/state/mod.rs:419-445 | undoing a checkpoint keeps the old balances of exactly the entries that stay |
| Journal.FirstSeenIn | ethcore/src/state/mod.rs:746-779 | the balances first seen do not depend on what was written to the trie |
| Journal.CloneRemembers | ethcore/src/state/mod.rs:1037-1048 | keeping only unwritten entries keeps the view, and keeps the balances first seen if and only if all other entries still have theirs |
| Journal.ReopenForgets | ethcore/src/state/mod.rs:1037-1048 | an account whose loss is written is dust on the state before, and not on the copy |
| Journal.WriteExactly | ethcore/src/state/mod.rs:447-467 | noting and replacing an entry keeps every snapshot restorable if and only if it does not remove an account that the last checkpoint holds as existing |
| Journal.WriteKeepsUndo | ethcore/src/state/mod.rs:447-467 | changing an entry after noting it changes nothing that undoing gives but the old balance |
| Journal.AlikeRestorable | ethcore/src/state/mod.rs:179-189 | old balances make no difference to what is seen or restored |
| Journal.OnlyLoadedMatter | ethcore/src/state/mod.rs:796-812 | removing the loaded ones of the touched accounts is removing all: the others have code and have not changed |
| Journal.FetchKeeps | ethcore/src/state/mod.rs:918-928 | loading an unchanged account leaves every snapshot restorable, and it stays loaded whatever is undone |
| Journal.MergeUndo | ethcore/src/state/mod.rs:402-416 | undoing a merged checkpoint is undoing the newer and then the older one |
| Accounts.TransferMoves | ethcore/src/state/mod.rs:634-638 | a transfer changes exactly the two balances |
| Accounts.SetStorageWrites | ethcore/src/state/mod.rs:646-653 | a write sets exactly one slot |
| LiveState.State.Checkpoint | ethcore/src/state/mod.rs:397-399 | pushes the present view on the snapshot stack |
| LiveState.State.DiscardCheckpoint | ethcore/src/state/mod.rs:402-416 | keeps the view and all older snapshots, and what is loaded |
| LiveState.State.RevertToCheckpoint | ethcore/src/state/mod.rs:419-445 | the view becomes the last snapshot, older snapshots stay restorable, and what was loaded before the checkpoint still is |
| LiveState.State.PutBack | ethcore/src/state/mod.rs:421-443 | the loop over the saved entries, in any order, is one undo |
| LiveState.State.EnsureCached | ethcore/src/state/mod.rs:894-931 | reads an account from the state, the shared cache or the trie, and it is the one in view; it is loaded afterwards if and only if it was or the shared cache did not answer |
| LiveState.State.Fetch | ethcore/src/state/mod.rs:943-957 | loads an account from the shared cache or the trie, changing nothing in view and nothing that is restored |
| LiveState.State.Put | ethcore/src/state/mod.rs:447-467 | replaces one account in the view; all snapshots stay restorable exactly when that can be undone |
| LiveState.State.Write | ethcore/src/state/mod.rs:958-970 | changes one account in the view, all snapshots stay restorable |
| LiveState.State.Require | ethcore/src/state/mod.rs:934-967 | the account to change, read through the shared cache, new with the start nonce when missing |
| LiveState.State.NewContract | ethcore/src/state/mod.rs:482-484 | replaces one account in the view by a new one, which is first seen with the balance it gets |
| LiveState.State.AddBalance | ethcore/src/state/mod.rs:607-619 | adds, creates or touches as the cleanup mode says; what it touches is loaded |
| LiveState.State.SubBalance | ethcore/src/state/mod.rs:622-631 | subtracts and touches |
| LiveState.State.TransferBalance | ethcore/src/state/mod.rs:634-638 | moves value, and the exact set of touched accounts |
| LiveState.State.SetStorage | ethcore/src/state/mod.rs:646-653 | writes a slot only when its value differs |
| LiveState.State.KillAccount | ethcore/src/state/mod.rs:487-489 | removes an account; all snapshots stay restorable exactly when the last checkpoint does not hold it as existing |
| LiveState.State.KillGarbage | ethcore/src/state/mod.rs:796-812 | removes exactly the touched accounts that are loaded and empty, or dust with less than they were first seen with |
| LiveState.State.Commit | ethcore/src/state/mod.rs:746-779 | writing the dirty entries alone makes the trie what was in view, leaves no entry dirty and forgets no balance first seen |
| LiveState.State.PropagateToGlobalCache | ethcore/src/state/mod.rs:782-788 | every queued item is true, exactly the committed and the freshly loaded accounts are queued, and exactly the committed ones as modified, so every account that differs from the parent block is |
| LiveState.State.Clone | ethcore/src/state/mod.rs:1037-1058 | a copy with the same view, no checkpoints and only the unwritten entries, which remembers the balances first seen if and only if all other entries still have theirs |
| ExecutionLaws.CallNonces | ethcore/src/executive.rs:377-514 | whatever its frames do, a call lowers no nonce |
| ExecutionLaws.CreateNonces | ethcore/src/executive.rs:519-589 | nor does a creation |
| ExecutionLaws.CallConserves | ethcore/src/executive.rs:377-514 | for every nested frame a call lowers the sum of all balances by exactly what self-heirs burned, unless a creation hashes onto its own creator and gets past the collision check |
| ExecutionLaws.CreateConserves | ethcore/src/executive.rs:519-589 | the same for creations |
| ExecutionLaws.RequestsConserve | ethcore/src/externalities.rs:120-397 | the same for every sequence of requests |
| ExecutionLaws.EndowedConserves | ethcore/src/executive.rs:553-559 | the payment for a new contract conserves when it is not the sender |
| ExecutionLaws.SelfCreationMints | ethcore/src/executive.rs:553-559 | and mints the endowment when it is |
| ExecutionLaws.AnnouncedCollides | ethcore/src/externalities.rs:223-231 | a creator is refused its own address if and only if it has code or its nonce does not rise to the start nonce |
| Traces.BalancesBounded | ethcore/src/state/account.rs:353-362 | at no point of an accepted transaction, inside any frame, between the two halves of a transfer or at the final credits, is a balance above the initial sum, so 256-bit additions cannot overflow |
| Traces.CallBounded | ethcore/src/executive.rs:377-514 | no account map of a call, in whatever nested frame, holds more ether than the call started with |
| Traces.CreateBounded | ethcore/src/executive.rs:519-589 | the same for creations |
| ExecutionLaws.CallStatic | ethcore/src/executive.rs:200-211 | a call in a static context, or a static call, changes no balance, nonce, code or slot and reports no log, self-destruction or contract |
| ExecutionLaws.RequestsStatic | ethcore/src/externalities.rs:120-360 | nor does any sequence of requests in a static context |
| ExecutionLaws.PlainCallMoves | ethcore/src/executive.rs:399-512 | a call without code takes the value from the sender, gives it to the receiver, and does nothing else |
| ExecutionLaws.CodeCallRuns | ethcore/src/executive.rs:470-501 | code runs on the accounts after the transfer and ends as it says; a frame that applies, and no other, hands over its accounts and reports |
| ExecutionLaws.EndowedExactly | ethcore/src/executive.rs:550-559 | the new account with and without an endowment, the sender's payment, and nothing else |
| ExecutionLaws.DestructedExactly | ethcore/src/externalities.rs:357-381 | the heir gets all, or all is burned; the account is empty and noted |
| CallLaws.StorageWritten | ethcore/src/externalities.rs:120-126 | a write sets one slot of the frame's own account, and none in a static frame |
| CallLaws.Reported | ethcore/src/externalities.rs:340-355 | a log is reported last and under the frame's own address, unless the frame is static; a cleared slot counts one more |
| CallLaws.SelfDestructed | ethcore/src/externalities.rs:357-381 | who has what after a self-destruction, what is touched, and nothing from a static frame |
| CallLaws.CallOutRefused | ethcore/evm/src/interpreter/mod.rs:385-410 | at the depth limit, without the means, or with value from a static frame, a call does nothing |
| CallLaws.PlainCallOut | ethcore/evm/src/interpreter/mod.rs:385-426 | by kind of call, whose balance falls and whose rises, which accounts are created and touched, for a target without code |
| CallLaws.BuiltinCallOut | ethcore/src/executive.rs:405-462 | the same for a built-in that is paid for and accepts its input, and nothing otherwise |
| CallLaws.CodeCallOut | ethcore/evm/src/interpreter/mod.rs:385-426 | by kind of call, the accounts that the callee starts on, the address it runs as, the caller it sees, its depth and whether it is static; what is handed over when it keeps its changes, and that nothing is otherwise |
| CallLaws.StaticCallOut | ethcore/evm/src/interpreter/mod.rs:400 | a static call changes and reports nothing, whatever the callee asks for and from whatever frame |
| CallLaws.CalleeWrites | ethcore/evm/src/interpreter/mod.rs:385-426 | by kind of call, to whose account a callee's write goes |
| CallLaws.CreationRuns | ethcore/src/externalities.rs:302-338 | by how the code of a creation ends: exactly the returned code is stored when it is paid for, else the creation fails or goes without code, as the rules say; the gas left; what is handed over |
| CallLaws.CreationRefused | ethcore/src/executive.rs:533-548 | at a taken address or from a static frame a creation changes nothing, and with which error |
| CallLaws.CreateOutRefused | ethcore/src/externalities.rs:197-244 | at the depth limit, without the means or from a static frame, a request for a creation does nothing |
| CallLaws.CreateOutRuns | ethcore/src/externalities.rs:197-244 | the creator's nonce rises by one whatever happens, the creation starts from there, and the contract is reported when it ends well |
| CallLaws.CallDepth | ethcore/src/externalities.rs:246-292 | what frames below the depth limit would ask for makes no difference to a call |
| CallLaws.CreateDepth | ethcore/src/externalities.rs:197-244 | nor to a creation |
| ExecutionLaws.CallAtomic | ethcore/src/executive.rs:672-692 | a call whose result does not apply leaves accounts and reports as they were, except the touched set |
| ExecutionLaws.CreateAtomic | ethcore/src/executive.rs:672-692 | the same for creations |
| ExecutionLaws.GasBounded | ethcore/src/executive.rs:448-453 | calls and creations return no more gas than they got |
| ExecutiveModel.Executive.Call | ethcore/src/executive.rs:377-514 | in place, equals the functional call, keeps the checkpoint stack, leaves the trail of the functional call, and restores the accounts when the result does not apply |
| ExecutiveModel.Executive.CallBuiltin | ethcore/src/executive.rs:405-462 | charges and runs a built-in, undoing the transfer when it fails |
| ExecutiveModel.Executive.Create | ethcore/src/executive.rs:519-589 | in place, equals the functional creation, with the same guarantees |
| ExecutiveModel.Executive.ExecVm | ethcore/src/executive.rs:339-371 | runs a frame with the inherited static flag |
| ExecutiveModel.Executive.EnactResult | ethcore/src/executive.rs:672-692 | keeps state and substate, or reverts to the checkpoint |
| ExecutiveModel.Externalities.Answer | ethcore/src/externalities.rs:120-397 | answers each kind of request as the specification says |
| ExecutiveModel.Externalities.CallContract | ethcore/evm/src/interpreter/mod.rs:385-426 | sender, receiver and value by kind of call, then the call one level deeper |
| ExecutiveModel.Externalities.CreateContract | ethcore/src/externalities.rs:197-244 | raises the nonce, creates one level deeper, reports the contract on success |
| ExecutiveModel.Externalities.Suicide | ethcore/src/externalities.rs:357-381 | moves or burns the balance and notes the self-destruction |
| ExecutiveModel.Externalities.Settle | ethcore/src/externalities.rs:302-338 | ends a run, paying for and storing returned code |
| ExecutiveModel.SubstateCell.AccrueFrom | ethcore/src/state/substate.rs:51-57 | merges every part of a substate |
| ExecutiveModel.Executive.Transact | ethcore/src/executive.rs:238-337 | refuses with the first failed check and no change, or ends in the finalised accounts with the report; the balances first seen and the loaded sender that the removals go by are what the trail of the transaction makes of what was remembered, and so is what is remembered afterwards |
| ExecutiveModel.Executive.Check | ethcore/src/executive.rs:246-285 | the first check that fails |
| ExecutiveModel.Executive.GasRequired | ethcore/transaction/src/transaction.rs:238-248 | the base gas summed over the data |
| ExecutiveModel.Executive.Refunds | ethcore/src/executive.rs:603-614 | the gas charged and refunded |
| ExecutiveModel.Executive.Finalize | ethcore/src/executive.rs:592-670 | credits, report and removals in place |
| ExecutiveModel.Executive.Sweep | ethcore/src/executive.rs:628-635 | removes the self-destructed and then all touched accounts that are empty or dust |
| Transaction.ChargedGas | ethcore/src/executive.rs:610-614 | at most the gas limit and at least half of what was consumed |
| TransactionLaws.AcceptedExactly | ethcore/src/executive.rs:246-285 | exactly when a transaction is accepted |
| OutcomeLaws.RefusedFor | ethcore/src/executive.rs:246-285 | exactly when each of the five errors is given |
| OutcomeLaws.BaseGasExactly | ethcore/transaction/src/transaction.rs:238-248 | the base gas counted by zero and other bytes |
| OutcomeLaws.RefundsEarned | ethcore/src/executive.rs:603-608 | what one more cleared slot and one more destroyed account earn back |
| OutcomeLaws.ReportExactly | ethcore/src/executive.rs:637-669 | the exception that a report names, and the logs and contracts of a run that applies |
| OutcomeLaws.TransferTransaction | ethcore/src/executive.rs:289-337 | a call to an address without code takes value and base price from the sender, gives the value to the receiver and the price to the author, raises one nonce, and changes and reports nothing else |
| OutcomeLaws.CallTransaction | ethcore/src/executive.rs:314-332 | the code of a called contract starts on accounts where the sender has paid for all the gas and the contract has the value; it stands when it keeps its changes, else only the gas is paid |
| OutcomeLaws.BuiltinTransaction | ethcore/src/executive.rs:314-332 | the same for a built-in |
| OutcomeLaws.CreateTransaction | ethcore/src/executive.rs:294-313 | a new contract starts with the value on top of what its address held, without code and storage, and leaves what its end says |
| OutcomeLaws.SenderTouched | ethcore/src/executive.rs:286-292 | the sender is touched whatever comes of the run |
| OutcomeLaws.TransferCreates | ethcore/src/state/mod.rs:607-619 | which accounts there are after a transfer, under the old rules and the new |
| OutcomeLaws.DustExactly | ethcore/src/state/mod.rs:796-812 | exactly which touched accounts are removed |
| OutcomeLaws.TransferRemoves | ethcore/src/executive.rs:628-635 | under EIP-161 a transfer removes exactly the sender, a receiver of nothing and an author of no fees, where these end empty |
| TransactionLaws.CreditedExactly | ethcore/src/executive.rs:615-626 | what the sender and the author get, and nobody else |
| TransactionLaws.ChargeBounds | ethcore/src/executive.rs:250-274 | the charge is positive and keeps the block within its gas limit |
| TransactionLaws.OuterAtomic | ethcore/src/executive.rs:672-692 | a failed transaction leaves the prepaid accounts and a substate without refunds |
| TransactionLaws.FailureHonest | ethcore/src/executive.rs:639-653 | the hard-coded failure report is what is charged |
| TransactionLaws.ReportHonest | ethcore/src/executive.rs:637-669 | every report is true of balances: the sender gets back the price of the gas not named as used and the author the price of the gas named; failures report no logs and no contracts |
| TransactionLaws.FailureCosts | ethcore/src/executive.rs:615-653 | a failed or reverted transaction costs its sender the price of the gas it reports, the author gets it, and no other balance changes |
| TransactionLaws.CreditsAddUp | ethcore/src/executive.rs:615-626 | refund and fees are what was prepaid |
| TransactionLaws.EtherConserved | ethcore/src/executive.rs:277-635 | the sum of balances falls by exactly the burns and what the removed accounts held, dust included |
| TransactionLaws.EtherKept | ethcore/src/executive.rs:592-635 | and by nothing without self-destruction and dust removal |
| TransactionLaws.NoncesKept | ethcore/src/executive.rs:289-293 | no account that is left has a lower nonce, and the sender a higher one |
| TransactionLaws.ReplayRefused | ethcore/src/executive.rs:246-285 | an accepted transaction is refused on the accounts it leaves, unless its sender is gone, it is free and it carries the start nonce |
| TransactionLaws.DustBelowStart | ethcore/src/machine.rs:312-320 | a signed transaction of a dust-removing block has a sender below the start nonce |
| TransactionLaws.FinalizedPlainly | ethcore/src/executive.rs:628-635 | without dust removal a transaction ends on the credited accounts without the self-destructed and the touched empty ones |
| TransactionLaws.SenderShows | ethcore/src/state/mod.rs:796-812 | whether the sender was loaded shows if and only if it is touched, did not destruct itself and ends empty, or as dust below the balance it was first seen with |
| MemoryLaws.SameCourse | ethcore/src/state/mod.rs:796-812 | two states that first saw the same balances, and are sure to load every address created at and every sender whose nonce does not rise, lead the same transactions to the same pushes |
| MemoryLaws.CacheHidden | ethcore/src/state/mod.rs:894-931 | so a block does not depend on a shared cache that answers for none of these |
| MemoryLaws.ReopenHidden | ethcore/src/block.rs:438-535 | nor on a closing and reopening before it, when every entry without unwritten changes still has the balance it was first seen with |
| MemoryLaws.CallForeseen | ethcore/src/executive.rs:377-514 | in every nested frame of a call, an account is replaced only at an address that a creation names, and is read before |
| MemoryLaws.CreateForeseen | ethcore/src/executive.rs:519-589 | the same for creations |
| MemoryLaws.LoadedExactly | ethcore/src/state/mod.rs:894-957 | an address where nothing is replaced is loaded if and only if it was, is fetched, or is read without an answer from the shared cache, and keeps the balance it was first seen with |
| MemoryLaws.PushRemembers | ethcore/src/block.rs:401-419 | an account that a push creates no contract at goes by the balance it was first seen with, and keeps it unless it is removed |
| MemoryLaws.CourseRemembers | ethcore/src/block.rs:658-663 | so over any sequence of pushes it is that balance, or none after a removal |
| MemoryLaws.SenderLoaded | ethcore/src/executive.rs:246-293 | a sender that need not be loaded is if and only if it was, the shared cache does not answer for it, or the transaction fetches it |
| MemoryLaws.UnsignedShows | ethcore/src/executive.rs:289-293 | the unsigned sender of a free call to an address without code is removed if and only if it is empty and was loaded or is not answered for by the shared cache |
| MemoryLaws.UndoneCreationShows | ethcore/src/executive.rs:519-589 | after a creation that fails at once, its address counts as first seen with what it had if the shared cache answers for it, else with what the contract got |
| BlockSpec.PushExactly | ethcore/src/block.rs:401-419 | exactly when a push succeeds and what it appends; a refused push changes nothing unless the error is internal |
| BlockLaws.PushAccepted | ethcore/src/block.rs:401-419 | a push is accepted if and only if seven conditions on the block and the transaction hold |
| BlockLaws.ReceiptExactly | ethcore/src/block.rs:401-419 | success, logs and gas of the receipt |
| BlockLaws.TransferPushed | ethcore/src/block.rs:401-419 | a pushed transfer moves the value and pays the block's author |
| BlockSpec.PlainSteps | ethcore/src/block.rs:401-419 | without dust removal, blocks do not depend on what the state loaded or remembers |
| BlockSpec.PushKeepsGas | ethcore/src/block.rs:401-419 | every push, accepted or refused, keeps receipts equal to the running sum of charges within the limit |
| BlockSpec.RunKeepsGas | ethcore/src/block.rs:183-194 | so does every run of pushes, closings and reopenings |
| BlockSpec.ReceiptsIncrease | ethcore/src/block.rs:401-419 | cumulative gas strictly increases over the receipts |
| BlockSpec.ReceiptsWithinLimit | ethcore/src/block.rs:183-194 | no receipt is above the gas limit |
| BlockSpec.RunKeepsDistinct | ethcore/src/block.rs:402-411 | without hash overrides no transaction comes twice |
| BlockSpec.ReopenTransparent | ethcore/src/block.rs:438-535 | after any interleaving the block is what its pushes alone make it, given what each push goes by |
| BlockSpec.ReopenedPlainly | ethcore/src/block.rs:438-535 | where dust is not removed and senders are loaded, it is what they make it with nothing remembered at all |
| BlockSpec.RewardsOnce | ethcore/src/block.rs:438-535 | a closed block has exactly the rewards of the one closing that stands |
| BlockSpec.RewardedTotal | ethcore/src/machine.rs:437-439 | closing raises the sum of balances by exactly the rewards |
| BlockSpec.RewardedExactly | ethcore/src/machine.rs:437-439 | every account gets exactly the rewards that name it |
| BlockSpec.RewardsOnlyBalances | ethcore/src/machine.rs:437-439 | and nothing but balances changes |
| BlockSpec.SupplyBounded | ethcore/src/block.rs:401-463 | a closed block holds at most its starting ether plus the standing rewards |
| OpenBlocks.ExecutedBlock.EnvInfo | ethcore/src/block.rs:183-194 | gas used so far is that of the last receipt |
| OpenBlocks.OpenBlock.PushTransaction | ethcore/src/block.rs:401-419 | in place, equals the functional push, going by what the state remembers, and leaves the memory that follows from it |
| OpenBlocks.OpenBlock.PushTransactions | ethcore/src/block.rs:658-663 | pushes in order exactly the steps that the transactions lead to; no error if and only if all were accepted, else the error of the first that was refused |
| OpenBlocks.OpenBlock.CloseAndLock | ethcore/src/block.rs:466-493 | pays the rewards, writes every change to the trie, sets the header's gas |
| OpenBlocks.OpenBlock.Close | ethcore/src/block.rs:438-463 | pays the rewards, sets the header's gas, and remembers a copy of the state before them, with the balances first seen if and only if all written entries still have theirs |
| OpenBlocks.ClosedBlock.Reopen | ethcore/src/block.rs:527-535 | takes the remembered state back, with what it has loaded and remembers |
| Machine.Targets | ethcore/src/block.rs:328-329 | the floor is the greater of the wanted one and the minimum, and the ceiling the greater of the wanted one and the floor |
| Machine.RoundExactly | ethcore/src/machine.rs:470-482 | rounding stays in range and reaches a multiple of 37 if and only if the range has one |
| Machine.NextLimitWithin | ethcore/src/machine.rs:207-230 | the limit moves by less than the quotient, and stays in the target range once there |
| Machine.RisesExactly | ethcore/src/machine.rs:213-215 | below the floor, exactly when the limit rises, for every quotient |
| Machine.StuckBelowFloor | ethcore/src/machine.rs:470-482 | a family of limits below the floor that never move |
| Machine.FallsExactly | ethcore/src/machine.rs:216-218 | above the ceiling, exactly when the limit falls, for every quotient |
| Machine.EntersExactly | ethcore/src/machine.rs:216-218 | from above, exactly when the next limit is at or below the ceiling, and exactly when it is in the target range |
| Machine.GoalExactly | ethcore/src/machine.rs:220-224 | inside the range, the goal is above the parent if and only if the share of the gas used is at least the quotient and there is room, and below if and only if it is smaller by two |
| Machine.RoundsTo | ethcore/src/machine.rs:470-482 | rounding goes to the first multiple above within reach, else to the last one below, else nowhere |
| Machine.RisesInside | ethcore/src/machine.rs:219-225 | inside the range, exactly when the limit rises |
| Machine.FallsInside | ethcore/src/machine.rs:219-225 | and exactly when it falls |
| Machine.UseRaises | ethcore/src/machine.rs:204-232 | more gas used never means a lower limit |
| Machine.FallsToRest | ethcore/src/machine.rs:219-225 | with nothing used and a quotient of at least 39, the limit falls with every block to the first multiple above the floor, or to the floor when the range has none |
| Machine.StuckInside | ethcore/src/machine.rs:470-482 | with a smaller quotient it stays on any multiple higher up |
| Machine.SettlesAboveFloor | ethcore/src/machine.rs:204-232 | over a chain of unused blocks the limit is there after at most as many blocks as it is away, and stays |
| Machine.StuckAboveCeil | ethcore/src/machine.rs:470-482 | a family of limits above the ceiling that never move |
| Machine.SettlesAboveCeil | ethcore/src/machine.rs:204-232 | from above, with a quotient of at least 39 at the ceiling, every later limit is above the ceiling, and after at most as many blocks as it is away it is the first multiple of 37 above it for ever |
| Machine.RisesIntoRange | ethcore/src/machine.rs:204-232 | with quotient at least 38 and room above the floor, the limit rises until it is in range, within a bounded number of blocks |
| Machine.StaysInRange | ethcore/src/machine.rs:219-225 | a limit in range stays there for every later block |
| Machine.DaoDrains | ethcore/src/machine.rs:187-196 | the fork empties the listed accounts into the beneficiary and conserves ether |
| Modexp.ModexpBySquaring | ethcore/src/builtin.rs:325-354 | for all naturals the loop and its shortcuts give the power modulo the modulus, in at most as many rounds as the exponent has bits |
| Modexp.Execute | ethcore/src/builtin.rs:356-402 | the output has exactly the modulus' length and decodes to the power of the operands in the zero-extended input |
| Modexp.DecodesEncoded | ethcore/src/builtin.rs:356-388 | an input written as EIP-198 asks is read back as the three lengths and numbers |
| Modexp.LengthsAgree | ethcore/src/builtin.rs:361-371 | reading only the last eight bytes of a length is right for every length below 2^64 |
| Modexp.ToBeShort | ethcore/src/builtin.rs:390-398 | a number below 256^k has at most k bytes, so the padding never underflows |
| ModexpPrice.CostIsEip | ethcore/src/builtin.rs:89-131 | the price is the formula of EIP-198, written down apart from the code, or the maximum exactly when a length or the product is too large |
| ModexpPrice.ComplexityIsEip | ethcore/src/builtin.rs:143-149 | the three pieces are those of the proposal |
| ModexpPrice.AdjustedIsEip | ethcore/src/builtin.rs:134-141 | the adjusted length is eight times the bytes past 32 and the index of the highest bit of the head |
| ModexpPrice.FirstWordIsHead | ethcore/src/builtin.rs:114-121 | the word read is the head of the exponent that is computed with |
| ModexpPrice.MultComplexity | ethcore/src/builtin.rs:143-149 | no 64-bit overflow or underflow for any length that is not refused |
| ModexpPrice.MultComplexityMonotone | ethcore/src/builtin.rs:143-149 | monotone across its three pieces |
| ModexpPrice.AdjustedFits | ethcore/src/builtin.rs:134-141 | the adjusted length fits in 64 bits and the bit index in 255 |
| ModexpPrice.RoundsArePriced | ethcore/src/builtin.rs:134-141 | the bits of the exponent are at most the priced length plus one |
| ModexpPrice.ExecutePriced | ethcore/src/builtin.rs:356-402 | on every input with a price below the maximum, the output is the power that EIP-198 asks for at the full 256-bit lengths, and the loop runs at most the priced length plus one rounds |
| Ethash.GetCacheSize | ethash/src/shared.rs:48-56 | terminates with 64 times the largest prime within the bound, so the alignment assertion cannot fire |
| Ethash.GetDataSize | ethash/src/shared.rs:58-66 | terminates with 128 times the largest prime within the bound, so the alignment panic cannot fire |
| Ethash.StepDown | ethash/src/shared.rs:52-54 | stepping down by two skips no prime and stays above two |
| Ethash.SizesMonotone | ethash/src/shared.rs:48-66 | sizes never shrink with the epoch |
| Ethash.SeedHashCompute.HashEpoch | ethash/src/seed_compute.rs:48-63 | after any queries, the hash iterated from zero |
| Ethash.SeedHashCompute.ResumeComputeSeedhash | ethash/src/seed_compute.rs:66-71 | iterates the hash once per epoch between start and end |
| Ethash.LightCache.LightFor | ethash/src/lib.rs:81-133 | always a light of the requested epoch, tags match their lights and differ, and the newest request is the recent slot |
| Phrases.PhrasesIterator.NextPhrase | ethkey/src/brain_recover.rs:138-146 | the k-th call gives the phrase of rank k, until all combinations are out, then none for ever |
| Phrases.PhrasesIterator.NextIndex | ethkey/src/brain_recover.rs:119-132 | the carry loop is one step of the odometer |
| Phrases.PhrasesIterator.Current | ethkey/src/brain_recover.rs:110-117 | the words at the positions joined by blanks |
| Phrases.NextRank | ethkey/src/brain_recover.rs:119-132 | a step adds one to the rank, or was at the last tuple |
| Phrases.RankOfDigits | ethkey/src/brain_recover.rs:93-104 | every rank below the product has its tuple |
| Phrases.DigitsOfRank | ethkey/src/brain_recover.rs:93-104 | every tuple is found at its rank |
| Phrases.RankLexicographic | ethkey/src/brain_recover.rs:119-132 | ranks follow the dictionary order of positions |
| Derivation.StepCommutes | ethkey/src/extended.rs:262-350 | a soft step commutes with taking the point exactly when the tweak is valid and does not cancel, and when public derivation stops or refuses |
| Derivation.ChildExactly | ethkey/src/extended.rs:244-295 | a child's secret and chain code from the hash of what BIP-32 names, for soft and hard steps, and when a step stops |
| Derivation.StepsApart | ethkey/src/extended.rs:262-295 | a hard step does not go by points, nor a soft one by the bytes of the secret |
| Derivation.PublicExactly | ethkey/src/extended.rs:307-350 | a child's point and chain code, and which inputs are refused |
| Derivation.PathCommutes | ethkey/src/extended.rs:98-140 | for every path on which public derivation succeeds, secret then point equals point then public |
| Derivation.MissingIndexParts | ethkey/src/extended.rs:333-334 | a tweak not below the order is refused by the public side only |
| Derivation.ModuloIsRemainder | ethkey/src/extended.rs:300-304 | dividing, multiplying and subtracting is the remainder |
| PodDiff.DiffRoundTrip | ethcore/src/pod_account.rs:133-172 | the difference put on the first account gives the second up to zero slots, and is absent if and only if they are alike |
| PodDiff.DiffTakenOff | ethcore/src/pod_account.rs:133-172 | the difference taken off the second account gives the first up to zero slots |
| PodDiff.StorageDiffExact | ethcore/src/pod_account.rs:148-163 | exactly the slots whose zero-defaulted values differ are listed |
| PodDiff.StateRoundTrip | ethcore/src/pod_state.rs:78-80 | the round trip for whole states; exactly the differing accounts are listed |

## Left out

- StateDb.StateDB.SyncCache: the order of the LRU cache is not modelled; what it evicts at each insertion is a parameter.
- Phrases.PhrasesIterator.NextPhrase: the product of the list lengths is unbounded here; in the code it has to fit in 64 bits. Asking for a phrase over an empty list of lists, where the code panics, is excluded.
- OpenBlocks.OpenBlock.Close: rewards are a list of credits; engines that change anything else when a block closes are not modelled.
- OpenBlocks.OpenBlock.CloseAndLock: likewise.
- Import.ImportBlock: the shared cache does not change while the transactions of a block are executed; `Import.EventKeepsReaders` says that its answers stay true when it does.
- Storage caches inside an account, the code cache and the journal database. The account bloom, by which some reads of accounts that do not exist do not load them.
- Database errors, tracing, return data and output buffers of calls.
- 256-bit arithmetic of gas amounts and nonces: they are unbounded numbers. Balances are bounded by `Traces.BalancesBounded`.
- The `blockhash` contract of EIP-210, which starts a separate executor.
- The gas limit branch of machines without Ethash, uncles, seals and header roots.
- Hashes, signatures and curve arithmetic, which are parameters; the elliptic-curve built-ins.
- RLP encoding, tries, the key store, and everything about configuration, networking and the user interface.
