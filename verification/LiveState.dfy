/** The mutable state that transactions run on: a cache of accounts over a trie, with journalled
    checkpoints. Every method is stated on the plain view and on a ghost stack of snapshots. */
module LiveState {
  import opened Types
  import opened Accounts
  import opened Journal
  import opened Memory
  import CacheSpec
  import StateDb

  class State {
    const accountStartNonce: nat
    /** The database with the cache that all states share. */
    const backend: StateDb.StateDB
    /** The state of the parent block. */
    ghost const base: World
    /** What the trie holds under the current root. */
    var db: World
    var cache: Cache
    var checkpoints: seq<Checkpoint>
    /** The view at each active checkpoint: what reverting has to bring back. */
    ghost var snapshots: seq<World>
    /** How many checkpoints have to be active for each loaded address to stay so. */
    ghost var level: map<Address, nat>
    /** The addresses that the shared cache answers for, what was remembered when the watch began, and what happened
        since. */
    ghost var hits: set<Address>
    ghost var start: Recollection
    ghost var trail: seq<Event>
    /** Addresses that need not be loaded. */
    ghost var loose: set<Address>

    /** All snapshots are restorable, and the shared cache answers truly. */
    ghost predicate Sound()
      reads this, backend, backend.accountCache
    {
      && Restorable(Under(), cache, level, checkpoints, snapshots)
      && CacheSpec.AnswersTrue(backend.accountCache.View(), backend.parentHash, base)
    }

    /** And what is loaded and remembered is told by the trail. */
    ghost predicate Valid()
      reads this, backend, backend.accountCache
    {
      && Sound()
      && hits == CacheSpec.Answered(backend.accountCache.View(), backend.parentHash)
      && Recollection(Olds(), level, |checkpoints|) == Replay(Reader(base, hits), start, trail)
    }

    ghost function Under(): Ground
      reads this
    {
      Ground(base, db)
    }

    /** Where accounts are loaded from. */
    ghost function Source(): Reader
      reads this, backend, backend.accountCache
    {
      Reader(base, CacheSpec.Answered(backend.accountCache.View(), backend.parentHash))
    }

    /** The loaded addresses with the balances they were first seen with. */
    ghost function Olds(): map<Address, Option<nat>>
      reads this
    {
      OldsOf(cache)
    }

    /** What soundness says of the cache as it is. */
    lemma Opened()
      requires Sound()
      ensures |checkpoints| == |snapshots| && Fits(Under(), cache, level, checkpoints)
    {
      Journal.Opened(Under(), cache, level, checkpoints, snapshots);
    }

    ghost function View(): World
      reads this
    {
      ViewOf(db, cache)
    }

    /** The balance that each account was first seen with, or would be if it were loaded now. */
    ghost function FirstSeen(): map<Address, nat>
      reads this
    {
      Journal.FirstSeen(db, cache)
    }

    /** Every address of the set that has to be is loaded, or has code in the trie. */
    ghost predicate Loaded(addresses: set<Address>)
      reads this
    {
      forall a :: a in addresses ==> a in level || a in loose || CodeOf(db, a) != []
    }

    /** So it is even when the last checkpoint is undone. */
    ghost predicate HeldLoaded(addresses: set<Address>)
      reads this
    {
      forall a :: a in addresses ==>
                    (a in level && level[a] < |snapshots|) || a in loose || CodeOf(db, a) != []
    }

    /** Undoing the last checkpoint drops nothing, for it was just set. */
    ghost predicate AllHeld()
      reads this
    {
      forall a :: a in level ==> level[a] < |snapshots|
    }

    /** What was loaded still is, under every checkpoint. */
    twostate predicate Grew()
      reads this
    {
      forall a :: a in old(level) ==> a in level && level[a] <= old(level)[a]
    }

    /** And what was not is loaded under every checkpoint. */
    twostate predicate Loads()
      reads this
    {
      Grew() && forall a :: a in level && a !in old(level) ==> level[a] == 0
    }

    /** What was loaded without the last checkpoint still is. */
    twostate predicate Popped()
      reads this
    {
      forall a :: a in old(level) && old(level)[a] <= |snapshots| ==> a in level && level[a] <= old(level)[a]
    }

    /** Notes what happens next. */
    ghost method Tell(e: Event)
      modifies this`trail
      ensures trail == old(trail) + [e]
      ensures Replay(Reader(base, hits), start, trail) ==
              Told(Reader(base, hits), old(Replay(Reader(base, hits), start, trail)), e)
    {
      ReplayOne(Reader(base, hits), start, trail, e);
      trail := trail + [e];
    }

    /** Starts watching what is loaded. */
    ghost method Begin(loose: set<Address>)
      requires Sound() && checkpoints == []
      modifies this`hits, this`start, this`trail, this`loose, this`level
      ensures Valid() && start == Between(Olds()) && trail == [] && this.loose == loose
      ensures hits == CacheSpec.Answered(backend.accountCache.View(), backend.parentHash)
    {
      Opened();
      hits := CacheSpec.Answered(backend.accountCache.View(), backend.parentHash);
      start, trail, this.loose := Between(Olds()), [], loose;
      level := map a | a in cache :: 0;
      Folded(Under(), cache, level, checkpoints, snapshots);
    }

    /** The balances first seen, from what is remembered. */
    lemma Recalled()
      requires Valid()
      ensures FirstSeen() == SeenIn(base, Olds())
      ensures level == Replay(Reader(base, hits), start, trail).level && level.Keys == Olds().Keys
      ensures Olds() == Replay(Reader(base, hits), start, trail).olds
    {
      Opened();
      FirstSeenIn(base, db, cache);
    }

    /** A state over a trie with some changed entries. */
    constructor FromDirty(backend: StateDb.StateDB, db: World, dirty: Cache, startNonce: nat)
      requires CacheSpec.AnswersTrue(backend.accountCache.View(), backend.parentHash, db)
      requires forall a :: a in dirty ==> dirty[a].state.Dirty?
      ensures this.backend == backend && accountStartNonce == startNonce
      ensures Valid() && View() == ViewOf(db, dirty) && snapshots == []
      ensures base == this.db == db && cache == dirty
    {
      this.base, this.db, cache, checkpoints, snapshots := db, db, dirty, [], [];
      level, loose, trail, start := map a | a in dirty :: 0, {}, [], Between(OldsOf(dirty));
      hits := CacheSpec.Answered(backend.accountCache.View(), backend.parentHash);
      this.backend, accountStartNonce := backend, startNonce;
      new;
      Folded(Under(), cache, level, checkpoints, snapshots);
    }

    constructor FromExisting(backend: StateDb.StateDB, db: World, startNonce: nat)
      requires CacheSpec.AnswersTrue(backend.accountCache.View(), backend.parentHash, db)
      ensures this.backend == backend
      ensures Valid() && View() == db && base == db && accountStartNonce == startNonce
      ensures this.db == db && cache == map[] && checkpoints == [] && snapshots == []
    {
      this.base, this.db, cache, checkpoints, snapshots := db, db, map[], [], [];
      level, loose, trail, start := map[], {}, [], Between(map[]);
      hits := CacheSpec.Answered(backend.accountCache.View(), backend.parentHash);
      this.backend, accountStartNonce := backend, startNonce;
      new;
      TrieIsView(db, cache);
      Folded(Under(), cache, level, checkpoints, snapshots);
    }

    /** The account at `a`, from the state itself, the shared cache or the trie, in this order; what the trie
        says is kept. */
    method EnsureCached(a: Address) returns (r: Option<Account>)
      requires Valid()
      modifies this`cache, this`level, this`trail
      ensures Valid() && View() == old(View()) && r == Get(View(), a) && Loads()
      ensures a in level || a in hits
      ensures trail == old(trail) + [Asked(a)]
    {
      Opened();
      Tell(Asked(a));
      if a in cache {
        return cache[a].account;
      }
      var answer := backend.GetCachedAccount(a);
      if answer.Some? {
        r := answer.value;
      } else {
        r := Get(db, a);
        Insert(a, r, CleanFresh);
      }
    }

    method Exists(a: Address) returns (r: bool)
      requires Valid()
      modifies this`cache, this`level, this`trail
      ensures Valid() && View() == old(View()) && r == (a in View()) && Loads()
      ensures trail == old(trail) + [Asked(a)]
    {
      var account := EnsureCached(a);
      r := account.Some?;
    }

    method HasCode(a: Address) returns (r: bool)
      requires Valid()
      modifies this`cache, this`level, this`trail
      ensures Valid() && View() == old(View()) && r == (CodeOf(View(), a) != []) && Loads()
      ensures (r ==> Loaded({a})) && trail == old(trail) + [Asked(a)]
    {
      var account := EnsureCached(a);
      r := account.Some? && account.value.code != [];
      Opened();
    }

    method BalanceOf(a: Address) returns (r: nat)
      requires Valid()
      modifies this`cache, this`level, this`trail
      ensures Valid() && View() == old(View()) && r == Balance(View(), a) && Loads()
      ensures trail == old(trail) + [Asked(a)]
    {
      var account := EnsureCached(a);
      r := if account.Some? then account.value.balance else 0;
    }

    /** Keeps an account that was loaded and not changed. */
    method Insert(a: Address, account: Option<Account>, state: AccountState)
      requires Sound() && a !in cache
      requires account == Get(db, a) && (state.CleanFresh? || state.CleanCached?) && a !in level
      modifies this`cache, this`level
      ensures Sound() && View() == old(View()) && cache == old(cache)[a := NewEntry(account, state)]
      ensures Loads() && level == old(level)[a := 0] && Olds() == old(Olds())[a := BalanceIn(base, a)]
    {
      Opened();
      FetchKeeps(Under(), cache, level, checkpoints, snapshots, a, state);
      FetchSeen(db, cache, a, state);
      OldsPut(cache, a, NewEntry(account, state));
      level := level[a := 0];
      cache := cache[a := NewEntry(account, state)];
    }

    method Checkpoint()
      requires Valid()
      modifies this`checkpoints, this`snapshots, this`trail
      ensures Valid() && View() == old(View()) && snapshots == old(snapshots) + [old(View())] && AllHeld()
      ensures trail == old(trail) + [Entered]
    {
      Tell(Entered);
      PushKeeps(Under(), cache, level, checkpoints, snapshots);
      snapshots := snapshots + [View()];
      checkpoints := checkpoints + [map[]];
    }

    method DiscardCheckpoint()
      requires Valid()
      modifies this`checkpoints, this`snapshots, this`level, this`trail
      ensures Valid() && View() == old(View()) && trail == old(trail) + [Left]
      ensures snapshots == if old(snapshots) == [] then [] else old(snapshots)[..|old(snapshots)| - 1]
      ensures Grew()
    {
      ghost var m := Recollection(Olds(), level, |checkpoints|);
      Tell(Left);
      assert Replay(Reader(base, hits), start, trail) == Told(Reader(base, hits), m, Left);
      if checkpoints != [] {
        MergeLast();
      }
    }

    /** Merges the last checkpoint into the one before it. */
    method MergeLast()
      requires Sound() && checkpoints != []
      modifies this`checkpoints, this`snapshots, this`level
      ensures Sound() && |checkpoints| == |old(checkpoints)| - 1 && level == Lowered(old(level), |checkpoints|)
      ensures snapshots == old(snapshots)[..|checkpoints|]
    {
      var last := |checkpoints| - 1;
      var newer := checkpoints[last];
      if last > 0 {
        MergeKeeps(Under(), cache, level, checkpoints, snapshots);
        checkpoints := checkpoints[..last - 1] + [newer + checkpoints[last - 1]];
      } else {
        DropKeeps(Under(), cache, level, checkpoints, snapshots);
        checkpoints := [];
      }
      snapshots, level := snapshots[..last], Lowered(level, last);
    }

    method RevertToCheckpoint()
      requires Valid()
      modifies this`cache, this`checkpoints, this`snapshots, this`level, this`trail
      ensures Valid() && trail == old(trail) + [Undone]
      ensures Popped()
      ensures View() == if old(snapshots) == [] then old(View()) else old(snapshots)[|old(snapshots)| - 1]
      ensures snapshots == if old(snapshots) == [] then [] else old(snapshots)[..|old(snapshots)| - 1]
    {
      ghost var m := Recollection(Olds(), level, |checkpoints|);
      Tell(Undone);
      assert Replay(Reader(base, hits), start, trail) == Told(Reader(base, hits), m, Undone);
      if checkpoints != [] {
        UndoLast();
      }
    }

    /** Puts the noted entries back and drops the last checkpoint. */
    method UndoLast()
      requires Sound() && checkpoints != []
      modifies this`cache, this`checkpoints, this`snapshots, this`level
      ensures Sound() && |checkpoints| == |old(checkpoints)| - 1 && |snapshots| == |checkpoints|
      ensures level == Kept(old(level), |checkpoints|) && Olds() == OnlyIn(old(Olds()), level)
      ensures |old(snapshots)| == |old(checkpoints)| && snapshots == old(snapshots)[..|checkpoints|]
      ensures View() == old(snapshots)[|checkpoints|]
    {
      var last := |checkpoints| - 1;
      var checkpoint := checkpoints[last];
      Journal.Opened(Under(), cache, level, checkpoints, snapshots);
      RevertRemembers(cache, level, checkpoints);
      RevertKeeps(Under(), cache, level, checkpoints, snapshots);
      checkpoints, snapshots, level := checkpoints[..last], snapshots[..last], Kept(level, last);
      PutBack(checkpoint);
    }

    /** Puts every entry of a checkpoint back into the cache. */
    method PutBack(checkpoint: Checkpoint)
      modifies this`cache
      ensures cache == Reverted(old(cache), checkpoint)
    {
      ghost var before := cache;
      var rest := checkpoint.Keys;
      assert checkpoint - rest == map[];
      assert Reverted(before, map[]) == before;
      while rest != {}
        invariant rest <= checkpoint.Keys
        invariant cache == Reverted(before, checkpoint - rest)
        decreases rest
      {
        var k :| k in rest;
        RevertOneMore(before, checkpoint, rest, k);
        match checkpoint[k] {
          case Some(v) =>
            if k in cache {
              cache := cache[k := Overwritten(cache[k], v)];
            } else {
              cache := cache[k := v];
            }
          case None =>
            if k in cache && cache[k].state.Dirty? {
              cache := cache - {k};
            }
        }
        rest := rest - {k};
      }
      assert checkpoint - {} == checkpoint;
    }

    /** Loads an account that is about to be changed, from the shared cache or else from the trie. */
    method Fetch(a: Address)
      requires Valid()
      modifies this`cache, this`level, this`trail
      ensures Valid() && View() == old(View()) && Loads() && a in level
      ensures trail == old(trail) + [Fetched(a)]
    {
      Opened();
      Tell(Fetched(a));
      if a !in cache {
        var answer := backend.GetCachedAccount(a);
        if answer.Some? {
          Insert(a, answer.value, CleanCached);
        } else {
          Insert(a, Get(db, a), CleanFresh);
        }
      }
    }

    /** Notes the present entry of `a` in the last checkpoint, once. */
    method NoteCache(a: Address)
      modifies this`checkpoints
      ensures checkpoints == NotedLast(cache, old(checkpoints), a)
    {
      if checkpoints != [] {
        var last := |checkpoints| - 1;
        checkpoints := checkpoints[last := Note(cache, checkpoints[last], a)];
      }
    }

    /** Notes the present entry of `a` in the last checkpoint and replaces it. All snapshots stay restorable exactly
        when that can be undone. */
    method Put(a: Address, entry: Entry)
      requires Sound() && entry.state.Dirty?
      modifies this`cache, this`checkpoints, this`level
      ensures cache == old(cache)[a := entry]
      ensures level == Levelled(old(level), |checkpoints|, a)
      ensures Sound() <==> old(Undoable(cache, checkpoints, a, entry.account))
      ensures |checkpoints| == |old(checkpoints)| && Olds() == old(Olds())[a := entry.oldBalance]
      ensures View() == if entry.account.Some? then old(View())[a := entry.account.value] else old(View()) - {a}
    {
      WriteExactly(Under(), cache, level, checkpoints, snapshots, a, entry);
      WriteSeen(db, cache, a, entry);
      OldsPut(cache, a, entry);
      NoteCache(a);
      cache := cache[a := entry];
      level := Levelled(level, |checkpoints|, a);
    }

    /** Changes a loaded account. */
    method Write(a: Address, account: Account)
      requires Valid() && a in level
      modifies this`cache, this`checkpoints, this`level
      ensures Valid() && |checkpoints| == |old(checkpoints)| && View() == old(View())[a := account]
      ensures level == old(level)
    {
      Opened();
      Put(a, Entry(Some(account), cache[a].oldBalance, Dirty));
      assert Olds() == old(Olds());
    }

    /** The account to change at `a`, loaded first and created when missing. */
    method Require(a: Address) returns (account: Account)
      requires Valid()
      modifies this`cache, this`level, this`trail
      ensures Valid() && View() == old(View()) && Loads() && a in level
      ensures account == Existing(View(), a, accountStartNonce) && trail == old(trail) + [Fetched(a)]
    {
      Fetch(a);
      Opened();
      assert cache[a].account == Get(View(), a);
      account := if cache[a].account.Some? then cache[a].account.value else NewBasic(0, accountStartNonce);
    }

    /** Replaces the entry of `a` by one that takes no old balance over. */
    method Renew(a: Address, entry: Entry)
      requires Valid() && entry.state.Dirty?
      modifies this`cache, this`checkpoints, this`level, this`trail
      ensures cache == old(cache)[a := entry] && level == Levelled(old(level), |checkpoints|, a)
      ensures Valid() <==> old(Undoable(cache, checkpoints, a, entry.account))
      ensures |checkpoints| == |old(checkpoints)| && trail == old(trail) + [Replaced(a, entry.oldBalance)]
      ensures View() == if entry.account.Some? then old(View())[a := entry.account.value] else old(View()) - {a}
    {
      Tell(Replaced(a, entry.oldBalance));
      Put(a, entry);
    }

    /** Replaces the entry of `a` by a new account, which is first seen with the balance it gets. */
    method NewContract(a: Address, balance: nat, nonceOffset: nat)
      requires Valid()
      modifies this`cache, this`checkpoints, this`level, this`trail
      ensures Valid() && View() == old(View())[a := NewBasic(balance, accountStartNonce + nonceOffset)]
      ensures cache == old(cache)[a := NewEntry(Some(NewBasic(balance, accountStartNonce + nonceOffset)), Dirty)]
      ensures Grew() && a in level && trail == old(trail) + [Replaced(a, Some(balance))]
    {
      Renew(a, NewEntry(Some(NewBasic(balance, accountStartNonce + nonceOffset)), Dirty));
    }

    /** Removes an account. All snapshots stay restorable exactly when the last checkpoint does not hold the
        account as existing. */
    method KillAccount(a: Address)
      requires Valid()
      modifies this`cache, this`checkpoints, this`level, this`trail
      ensures Valid() <==> old(Undoable(cache, checkpoints, a, None))
      ensures View() == old(View()) - {a} && |checkpoints| == |old(checkpoints)|
      ensures cache == old(cache)[a := NewEntry(None, Dirty)] && Grew()
      ensures trail == old(trail) + [Replaced(a, None)]
    {
      Renew(a, NewEntry(None, Dirty));
    }

    /** Changes the balance of an account, which is created when missing. */
    method SetBalance(a: Address, up: nat, down: nat)
      requires Valid() && down <= Balance(View(), a)
      modifies this`cache, this`checkpoints, this`level, this`trail
      ensures var account := Existing(old(View()), a, accountStartNonce);
              Valid() && View() == old(View())[a := account.(balance := account.balance + up - down)]
      ensures Loads() && a in level && trail == old(trail) + [Fetched(a)]
    {
      var account := Require(a);
      Write(a, account.(balance := account.balance + up - down));
    }

    method AddBalance(a: Address, incr: nat, mode: CleanupMode, touched: set<Address>) returns (touched': set<Address>)
      requires Valid()
      modifies this`cache, this`checkpoints, this`level, this`trail
      ensures Valid() && View() == Accounts.AddBalance(old(View()), a, incr, mode, accountStartNonce)
      ensures touched' == touched + if mode.TrackTouched? && incr == 0 && a in old(View()) then {a} else {}
      ensures Loads() && (touched' != touched || incr != 0 ==> a in level)
      ensures trail == old(trail) + AddTrail(old(View()), a, incr, mode)
    {
      touched' := touched;
      if incr != 0 {
        SetBalance(a, incr, 0);
      } else if !mode.NoEmpty? {
        touched' := AddNothing(a, mode, touched);
      }
    }

    /** Adding nothing creates or touches, as the mode says. */
    method AddNothing(a: Address, mode: CleanupMode, touched: set<Address>) returns (touched': set<Address>)
      requires Valid()
      modifies this`cache, this`checkpoints, this`level, this`trail
      ensures Valid() && View() == Accounts.AddBalance(old(View()), a, 0, mode, accountStartNonce)
      ensures touched' == touched + if mode.TrackTouched? && a in old(View()) then {a} else {}
      ensures Loads() && (touched' != touched ==> a in level)
      ensures !mode.NoEmpty? ==> trail == old(trail) + AddTrail(old(View()), a, 0, mode)
    {
      touched' := touched;
      var found := Exists(a);
      if mode.ForceCreate? && !found {
        SetBalance(a, 0, 0);
      } else if mode.TrackTouched? && found {
        touched' := touched + {a};
        Touch(a);
      }
    }

    /** Marks an existing account as changed. */
    method Touch(a: Address)
      requires Valid() && a in View()
      modifies this`cache, this`checkpoints, this`level, this`trail
      ensures Valid() && View() == old(View()) && Loads() && a in level && trail == old(trail) + [Fetched(a)]
    {
      var account := Require(a);
      Write(a, account);
      assert old(View())[a := account] == old(View());
    }

    method SubBalance(a: Address, decr: nat, mode: CleanupMode, touched: set<Address>) returns (touched': set<Address>)
      requires Valid() && decr <= Balance(View(), a)
      modifies this`cache, this`checkpoints, this`level, this`trail
      ensures Valid() && View() == Accounts.SubBalance(old(View()), a, decr, accountStartNonce)
      ensures touched' == touched + if mode.TrackTouched? then {a} else {}
      ensures Loads() && (decr != 0 || a !in old(View()) ==> a in level)
      ensures trail == old(trail) + SubTrail(old(View()), a, decr)
    {
      var missing := false;
      if decr == 0 {
        var found := Exists(a);
        missing := !found;
      }
      if decr != 0 || missing {
        SetBalance(a, 0, decr);
      }
      touched' := if mode.TrackTouched? then touched + {a} else touched;
    }

    method TransferBalance(from: Address, to: Address, amount: nat, mode: CleanupMode, touched: set<Address>)
      returns (touched': set<Address>)
      requires Valid() && amount <= Balance(View(), from)
      modifies this`cache, this`checkpoints, this`level, this`trail
      ensures Valid() && View() == Transfer(old(View()), from, to, amount, mode, accountStartNonce)
      ensures touched' == touched + TransferTouches(old(View()), from, to, amount, mode, accountStartNonce)
      ensures Loads()
      ensures touched' <= touched + {from} + level.Keys
      ensures trail == old(trail) + TransferTrail(old(View()), from, to, amount, mode, accountStartNonce)
    {
      var t := SubBalance(from, amount, mode, touched);
      touched' := AddBalance(to, amount, mode, t);
    }

    method IncNonce(a: Address)
      requires Valid()
      modifies this`cache, this`checkpoints, this`level, this`trail
      ensures Valid() && View() == Accounts.IncNonce(old(View()), a, accountStartNonce)
      ensures Loads() && a in level && trail == old(trail) + [Fetched(a)]
    {
      var account := Require(a);
      Write(a, account.(nonce := account.nonce + 1));
    }

    method SetStorage(a: Address, key: H256, value: H256)
      requires Valid()
      modifies this`cache, this`checkpoints, this`level, this`trail
      ensures Valid() && View() == Accounts.SetStorage(old(View()), a, key, value, accountStartNonce)
      ensures Loads() && trail == old(trail) + StorageTrail(old(View()), a, key, value)
    {
      var found := EnsureCached(a);
      var current := if found.Some? then SlotOf(found.value, key) else 0;
      if current != value {
        SetSlot(a, key, value);
      }
    }

    method SetSlot(a: Address, key: H256, value: H256)
      requires Valid()
      modifies this`cache, this`checkpoints, this`level, this`trail
      ensures var account := Existing(old(View()), a, accountStartNonce);
              Valid() && View() == old(View())[a := account.(storage := account.storage[key := value])]
      ensures Loads() && trail == old(trail) + [Fetched(a)]
    {
      var account := Require(a);
      Write(a, account.(storage := account.storage[key := value]));
    }

    method InitCode(a: Address, code: Bytes)
      requires Valid()
      modifies this`cache, this`checkpoints, this`level, this`trail
      ensures Valid() && View() == Accounts.InitCode(old(View()), a, code, accountStartNonce)
      ensures Loads() && trail == old(trail) + [Fetched(a)]
    {
      var account := Require(a);
      Write(a, account.(code := code));
    }

    /** Removes every account of a set, one at a time. */
    method KillAll(addresses: set<Address>)
      requires Valid() && checkpoints == []
      modifies this`cache, this`checkpoints, this`level, this`trail
      ensures Valid() && checkpoints == [] && View() == old(View()) - addresses
      ensures Grew() && FirstSeen() == old(FirstSeen()) - addresses && Olds() == Forgotten(old(Olds()), addresses)
      ensures level.Keys == old(level.Keys) + addresses
    {
      Opened();
      KillEach(addresses);
      KilledView(db, old(cache), addresses);
      KilledOlds(old(cache), addresses);
      Opened();
    }

    method KillEach(addresses: set<Address>)
      requires Valid() && checkpoints == []
      modifies this`cache, this`checkpoints, this`level, this`trail
      ensures Valid() && checkpoints == [] && Grew() && cache == Killed(old(cache), addresses)
    {
      ghost var before := cache;
      var rest := addresses;
      KilledOneMore(before, {}, 0);
      while rest != {}
        invariant rest <= addresses && Valid() && checkpoints == [] && Grew()
        invariant cache == Killed(before, addresses - rest)
        decreases rest
      {
        var a :| a in rest;
        KilledOneMore(before, addresses - rest, a);
        assert addresses - rest + {a} == addresses - (rest - {a});
        KillAccount(a);
        rest := rest - {a};
      }
      assert addresses - {} == addresses;
    }

    /** Removes touched accounts that are loaded and empty or dust. */
    method KillGarbage(touched: set<Address>, removeEmpty: bool, minBalance: Option<nat>, killContracts: bool)
      requires Valid() && checkpoints == []
      modifies this`cache, this`checkpoints, this`level, this`trail
      ensures Valid() && checkpoints == []
      ensures var garbage := Garbage(old(View()), touched * old(level.Keys), old(FirstSeen()), removeEmpty, minBalance,
                                     killContracts);
              View() == old(View()) - garbage && Olds() == Forgotten(old(Olds()), garbage)
    {
      Opened();
      var toKill := set a | a in cache && a in touched && cache[a].account.Some? &&
                            ((removeEmpty && IsNull(cache[a].account.value)) ||
                             (minBalance.Some? && (cache[a].account.value.code == [] || killContracts) &&
                              cache[a].account.value.balance < minBalance.value &&
                              cache[a].oldBalance.Some? &&
                              cache[a].account.value.balance < cache[a].oldBalance.value));
      assert toKill == Garbage(View(), touched * level.Keys, FirstSeen(), removeEmpty, minBalance, killContracts) by {
        assert forall a :: a in cache ==> cache[a].account == Get(View(), a);
        assert forall a :: a in cache ==> cache[a].oldBalance == Get(FirstSeen(), a);
      }
      KillAll(toKill);
    }

    /** Writes one account to the trie. */
    method CommitEntry(a: Address)
      requires a in cache && EntriesTrue(base, db, cache)
      modifies this`db, this`cache
      ensures cache == old(cache)[a := old(cache[a]).(state := Committed)]
      ensures EntriesTrue(base, db, cache)
    {
      CommitOne(base, db, cache, a);
      match cache[a].account {
        case Some(account) => db := db[a := account];
        case None => db := db - {a};
      }
      cache := cache[a := cache[a].(state := Committed)];
    }

    /** Writes the changed accounts to the trie, one by one. */
    method Commit()
      requires Valid() && checkpoints == []
      modifies this`db, this`cache
      ensures Valid() && View() == old(View()) == db
      ensures (forall a :: a in cache ==> !cache[a].state.Dirty?) && Olds() == old(Olds())
    {
      Opened();
      CommitAll();
      TrieIsView(db, cache);
      CommittedSame(base, old(db), old(cache), db, cache);
      Folded(Under(), cache, level, checkpoints, snapshots);
    }

    method CommitAll()
      requires EntriesTrue(base, db, cache)
      modifies this`db, this`cache
      ensures EntriesTrue(base, db, cache) && SameEntries(old(cache), cache)
      ensures forall a :: a in cache ==> !cache[a].state.Dirty?
    {
      var rest := set a | a in cache && cache[a].state.Dirty?;
      while rest != {}
        invariant forall a :: a in rest <==> a in cache && cache[a].state.Dirty?
        invariant EntriesTrue(base, db, cache) && SameEntries(old(cache), cache)
        decreases rest
      {
        var a :| a in rest;
        CommitEntry(a);
        rest := rest - {a};
      }
    }

    /** Queues the accounts of a committed state for the shared cache. The queue names every account
        that differs from the parent block, and every item is true. */
    method PropagateToGlobalCache() returns (queue: seq<CacheSpec.QueueItem>)
      requires Valid() && checkpoints == []
      requires forall a :: a in cache ==> !cache[a].state.Dirty?
      modifies this`cache
      ensures cache == map[]
      ensures CacheSpec.QueueTrue(base, old(View()), queue)
      ensures CacheSpec.QueuedIn(queue) ==
              set a | a in old(cache) && (old(cache)[a].state.Committed? || old(cache)[a].state.CleanFresh?)
      ensures CacheSpec.ModifiedIn(queue) == set a | a in old(cache) && old(cache)[a].state.Committed?
    {
      Opened();
      queue := [];
      var entries := cache;
      cache := map[];
      var rest := entries.Keys;
      while rest != {}
        invariant rest <= entries.Keys && cache == map[]
        invariant forall i :: 0 <= i < |queue| ==>
                                queue[i].address in entries && queue[i].account == entries[queue[i].address].account
        invariant CacheSpec.QueuedIn(queue) ==
                  set a | a in entries && a !in rest && (entries[a].state.Committed? || entries[a].state.CleanFresh?)
        invariant CacheSpec.ModifiedIn(queue) == set a | a in entries && a !in rest && entries[a].state.Committed?
        decreases rest
      {
        var a :| a in rest;
        var e := entries[a];
        ghost var before := queue;
        if e.state.Committed? || e.state.CleanFresh? {
          queue := queue + [CacheSpec.QueueItem(a, e.account, e.state.Committed?)];
        }
        CacheSpec.QueuedMore(before, CacheSpec.QueueItem(a, e.account, e.state.Committed?));
        rest := rest - {a};
      }
      forall a | Get(old(View()), a) != Get(base, a) ensures a in CacheSpec.ModifiedIn(queue) {
        assert Get(old(View()), a) == Seen(db, entries, a);
        assert a in entries && entries[a].state.Committed?;
      }
      assert forall a :: a in entries ==> entries[a].account == Get(old(View()), a);
    }

    /** A copy for later use: it keeps only the changed entries and no checkpoints, so it remembers the balances first
        seen exactly when all other accounts still have theirs. */
    method Clone() returns (r: State)
      requires Valid()
      ensures fresh(r) && r.Valid() && r.View() == View() && r.snapshots == []
      ensures r.accountStartNonce == accountStartNonce
      ensures r.FirstSeen() == FirstSeen() <==> AsFirstSeen(cache)
      ensures r.Source() == Reader(db, {}) && r.Olds() == OldsOf(Unwritten(cache))
    {
      Opened();
      var clone := backend.BoxedClone();
      var dirty := Unwritten(cache);
      CloneRemembers(base, db, cache);
      r := new State.FromDirty(clone, db, dirty, accountStartNonce);
    }
  }
}
