/** The state database and its shared account cache, updated in place. */
module StateDb {
  import opened Types
  import opened CacheSpec

  /** The canonical account cache shared by all clones of one database. */
  class AccountCache {
    var accounts: map<Address, Option<Account>>
    var modifications: seq<BlockChanges>

    ghost function View(): Cache
      reads this
    {
      Cache(accounts, modifications)
    }

    constructor ()
      ensures View() == Cache(map[], [])
    {
      accounts, modifications := map[], [];
    }

    /** The body of both purge loops: mark one block and drop what it changed, or ask for a wipe. */
    method Mark(block: H256, canon: bool) returns (unknown: bool)
      modifies this
      ensures Purging(View(), unknown) == PurgeBlock(Purging(old(View()), false), block, canon, None)
    {
      var i := 0;
      while i < |modifications| && modifications[i].hash != block
        invariant 0 <= i <= |modifications|
        invariant forall j :: 0 <= j < i ==> modifications[j].hash != block
      {
        i := i + 1;
      }
      assert i == IndexOf(modifications, block);
      if i < |modifications| {
        var m := modifications[i];
        modifications := modifications[i := m.(isCanon := canon)];
        accounts := accounts - m.accounts;
        unknown := false;
      } else {
        unknown := true;
      }
    }

    /** One queued account of the best block; `evicted` is what the LRU policy drops. */
    method Absorb(item: QueueItem, evicted: set<Address>)
      modifies this`accounts
      ensures accounts == ApplyItem(old(accounts), item, evicted)
    {
      if item.address in accounts && accounts[item.address].Some? {
        if item.account.Some? {
          if item.modified {
            accounts := accounts[item.address := item.account];
          }
          return;
        }
      }
      accounts := accounts[item.address := item.account] - evicted;
    }

    method Insert(changes: BlockChanges)
      modifies this`modifications
      ensures modifications == Inserted(old(modifications), changes)
    {
      var i := 0;
      while i < |modifications| && modifications[i].number >= changes.number
        invariant 0 <= i <= |modifications|
        invariant forall j :: 0 <= j < i ==> changes.number <= modifications[j].number
      {
        i := i + 1;
      }
      assert i == InsertPosition(modifications, changes.number);
      modifications := modifications[..i] + [changes] + modifications[i..];
    }
  }

  class StateDB {
    const accountCache: AccountCache
    var localCache: seq<QueueItem>
    var parentHash: Option<H256>
    var commitHash: Option<H256>
    var commitNumber: Option<nat>

    ghost function Committing(): Commit
      reads this
    {
      Commit(commitHash, commitNumber, parentHash)
    }

    /** A database or clone over `cache`; `parent` is `None` when the cache is disabled. */
    constructor (cache: AccountCache, parent: Option<H256>)
      ensures accountCache == cache && localCache == []
      ensures Committing() == Commit(None, None, parent)
    {
      accountCache, localCache, parentHash, commitHash, commitNumber := cache, [], parent, None, None;
    }

    method BoxedClone() returns (r: StateDB)
      ensures fresh(r) && r.accountCache == accountCache && r.localCache == []
      ensures r.Committing() == Commit(None, None, None)
    {
      r := new StateDB(accountCache, None);
    }

    method BoxedCloneCanon(parent: H256) returns (r: StateDB)
      ensures fresh(r) && r.accountCache == accountCache && r.localCache == []
      ensures r.Committing() == Commit(None, None, Some(parent))
    {
      r := new StateDB(accountCache, Some(parent));
    }

    method JournalUnder(now: nat, id: H256)
      modifies this`commitHash, this`commitNumber
      ensures Committing() == Commit(Some(id), Some(now), old(parentHash))
    {
      commitHash, commitNumber := Some(id), Some(now);
    }

    method AddToAccountCache(addr: Address, data: Option<Account>, modified: bool)
      modifies this`localCache
      ensures localCache == old(localCache) + [QueueItem(addr, data, modified)]
    {
      localCache := localCache + [QueueItem(addr, data, modified)];
    }

    /** Purges the enacted and retracted blocks, wiping the cache when one is unknown. */
    method Purge(enacted: seq<H256>, retracted: seq<H256>)
      modifies accountCache
      ensures accountCache.View() == Purged(old(accountCache.View()), enacted, retracted, commitHash)
    {
      var cache := accountCache;
      var clear := false;
      ghost var start := Purging(cache.View(), false);
      var i := 0;
      while i < |enacted|
        invariant 0 <= i <= |enacted|
        invariant Purging(cache.View(), clear) == PurgeBlocks(start, enacted[..i], true, commitHash)
      {
        assert enacted[..i + 1][..i] == enacted[..i];
        if commitHash != Some(enacted[i]) {
          if !clear {
            clear := cache.Mark(enacted[i], true);
          }
        }
        i := i + 1;
      }
      assert enacted[..|enacted|] == enacted;
      ghost var middle := Purging(cache.View(), clear);
      i := 0;
      while i < |retracted|
        invariant 0 <= i <= |retracted|
        invariant Purging(cache.View(), clear) == PurgeBlocks(middle, retracted[..i], false, None)
      {
        assert retracted[..i + 1][..i] == retracted[..i];
        if !clear {
          clear := cache.Mark(retracted[i], false);
        }
        i := i + 1;
      }
      assert retracted[..|retracted|] == retracted;
      if clear {
        cache.accounts, cache.modifications := map[], [];
      }
    }

    /** Drains the queue into the canonical cache and collects the modified addresses. */
    method DrainQueue(isBest: bool, evicted: seq<set<Address>>) returns (modifications: set<Address>)
      requires |evicted| == |localCache|
      modifies accountCache`accounts, this`localCache
      ensures localCache == []
      ensures modifications == ModifiedIn(old(localCache))
      ensures accountCache.accounts == if isBest
                                       then ApplyQueue(old(accountCache.accounts), old(localCache), evicted)
                                       else old(accountCache.accounts)
    {
      modifications := {};
      ghost var accounts := accountCache.accounts;
      var queue := localCache;
      localCache := [];
      var i := 0;
      while i < |queue|
        invariant 0 <= i <= |queue| && localCache == []
        invariant modifications == ModifiedIn(queue[..i])
        invariant accountCache.accounts == if isBest then ApplyQueue(accounts, queue[..i], evicted[..i]) else accounts
      {
        assert queue[..i + 1][..i] == queue[..i] && evicted[..i + 1][..i] == evicted[..i];
        if queue[i].modified {
          modifications := modifications + {queue[i].address};
        }
        if isBest {
          accountCache.Absorb(queue[i], evicted[i]);
        }
        i := i + 1;
      }
      assert queue[..|queue|] == queue && evicted[..|evicted|] == evicted;
    }

    /** Propagates the local queue into the shared cache and follows the best chain. */
    method SyncCache(enacted: seq<H256>, retracted: seq<H256>, isBest: bool, evicted: seq<set<Address>>)
      requires |evicted| == |localCache|
      modifies accountCache, this`localCache
      ensures accountCache.View() == Synced(old(accountCache.View()), Committing(), old(localCache), evicted,
                                            enacted, retracted, isBest)
      ensures localCache == if commitHash.Some? && commitNumber.Some? && parentHash.Some? then [] else old(localCache)
    {
      Purge(enacted, retracted);
      if commitHash.Some? && commitNumber.Some? && parentHash.Some? {
        var cache := accountCache;
        if |cache.modifications| == STATE_CACHE_BLOCKS {
          cache.modifications := cache.modifications[..|cache.modifications| - 1];
        }
        var modifications := DrainQueue(isBest, evicted);
        cache.Insert(BlockChanges(commitNumber.value, commitHash.value, parentHash.value, modifications, isBest));
      }
    }

    /** Whether a reader on top of `parentHash` may use the cached entry for `addr`. */
    static method IsAllowed(addr: Address, parentHash: Option<H256>, modifications: seq<BlockChanges>)
      returns (ok: bool)
      ensures ok <==> Allowed(addr, parentHash, modifications)
    {
      if parentHash.None? {
        return false;
      }
      var parent := parentHash.value;
      if modifications == [] {
        return true;
      }
      var i := 0;
      while i < |modifications|
        invariant 0 <= i <= |modifications|
        invariant Allowed(addr, parentHash, modifications) <==> AllowedFrom(addr, parent, modifications[i..])
      {
        var m := modifications[i];
        assert modifications[i..][1..] == modifications[i + 1..];
        if m.hash == parent {
          if m.isCanon {
            return true;
          }
          parent := m.parent;
        }
        if addr in m.accounts {
          return false;
        }
        i := i + 1;
      }
      return false;
    }

    method GetCachedAccount(addr: Address) returns (r: Option<Option<Account>>)
      ensures r == Lookup(accountCache.View(), parentHash, addr)
    {
      var ok := IsAllowed(addr, parentHash, accountCache.modifications);
      if !ok {
        return None;
      }
      r := Get(accountCache.accounts, addr);
    }
  }
}
