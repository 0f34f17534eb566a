/** What one `sync_cache` does to the shared account cache, as functions on values.

    `StateDb` runs the same steps in place and is proved equal to these functions;
    `CacheSoundness` proves what they keep.
 */
module CacheSpec {
  import opened Types

  const STATE_CACHE_BLOCKS: nat := 12

  /** The accounts changed by one committed block. */
  datatype BlockChanges = BlockChanges(
    number: nat,
    hash: H256,
    parent: H256,
    accounts: set<Address>,
    isCanon: bool)

  /** An account queued by a finished block. `account` is `None` when it does not exist. */
  datatype QueueItem = QueueItem(address: Address, account: Option<Account>, modified: bool)

  datatype Cache = Cache(accounts: map<Address, Option<Account>>, mods: seq<BlockChanges>)

  /** A cache part-way through the purge, and whether an unknown block was met. */
  datatype Purging = Purging(cache: Cache, clear: bool)

  /** Position of the first entry for block `h`, or `|mods|`. */
  function IndexOf(mods: seq<BlockChanges>, h: H256): (i: nat)
    ensures i <= |mods|
    ensures i < |mods| ==> mods[i].hash == h
    ensures forall j :: 0 <= j < i ==> mods[j].hash != h
  {
    if mods == [] then 0
    else if mods[0].hash == h then 0
    else 1 + IndexOf(mods[1..], h)
  }

  /** Marks block `h` and drops the accounts it changed; an unknown block asks for a wipe. */
  function PurgeBlock(p: Purging, h: H256, canon: bool, skip: Option<H256>): Purging {
    if p.clear || skip == Some(h) then p
    else
      var mods := p.cache.mods;
      var i := IndexOf(mods, h);
      if i == |mods| then p.(clear := true)
      else
        var m := mods[i];
        p.(cache := Cache(p.cache.accounts - m.accounts, mods[i := m.(isCanon := canon)]))
  }

  function PurgeBlocks(p: Purging, hs: seq<H256>, canon: bool, skip: Option<H256>): Purging {
    if hs == [] then p
    else
      var last := |hs| - 1;
      PurgeBlock(PurgeBlocks(p, hs[..last], canon, skip), hs[last], canon, skip)
  }

  /** The purge of enacted and retracted blocks, ending in a wipe when one is unknown. */
  function Purged(c: Cache, enacted: seq<H256>, retracted: seq<H256>, commit: Option<H256>): Cache {
    var p := PurgeBlocks(PurgeBlocks(Purging(c, false), enacted, true, commit), retracted, false, None);
    if p.clear then Cache(map[], []) else p.cache
  }

  /** One queued account reaching the canonical cache; `evicted` is what the LRU policy drops. */
  function ApplyItem(accounts: map<Address, Option<Account>>, item: QueueItem, evicted: set<Address>)
    : map<Address, Option<Account>>
  {
    if item.address in accounts && accounts[item.address].Some? && item.account.Some? then
      if item.modified then accounts[item.address := item.account] else accounts
    else
      accounts[item.address := item.account] - evicted
  }

  function ApplyQueue(accounts: map<Address, Option<Account>>, queue: seq<QueueItem>, evicted: seq<set<Address>>)
    : map<Address, Option<Account>>
    requires |queue| == |evicted|
  {
    if queue == [] then accounts
    else
      var last := |queue| - 1;
      ApplyItem(ApplyQueue(accounts, queue[..last], evicted[..last]), queue[last], evicted[last])
  }

  /** Addresses queued with the `modified` flag. */
  function ModifiedIn(queue: seq<QueueItem>): set<Address> {
    set i | 0 <= i < |queue| && queue[i].modified :: queue[i].address
  }

  /** All addresses queued. */
  function QueuedIn(queue: seq<QueueItem>): set<Address> {
    set i | 0 <= i < |queue| :: queue[i].address
  }

  lemma QueuedMore(queue: seq<QueueItem>, item: QueueItem)
    ensures QueuedIn(queue + [item]) == QueuedIn(queue) + {item.address}
    ensures ModifiedIn(queue + [item]) == ModifiedIn(queue) + if item.modified then {item.address} else {}
  {
    var all := queue + [item];
    forall a ensures a in QueuedIn(all) <==> a in QueuedIn(queue) || a == item.address {
      assert all[|queue|] == item;
      if a in QueuedIn(queue) {
        var i :| 0 <= i < |queue| && queue[i].address == a;
        assert all[i].address == a;
      }
    }
    forall a ensures a in ModifiedIn(all) <==> a in ModifiedIn(queue) || (item.modified && a == item.address) {
      assert all[|queue|] == item;
      if a in ModifiedIn(queue) {
        var i :| 0 <= i < |queue| && queue[i].modified && queue[i].address == a;
        assert all[i].address == a && all[i].modified;
      }
    }
  }

  /** The queue of a finished block is true: each item holds the account as the block left it,
      and every account the block changed is there with the `modified` flag. */
  ghost predicate QueueTrue(before: map<Address, Account>, after: map<Address, Account>, queue: seq<QueueItem>) {
    && (forall i :: 0 <= i < |queue| ==> queue[i].account == Get(after, queue[i].address))
    && (forall a :: Get(after, a) != Get(before, a) ==> a in ModifiedIn(queue))
  }

  /** Position of the first entry with a smaller number, or `|mods|`. */
  function InsertPosition(mods: seq<BlockChanges>, number: nat): (i: nat)
    ensures i <= |mods|
    ensures i < |mods| ==> mods[i].number < number
    ensures forall j :: 0 <= j < i ==> number <= mods[j].number
  {
    if mods == [] then 0
    else if mods[0].number < number then 0
    else 1 + InsertPosition(mods[1..], number)
  }

  function Inserted(mods: seq<BlockChanges>, m: BlockChanges): seq<BlockChanges> {
    var i := InsertPosition(mods, m.number);
    mods[..i] + [m] + mods[i..]
  }

  function DropOldest(mods: seq<BlockChanges>): seq<BlockChanges> {
    if |mods| == STATE_CACHE_BLOCKS then mods[..|mods| - 1] else mods
  }

  /** Recording a committed block whose parent is known. */
  function Recorded(c: Cache, number: nat, hash: H256, parent: H256, queue: seq<QueueItem>,
                    evicted: seq<set<Address>>, isBest: bool): Cache
    requires |queue| == |evicted|
  {
    Cache(if isBest then ApplyQueue(c.accounts, queue, evicted) else c.accounts,
          Inserted(DropOldest(c.mods), BlockChanges(number, hash, parent, ModifiedIn(queue), isBest)))
  }

  /** The identity of a committing clone: what `journal_under` and `boxed_clone_canon` set. */
  datatype Commit = Commit(hash: Option<H256>, number: Option<nat>, parent: Option<H256>)

  function Synced(c: Cache, commit: Commit, queue: seq<QueueItem>, evicted: seq<set<Address>>,
                  enacted: seq<H256>, retracted: seq<H256>, isBest: bool): Cache
    requires |queue| == |evicted|
  {
    var purged := Purged(c, enacted, retracted, commit.hash);
    match commit
    case Commit(Some(hash), Some(number), Some(parent)) =>
      Recorded(purged, number, hash, parent, queue, evicted, isBest)
    case _ => purged
  }

  /** Whether a reader on top of `parent` may use the cached entry for `addr`. */
  predicate Allowed(addr: Address, parent: Option<H256>, mods: seq<BlockChanges>) {
    parent.Some? && (mods == [] || AllowedFrom(addr, parent.value, mods))
  }

  predicate AllowedFrom(addr: Address, parent: H256, mods: seq<BlockChanges>)
    decreases mods
  {
    if mods == [] then false
    else
      var m := mods[0];
      if m.hash == parent && m.isCanon then true
      else if addr in m.accounts then false
      else AllowedFrom(addr, if m.hash == parent then m.parent else parent, mods[1..])
  }

  /** What `get_cached_account` returns: `None` for a miss. */
  function Lookup(c: Cache, parent: Option<H256>, addr: Address): Option<Option<Account>> {
    if Allowed(addr, parent, c.mods) then Get(c.accounts, addr) else None
  }

  /** The addresses that it answers for. */
  function Answered(c: Cache, parent: Option<H256>): (s: set<Address>)
    ensures forall a :: a in s <==> Lookup(c, parent, a).Some?
  {
    set a | a in c.accounts && Lookup(c, parent, a).Some?
  }

  /** Whatever the cache answers to a reader on top of `parent` is the account in `w`. */
  ghost predicate AnswersTrue(c: Cache, parent: Option<H256>, w: map<Address, Account>) {
    forall a :: Lookup(c, parent, a).Some? ==> Lookup(c, parent, a).value == Get(w, a)
  }
}
