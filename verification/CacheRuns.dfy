/** Every step of the shared account cache keeps its invariant, so every run does. */
module CacheRuns {
  import opened Types
  import opened BlockTree
  import opened CacheSpec
  import opened CacheSoundness

  // ---------------------------------------------------------------------------------------
  // The purge

  ghost predicate Purges(hs: seq<H256>, skip: Option<H256>, h: H256) {
    h in hs && skip != Some(h)
  }

  /** What a completed round of marking leaves: the marks moved and the changed accounts gone. */
  ghost predicate MarkedBy(c: Cache, hs: seq<H256>, canon: bool, skip: Option<H256>, r: Cache) {
    && |r.mods| == |c.mods|
    && (forall i :: 0 <= i < |c.mods| ==>
          r.mods[i] == if Purges(hs, skip, c.mods[i].hash) then c.mods[i].(isCanon := canon) else c.mods[i])
    && (forall h :: Purges(hs, skip, h) ==> Listed(c.mods, h))
    && (forall a :: a in r.accounts ==> a in c.accounts && r.accounts[a] == c.accounts[a])
    && (forall a, i :: a in r.accounts && 0 <= i < |c.mods| && Purges(hs, skip, c.mods[i].hash) ==>
          a !in c.mods[i].accounts)
  }

  lemma MarkedSameListed(c: Cache, hs: seq<H256>, canon: bool, skip: Option<H256>, r: Cache)
    requires MarkedBy(c, hs, canon, skip, r)
    ensures forall h :: Listed(r.mods, h) <==> Listed(c.mods, h)
  {
    forall h ensures Listed(r.mods, h) <==> Listed(c.mods, h) {
      if Listed(c.mods, h) {
        var i :| 0 <= i < |c.mods| && c.mods[i].hash == h;
        assert r.mods[i].hash == h;
      }
    }
  }

  lemma {:induction false} PurgeMarks(c: Cache, hs: seq<H256>, canon: bool, skip: Option<H256>)
    requires Distinct(c.mods)
    ensures var p := PurgeBlocks(Purging(c, false), hs, canon, skip);
            p.clear || MarkedBy(c, hs, canon, skip, p.cache)
  {
    if hs != [] {
      var last := |hs| - 1;
      var init, h := hs[..last], hs[last];
      assert hs == init + [h];
      PurgeMarks(c, init, canon, skip);
      var q := PurgeBlocks(Purging(c, false), init, canon, skip);
      if !q.clear && skip != Some(h) {
        PurgeOne(c, init, h, canon, skip, q.cache);
      }
    }
  }

  lemma PurgeOne(c: Cache, init: seq<H256>, h: H256, canon: bool, skip: Option<H256>, r: Cache)
    requires Distinct(c.mods)
    requires MarkedBy(c, init, canon, skip, r) && skip != Some(h)
    ensures var p := PurgeBlock(Purging(r, false), h, canon, skip);
            p.clear || MarkedBy(c, init + [h], canon, skip, p.cache)
  {
    var p := PurgeBlock(Purging(r, false), h, canon, skip);
    if !p.clear {
      var k := IndexOf(r.mods, h);
      assert c.mods[k].hash == h;
      assert Listed(c.mods, h);
      forall i | 0 <= i < |c.mods|
        ensures p.cache.mods[i] == if Purges(init + [h], skip, c.mods[i].hash)
                                   then c.mods[i].(isCanon := canon) else c.mods[i]
      {
        if i != k {
          assert c.mods[i].hash != h;
        }
      }
    }
  }

  // ---------------------------------------------------------------------------------------
  // Moving the head

  /** The route tells the whole move of the best chain from `head` to `next`; `skip` (the block
      being committed) need not be told. Blocks may be told again after they moved. */
  ghost predicate RouteTold(t: Tree, head: H256, next: H256, enacted: seq<H256>, retracted: seq<H256>,
                            skip: Option<H256>)
    requires WellFormed(t)
  {
    && (forall h :: h in Ancestors(t, next) && h !in Ancestors(t, head) && skip != Some(h) ==> h in enacted)
    && (forall h :: h in Ancestors(t, head) && h !in Ancestors(t, next) ==> h in retracted)
    && (forall h :: h in enacted && skip != Some(h) ==> h in Ancestors(t, next))
    && (forall h :: h in retracted ==> h !in Ancestors(t, next))
  }

  /** The highest block of `head`'s chain that is also on `next`'s chain. */
  lemma {:induction false} Meet(t: Tree, head: H256, next: H256) returns (found: bool, c: H256)
    requires WellFormed(t)
    ensures found ==> c in Ancestors(t, head) && c in Ancestors(t, next)
    ensures found ==> forall x :: x in Ancestors(t, head) && x !in Ancestors(t, c) ==> x !in Ancestors(t, next)
    ensures !found ==> forall x :: x in Ancestors(t, head) ==> x !in Ancestors(t, next)
    decreases if head in t then t[head].number + 1 else 0
  {
    if head !in t {
      found, c := false, 0;
    } else if head in Ancestors(t, next) {
      found, c := true, head;
    } else {
      found, c := Meet(t, t[head].parent, next);
    }
  }

  /** A chain all of whose blocks are listed would end in a listed block without a parent. */
  lemma {:induction false} NotAllListed(t: Tree, mods: seq<BlockChanges>, h: H256)
    requires WellFormed(t) && AllDescribe(mods, t)
    requires h in t
    ensures exists x :: x in Ancestors(t, h) && !Listed(mods, x)
    decreases t[h].number
  {
    if Listed(mods, h) {
      var i :| 0 <= i < |mods| && mods[i].hash == h;
      assert Describes(mods[i], t);
      NotAllListed(t, mods, t[h].parent);
    }
  }

  /** After both rounds of marking, what is left in the cache has the same value on both chains. */
  lemma SurvivorKept(n: Node, next: H256, enacted: seq<H256>, retracted: seq<H256>, skip: Option<H256>, a: Address)
    requires Invariant(n) && next in n.tree
    requires RouteTold(n.tree, n.head, next, enacted, retracted, skip)
    requires forall h :: Purges(enacted, skip, h) || h in retracted ==> ListedUnchanged(n.cache.mods, h, a)
    requires skip.Some? ==> skip.value !in n.tree
    ensures Value(n.tree, n.head, a) == Value(n.tree, next, a)
  {
    var t, mods := n.tree, n.cache.mods;
    var found, c := Meet(t, n.head, next);
    if found {
      forall x | x in Ancestors(t, n.head) && x !in Ancestors(t, c) ensures ListedUnchanged(mods, x, a) {
        assert x in retracted;
      }
      forall x | x in Ancestors(t, next) && x !in Ancestors(t, c) ensures ListedUnchanged(mods, x, a) {
        assert Purges(enacted, skip, x);
      }
      ValueKept(t, mods, c, n.head, a);
      ValueKept(t, mods, c, next, a);
    } else {
      forall x | x in Ancestors(t, n.head) ensures Listed(mods, x) {
        assert ListedUnchanged(mods, x, a);
      }
      NotAllListed(t, mods, n.head);
    }
  }

  /** The purge hands the cache from the old best chain to the new one. */
  lemma PurgeMovesHead(n: Node, next: H256, enacted: seq<H256>, retracted: seq<H256>, skip: Option<H256>)
    requires Invariant(n) && next in n.tree
    requires RouteTold(n.tree, n.head, next, enacted, retracted, skip)
    requires skip.Some? ==> skip.value !in n.tree
    ensures Invariant(Node(Purged(n.cache, enacted, retracted, skip), n.tree, next))
  {
    var c := n.cache;
    var p := PurgeBlocks(Purging(c, false), enacted, true, skip);
    PurgeMarks(c, enacted, true, skip);
    var r := PurgeBlocks(p, retracted, false, None);
    if !p.clear {
      PurgeMarks(p.cache, retracted, false, None);
    } else {
      StaysClear(p, retracted, false, None);
    }
    if !r.clear {
      assert p == Purging(p.cache, false);
      MarksMoved(n, next, enacted, retracted, skip, p.cache, r.cache);
    }
  }

  lemma {:induction false} StaysClear(p: Purging, hs: seq<H256>, canon: bool, skip: Option<H256>)
    requires p.clear
    ensures PurgeBlocks(p, hs, canon, skip).clear
  {
    if hs != [] {
      StaysClear(p, hs[..|hs| - 1], canon, skip);
    }
  }

  lemma MarksMoved(n: Node, next: H256, enacted: seq<H256>, retracted: seq<H256>, skip: Option<H256>,
                   p: Cache, r: Cache)
    requires Invariant(n) && next in n.tree
    requires RouteTold(n.tree, n.head, next, enacted, retracted, skip)
    requires skip.Some? ==> skip.value !in n.tree
    requires MarkedBy(n.cache, enacted, true, skip, p)
    requires MarkedBy(p, retracted, false, None, r)
    ensures Invariant(Node(r, n.tree, next))
  {
    var mods := n.cache.mods;
    forall i | 0 <= i < |mods|
      ensures r.mods[i] == mods[i].(isCanon := mods[i].hash in Ancestors(n.tree, next))
    {
      assert Describes(mods[i], n.tree);
      assert p.mods[i].hash == mods[i].hash;
    }
    SameEntries(n, next, r.mods);
    forall h | h in Ancestors(n.tree, next) && Listed(r.mods, n.tree[h].parent) ensures Listed(r.mods, h) {
      if h !in Ancestors(n.tree, n.head) {
        assert Purges(enacted, skip, h);
      }
    }
    forall a | a in r.accounts ensures r.accounts[a] == Value(n.tree, next, a) {
      forall h | Purges(enacted, skip, h) || h in retracted ensures ListedUnchanged(mods, h, a) {
        if h in retracted {
          assert Purges(retracted, None, h);
          assert Listed(p.mods, h);
          var i :| 0 <= i < |p.mods| && p.mods[i].hash == h;
          assert mods[i].hash == h && a !in mods[i].accounts;
        } else {
          assert Listed(mods, h);
          var i :| 0 <= i < |mods| && mods[i].hash == h;
          assert a !in mods[i].accounts;
        }
      }
      SurvivorKept(n, next, enacted, retracted, skip, a);
    }
  }

  /** Moving only the canonical marks keeps the shape of the list. */
  lemma SameEntries(n: Node, next: H256, mods: seq<BlockChanges>)
    requires Invariant(n)
    requires |mods| == |n.cache.mods|
    requires forall i :: 0 <= i < |mods| ==>
                           mods[i] == n.cache.mods[i].(isCanon := n.cache.mods[i].hash in Ancestors(n.tree, next))
    ensures Distinct(mods) && Descending(mods) && AllDescribe(mods, n.tree) && CanonMarked(mods, n.tree, next)
    ensures forall h :: Listed(mods, h) <==> Listed(n.cache.mods, h)
  {
    forall i | 0 <= i < |mods| ensures Describes(mods[i], n.tree) {
      assert Describes(n.cache.mods[i], n.tree);
    }
    forall h ensures Listed(mods, h) <==> Listed(n.cache.mods, h) {
      if Listed(n.cache.mods, h) {
        var i :| 0 <= i < |mods| && n.cache.mods[i].hash == h;
        assert mods[i].hash == h;
      }
    }
  }

  // ---------------------------------------------------------------------------------------
  // Recording a block

  lemma {:induction false} QueueAgrees(t: Tree, block: Block, accounts: map<Address, Option<Account>>,
                                       queue: seq<QueueItem>, evicted: seq<set<Address>>)
    requires |queue| == |evicted|
    requires Agrees(accounts, t, block.parent)
    requires forall i :: 0 <= i < |queue| ==> queue[i].account == Get(block.state, queue[i].address)
    ensures forall a :: a in ApplyQueue(accounts, queue, evicted) ==>
                          || ApplyQueue(accounts, queue, evicted)[a] == Get(block.state, a)
                          || (&& ApplyQueue(accounts, queue, evicted)[a] == Value(t, block.parent, a)
                              && a !in ModifiedIn(queue))
  {
    if queue != [] {
      var last := |queue| - 1;
      QueueAgrees(t, block, accounts, queue[..last], evicted[..last]);
    }
  }

  /** The dropped entry has the smallest number, so nothing listed is below it. */
  lemma DropKeepsChild(t: Tree, mods: seq<BlockChanges>, h: H256)
    requires WellFormed(t) && Descending(mods) && AllDescribe(mods, t)
    requires h in t && Listed(DropOldest(mods), t[h].parent) && Listed(mods, h)
    ensures Listed(DropOldest(mods), h)
  {
    var rest := DropOldest(mods);
    var i :| 0 <= i < |rest| && rest[i].hash == t[h].parent;
    var j :| 0 <= j < |mods| && mods[j].hash == h;
    assert Describes(mods[i], t) && Describes(mods[j], t);
    assert rest[j].hash == h;
  }

  lemma StillListed(mods: seq<BlockChanges>, h: H256)
    requires Listed(DropOldest(mods), h)
    ensures Listed(mods, h)
  {
    var i :| 0 <= i < |DropOldest(mods)| && DropOldest(mods)[i].hash == h;
    assert mods[i].hash == h;
  }

  lemma DroppedKeeps(n: Node)
    requires Invariant(n)
    ensures Invariant(n.(cache := Cache(n.cache.accounts, DropOldest(n.cache.mods))))
    ensures |DropOldest(n.cache.mods)| < STATE_CACHE_BLOCKS
  {
    var mods, rest := n.cache.mods, DropOldest(n.cache.mods);
    forall h | h in Ancestors(n.tree, n.head) && Listed(rest, n.tree[h].parent) ensures Listed(rest, h) {
      StillListed(mods, n.tree[h].parent);
      DropKeepsChild(n.tree, mods, h);
    }
  }

  /** Inserting by number keeps the list descending. */
  lemma InsertedDescending(mods: seq<BlockChanges>, m: BlockChanges)
    requires Descending(mods)
    ensures Descending(Inserted(mods, m))
  {
    var i := InsertPosition(mods, m.number);
    var all := Inserted(mods, m);
    forall j, k | 0 <= j < k < |all| ensures all[j].number >= all[k].number {
      assert j != i ==> all[j] == mods[if j < i then j else j - 1];
      assert k != i ==> all[k] == mods[if k < i then k else k - 1];
      if i < |mods| && k > i {
        assert mods[k - 1].number <= mods[i].number;
      }
    }
  }

  /** Inserting adds exactly the new entry. */
  lemma InsertedListed(mods: seq<BlockChanges>, m: BlockChanges, h: H256)
    ensures Listed(Inserted(mods, m), h) <==> h == m.hash || Listed(mods, h)
  {
    var i := InsertPosition(mods, m.number);
    var all := Inserted(mods, m);
    assert all[i] == m;
    if Listed(mods, h) {
      var j :| 0 <= j < |mods| && mods[j].hash == h;
      assert all[if j < i then j else j + 1] == mods[j];
    }
    if Listed(all, h) {
      var j :| 0 <= j < |all| && all[j].hash == h;
      InsertedEntries(mods, m, j);
    }
  }

  lemma InsertedEntries(mods: seq<BlockChanges>, m: BlockChanges, k: nat)
    requires k <= |mods|
    ensures Inserted(mods, m)[k] == m || exists j :: 0 <= j < |mods| && Inserted(mods, m)[k] == mods[j]
  {
    var i := InsertPosition(mods, m.number);
    if k != i {
      assert Inserted(mods, m)[k] == mods[if k < i then k else k - 1];
    }
  }

  lemma InsertedDistinct(mods: seq<BlockChanges>, m: BlockChanges)
    requires Distinct(mods) && !Listed(mods, m.hash)
    ensures Distinct(Inserted(mods, m))
  {
    var i := InsertPosition(mods, m.number);
    var all := Inserted(mods, m);
    forall j, k | 0 <= j < k < |all| ensures all[j].hash != all[k].hash {
      assert j != i ==> all[j] == mods[if j < i then j else j - 1];
      assert k != i ==> all[k] == mods[if k < i then k else k - 1];
    }
  }

  /** Recording a new block, best or not, keeps the invariant over the grown tree. */
  lemma {:induction false} RecordKeeps(n: Node, hash: H256, block: Block, queue: seq<QueueItem>,
                                       evicted: seq<set<Address>>, isBest: bool)
    requires Invariant(n)
    requires |queue| == |evicted|
    requires Fresh(n.tree, hash)
    requires block.parent in n.tree && n.tree[block.parent].number < block.number
    requires QueueTrue(n.tree[block.parent].state, block.state, queue)
    requires isBest ==> n.head == block.parent
    ensures Invariant(Node(Recorded(n.cache, block.number, hash, block.parent, queue, evicted, isBest),
                           n.tree[hash := block], if isBest then hash else n.head))
  {
    var t := n.tree[hash := block];
    var head := if isBest then hash else n.head;
    var m := BlockChanges(block.number, hash, block.parent, ModifiedIn(queue), isBest);
    DroppedKeeps(n);
    var rest := DropOldest(n.cache.mods);
    var mods := Inserted(rest, m);
    AncestorsExtended(n.tree, hash, block, n.head);
    InsertedDescending(rest, m);
    forall i | 0 <= i < |rest| ensures Describes(rest[i], t) && rest[i].hash != hash {
      assert Describes(rest[i], n.tree);
    }
    InsertedDistinct(rest, m);
    RecordedEntries(n, hash, block, rest, m, head);
    forall h | h in Ancestors(t, head) && Listed(mods, t[h].parent) ensures Listed(mods, h) {
      InsertedListed(rest, m, t[h].parent);
      InsertedListed(rest, m, h);
    }
    if isBest {
      QueueAgrees(n.tree, block, n.cache.accounts, queue, evicted);
    }
  }

  lemma RecordedEntries(n: Node, hash: H256, block: Block, rest: seq<BlockChanges>, m: BlockChanges, head: H256)
    requires WellFormed(n.tree) && Fresh(n.tree, hash) && n.head in n.tree
    requires block.parent in n.tree && n.tree[block.parent].number < block.number
    requires WellFormed(n.tree[hash := block])
    requires Ancestors(n.tree[hash := block], n.head) == Ancestors(n.tree, n.head)
    requires head == n.head || (head == hash && n.head == block.parent)
    requires forall i :: 0 <= i < |rest| ==> Describes(rest[i], n.tree[hash := block]) && rest[i].hash != hash
    requires CanonMarked(rest, n.tree, n.head)
    requires Describes(m, n.tree[hash := block]) && m.hash == hash && m.isCanon == (head == hash)
    ensures AllDescribe(Inserted(rest, m), n.tree[hash := block])
    ensures CanonMarked(Inserted(rest, m), n.tree[hash := block], head)
  {
    var mods := Inserted(rest, m);
    forall k | 0 <= k < |mods|
      ensures Describes(mods[k], n.tree[hash := block])
      ensures mods[k].isCanon <==> mods[k].hash in Ancestors(n.tree[hash := block], head)
    {
      InsertedEntries(rest, m, k);
    }
  }

  // ---------------------------------------------------------------------------------------
  // Runs

  /** What can happen to the shared cache. `next` is the best block afterwards. */
  datatype Event =
    | Evict(addresses: set<Address>)
    | Reroute(enacted: seq<H256>, retracted: seq<H256>, next: H256)
    | Import(hash: H256, block: Block, queue: seq<QueueItem>, evicted: seq<set<Address>>,
             enacted: seq<H256>, retracted: seq<H256>, next: H256)
      /** A sealed block whose state was reopened: its clone has no parent, so the block is not
          recorded, and the route is then told to the shared cache a second time. */
    | ImportReopened(hash: H256, block: Block, enacted: seq<H256>, retracted: seq<H256>, next: H256)

  /** The block is new and stands on a committed one; the route moves the best chain to it or
      to another committed block. */
  ghost predicate NewBlock(n: Node, hash: H256, block: Block, enacted: seq<H256>, retracted: seq<H256>, next: H256)
    requires WellFormed(n.tree)
  {
    && Fresh(n.tree, hash)
    && block.parent in n.tree && n.tree[block.parent].number < block.number
    && (next == hash || next in n.tree)
    && RouteTold(n.tree, n.head, if next == hash then block.parent else next, enacted, retracted, Some(hash))
  }

  /** What the callers of `sync_cache` keep to. */
  ghost predicate Permitted(n: Node, e: Event)
    requires WellFormed(n.tree)
  {
    match e
    case Evict(_) => true
    case Reroute(enacted, retracted, next) =>
      next in n.tree && RouteTold(n.tree, n.head, next, enacted, retracted, None)
    case Import(hash, block, queue, evicted, enacted, retracted, next) =>
      && |queue| == |evicted|
      && NewBlock(n, hash, block, enacted, retracted, next)
      && QueueTrue(n.tree[block.parent].state, block.state, queue)
    case ImportReopened(hash, block, enacted, retracted, next) =>
      NewBlock(n, hash, block, enacted, retracted, next) && (hash in enacted <==> next == hash)
  }

  /** The node after an event: the cache does what `sync_cache` does, the tree grows. */
  ghost function After(n: Node, e: Event): Node
    requires e.Import? ==> |e.queue| == |e.evicted|
  {
    match e
    case Evict(addresses) => n.(cache := n.cache.(accounts := n.cache.accounts - addresses))
    case Reroute(enacted, retracted, next) =>
      n.(cache := Synced(n.cache, Commit(None, None, None), [], [], enacted, retracted, false), head := next)
    case Import(hash, block, queue, evicted, enacted, retracted, next) =>
      Node(Synced(n.cache, Commit(Some(hash), Some(block.number), Some(block.parent)), queue, evicted,
                  enacted, retracted, next == hash),
           n.tree[hash := block],
           next)
    case ImportReopened(hash, block, enacted, retracted, next) =>
      var c := Synced(n.cache, Commit(Some(hash), Some(block.number), None), [], [], enacted, retracted, next == hash);
      Node(Synced(c, Commit(None, None, None), [], [], enacted, retracted, false), n.tree[hash := block], next)
  }

  /** A block that is not recorded changes nothing for the cache while it is off the best chain. */
  lemma TreeGrows(n: Node, hash: H256, block: Block)
    requires Invariant(n) && Fresh(n.tree, hash)
    requires block.parent in n.tree && n.tree[block.parent].number < block.number
    ensures Invariant(n.(tree := n.tree[hash := block]))
  {
    AncestorsExtended(n.tree, hash, block, n.head);
    forall i | 0 <= i < |n.cache.mods| ensures Describes(n.cache.mods[i], n.tree[hash := block]) {
      assert Describes(n.cache.mods[i], n.tree);
    }
  }

  /** Telling the route again after an unrecorded best block wipes the cache. */
  lemma UnrecordedWipes(n: Node, hash: H256, enacted: seq<H256>, retracted: seq<H256>)
    requires Invariant(n) && hash !in n.tree && hash in enacted
    ensures Purged(n.cache, enacted, retracted, None) == Cache(map[], [])
  {
    var p := PurgeBlocks(Purging(n.cache, false), enacted, true, None);
    PurgeMarks(n.cache, enacted, true, None);
    assert Purges(enacted, None, hash);
    StaysClear(p, retracted, false, None);
  }

  /** Every permitted event keeps the invariant. */
  lemma EventKeeps(n: Node, e: Event)
    requires Invariant(n) && Permitted(n, e)
    ensures Invariant(After(n, e))
  {
    match e
    case Evict(addresses) =>
    case Reroute(enacted, retracted, next) =>
      PurgeMovesHead(n, next, enacted, retracted, None);
    case Import(hash, block, queue, evicted, enacted, retracted, next) =>
      var base := if next == hash then block.parent else next;
      PurgeMovesHead(n, base, enacted, retracted, Some(hash));
      var moved := Node(Purged(n.cache, enacted, retracted, Some(hash)), n.tree, base);
      RecordKeeps(moved, hash, block, queue, evicted, next == hash);
    case ImportReopened(hash, block, enacted, retracted, next) =>
      var base := if next == hash then block.parent else next;
      PurgeMovesHead(n, base, enacted, retracted, Some(hash));
      var moved := Node(Purged(n.cache, enacted, retracted, Some(hash)), n.tree, base);
      AncestorsExtended(n.tree, hash, block, base);
      if next == hash {
        UnrecordedWipes(moved, hash, enacted, retracted);
      } else {
        PurgeMovesHead(moved, next, enacted, retracted, None);
        TreeGrows(Node(Purged(moved.cache, enacted, retracted, None), n.tree, next), hash, block);
      }
  }

  /** A node that has just started on an existing chain: nothing is cached yet. */
  ghost predicate Started(n: Node) {
    n.cache == Cache(map[], []) && WellFormed(n.tree) && n.head in n.tree
  }

  /** `n` is reached from `start` by the events, each permitted when it happens. */
  ghost predicate Reached(start: Node, events: seq<Event>, n: Node)
    decreases |events|
  {
    if events == [] then n == start
    else
      var last := |events| - 1;
      exists m :: Reached(start, events[..last], m) && StepTo(m, events[last], n)
  }

  ghost predicate StepTo(m: Node, e: Event, n: Node) {
    WellFormed(m.tree) && Permitted(m, e) && n == After(m, e)
  }

  lemma {:induction false} ReachedKeeps(start: Node, events: seq<Event>, n: Node)
    requires Started(start) && Reached(start, events, n)
    ensures Invariant(n)
    decreases |events|
  {
    if events != [] {
      var last := |events| - 1;
      var m :| Reached(start, events[..last], m) && StepTo(m, events[last], n);
      ReachedKeeps(start, events[..last], m);
      EventKeeps(m, events[last]);
    }
  }

  /** Cache soundness: after any run of imports, reorganisations and evictions, every answer the
      cache gives to a reader on a committed block is that block's own account. */
  lemma {:induction false} CacheSound(start: Node, events: seq<Event>, n: Node, parent: H256, addr: Address)
    requires Started(start) && Reached(start, events, n)
    requires parent in n.tree
    ensures var answer := Lookup(n.cache, Some(parent), addr);
            answer.Some? ==> answer.value == Value(n.tree, parent, addr)
  {
    ReachedKeeps(start, events, n);
    LookupSound(n, Some(parent), addr);
  }

  // ---------------------------------------------------------------------------------------
  // Completeness of the list

  /** Every committed child of a listed block is listed, hence every descendant. */
  ghost predicate ChildrenListed(mods: seq<BlockChanges>, t: Tree) {
    forall h :: h in t && Listed(mods, t[h].parent) ==> Listed(mods, h)
  }

  lemma {:induction false} DescendantsListed(t: Tree, mods: seq<BlockChanges>, x: H256, h: H256)
    requires WellFormed(t) && ChildrenListed(mods, t)
    requires Listed(mods, x) && x in Ancestors(t, h)
    ensures Listed(mods, h)
    decreases t[h].number
  {
    if x != h {
      DescendantsListed(t, mods, x, t[h].parent);
    }
  }

  lemma PurgeKeepsChildren(n: Node, enacted: seq<H256>, retracted: seq<H256>, skip: Option<H256>)
    requires Invariant(n) && ChildrenListed(n.cache.mods, n.tree)
    ensures ChildrenListed(Purged(n.cache, enacted, retracted, skip).mods, n.tree)
  {
    var p := PurgeBlocks(Purging(n.cache, false), enacted, true, skip);
    PurgeMarks(n.cache, enacted, true, skip);
    var r := PurgeBlocks(p, retracted, false, None);
    if p.clear {
      StaysClear(p, retracted, false, None);
    } else {
      assert p == Purging(p.cache, false);
      PurgeMarks(p.cache, retracted, false, None);
      if !r.clear {
        MarkedSameListed(n.cache, enacted, true, skip, p.cache);
        MarkedSameListed(p.cache, retracted, false, None, r.cache);
      }
    }
  }

  lemma RecordKeepsChildren(n: Node, hash: H256, block: Block, m: BlockChanges)
    requires Invariant(n) && ChildrenListed(n.cache.mods, n.tree)
    requires Fresh(n.tree, hash) && m.hash == hash && block.parent != hash
    ensures ChildrenListed(Inserted(DropOldest(n.cache.mods), m), n.tree[hash := block])
  {
    var t, rest := n.tree[hash := block], DropOldest(n.cache.mods);
    var mods := Inserted(rest, m);
    forall h | h in t && Listed(mods, t[h].parent) ensures Listed(mods, h) {
      InsertedListed(rest, m, t[h].parent);
      InsertedListed(rest, m, h);
      if h != hash {
        StillListed(n.cache.mods, t[h].parent);
        DropKeepsChild(n.tree, n.cache.mods, h);
      }
    }
  }

  /** While every block is recorded, the descendants of a listed block stay listed. */
  lemma {:induction false} EventKeepsChildren(n: Node, e: Event)
    requires Invariant(n) && Permitted(n, e) && ChildrenListed(n.cache.mods, n.tree)
    requires !e.ImportReopened?
    ensures ChildrenListed(After(n, e).cache.mods, After(n, e).tree)
  {
    match e
    case Evict(_) =>
    case Reroute(enacted, retracted, next) =>
      PurgeKeepsChildren(n, enacted, retracted, None);
    case Import(hash, block, queue, evicted, enacted, retracted, next) =>
      var base := if next == hash then block.parent else next;
      PurgeMovesHead(n, base, enacted, retracted, Some(hash));
      PurgeKeepsChildren(n, enacted, retracted, Some(hash));
      RecordKeepsChildren(Node(Purged(n.cache, enacted, retracted, Some(hash)), n.tree, base), hash, block,
                          BlockChanges(block.number, hash, block.parent, ModifiedIn(queue), next == hash));
  }

  /** Over every run in which each block is recorded, the children of a listed block are listed, and so is
      everything that stands on it. */
  lemma {:induction false} ReachedKeepsChildren(start: Node, events: seq<Event>, n: Node)
    requires Started(start) && Reached(start, events, n)
    requires forall i :: 0 <= i < |events| ==> !events[i].ImportReopened?
    ensures Invariant(n) && ChildrenListed(n.cache.mods, n.tree)
    ensures forall x, h :: Listed(n.cache.mods, x) && x in Ancestors(n.tree, h) ==> Listed(n.cache.mods, h)
    decreases |events|
  {
    ReachedKeeps(start, events, n);
    if events != [] {
      var last := |events| - 1;
      var m :| Reached(start, events[..last], m) && StepTo(m, events[last], n);
      ReachedKeeps(start, events[..last], m);
      ReachedKeepsChildren(start, events[..last], m);
      EventKeepsChildren(m, events[last]);
    }
    forall x, h | Listed(n.cache.mods, x) && x in Ancestors(n.tree, h) ensures Listed(n.cache.mods, h) {
      DescendantsListed(n.tree, n.cache.mods, x, h);
    }
  }
}
