/** What the shared account cache holds: queued accounts are stored and served, and nothing is dropped without a
    reason. Soundness alone would allow a cache that is always empty. */
module CacheLaws {
  import opened Types
  import opened BlockTree
  import opened CacheSpec
  import opened CacheSoundness
  import opened CacheRuns

  // ---------------------------------------------------------------------------------------
  // Draining the queue

  /** Item `i` is the last one for its address, and the address is not evicted from then on. */
  ghost predicate LastWord(queue: seq<QueueItem>, evicted: seq<set<Address>>, i: nat) {
    && |queue| == |evicted| && i < |queue|
    && (forall j :: i < j < |queue| ==> queue[j].address != queue[i].address)
    && (forall j :: i <= j < |queue| ==> queue[i].address !in evicted[j])
  }

  /** An account that is queued and not evicted afterwards is cached, with the queued value. Only where both the cache
      and the queue have an account, and the queued one was not modified, the cached one is kept. */
  lemma {:induction false} QueuedIsCached(accounts: map<Address, Option<Account>>, queue: seq<QueueItem>,
                                          evicted: seq<set<Address>>, i: nat)
    requires LastWord(queue, evicted, i)
    ensures var a, before := queue[i].address, ApplyQueue(accounts, queue[..i], evicted[..i]);
            var kept := a in before && before[a].Some? && queue[i].account.Some? && !queue[i].modified;
            Get(ApplyQueue(accounts, queue, evicted), a) == Some(if kept then before[a] else queue[i].account)
    decreases |queue|
  {
    var last := |queue| - 1;
    if i < last {
      assert LastWord(queue[..last], evicted[..last], i);
      QueuedIsCached(accounts, queue[..last], evicted[..last], i);
      assert queue[..last][..i] == queue[..i] && evicted[..last][..i] == evicted[..i];
    }
  }

  /** An account that is neither queued nor evicted stays as it was, cached or not. */
  lemma {:induction false} UnqueuedStays(accounts: map<Address, Option<Account>>, queue: seq<QueueItem>,
                                         evicted: seq<set<Address>>, a: Address)
    requires |queue| == |evicted|
    requires forall i :: 0 <= i < |queue| ==> queue[i].address != a && a !in evicted[i]
    ensures Get(ApplyQueue(accounts, queue, evicted), a) == Get(accounts, a)
  {
    if queue != [] {
      var last := |queue| - 1;
      UnqueuedStays(accounts, queue[..last], evicted[..last], a);
    }
  }

  // ---------------------------------------------------------------------------------------
  // Purging

  /** A round of marking asks for a wipe exactly when it names a block that is not listed. Otherwise it keeps every
      cached account that no named block changed. */
  lemma {:induction false} PurgeKeeps(c: Cache, hs: seq<H256>, canon: bool, skip: Option<H256>)
    requires Distinct(c.mods)
    ensures var p := PurgeBlocks(Purging(c, false), hs, canon, skip);
            && (p.clear <==> exists h :: Purges(hs, skip, h) && !Listed(c.mods, h))
            && (!p.clear ==> forall a :: a in c.accounts && Unchanged(c.mods, hs, skip, a) ==> a in p.cache.accounts)
  {
    if hs != [] {
      var last := |hs| - 1;
      var init, h := hs[..last], hs[last];
      assert hs == init + [h];
      PurgeKeeps(c, init, canon, skip);
      PurgeMarks(c, init, canon, skip);
      var q, p := PurgeBlocks(Purging(c, false), init, canon, skip), PurgeBlocks(Purging(c, false), hs, canon, skip);
      if q.clear {
        var x :| Purges(init, skip, x) && !Listed(c.mods, x);
        assert Purges(hs, skip, x);
      } else {
        MarkedSameListed(c, init, canon, skip, q.cache);
        PurgeOneKeeps(c, init, h, canon, skip, q.cache);
      }
    }
  }

  /** No listed block that is purged changed `a`. */
  ghost predicate Unchanged(mods: seq<BlockChanges>, hs: seq<H256>, skip: Option<H256>, a: Address) {
    forall i :: 0 <= i < |mods| && Purges(hs, skip, mods[i].hash) ==> a !in mods[i].accounts
  }

  lemma PurgeOneKeeps(c: Cache, init: seq<H256>, h: H256, canon: bool, skip: Option<H256>, r: Cache)
    requires MarkedBy(c, init, canon, skip, r)
    requires forall x :: Listed(r.mods, x) <==> Listed(c.mods, x)
    requires forall a :: a in c.accounts && Unchanged(c.mods, init, skip, a) ==> a in r.accounts
    ensures var p := PurgeBlock(Purging(r, false), h, canon, skip);
            && (p.clear <==> exists x :: Purges(init + [h], skip, x) && !Listed(c.mods, x))
            && (!p.clear ==>
                  forall a :: a in c.accounts && Unchanged(c.mods, init + [h], skip, a) ==> a in p.cache.accounts)
  {
    var p := PurgeBlock(Purging(r, false), h, canon, skip);
    var k := IndexOf(r.mods, h);
    assert Listed(r.mods, h) <==> k < |r.mods|;
    if p.clear {
      assert Purges(init + [h], skip, h) && !Listed(c.mods, h);
    } else {
      forall a | a in c.accounts && Unchanged(c.mods, init + [h], skip, a) ensures a in p.cache.accounts {
        assert Unchanged(c.mods, init, skip, a);
        if skip != Some(h) {
          assert c.mods[k].hash == h && r.mods[k].accounts == c.mods[k].accounts;
        }
      }
    }
  }

  /** Whether a route names block `h`; the block being committed is left out of its first part. */
  ghost predicate Names(enacted: seq<H256>, retracted: seq<H256>, commit: Option<H256>, h: H256) {
    Purges(enacted, commit, h) || Purges(retracted, None, h)
  }

  /** Purging a route wipes the cache exactly when the route names a block that is not listed. Otherwise it keeps the
      list, and exactly the accounts that no named block changed. */
  lemma {:induction false} PurgedExactly(c: Cache, enacted: seq<H256>, retracted: seq<H256>, commit: Option<H256>)
    requires Distinct(c.mods)
    ensures var r := Purged(c, enacted, retracted, commit);
            if exists h :: Names(enacted, retracted, commit, h) && !Listed(c.mods, h) then r == Cache(map[], [])
            else
              && |r.mods| == |c.mods|
              && (forall i :: 0 <= i < |c.mods| ==> r.mods[i] == c.mods[i].(isCanon := r.mods[i].isCanon))
              && forall a :: Get(r.accounts, a) ==
                             if Unchanged(c.mods, enacted, commit, a) && Unchanged(c.mods, retracted, None, a)
                             then Get(c.accounts, a) else None
  {
    var p := PurgeBlocks(Purging(c, false), enacted, true, commit);
    PurgeKeeps(c, enacted, true, commit);
    PurgeMarks(c, enacted, true, commit);
    if p.clear {
      StaysClear(p, retracted, false, None);
      var h :| Purges(enacted, commit, h) && !Listed(c.mods, h);
      assert Names(enacted, retracted, commit, h);
    } else {
      MarkedSameListed(c, enacted, true, commit, p.cache);
      assert p == Purging(p.cache, false);
      PurgeKeeps(p.cache, retracted, false, None);
      PurgeMarks(p.cache, retracted, false, None);
      var q := PurgeBlocks(p, retracted, false, None);
      if q.clear {
        var h :| Purges(retracted, None, h) && !Listed(p.cache.mods, h);
        assert Names(enacted, retracted, commit, h);
      } else {
        BothRounds(c, enacted, retracted, commit, p.cache, q.cache);
      }
    }
  }

  lemma BothRounds(c: Cache, enacted: seq<H256>, retracted: seq<H256>, commit: Option<H256>, p: Cache, q: Cache)
    requires MarkedBy(c, enacted, true, commit, p) && MarkedBy(p, retracted, false, None, q)
    requires forall h :: Listed(p.mods, h) <==> Listed(c.mods, h)
    requires forall a :: a in c.accounts && Unchanged(c.mods, enacted, commit, a) ==> a in p.accounts
    requires forall a :: a in p.accounts && Unchanged(p.mods, retracted, None, a) ==> a in q.accounts
    ensures !exists h :: Names(enacted, retracted, commit, h) && !Listed(c.mods, h)
    ensures |q.mods| == |c.mods|
    ensures forall i :: 0 <= i < |c.mods| ==> q.mods[i] == c.mods[i].(isCanon := q.mods[i].isCanon)
    ensures forall a :: Get(q.accounts, a) ==
                        if Unchanged(c.mods, enacted, commit, a) && Unchanged(c.mods, retracted, None, a)
                        then Get(c.accounts, a) else None
  {
    forall a ensures Unchanged(p.mods, retracted, None, a) <==> Unchanged(c.mods, retracted, None, a) {
      assert forall i :: 0 <= i < |c.mods| ==>
                           p.mods[i].hash == c.mods[i].hash && p.mods[i].accounts == c.mods[i].accounts;
    }
    forall a ensures a in q.accounts ==>
                       Unchanged(c.mods, enacted, commit, a) && Unchanged(c.mods, retracted, None, a)
    {
    }
  }

  // ---------------------------------------------------------------------------------------
  // Recording

  /** Recording a block adds its entry and keeps all others, but for the oldest of twelve. */
  lemma RecordedExactly(c: Cache, number: nat, hash: H256, parent: H256, queue: seq<QueueItem>,
                        evicted: seq<set<Address>>, isBest: bool)
    requires |queue| == |evicted| && |c.mods| <= STATE_CACHE_BLOCKS
    ensures multiset(Recorded(c, number, hash, parent, queue, evicted, isBest).mods) ==
            multiset(c.mods[..Min(|c.mods|, STATE_CACHE_BLOCKS - 1)])
              + multiset{BlockChanges(number, hash, parent, ModifiedIn(queue), isBest)}
    ensures !isBest ==> Recorded(c, number, hash, parent, queue, evicted, isBest).accounts == c.accounts
  {
    var rest := c.mods[..Min(|c.mods|, STATE_CACHE_BLOCKS - 1)];
    assert rest == DropOldest(c.mods);
    var i := InsertPosition(rest, number);
    assert rest == rest[..i] + rest[i..];
  }

  /** A reader on a listed block of the best chain is let in, for an address that nothing listed before it changed. */
  lemma {:induction false} LetIn(mods: seq<BlockChanges>, h: H256, a: Address, i: nat)
    requires i < |mods| && mods[i].hash == h && mods[i].isCanon
    requires forall j :: 0 <= j < i ==> mods[j].hash != h && a !in mods[j].accounts
    ensures Allowed(a, Some(h), mods)
    decreases mods
  {
    if i > 0 {
      LetIn(mods[1..], h, a, i - 1);
    }
  }

  /** Nothing listed at or above `number` changed `a`. */
  ghost predicate QuietFrom(mods: seq<BlockChanges>, number: nat, a: Address) {
    forall i :: 0 <= i < |mods| && mods[i].number >= number ==> a !in mods[i].accounts
  }

  /** A reader on a block that has just been committed as the best one gets every account that is cached then. */
  lemma CachedIsServed(n: Node, e: Event, a: Address)
    requires Invariant(n) && e.Import? && Permitted(n, e) && e.next == e.hash
    requires QuietFrom(n.cache.mods, e.block.number, a) && a in After(n, e).cache.accounts
    ensures Lookup(After(n, e).cache, Some(e.hash), a) == Some(Get(e.block.state, a))
  {
    var purged := Purged(n.cache, e.enacted, e.retracted, Some(e.hash));
    PurgedExactly(n.cache, e.enacted, e.retracted, Some(e.hash));
    var rest := DropOldest(purged.mods);
    var m := BlockChanges(e.block.number, e.hash, e.block.parent, ModifiedIn(e.queue), true);
    var i, all := InsertPosition(rest, m.number), Inserted(rest, m);
    forall j | 0 <= j < i ensures all[j].hash != e.hash && a !in all[j].accounts {
      assert all[j] == rest[j] == purged.mods[j];
      assert Describes(n.cache.mods[j], n.tree);
    }
    LetIn(all, e.hash, a, i);
    EventKeeps(n, e);
    LookupSound(After(n, e), Some(e.hash), a);
  }

  /** So it does every account that was queued and not evicted, ... */
  lemma {:induction false} QueuedIsServed(n: Node, e: Event, i: nat)
    requires Invariant(n) && e.Import? && Permitted(n, e) && e.next == e.hash && LastWord(e.queue, e.evicted, i)
    requires QuietFrom(n.cache.mods, e.block.number, e.queue[i].address)
    ensures Lookup(After(n, e).cache, Some(e.hash), e.queue[i].address) ==
            Some(Get(e.block.state, e.queue[i].address))
  {
    var purged := Purged(n.cache, e.enacted, e.retracted, Some(e.hash));
    QueuedIsCached(purged.accounts, e.queue, e.evicted, i);
    CachedIsServed(n, e, e.queue[i].address);
  }

  /** ... and every account that was cached before, when it is neither evicted nor changed by a block of the route and
      the route names listed blocks only. */
  lemma {:induction false} KeptIsServed(n: Node, e: Event, a: Address)
    requires Invariant(n) && e.Import? && Permitted(n, e) && e.next == e.hash && a in n.cache.accounts
    requires forall i :: 0 <= i < |e.queue| ==> e.queue[i].address != a && a !in e.evicted[i]
    requires forall h :: Names(e.enacted, e.retracted, Some(e.hash), h) ==> Listed(n.cache.mods, h)
    requires Unchanged(n.cache.mods, e.enacted, Some(e.hash), a) && Unchanged(n.cache.mods, e.retracted, None, a)
    requires QuietFrom(n.cache.mods, e.block.number, a)
    ensures Lookup(After(n, e).cache, Some(e.hash), a) == Some(Get(e.block.state, a))
  {
    var purged := Purged(n.cache, e.enacted, e.retracted, Some(e.hash));
    PurgedExactly(n.cache, e.enacted, e.retracted, Some(e.hash));
    assert Get(purged.accounts, a) == Get(n.cache.accounts, a);
    UnqueuedStays(purged.accounts, e.queue, e.evicted, a);
    CachedIsServed(n, e, a);
  }
}
