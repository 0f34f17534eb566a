/** Checkpoints as journals of overwritten entries, and why they stand for full snapshots. */
module Journal {
  import opened Types
  import opened Accounts
  import opened Memory

  /** Whether a cached account was changed, and whether the change reached the trie. */
  datatype AccountState = CleanFresh | CleanCached | Dirty | Committed

  /** A cached account, `None` when it is known not to exist, and the balance it was first seen with. */
  datatype Entry = Entry(account: Option<Account>, oldBalance: Option<nat>, state: AccountState)

  function NewEntry(account: Option<Account>, state: AccountState): Entry {
    Entry(account, if account.Some? then Some(account.value.balance) else None, state)
  }

  type Cache = map<Address, Entry>

  /** The entries to put back; `None` when the address was not cached. */
  type Checkpoint = map<Address, Option<Entry>>

  function Seen(db: World, cache: Cache, a: Address): Option<Account> {
    if a in cache then cache[a].account else Get(db, a)
  }

  /** The accounts a reader sees: cached entries first, then the trie. */
  function ViewOf(db: World, cache: Cache): (w: World)
    ensures forall a :: Get(w, a) == Seen(db, cache, a)
  {
    map a | a in db.Keys + cache.Keys && Seen(db, cache, a).Some? :: Seen(db, cache, a).value
  }

  /** The balance that `a` was first seen with, or would be if it were loaded now. */
  function OldOf(db: World, cache: Cache, a: Address): Option<nat> {
    if a in cache then cache[a].oldBalance else if a in db then Some(db[a].balance) else None
  }

  function FirstSeen(db: World, cache: Cache): (m: map<Address, nat>)
    ensures forall a :: Get(m, a) == OldOf(db, cache, a)
  {
    map a | a in db.Keys + cache.Keys && OldOf(db, cache, a).Some? :: OldOf(db, cache, a).value
  }

  /** `AccountEntry::overwrite_with`: a missing account is not brought back, and the old balance stays. */
  function Overwritten(ours: Entry, saved: Entry): Entry {
    Entry(if saved.account.Some? && ours.account.Some? then saved.account else None, ours.oldBalance, saved.state)
  }

  /** Whether `a` stays cached when `cp` is undone. */
  predicate Stays(cache: Cache, cp: Checkpoint, a: Address) {
    if a in cp && cp[a].Some? then true
    else if a in cp then a in cache && !cache[a].state.Dirty?
    else a in cache
  }

  function Restored(cache: Cache, cp: Checkpoint, a: Address): Entry
    requires Stays(cache, cp, a)
  {
    if a in cp && cp[a].Some? then
      if a in cache then Overwritten(cache[a], cp[a].value) else cp[a].value
    else cache[a]
  }

  /** The cache after `cp` is undone. */
  function Reverted(cache: Cache, cp: Checkpoint): Cache {
    map a | a in cache.Keys + cp.Keys && Stays(cache, cp, a) :: Restored(cache, cp, a)
  }

  /** The checkpoint after noting the present entry of `a`, once. */
  function Note(cache: Cache, cp: Checkpoint, a: Address): Checkpoint {
    if a in cp then cp else cp[a := Get(cache, a)]
  }

  /** The checkpoint holds no existing account at `a` that a removal would lose. */
  predicate NothingToLose(cp: Checkpoint, a: Address) {
    a in cp && cp[a].Some? ==> cp[a].value.account.None?
  }

  /** A write to `a` that all checkpoints can undo: any change of an account, and a removal of one that the last
      checkpoint does not hold as existing. */
  predicate Undoable(cache: Cache, cps: seq<Checkpoint>, a: Address, account: Option<Account>) {
    account.Some? || cps == [] || NothingToLose(Note(cache, cps[|cps| - 1], a), a)
  }

  /** No account that `cp` would bring back has been removed since. */
  ghost predicate NoneRemoved(cache: Cache, cp: Checkpoint) {
    forall a :: a in cp && cp[a].Some? && cp[a].value.account.Some? ==> a in cache && cache[a].account.Some?
  }

  /** Everything noted in `cp` is cached and changed. */
  ghost predicate Noted(cache: Cache, cp: Checkpoint) {
    (forall a :: a in cp ==> a in cache && cache[a].state.Dirty?) && NoneRemoved(cache, cp)
  }

  /** Unchanged entries repeat the trie, and what was never changed repeats `base`, the state of
      the parent block. */
  ghost predicate EntriesTrue(base: World, db: World, cache: Cache) {
    && (forall a :: a in cache && !cache[a].state.Dirty? ==> cache[a].account == Get(db, a))
    && (forall a :: a in cache && (cache[a].state.CleanFresh? || cache[a].state.CleanCached?) ==>
          Get(db, a) == Get(base, a))
    && (forall a :: a !in cache ==> Get(db, a) == Get(base, a))
  }

  /** `level[a]` tells how many checkpoints have to be active for `a` to stay cached: it is dropped when fewer are. */
  ghost predicate LevelFits(cache: Cache, cps: seq<Checkpoint>, level: map<Address, nat>) {
    && level.Keys == cache.Keys
    && (forall a :: a in level ==> level[a] <= |cps|)
    && (forall i, a :: 0 <= i < |cps| && a in cps[i] ==>
          a in level && level[a] <= i + 1 && (cps[i][a].None? <==> level[a] == i + 1))
    && (forall a :: a in level && 0 < level[a] <= |cps| ==> a in cps[level[a] - 1])
  }

  /** What a cache stands on: the state of the parent block and the trie. */
  datatype Ground = Ground(base: World, db: World)

  /** Undoing the checkpoints one by one gives the snapshots, last first. */
  ghost predicate Restorable(g: Ground, cache: Cache, level: map<Address, nat>, cps: seq<Checkpoint>,
                             snapshots: seq<World>)
    decreases |cps|, 1
  {
    |cps| == |snapshots| && Layered(g, cache, level, cps, snapshots)
  }

  /** The cache is true, and undoing the last checkpoint gives the last snapshot and what is restorable in turn. */
  ghost predicate Layered(g: Ground, cache: Cache, level: map<Address, nat>, cps: seq<Checkpoint>,
                          snapshots: seq<World>)
    requires |cps| == |snapshots|
    decreases |cps|, 0
  {
    && EntriesTrue(g.base, g.db, cache)
    && LevelFits(cache, cps, level)
    && (cps == [] ||
        var last := |cps| - 1;
        && Noted(cache, cps[last])
        && ViewOf(g.db, Reverted(cache, cps[last])) == snapshots[last]
        && Restorable(g, Reverted(cache, cps[last]), Kept(level, last), cps[..last], snapshots[..last]))
  }

  /** What a single layer holds by itself. */
  ghost predicate Fits(g: Ground, cache: Cache, level: map<Address, nat>, cps: seq<Checkpoint>) {
    && EntriesTrue(g.base, g.db, cache)
    && LevelFits(cache, cps, level)
  }

  /** What the layer below holds. */
  ghost predicate Restores(g: Ground, cache: Cache, level: map<Address, nat>, cps: seq<Checkpoint>,
                           snapshots: seq<World>)
    requires |cps| == |snapshots| > 0
  {
    var last := |cps| - 1;
    && Noted(cache, cps[last])
    && ViewOf(g.db, Reverted(cache, cps[last])) == snapshots[last]
    && Restorable(g, Reverted(cache, cps[last]), Kept(level, last), cps[..last], snapshots[..last])
  }

  lemma Opened(g: Ground, cache: Cache, level: map<Address, nat>, cps: seq<Checkpoint>, snapshots: seq<World>)
    requires Restorable(g, cache, level, cps, snapshots)
    ensures |cps| == |snapshots| && Fits(g, cache, level, cps)
    ensures cps != [] ==> Restores(g, cache, level, cps, snapshots)
  {
    assert Layered(g, cache, level, cps, snapshots);
  }

  lemma Folded(g: Ground, cache: Cache, level: map<Address, nat>, cps: seq<Checkpoint>, snapshots: seq<World>)
    requires |cps| == |snapshots| && Fits(g, cache, level, cps)
    requires cps != [] ==> Restores(g, cache, level, cps, snapshots)
    ensures Restorable(g, cache, level, cps, snapshots)
  {
    assert Layered(g, cache, level, cps, snapshots);
  }

  lemma SameView(db: World, cache: Cache, db': World, cache': Cache)
    requires forall a :: Seen(db, cache, a) == Seen(db', cache', a)
    ensures ViewOf(db, cache) == ViewOf(db', cache')
  {
    var w, w' := ViewOf(db, cache), ViewOf(db', cache');
    forall a ensures a in w <==> a in w' {
      assert Get(w, a) == Get(w', a);
    }
    forall a | a in w ensures w[a] == w'[a] {
      assert Get(w, a) == Get(w', a);
    }
  }

  /** When every entry repeats the trie, the trie is what is seen. */
  lemma TrieIsView(db: World, cache: Cache)
    requires forall a :: a in cache ==> cache[a].account == Get(db, a)
    ensures ViewOf(db, cache) == db
  {
    SameView(db, cache, db, map[]);
    forall a ensures a in ViewOf(db, cache) <==> a in db {
      assert Get(ViewOf(db, cache), a) == Get(db, a);
    }
    forall a | a in db ensures ViewOf(db, cache)[a] == db[a] {
      assert Get(ViewOf(db, cache), a) == Get(db, a);
    }
  }

  /** Undoing a checkpoint brings the snapshot back exactly when nothing it holds was removed. */
  lemma RevertExactly(db: World, before: Cache, cache: Cache, cp: Checkpoint)
    requires forall a :: a in cp ==> a in cache && cache[a].state.Dirty? && cp[a] == Get(before, a)
    requires forall a :: a !in cp && a in before ==> a in cache && cache[a] == before[a]
    requires forall a :: a in cache && a !in cp && a !in before ==> cache[a].account == Get(db, a)
    ensures ViewOf(db, Reverted(cache, cp)) == ViewOf(db, before) <==> NoneRemoved(cache, cp)
  {
    var undone := Reverted(cache, cp);
    if NoneRemoved(cache, cp) {
      SameView(db, undone, db, before);
    } else {
      var a :| a in cp && cp[a].Some? && cp[a].value.account.Some? && !(a in cache && cache[a].account.Some?);
      assert Seen(db, undone, a) == None && Seen(db, before, a).Some?;
      assert Get(ViewOf(db, undone), a) != Get(ViewOf(db, before), a);
    }
  }

  /** The family that fails: an account removed under a checkpoint does not come back. */
  lemma RemovedStaysRemoved(db: World, before: Cache, a: Address)
    requires a in before && before[a].account.Some?
    ensures var cp := Note(before, map[], a);
            var cache := before[a := NewEntry(None, Dirty)];
            Get(ViewOf(db, Reverted(cache, cp)), a) != Get(ViewOf(db, before), a)
  {
    var cp := Note(before, map[], a);
    assert cp == map[a := Some(before[a])];
    var undone := Reverted(before[a := NewEntry(None, Dirty)], cp);
    assert Seen(db, undone, a) == None;
    assert Seen(db, before, a).Some?;
  }

  /** The two caches hold the same addresses with the same old balances. */
  ghost predicate SameOldBalances(c: Cache, d: Cache) {
    c.Keys == d.Keys && forall a :: a in c ==> c[a].oldBalance == d[a].oldBalance
  }

  /** A write leaves the old balances that undoing gives exactly when the entry it replaces would be dropped by
      undoing, or has the same old balance. */
  lemma OldBalancesExactly(cache: Cache, cp: Checkpoint, a: Address, e: Entry)
    requires Noted(cache, cp) && e.state.Dirty?
    ensures SameOldBalances(Reverted(cache[a := e], Note(cache, cp, a)), Reverted(cache, cp)) <==>
            (a in cache && !(a in cp && cp[a].None?) ==> e.oldBalance == cache[a].oldBalance)
  {
    var one, two := Reverted(cache[a := e], Note(cache, cp, a)), Reverted(cache, cp);
    forall b ensures b in one <==> b in two {
    }
    assert one.Keys == two.Keys;
    assert forall b :: b in two && b != a ==> one[b].oldBalance == two[b].oldBalance;
    if a in cache && !(a in cp && cp[a].None?) {
      assert a in two && one[a].oldBalance == e.oldBalance && two[a].oldBalance == cache[a].oldBalance;
    } else {
      assert a !in two;
    }
  }

  /** The family that fails: undoing a creation on top of an existing account leaves the new contract's balance as
      the old one. */
  lemma CreationKeepsOldBalance(before: Cache, a: Address, created: Account)
    requires a in before && before[a].account.Some?
    ensures var undone := Reverted(before[a := NewEntry(Some(created), Dirty)], Note(before, map[], a));
            a in undone && undone[a].account == before[a].account && undone[a].oldBalance == Some(created.balance)
  {
    assert Note(before, map[], a) == map[a := Some(before[a])];
  }

  /** What comes of it: an account that holds all it was first seen with is removed as dust once the creation on
      top of it with an endowment is undone, and would not be otherwise. */
  lemma UndoneCreationIsDust(db: World, before: Cache, a: Address, created: Account, minBalance: nat)
    requires a in before && before[a].account.Some? && before[a].account.value.code == []
    requires before[a].oldBalance == Some(before[a].account.value.balance)
    requires before[a].account.value.balance < created.balance && before[a].account.value.balance < minBalance
    ensures var undone := Reverted(before[a := NewEntry(Some(created), Dirty)], Note(before, map[], a));
            && a in Garbage(ViewOf(db, undone), {a}, FirstSeen(db, undone), false, Some(minBalance), false)
            && a !in Garbage(ViewOf(db, before), {a}, FirstSeen(db, before), false, Some(minBalance), false)
  {
    CreationKeepsOldBalance(before, a, created);
    var undone := Reverted(before[a := NewEntry(Some(created), Dirty)], Note(before, map[], a));
    assert Get(ViewOf(db, undone), a) == before[a].account && Get(ViewOf(db, before), a) == before[a].account;
    assert Get(FirstSeen(db, undone), a) == Some(created.balance);
    assert Get(FirstSeen(db, before), a) == before[a].oldBalance;
  }

  /** The same accounts in the same states; only the old balances may differ. */
  ghost predicate Alike(c: Cache, d: Cache) {
    c.Keys == d.Keys && forall a :: a in c ==> c[a].account == d[a].account && c[a].state == d[a].state
  }

  /** Old balances make no difference to what is seen or restored. */
  lemma {:induction false} AlikeRestorable(g: Ground, c: Cache, d: Cache, level: map<Address, nat>,
                                           cps: seq<Checkpoint>, snapshots: seq<World>)
    requires Alike(c, d) && Restorable(g, c, level, cps, snapshots)
    ensures Restorable(g, d, level, cps, snapshots)
    decreases |cps|
  {
    Opened(g, c, level, cps, snapshots);
    AlikeFits(g, c, d, level, cps);
    if cps != [] {
      var last := |cps| - 1;
      AlikeReverted(c, d, cps[last]);
      SameView(g.db, Reverted(c, cps[last]), g.db, Reverted(d, cps[last]));
      AlikeRestorable(g, Reverted(c, cps[last]), Reverted(d, cps[last]), Kept(level, last), cps[..last],
                      snapshots[..last]);
    }
    Folded(g, d, level, cps, snapshots);
  }

  lemma AlikeFits(g: Ground, c: Cache, d: Cache, level: map<Address, nat>, cps: seq<Checkpoint>)
    requires Alike(c, d) && Fits(g, c, level, cps)
    ensures Fits(g, d, level, cps)
  {
  }

  lemma AlikeReverted(c: Cache, d: Cache, cp: Checkpoint)
    requires Alike(c, d)
    ensures Alike(Reverted(c, cp), Reverted(d, cp)) && (Noted(c, cp) ==> Noted(d, cp))
  {
    var one, two := Reverted(c, cp), Reverted(d, cp);
    forall a ensures a in one <==> a in two {
      assert Stays(c, cp, a) <==> Stays(d, cp, a);
    }
    assert one.Keys == two.Keys;
  }

  /** Changing a noted entry changes nothing that undoing gives, but for old balances. */
  lemma WriteKeepsUndo(cache: Cache, cp: Checkpoint, a: Address, e: Entry)
    requires Noted(cache, cp)
    requires e.state.Dirty?
    requires e.account.Some? || NothingToLose(Note(cache, cp, a), a)
    ensures Noted(cache[a := e], Note(cache, cp, a))
    ensures Alike(Reverted(cache, cp), Reverted(cache[a := e], Note(cache, cp, a)))
  {
    var one, two := Reverted(cache, cp), Reverted(cache[a := e], Note(cache, cp, a));
    forall b ensures b in one <==> b in two {
    }
    assert one.Keys == two.Keys;
  }

  lemma FetchUndo(cache: Cache, cp: Checkpoint, a: Address, e: Entry)
    requires Noted(cache, cp) && a !in cache
    ensures Noted(cache[a := e], cp)
    ensures a !in Reverted(cache, cp)
    ensures Reverted(cache[a := e], cp) == Reverted(cache, cp)[a := e]
  {
  }

  lemma FetchSeen(db: World, cache: Cache, a: Address, state: AccountState)
    requires a !in cache
    ensures ViewOf(db, cache[a := NewEntry(Get(db, a), state)]) == ViewOf(db, cache)
  {
    SameView(db, cache[a := NewEntry(Get(db, a), state)], db, cache);
  }

  /** Reading an uncached account from the trie changes nothing that is seen or restored, and it stays cached. */
  lemma {:induction false} FetchKeeps(g: Ground, cache: Cache, level: map<Address, nat>, cps: seq<Checkpoint>,
                                      snapshots: seq<World>, a: Address, state: AccountState)
    requires Restorable(g, cache, level, cps, snapshots)
    requires a !in cache && (state.CleanFresh? || state.CleanCached?)
    ensures Restorable(g, cache[a := NewEntry(Get(g.db, a), state)], level[a := 0], cps, snapshots)
    decreases |cps|
  {
    var e := NewEntry(Get(g.db, a), state);
    Opened(g, cache, level, cps, snapshots);
    FetchFits(g, cache, level, cps, a, state);
    if cps != [] {
      var last := |cps| - 1;
      FetchUndo(cache, cps[last], a, e);
      FetchSeen(g.db, Reverted(cache, cps[last]), a, state);
      FetchKeeps(g, Reverted(cache, cps[last]), Kept(level, last), cps[..last], snapshots[..last], a, state);
      KeptFetched(level, last, a);
    }
    Folded(g, cache[a := e], level[a := 0], cps, snapshots);
  }

  lemma KeptFetched(level: map<Address, nat>, n: nat, a: Address)
    ensures Kept(level[a := 0], n) == Kept(level, n)[a := 0]
  {
  }

  lemma FetchFits(g: Ground, cache: Cache, level: map<Address, nat>, cps: seq<Checkpoint>, a: Address,
                  state: AccountState)
    requires Fits(g, cache, level, cps) && a !in cache && (state.CleanFresh? || state.CleanCached?)
    ensures Fits(g, cache[a := NewEntry(Get(g.db, a), state)], level[a := 0], cps)
  {
  }

  /** Undoing a merged checkpoint is undoing the newer one and then the older one. */
  lemma MergeUndo(cache: Cache, newer: Checkpoint, older: Checkpoint)
    requires Noted(cache, newer) && Noted(Reverted(cache, newer), older)
    ensures Noted(cache, newer + older)
    ensures Reverted(cache, newer + older) == Reverted(Reverted(cache, newer), older)
  {
    var undone := Reverted(cache, newer);
    forall a | a in newer + older
      ensures a in cache && cache[a].state.Dirty?
    {
      if a !in newer {
        assert a in undone && undone[a] == cache[a];
      }
    }
    var one, two := Reverted(cache, newer + older), Reverted(undone, older);
    forall a ensures a in one <==> a in two {
      assert Stays(cache, newer + older, a) <==> Stays(undone, older, a);
    }
    forall a | a in one ensures one[a] == two[a] {
    }
  }

  /** The checkpoints after noting `a` in the last of them. */
  function NotedLast(cache: Cache, cps: seq<Checkpoint>, a: Address): seq<Checkpoint> {
    if cps == [] then [] else cps[|cps| - 1 := Note(cache, cps[|cps| - 1], a)]
  }

  /** Writing a noted entry keeps every snapshot restorable, exactly when the write is undoable. */
  lemma {:induction false} WriteExactly(g: Ground, cache: Cache, level: map<Address, nat>, cps: seq<Checkpoint>,
                                        snapshots: seq<World>, a: Address, e: Entry)
    requires Restorable(g, cache, level, cps, snapshots) && e.state.Dirty?
    ensures Restorable(g, cache[a := e], Levelled(level, |cps|, a), NotedLast(cache, cps, a), snapshots) <==>
              Undoable(cache, cps, a, e.account)
  {
    if Undoable(cache, cps, a, e.account) {
      WriteKeeps(g, cache, level, cps, snapshots, a, e);
    } else {
      WriteLoses(g, cache, level, cps, snapshots, a, e);
    }
  }

  lemma WriteKeeps(g: Ground, cache: Cache, level: map<Address, nat>, cps: seq<Checkpoint>, snapshots: seq<World>,
                   a: Address, e: Entry)
    requires Restorable(g, cache, level, cps, snapshots) && e.state.Dirty? && Undoable(cache, cps, a, e.account)
    ensures Restorable(g, cache[a := e], Levelled(level, |cps|, a), NotedLast(cache, cps, a), snapshots)
  {
    Opened(g, cache, level, cps, snapshots);
    WriteFits(g, cache, level, cps, a, e);
    if cps != [] {
      var last := |cps| - 1;
      var undone := Reverted(cache[a := e], Note(cache, cps[last], a));
      WriteKeepsUndo(cache, cps[last], a, e);
      SameView(g.db, Reverted(cache, cps[last]), g.db, undone);
      AlikeRestorable(g, Reverted(cache, cps[last]), undone, Kept(level, last), cps[..last], snapshots[..last]);
      assert NotedLast(cache, cps, a)[..last] == cps[..last];
      KeptWritten(level, |cps|, a);
    }
    Folded(g, cache[a := e], Levelled(level, |cps|, a), NotedLast(cache, cps, a), snapshots);
  }

  lemma KeptWritten(level: map<Address, nat>, n: nat, a: Address)
    requires n > 0
    ensures Kept(Levelled(level, n, a), n - 1) == Kept(level, n - 1)
  {
  }

  lemma WriteFits(g: Ground, cache: Cache, level: map<Address, nat>, cps: seq<Checkpoint>, a: Address, e: Entry)
    requires Fits(g, cache, level, cps) && e.state.Dirty?
    ensures Fits(g, cache[a := e], Levelled(level, |cps|, a), NotedLast(cache, cps, a))
  {
    LevelWritten(cache, level, cps, a, e);
    TrueWritten(g.base, g.db, cache, a, e);
  }

  lemma TrueWritten(base: World, db: World, cache: Cache, a: Address, e: Entry)
    requires EntriesTrue(base, db, cache) && e.state.Dirty?
    ensures EntriesTrue(base, db, cache[a := e])
  {
  }

  lemma LevelWritten(cache: Cache, level: map<Address, nat>, cps: seq<Checkpoint>, a: Address, e: Entry)
    requires LevelFits(cache, cps, level)
    ensures LevelFits(cache[a := e], NotedLast(cache, cps, a), Levelled(level, |cps|, a))
  {
    var cps': seq<Checkpoint>, level' := NotedLast(cache, cps, a), Levelled(level, |cps|, a);
    forall i: int, b: Address | 0 <= i < |cps'| && b in cps'[i]
      ensures b in level' && level'[b] <= i + 1 && (cps'[i][b].None? <==> level'[b] == i + 1)
    {
      if b in cps[i] {
        assert cps'[i][b] == cps[i][b];
      }
    }
    forall b | b in level' && 0 < level'[b] <= |cps'| ensures b in cps'[level'[b] - 1] {
      if b in level {
        assert b in cps[level[b] - 1];
      }
    }
  }

  lemma WriteLoses(g: Ground, cache: Cache, level: map<Address, nat>, cps: seq<Checkpoint>, snapshots: seq<World>,
                   a: Address, e: Entry)
    requires !Undoable(cache, cps, a, e.account)
    ensures !Restorable(g, cache[a := e], Levelled(level, |cps|, a), NotedLast(cache, cps, a), snapshots)
  {
    assert !NoneRemoved(cache[a := e], Note(cache, cps[|cps| - 1], a));
    if Restorable(g, cache[a := e], Levelled(level, |cps|, a), NotedLast(cache, cps, a), snapshots) {
      Opened(g, cache[a := e], Levelled(level, |cps|, a), NotedLast(cache, cps, a), snapshots);
    }
  }

  lemma WriteSeen(db: World, cache: Cache, a: Address, e: Entry)
    ensures ViewOf(db, cache[a := e]) ==
            if e.account.Some? then ViewOf(db, cache)[a := e.account.value] else ViewOf(db, cache) - {a}
  {
    var w, w' := ViewOf(db, cache), ViewOf(db, cache[a := e]);
    forall b | b != a ensures Get(w, b) == Get(w', b) {
    }
    assert Get(w', a) == e.account;
    forall b ensures b in w' <==> Get(w', b).Some? {
    }
    forall b ensures b in w <==> Get(w, b).Some? {
    }
  }

  /** The same accounts with the same old balances; only the states may differ. */
  ghost predicate SameEntries(c: Cache, d: Cache) {
    c.Keys == d.Keys && forall a :: a in c ==> c[a].account == d[a].account && c[a].oldBalance == d[a].oldBalance
  }

  /** Writing one changed account to the trie keeps the entries true. */
  lemma CommitOne(base: World, db: World, cache: Cache, a: Address)
    requires EntriesTrue(base, db, cache) && a in cache
    ensures EntriesTrue(base, if cache[a].account.Some? then db[a := cache[a].account.value] else db - {a},
                        cache[a := cache[a].(state := Committed)])
  {
  }

  /** Writing accounts to the trie shows nowhere else. */
  lemma CommittedSame(base: World, db: World, cache: Cache, db': World, cache': Cache)
    requires EntriesTrue(base, db, cache) && EntriesTrue(base, db', cache') && SameEntries(cache, cache')
    ensures ViewOf(db', cache') == ViewOf(db, cache) && OldsOf(cache') == OldsOf(cache)
  {
    forall a ensures Seen(db', cache', a) == Seen(db, cache, a) {
      assert a !in cache ==> Get(db, a) == Get(base, a) == Get(db', a);
    }
    SameView(db', cache', db, cache);
  }

  /** Undoing one more noted address. */
  lemma RevertOneMore(cache: Cache, cp: Checkpoint, rest: set<Address>, k: Address)
    requires k in rest && rest <= cp.Keys
    ensures var part := Reverted(cache, cp - rest);
            Reverted(cache, cp - (rest - {k})) ==
            match cp[k] {
              case Some(v) => part[k := if k in part then Overwritten(part[k], v) else v]
              case None => if k in part && part[k].state.Dirty? then part - {k} else part
            }
  {
    var done, more := cp - rest, cp - (rest - {k});
    assert forall b :: b != k ==> (b in done <==> b in more) && (b in done ==> done[b] == more[b]);
    assert k in more && k !in done && more[k] == cp[k];
    var part := Reverted(cache, done);
    assert k in part <==> k in cache;
  }

  lemma PushKeeps(g: Ground, cache: Cache, level: map<Address, nat>, cps: seq<Checkpoint>, snapshots: seq<World>)
    requires Restorable(g, cache, level, cps, snapshots)
    ensures Restorable(g, cache, level, cps + [map[]], snapshots + [ViewOf(g.db, cache)])
    ensures forall a :: a in level ==> level[a] <= |cps|
  {
    Opened(g, cache, level, cps, snapshots);
    PushFits(g, cache, level, cps);
    PushRestores(g, cache, level, cps, snapshots);
    Folded(g, cache, level, cps + [map[]], snapshots + [ViewOf(g.db, cache)]);
  }

  lemma PushRestores(g: Ground, cache: Cache, level: map<Address, nat>, cps: seq<Checkpoint>, snapshots: seq<World>)
    requires Restorable(g, cache, level, cps, snapshots) && |cps| == |snapshots|
    requires forall a :: a in level ==> level[a] <= |cps|
    ensures Restores(g, cache, level, cps + [map[]], snapshots + [ViewOf(g.db, cache)])
  {
    NothingUndone(cache, level, |cps|);
    assert (cps + [map[]])[..|cps|] == cps;
    assert (snapshots + [ViewOf(g.db, cache)])[..|cps|] == snapshots;
  }

  lemma NothingUndone(cache: Cache, level: map<Address, nat>, n: nat)
    requires forall a :: a in level ==> level[a] <= n
    ensures Reverted(cache, map[]) == cache && Kept(level, n) == level
  {
  }

  lemma PushFits(g: Ground, cache: Cache, level: map<Address, nat>, cps: seq<Checkpoint>)
    requires Fits(g, cache, level, cps)
    ensures Fits(g, cache, level, cps + [map[]])
  {
  }

  /** Dropping the only checkpoint. */
  lemma DropKeeps(g: Ground, cache: Cache, level: map<Address, nat>, cps: seq<Checkpoint>, snapshots: seq<World>)
    requires Restorable(g, cache, level, cps, snapshots) && |cps| == 1
    ensures Restorable(g, cache, Lowered(level, 0), [], [])
  {
    Opened(g, cache, level, cps, snapshots);
    Folded(g, cache, Lowered(level, 0), [], []);
  }

  lemma MergeKeeps(g: Ground, cache: Cache, level: map<Address, nat>, cps: seq<Checkpoint>, snapshots: seq<World>)
    requires Restorable(g, cache, level, cps, snapshots) && |cps| >= 2
    ensures var last := |cps| - 1;
            Restorable(g, cache, Lowered(level, last), cps[..last - 1] + [cps[last] + cps[last - 1]], snapshots[..last])
  {
    var last := |cps| - 1;
    Opened(g, cache, level, cps, snapshots);
    Opened(g, Reverted(cache, cps[last]), Kept(level, last), cps[..last], snapshots[..last]);
    MergeFits(g, cache, level, cps);
    LoweredKept(cache, cps, level);
    MergeRestores(g, cache, level, cps, snapshots);
    Folded(g, cache, Lowered(level, last), cps[..last - 1] + [cps[last] + cps[last - 1]], snapshots[..last]);
  }

  lemma MergeFits(g: Ground, cache: Cache, level: map<Address, nat>, cps: seq<Checkpoint>)
    requires Fits(g, cache, level, cps) && |cps| >= 2
    ensures var last := |cps| - 1;
            Fits(g, cache, Lowered(level, last), cps[..last - 1] + [cps[last] + cps[last - 1]])
  {
    LevelMerge(cache, cps, level);
  }

  lemma LevelMerge(cache: Cache, cps: seq<Checkpoint>, level: map<Address, nat>)
    requires LevelFits(cache, cps, level) && |cps| >= 2
    ensures var last := |cps| - 1;
            LevelFits(cache, cps[..last - 1] + [cps[last] + cps[last - 1]], Lowered(level, last))
  {
  }

  lemma MergeRestores(g: Ground, cache: Cache, level: map<Address, nat>, cps: seq<Checkpoint>, snapshots: seq<World>)
    requires |cps| == |snapshots| >= 2 && Restores(g, cache, level, cps, snapshots)
    requires var last := |cps| - 1;
             && Restores(g, Reverted(cache, cps[last]), Kept(level, last), cps[..last], snapshots[..last])
             && Kept(Lowered(level, last), last - 1) == Kept(Kept(level, last), last - 1)
    ensures var last := |cps| - 1;
            Restores(g, cache, Lowered(level, last), cps[..last - 1] + [cps[last] + cps[last - 1]], snapshots[..last])
  {
    var last := |cps| - 1;
    assert cps[..last][last - 1] == cps[last - 1];
    MergeUndo(cache, cps[last], cps[last - 1]);
    var merged := cps[..last - 1] + [cps[last] + cps[last - 1]];
    assert merged[..last - 1] == cps[..last - 1] == cps[..last][..last - 1];
    assert snapshots[..last][..last - 1] == snapshots[..last - 1];
  }

  lemma LoweredKept(cache: Cache, cps: seq<Checkpoint>, level: map<Address, nat>)
    requires LevelFits(cache, cps, level) && |cps| >= 2
    ensures var last := |cps| - 1;
            Kept(Lowered(level, last), last - 1) == Kept(Kept(level, last), last - 1)
  {
  }

  lemma RevertKeeps(g: Ground, cache: Cache, level: map<Address, nat>, cps: seq<Checkpoint>, snapshots: seq<World>)
    requires Restorable(g, cache, level, cps, snapshots) && cps != []
    ensures var last := |cps| - 1;
            && Restorable(g, Reverted(cache, cps[last]), Kept(level, last), cps[..last], snapshots[..last])
            && ViewOf(g.db, Reverted(cache, cps[last])) == snapshots[last]
  {
    Opened(g, cache, level, cps, snapshots);
  }

  // ---------------------------------------------------------------------------------------
  // What stays loaded, and the balances accounts were first seen with

  lemma SameFirstSeen(db: World, cache: Cache, db': World, cache': Cache)
    requires forall a :: OldOf(db, cache, a) == OldOf(db', cache', a)
    ensures FirstSeen(db, cache) == FirstSeen(db', cache')
  {
    var m, m' := FirstSeen(db, cache), FirstSeen(db', cache');
    forall a ensures a in m <==> a in m' {
      assert Get(m, a) == Get(m', a);
    }
    forall a | a in m ensures m[a] == m'[a] {
      assert Get(m, a) == Get(m', a);
    }
  }

  /** The old balances of all entries. */
  function OldsOf(cache: Cache): map<Address, Option<nat>> {
    map a | a in cache :: cache[a].oldBalance
  }

  /** What is not loaded was never changed, so the balances first seen do not depend on what was written to the trie. */
  lemma FirstSeenIn(base: World, db: World, cache: Cache)
    requires EntriesTrue(base, db, cache)
    ensures FirstSeen(db, cache) == SeenIn(base, OldsOf(cache))
  {
    var m, m' := FirstSeen(db, cache), SeenIn(base, OldsOf(cache));
    forall a ensures Get(m, a) == Get(m', a) {
      assert OldOf(db, cache, a) == SeenAt(base, OldsOf(cache), a);
    }
    forall a ensures a in m <==> a in m' {
      assert Get(m, a) == Get(m', a);
    }
    forall a | a in m ensures m[a] == m'[a] {
      assert Get(m, a) == Get(m', a);
    }
  }

  lemma OldsPut(cache: Cache, a: Address, e: Entry)
    ensures OldsOf(cache[a := e]) == OldsOf(cache)[a := e.oldBalance]
  {
  }

  /** Undoing a checkpoint keeps the old balances of all entries that stay. */
  lemma RevertRemembers(cache: Cache, level: map<Address, nat>, cps: seq<Checkpoint>)
    requires cps != [] && Noted(cache, cps[|cps| - 1]) && LevelFits(cache, cps, level)
    ensures OldsOf(Reverted(cache, cps[|cps| - 1])) == OnlyIn(OldsOf(cache), Kept(level, |cps| - 1))
  {
    var last := |cps| - 1;
    var undone := Reverted(cache, cps[last]);
    forall a ensures a in undone <==> a in level && level[a] <= last {
    }
  }

  /** The cache once the accounts of a set are removed. */
  function Killed(cache: Cache, addresses: set<Address>): Cache {
    cache + map a | a in addresses :: NewEntry(None, Dirty)
  }

  lemma KilledOneMore(cache: Cache, addresses: set<Address>, a: Address)
    ensures Killed(cache, {}) == cache
    ensures Killed(cache, addresses)[a := NewEntry(None, Dirty)] == Killed(cache, addresses + {a})
  {
  }

  /** The entries with changes that are not in the trie yet. */
  function Unwritten(cache: Cache): Cache {
    map a | a in cache && cache[a].state.Dirty? :: cache[a]
  }

  /** All other entries still have the balance they were first seen with. */
  ghost predicate AsFirstSeen(cache: Cache) {
    forall a :: a in cache && !cache[a].state.Dirty? ==> cache[a] == NewEntry(cache[a].account, cache[a].state)
  }

  /** Keeping only unwritten entries keeps the balances first seen exactly when all others still have theirs. */
  lemma CloneRemembers(base: World, db: World, cache: Cache)
    requires EntriesTrue(base, db, cache)
    ensures ViewOf(db, Unwritten(cache)) == ViewOf(db, cache)
    ensures FirstSeen(db, Unwritten(cache)) == FirstSeen(db, cache) <==> AsFirstSeen(cache)
  {
    var kept := Unwritten(cache);
    SameView(db, kept, db, cache);
    if AsFirstSeen(cache) {
      SameFirstSeen(db, kept, db, cache);
    } else {
      var a :| a in cache && !cache[a].state.Dirty? && cache[a] != NewEntry(cache[a].account, cache[a].state);
      assert Get(FirstSeen(db, kept), a) == OldOf(db, kept, a);
      assert Get(FirstSeen(db, cache), a) == OldOf(db, cache, a);
    }
  }

  /** The family that fails: an account below the threshold whose loss is written to the trie is dust before closing,
      and no longer after reopening. */
  lemma ReopenForgets(base: World, db: World, cache: Cache, a: Address, minBalance: nat)
    requires EntriesTrue(base, db, cache) && a in cache && !cache[a].state.Dirty?
    requires cache[a].account.Some? && cache[a].account.value.code == [] && cache[a].oldBalance.Some?
    requires cache[a].account.value.balance < minBalance
    requires cache[a].account.value.balance < cache[a].oldBalance.value
    ensures var kept := Unwritten(cache);
            && ViewOf(db, kept) == ViewOf(db, cache)
            && a in Garbage(ViewOf(db, cache), {a}, FirstSeen(db, cache), false, Some(minBalance), false)
            && a !in Garbage(ViewOf(db, kept), {a}, FirstSeen(db, kept), false, Some(minBalance), false)
  {
    var kept := Unwritten(cache);
    CloneRemembers(base, db, cache);
    assert Get(ViewOf(db, cache), a) == Seen(db, cache, a) == cache[a].account;
    assert Get(FirstSeen(db, cache), a) == OldOf(db, cache, a) == cache[a].oldBalance;
    assert Get(FirstSeen(db, kept), a) == OldOf(db, kept, a) == Some(cache[a].account.value.balance);
  }

  lemma KilledOlds(cache: Cache, addresses: set<Address>)
    ensures OldsOf(Killed(cache, addresses)) == Forgotten(OldsOf(cache), addresses)
  {
  }

  /** Removed accounts are neither seen nor remembered. */
  lemma KilledView(db: World, cache: Cache, addresses: set<Address>)
    ensures ViewOf(db, Killed(cache, addresses)) == ViewOf(db, cache) - addresses
    ensures FirstSeen(db, Killed(cache, addresses)) == FirstSeen(db, cache) - addresses
  {
    var killed := Killed(cache, addresses);
    forall a ensures a in ViewOf(db, killed) <==> a in ViewOf(db, cache) && a !in addresses {
      assert Get(ViewOf(db, killed), a) == Seen(db, killed, a) && Get(ViewOf(db, cache), a) == Seen(db, cache, a);
    }
    forall a ensures a in FirstSeen(db, killed) <==> a in FirstSeen(db, cache) && a !in addresses {
      assert Get(FirstSeen(db, killed), a) == OldOf(db, killed, a);
      assert Get(FirstSeen(db, cache), a) == OldOf(db, cache, a);
    }
  }

  /** Removing the loaded ones of some touched accounts is removing all of them: those not loaded that have code in
      the trie are neither empty nor have less than they were first seen with. */
  lemma OnlyLoadedMatter(db: World, cache: Cache, touched: set<Address>, loose: set<Address>, removeEmpty: bool,
                         minBalance: Option<nat>, killContracts: bool)
    requires forall a :: a in touched ==> a in cache || a in loose || CodeOf(db, a) != []
    ensures var w, seen := ViewOf(db, cache), FirstSeen(db, cache);
            Garbage(w, touched * cache.Keys, seen, removeEmpty, minBalance, killContracts) ==
            Garbage(w, touched - (loose - cache.Keys), seen, removeEmpty, minBalance, killContracts)
  {
    var w, seen := ViewOf(db, cache), FirstSeen(db, cache);
    forall a | a in touched && a !in cache && a !in loose && a in w
      ensures !IsNull(w[a]) && (a in seen ==> !(w[a].balance < seen[a]))
    {
      assert Get(w, a) == Get(db, a);
      assert Get(seen, a) == Some(db[a].balance);
    }
  }
}
