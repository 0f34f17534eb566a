/** The shared account cache agrees with the committed blocks, over every run of commits,
    side-branch commits, reorganisations and evictions.
 */
module CacheSoundness {
  import opened Types
  import opened BlockTree
  import opened CacheSpec

  /** The cache next to the blocks it speeds up; `head` is the best block. */
  datatype Node = Node(cache: Cache, tree: Tree, head: H256)

  ghost predicate Distinct(mods: seq<BlockChanges>) {
    forall i, j :: 0 <= i < j < |mods| ==> mods[i].hash != mods[j].hash
  }

  ghost predicate Descending(mods: seq<BlockChanges>) {
    forall i, j :: 0 <= i < j < |mods| ==> mods[i].number >= mods[j].number
  }

  ghost predicate Listed(mods: seq<BlockChanges>, h: H256) {
    exists i :: 0 <= i < |mods| && mods[i].hash == h
  }

  ghost predicate ListedBefore(mods: seq<BlockChanges>, h: H256, i: nat) {
    exists j :: 0 <= j < i && j < |mods| && mods[j].hash == h
  }

  /** Block `h` is listed and did not change `a`. */
  ghost predicate ListedUnchanged(mods: seq<BlockChanges>, h: H256, a: Address) {
    exists j :: 0 <= j < |mods| && mods[j].hash == h && a !in mods[j].accounts
  }

  /** Entry `m` describes a committed block and names every address that block changed. */
  ghost predicate Describes(m: BlockChanges, t: Tree) {
    && m.hash in t
    && m.parent in t
    && t[m.hash].parent == m.parent
    && t[m.hash].number == m.number
    && forall a :: Value(t, m.hash, a) != Value(t, m.parent, a) ==> a in m.accounts
  }

  ghost predicate AllDescribe(mods: seq<BlockChanges>, t: Tree) {
    forall i :: 0 <= i < |mods| ==> Describes(mods[i], t)
  }

  /** Exactly the listed blocks on the chain of `head` are marked canonical. */
  ghost predicate CanonMarked(mods: seq<BlockChanges>, t: Tree, head: H256)
    requires WellFormed(t)
  {
    forall i :: 0 <= i < |mods| ==> (mods[i].isCanon <==> mods[i].hash in Ancestors(t, head))
  }

  /** On the chain of `head`, what stands on a listed block is listed too. */
  ghost predicate ChainListed(mods: seq<BlockChanges>, t: Tree, head: H256)
    requires WellFormed(t)
  {
    forall h :: h in Ancestors(t, head) && Listed(mods, t[h].parent) ==> Listed(mods, h)
  }

  ghost predicate Agrees(accounts: map<Address, Option<Account>>, t: Tree, head: H256) {
    forall a :: a in accounts ==> accounts[a] == Value(t, head, a)
  }

  ghost predicate Invariant(n: Node) {
    && WellFormed(n.tree)
    && n.head in n.tree
    && |n.cache.mods| <= STATE_CACHE_BLOCKS
    && Distinct(n.cache.mods)
    && Descending(n.cache.mods)
    && AllDescribe(n.cache.mods, n.tree)
    && CanonMarked(n.cache.mods, n.tree, n.head)
    && ChainListed(n.cache.mods, n.tree, n.head)
    && (n.cache.mods == [] ==> n.cache.accounts == map[])
    && Agrees(n.cache.accounts, n.tree, n.head)
  }

  // ---------------------------------------------------------------------------------------
  // Reading

  /** The blocks between a listed ancestor and `h` are all listed, nearer the front. */
  lemma {:induction false} ListedAbove(t: Tree, mods: seq<BlockChanges>, i: nat, h: H256)
    requires WellFormed(t) && AllDescribe(mods, t) && Descending(mods) && ChainListed(mods, t, h)
    requires i < |mods| && mods[i].hash in Ancestors(t, h)
    ensures forall x :: x in Ancestors(t, h) && x !in Ancestors(t, mods[i].hash) ==> ListedBefore(mods, x, i)
    decreases t[h].number
  {
    var c := mods[i].hash;
    if h != c {
      var p := t[h].parent;
      ListedAbove(t, mods, i, p);
      if p != c {
        assert p !in Ancestors(t, c) by {
          if p in Ancestors(t, c) {
            NotMutual(t, c, p);
          }
        }
        assert ListedBefore(mods, p, i);
      }
      assert Listed(mods, p);
      assert Listed(mods, h);
      assert ListedBefore(mods, h, i) by {
        var j :| 0 <= j < |mods| && mods[j].hash == h;
        AncestorNumbers(t, c, h);
      }
    }
  }

  lemma AncestorNumbers(t: Tree, c: H256, h: H256)
    requires WellFormed(t)
    requires c in Ancestors(t, h) && c != h
    ensures t[c].number < t[h].number
  {
    assert c in Ancestors(t, t[h].parent);
  }

  lemma NotMutual(t: Tree, c: H256, p: H256)
    requires WellFormed(t)
    requires c in Ancestors(t, p) && p in Ancestors(t, c)
    ensures c == p
  {
    if c != p {
      AncestorNumbers(t, c, p);
      AncestorNumbers(t, p, c);
    }
  }

  /** Walking down through listed blocks that leave `a` alone keeps its value. */
  lemma {:induction false} ValueKept(t: Tree, mods: seq<BlockChanges>, c: H256, h: H256, a: Address)
    requires WellFormed(t) && AllDescribe(mods, t)
    requires c in Ancestors(t, h)
    requires forall x :: x in Ancestors(t, h) && x !in Ancestors(t, c) ==> ListedUnchanged(mods, x, a)
    ensures Value(t, h, a) == Value(t, c, a)
    decreases t[h].number
  {
    if h != c {
      assert h !in Ancestors(t, c) by {
        if h in Ancestors(t, c) {
          NotMutual(t, c, h);
        }
      }
      assert ListedUnchanged(mods, h, a);
      ValueKept(t, mods, c, t[h].parent, a);
    }
  }

  /** The exact condition under which a reader on `parent` is served: some listed block of the
      best chain is `parent` or below it, the blocks from there up to `parent` are listed too, and
      nothing listed before it changed `addr`. */
  ghost predicate Served(n: Node, parent: H256, addr: Address)
    requires WellFormed(n.tree)
  {
    exists i :: 0 <= i < |n.cache.mods| && ServedBy(n, parent, addr, i)
  }

  ghost predicate ServedBy(n: Node, parent: H256, addr: Address, i: nat)
    requires WellFormed(n.tree)
    requires i < |n.cache.mods|
  {
    && n.cache.mods[i].hash in Ancestors(n.tree, parent)
    && n.cache.mods[i].hash in Ancestors(n.tree, n.head)
    && AboveListed(n, parent, i)
    && forall j :: 0 <= j < i ==> addr !in n.cache.mods[j].accounts
  }

  /** Every block of `h`'s chain above entry `i` is listed before it. */
  ghost predicate AboveListed(n: Node, h: H256, i: nat)
    requires WellFormed(n.tree)
    requires i < |n.cache.mods|
  {
    forall x :: x in Ancestors(n.tree, h) && x !in Ancestors(n.tree, n.cache.mods[i].hash) ==>
                  ListedBefore(n.cache.mods, x, i)
  }

  lemma {:induction false} AllowedIsServed(n: Node, parent: H256, addr: Address, k: nat) returns (i: nat)
    requires Invariant(n)
    requires k <= |n.cache.mods| && parent in n.tree
    requires AllowedFrom(addr, parent, n.cache.mods[k..])
    ensures k <= i < |n.cache.mods|
    ensures n.cache.mods[i].hash in Ancestors(n.tree, parent) && n.cache.mods[i].isCanon
    ensures AboveListed(n, parent, i)
    ensures forall j :: k <= j < i ==> addr !in n.cache.mods[j].accounts
    decreases |n.cache.mods| - k
  {
    var mods := n.cache.mods;
    assert mods[k..][1..] == mods[k + 1..];
    var m := mods[k];
    if m.hash == parent && m.isCanon {
      i := k;
    } else {
      i := AllowedIsServed(n, if m.hash == parent then m.parent else parent, addr, k + 1);
    }
  }

  lemma {:induction false} ServedIsAllowed(n: Node, parent: H256, addr: Address, i: nat, k: nat)
    requires Invariant(n)
    requires k <= i < |n.cache.mods| && ServedBy(n, parent, addr, i)
    requires forall j :: 0 <= j < k ==> n.cache.mods[j].hash != parent
    ensures AllowedFrom(addr, parent, n.cache.mods[k..])
    decreases i - k
  {
    var mods := n.cache.mods;
    var m := mods[k];
    assert mods[k..][1..] == mods[k + 1..];
    if m.hash == parent {
      if !m.isCanon {
        StepDown(n, k, addr, i);
        ServedIsAllowed(n, m.parent, addr, i, k + 1);
      }
    } else {
      NotYet(n, parent, addr, i, k);
      ServedIsAllowed(n, parent, addr, i, k + 1);
    }
  }

  /** A served block that is not canonical is served through its parent, which comes later. */
  lemma StepDown(n: Node, k: nat, addr: Address, i: nat)
    requires Invariant(n)
    requires k <= i < |n.cache.mods| && ServedBy(n, n.cache.mods[k].hash, addr, i)
    requires !n.cache.mods[k].isCanon
    ensures k < i
    ensures ServedBy(n, n.cache.mods[k].parent, addr, i)
    ensures forall j :: 0 <= j <= k ==> n.cache.mods[j].hash != n.cache.mods[k].parent
  {
    assert Describes(n.cache.mods[k], n.tree);
    forall j | 0 <= j <= k ensures n.cache.mods[j].hash != n.cache.mods[k].parent {
      assert Describes(n.cache.mods[j], n.tree);
    }
  }

  /** Until `parent` has been met, the block that serves it is still ahead. */
  lemma NotYet(n: Node, parent: H256, addr: Address, i: nat, k: nat)
    requires Invariant(n)
    requires k <= i < |n.cache.mods| && ServedBy(n, parent, addr, i)
    requires forall j :: 0 <= j <= k ==> n.cache.mods[j].hash != parent
    ensures k < i
  {
    if k == i {
      assert !ListedBefore(n.cache.mods, parent, i);
      NotMutual(n.tree, n.cache.mods[i].hash, parent);
    }
  }

  /** `is_allowed` lets a reader in exactly when nothing is listed or the entry is `Served`; when nothing is
      listed nothing is cached either. */
  lemma AllowedExactly(n: Node, parent: H256, addr: Address)
    requires Invariant(n)
    requires parent in n.tree
    ensures Allowed(addr, Some(parent), n.cache.mods) <==> n.cache.mods == [] || Served(n, parent, addr)
  {
    var mods := n.cache.mods;
    assert mods[0..] == mods;
    if Allowed(addr, Some(parent), mods) && mods != [] {
      var i := AllowedIsServed(n, parent, addr, 0);
      assert ServedBy(n, parent, addr, i);
    }
    if Served(n, parent, addr) {
      var i :| 0 <= i < |mods| && ServedBy(n, parent, addr, i);
      ServedIsAllowed(n, parent, addr, i, 0);
    }
  }

  /** A served reader sees its own block's account: the head and `parent` agree on it. */
  lemma ServedAgrees(n: Node, parent: H256, addr: Address)
    requires Invariant(n)
    requires Served(n, parent, addr)
    ensures Value(n.tree, parent, addr) == Value(n.tree, n.head, addr)
  {
    var mods := n.cache.mods;
    var i :| 0 <= i < |mods| && ServedBy(n, parent, addr, i);
    ListedAbove(n.tree, mods, i, n.head);
    UnchangedAbove(n, i, parent, addr);
    UnchangedAbove(n, i, n.head, addr);
    ValueKept(n.tree, mods, mods[i].hash, parent, addr);
    ValueKept(n.tree, mods, mods[i].hash, n.head, addr);
  }

  lemma UnchangedAbove(n: Node, i: nat, h: H256, addr: Address)
    requires Invariant(n)
    requires i < |n.cache.mods| && AboveListed(n, h, i)
    requires forall j :: 0 <= j < i ==> addr !in n.cache.mods[j].accounts
    ensures forall x :: x in Ancestors(n.tree, h) && x !in Ancestors(n.tree, n.cache.mods[i].hash) ==>
                          ListedUnchanged(n.cache.mods, x, addr)
  {
    forall x | x in Ancestors(n.tree, h) && x !in Ancestors(n.tree, n.cache.mods[i].hash)
      ensures ListedUnchanged(n.cache.mods, x, addr)
    {
      assert ListedBefore(n.cache.mods, x, i);
    }
  }

  /** Whatever the cache answers to a reader on any committed block is that block's account. */
  lemma LookupSound(n: Node, parent: Option<H256>, addr: Address)
    requires Invariant(n)
    requires parent.Some? ==> parent.value in n.tree
    ensures var answer := Lookup(n.cache, parent, addr);
            answer.Some? ==> parent.Some? && answer.value == Value(n.tree, parent.value, addr)
  {
    if Lookup(n.cache, parent, addr).Some? {
      assert n.cache.mods != [];
      AllowedExactly(n, parent.value, addr);
      ServedAgrees(n, parent.value, addr);
    }
  }
}
