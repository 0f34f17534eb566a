/** The blocks a node has committed, each with the full account state it leads to.

    This is the plain thing that the shared account cache speeds up: a reader that runs on
    top of block `h` must see `Value(t, h, a)` for every address `a`.
 */
module BlockTree {
  import opened Types

  datatype Block = Block(parent: H256, number: nat, state: map<Address, Account>)

  type Tree = map<H256, Block>

  /** Block numbers grow from parent to child, so the parent links have no cycle. */
  ghost predicate WellFormed(t: Tree) {
    forall h :: h in t && t[h].parent in t ==> t[t[h].parent].number < t[h].number
  }

  /** The account at `a` after block `h`; `None` when it does not exist. */
  function Value(t: Tree, h: H256, a: Address): Option<Account> {
    if h in t then Get(t[h].state, a) else None
  }

  /** `h` and every block below it. */
  ghost function Ancestors(t: Tree, h: H256): (s: set<H256>)
    requires WellFormed(t)
    ensures s <= t.Keys
    ensures forall x :: x in s ==> h in t && t[x].number <= t[h].number
    decreases if h in t then t[h].number + 1 else 0
  {
    if h !in t then {} else {h} + Ancestors(t, t[h].parent)
  }

  /** `b` is new: not committed, and nothing committed was built on it. */
  ghost predicate Fresh(t: Tree, b: H256) {
    b !in t && forall h :: h in t ==> t[h].parent != b
  }

  /** Committing a new block leaves the ancestry of the old ones alone. */
  lemma {:induction false} AncestorsExtended(t: Tree, b: H256, block: Block, h: H256)
    requires WellFormed(t)
    requires Fresh(t, b)
    requires block.parent in t && t[block.parent].number < block.number
    ensures WellFormed(t[b := block])
    ensures h in t ==> Ancestors(t[b := block], h) == Ancestors(t, h)
    decreases if h in t then t[h].number else 0
  {
    if h in t && t[h].parent in t {
      AncestorsExtended(t, b, block, t[h].parent);
    }
  }
}
