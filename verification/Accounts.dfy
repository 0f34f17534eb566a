/** The accounts of one state as a plain map, and what each account operation does to it. */
module Accounts {
  import opened Types

  type World = map<Address, Account>

  /** How an operation treats accounts that are or become empty. */
  datatype CleanupMode = ForceCreate | NoEmpty | TrackTouched

  function Balance(w: World, a: Address): nat {
    if a in w then w[a].balance else 0
  }

  function Nonce(w: World, a: Address, start: nat): nat {
    if a in w then w[a].nonce else start
  }

  function CodeOf(w: World, a: Address): Bytes {
    if a in w then w[a].code else []
  }

  function SlotOf(account: Account, key: H256): H256 {
    if key in account.storage then account.storage[key] else 0
  }

  function StorageAt(w: World, a: Address, key: H256): H256 {
    if a in w then SlotOf(w[a], key) else 0
  }

  predicate HasCodeOrNonce(w: World, a: Address, start: nat) {
    a in w && (w[a].code != [] || w[a].nonce != start)
  }

  predicate IsNull(account: Account) {
    account.balance == 0 && account.nonce == 0 && account.code == []
  }

  function NewBasic(balance: nat, nonce: nat): Account {
    Account(balance, nonce, [], map[])
  }

  /** The account at `a`, created with the start nonce when it is missing. */
  function Existing(w: World, a: Address, start: nat): Account {
    if a in w then w[a] else NewBasic(0, start)
  }

  function SubBalance(w: World, a: Address, decr: nat, start: nat): World
    requires decr <= Balance(w, a)
  {
    if decr != 0 || a !in w then
      var acc := Existing(w, a, start);
      w[a := acc.(balance := acc.balance - decr)]
    else w
  }

  function AddBalance(w: World, a: Address, incr: nat, mode: CleanupMode, start: nat): World {
    if incr != 0 || (mode.ForceCreate? && a !in w) then
      var acc := Existing(w, a, start);
      w[a := acc.(balance := acc.balance + incr)]
    else w
  }

  /** Addresses that a transfer leaves marked as touched. */
  function TransferTouches(w: World, from: Address, to: Address, amount: nat, mode: CleanupMode,
                           start: nat): set<Address>
    requires amount <= Balance(w, from)
  {
    if !mode.TrackTouched? then {}
    else if amount == 0 && to in SubBalance(w, from, amount, start) then {from, to}
    else {from}
  }

  function Transfer(w: World, from: Address, to: Address, amount: nat, mode: CleanupMode, start: nat): World
    requires amount <= Balance(w, from)
  {
    AddBalance(SubBalance(w, from, amount, start), to, amount, mode, start)
  }

  function IncNonce(w: World, a: Address, start: nat): World {
    var acc := Existing(w, a, start);
    w[a := acc.(nonce := acc.nonce + 1)]
  }

  function SetStorage(w: World, a: Address, key: H256, value: H256, start: nat): World {
    if StorageAt(w, a, key) != value then
      var acc := Existing(w, a, start);
      w[a := acc.(storage := acc.storage[key := value])]
    else w
  }

  function InitCode(w: World, a: Address, code: Bytes, start: nat): World {
    w[a := Existing(w, a, start).(code := code)]
  }

  /** The touched accounts that are removed at the end of a transaction: empty ones, and dust with less than it was
      first seen with. */
  function Garbage(w: World, touched: set<Address>, firstSeen: map<Address, nat>, removeEmpty: bool,
                   minBalance: Option<nat>, killContracts: bool): set<Address>
  {
    set a | a in touched && a in w &&
            ((removeEmpty && IsNull(w[a])) ||
             (minBalance.Some? && (w[a].code == [] || killContracts) && w[a].balance < minBalance.value &&
              a in firstSeen && w[a].balance < firstSeen[a]))
  }

  // ---------------------------------------------------------------------------------------
  // What the operations do to each account

  /** The two maps differ in balances only. */
  ghost predicate OnlyBalances(w: World, w': World, start: nat) {
    && (forall a :: Nonce(w, a, start) == Nonce(w', a, start))
    && (forall a :: CodeOf(w, a) == CodeOf(w', a))
    && (forall a, k :: StorageAt(w, a, k) == StorageAt(w', a, k))
  }

  /** A transfer takes the amount from one account, gives it to the other, and does nothing else; to
      oneself it does nothing at all. */
  lemma TransferMoves(w: World, from: Address, to: Address, amount: nat, mode: CleanupMode, start: nat)
    requires amount <= Balance(w, from)
    ensures var w' := Transfer(w, from, to, amount, mode, start);
            && OnlyBalances(w, w', start)
            && (forall a :: Balance(w', a) ==
                  Balance(w, a) - (if a == from then amount else 0) + (if a == to then amount else 0))
  {
    var w1 := SubBalance(w, from, amount, start);
    assert forall a :: Balance(w1, a) == Balance(w, a) - if a == from then amount else 0;
    assert OnlyBalances(w, w1, start);
  }

  /** A write to storage sets that one slot. */
  lemma SetStorageWrites(w: World, a: Address, key: H256, value: H256, start: nat)
    ensures var w' := SetStorage(w, a, key, value, start);
            && (forall b, k :: StorageAt(w', b, k) == if b == a && k == key then value else StorageAt(w, b, k))
            && (forall b :: Balance(w', b) == Balance(w, b) && CodeOf(w', b) == CodeOf(w, b))
            && (forall b :: Nonce(w', b, start) == Nonce(w, b, start))
  {
    var w' := SetStorage(w, a, key, value, start);
    forall b, k ensures StorageAt(w', b, k) == if b == a && k == key then value else StorageAt(w, b, k) {
    }
  }

  // ---------------------------------------------------------------------------------------
  // The sum of all balances

  ghost function Total(w: World): nat {
    if w == map[] then 0
    else
      var a :| a in w;
      w[a].balance + Total(w - {a})
  }

  /** The sum does not depend on the order in which accounts are counted. */
  lemma {:induction false} TotalWithout(w: World, a: Address)
    ensures Total(w) == Balance(w, a) + Total(w - {a})
    decreases |w|
  {
    if w == map[] {
      assert w - {a} == w;
    } else {
      var b :| b in w && Total(w) == w[b].balance + Total(w - {b});
      if a !in w {
        assert w - {a} == w;
      } else if a != b {
        TotalWithout(w - {b}, a);
        TotalWithout(w - {a}, b);
        assert (w - {a}) - {b} == (w - {b}) - {a};
      }
    }
  }

  lemma TotalUpdate(w: World, a: Address, account: Account)
    ensures Total(w[a := account]) == Total(w) - Balance(w, a) + account.balance
  {
    TotalWithout(w, a);
    TotalWithout(w[a := account], a);
    assert w[a := account] - {a} == w - {a};
  }

  /** No balance is above the sum, so sums that fit in 256 bits never overflow. */
  lemma BalanceBelowTotal(w: World, a: Address)
    ensures Balance(w, a) <= Total(w)
  {
    TotalWithout(w, a);
  }

  lemma SubTotal(w: World, a: Address, decr: nat, start: nat)
    requires decr <= Balance(w, a)
    ensures Total(SubBalance(w, a, decr, start)) == Total(w) - decr
    ensures Balance(SubBalance(w, a, decr, start), a) == Balance(w, a) - decr
  {
    var acc := Existing(w, a, start);
    TotalUpdate(w, a, acc.(balance := acc.balance - decr));
  }

  lemma AddTotal(w: World, a: Address, incr: nat, mode: CleanupMode, start: nat)
    ensures Total(AddBalance(w, a, incr, mode, start)) == Total(w) + incr
  {
    var acc := Existing(w, a, start);
    TotalUpdate(w, a, acc.(balance := acc.balance + incr));
  }

  lemma TransferTotal(w: World, from: Address, to: Address, amount: nat, mode: CleanupMode, start: nat)
    requires amount <= Balance(w, from)
    ensures Total(Transfer(w, from, to, amount, mode, start)) == Total(w)
  {
    SubTotal(w, from, amount, start);
    AddTotal(SubBalance(w, from, amount, start), to, amount, mode, start);
  }

  /** The balances held by a set of addresses. */
  ghost function Held(w: World, s: set<Address>): nat {
    Total(Part(w, s))
  }

  function Part(w: World, s: set<Address>): World {
    map a | a in w && a in s :: w[a]
  }

  lemma {:induction false} RemovedTotal(w: World, s: set<Address>)
    ensures Total(w - s) == Total(w) - Held(w, s)
    decreases s
  {
    if s == {} {
      assert w - s == w;
      assert Part(w, s) == map[];
    } else {
      var a :| a in s;
      RemovedTotal(w - {a}, s - {a});
      assert (w - {a}) - (s - {a}) == w - s;
      assert Part(w, s) - {a} == Part(w - {a}, s - {a});
      TotalWithout(w, a);
      TotalWithout(Part(w, s), a);
    }
  }
}
