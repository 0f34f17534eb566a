/** What a state remembers of the accounts it has loaded, told from what a run does to it.

    `LiveState` keeps its cache in step with `Replay`, so that what is removed at the end of a transaction, which
    goes by what was loaded and by the balances first seen, is a function of the run and of where accounts are
    loaded from. */
module Memory {
  import opened Types
  import opened Accounts

  /** What matters for the accounts that are loaded: one is read or fetched to be changed, one is replaced by a new
      account with the given balance or by none, a checkpoint is set, and is then discarded or undone. */
  datatype Event =
    | Asked(address: Address)
    | Fetched(address: Address)
    | Replaced(address: Address, balance: Option<nat>)
    | Entered
    | Left
    | Undone

  /** Where accounts are loaded from: the state of the parent block. What is only read is not loaded when the shared
      cache answers, as it does for `hits`. */
  datatype Reader = Reader(base: World, hits: set<Address>)

  /** The loaded addresses with the balances they were first seen with, and how many checkpoints have to be active for
      each to stay loaded; `depth` checkpoints are active. */
  datatype Recollection = Recollection(olds: map<Address, Option<nat>>, level: map<Address, nat>, depth: nat)

  function BalanceIn(w: World, a: Address): Option<nat> {
    if a in w then Some(w[a].balance) else None
  }

  /** The balance that `a` was first seen with, or would be if it were loaded now. */
  function SeenAt(base: World, olds: map<Address, Option<nat>>, a: Address): Option<nat> {
    if a in olds then olds[a] else BalanceIn(base, a)
  }

  function SeenIn(base: World, olds: map<Address, Option<nat>>): (m: map<Address, nat>)
    ensures forall a :: Get(m, a) == SeenAt(base, olds, a)
  {
    map a | a in base.Keys + olds.Keys && SeenAt(base, olds, a).Some? :: SeenAt(base, olds, a).value
  }

  /** The levels after writing `a` under `n` checkpoints. */
  function Levelled(level: map<Address, nat>, n: nat, a: Address): map<Address, nat> {
    if a in level then level else level[a := n]
  }

  /** The levels when one checkpoint less is active, and nothing is dropped. */
  function Lowered(level: map<Address, nat>, n: nat): map<Address, nat> {
    map a | a in level :: Min(level[a], n)
  }

  /** The levels when what needs more than `n` checkpoints is dropped. */
  function Kept(level: map<Address, nat>, n: nat): map<Address, nat> {
    map a | a in level && level[a] <= n :: level[a]
  }

  function OnlyIn(olds: map<Address, Option<nat>>, level: map<Address, nat>): map<Address, Option<nat>> {
    map a | a in olds && a in level :: olds[a]
  }

  function Loaded(r: Reader, m: Recollection, a: Address): Recollection {
    if a in m.level then m else m.(olds := m.olds[a := BalanceIn(r.base, a)], level := m.level[a := 0])
  }

  function Told(r: Reader, m: Recollection, e: Event): Recollection {
    match e
    case Asked(a) => if a in r.hits then m else Loaded(r, m, a)
    case Fetched(a) => Loaded(r, m, a)
    case Replaced(a, balance) => m.(olds := m.olds[a := balance], level := Levelled(m.level, m.depth, a))
    case Entered => m.(depth := m.depth + 1)
    case Left => if m.depth == 0 then m else m.(level := Lowered(m.level, m.depth - 1), depth := m.depth - 1)
    case Undone =>
      if m.depth == 0 then m
      else
        var level := Kept(m.level, m.depth - 1);
        Recollection(OnlyIn(m.olds, level), level, m.depth - 1)
  }

  /** What is remembered after a run. */
  function Replay(r: Reader, m: Recollection, trail: seq<Event>): Recollection
    decreases |trail|, 1
  {
    if trail == [] then m else Replayed(r, m, trail)
  }

  function Replayed(r: Reader, m: Recollection, trail: seq<Event>): Recollection
    requires trail != []
    decreases |trail|, 0
  {
    Told(r, Replay(r, m, trail[..|trail| - 1]), trail[|trail| - 1])
  }

  lemma ReplayOne(r: Reader, m: Recollection, trail: seq<Event>, e: Event)
    ensures Replay(r, m, trail + [e]) == Told(r, Replay(r, m, trail), e)
  {
    assert (trail + [e])[..|trail|] == trail;
    assert Replay(r, m, trail + [e]) == Replayed(r, m, trail + [e]);
  }

  /** Removed accounts have no first balance. */
  function Forgotten(olds: map<Address, Option<nat>>, removed: set<Address>): map<Address, Option<nat>> {
    olds + map a | a in removed :: None
  }

  lemma ForgottenTwice(olds: map<Address, Option<nat>>, x: set<Address>, y: set<Address>)
    ensures Forgotten(Forgotten(olds, x), y) == Forgotten(olds, x + y)
  {
  }

  lemma Joined(x: seq<Event>, y: seq<Event>, z: seq<Event>)
    ensures x + y + z == x + (y + z)
  {
  }

  /** What is remembered between transactions, when no checkpoint is active. */
  function Between(olds: map<Address, Option<nat>>): Recollection {
    Recollection(olds, map a | a in olds :: 0, 0)
  }

  // ---------------------------------------------------------------------------------------
  // What the account operations do

  function SubTrail(w: World, a: Address, decr: nat): seq<Event> {
    if decr != 0 then [Fetched(a)] else if a in w then [Asked(a)] else [Asked(a), Fetched(a)]
  }

  function AddTrail(w: World, a: Address, incr: nat, mode: CleanupMode): seq<Event> {
    if incr != 0 then [Fetched(a)]
    else if mode.NoEmpty? then []
    else if mode.ForceCreate? <==> a !in w then [Asked(a), Fetched(a)]
    else [Asked(a)]
  }

  function TransferTrail(w: World, from: Address, to: Address, amount: nat, mode: CleanupMode, start: nat): seq<Event>
    requires amount <= Balance(w, from)
  {
    SubTrail(w, from, amount) + AddTrail(SubBalance(w, from, amount, start), to, amount, mode)
  }

  function StorageTrail(w: World, a: Address, key: H256, value: H256): seq<Event> {
    if StorageAt(w, a, key) != value then [Asked(a), Fetched(a)] else [Asked(a)]
  }
}
