/** Differences between plain account states, and putting them back on. */
module PodDiff {
  import opened Types

  /** An account as plain data; `code` is `None` when it is unknown. */
  datatype PodAccount = PodAccount(balance: nat, nonce: nat, code: Option<Bytes>, storage: map<H256, H256>)

  type PodState = map<Address, PodAccount>

  datatype Diff<+T> = Same | Born(after: T) | Changed(before: T, after: T) | Died(before: T)

  datatype AccountDiff = AccountDiff(
    balance: Diff<nat>,
    nonce: Diff<nat>,
    code: Diff<Bytes>,
    storage: map<H256, Diff<H256>>)

  function NewDiff<T(==)>(pre: T, post: T): Diff<T> {
    if pre == post then Same else Changed(pre, post)
  }

  function Slot(a: PodAccount, key: H256): H256 {
    if key in a.storage then a.storage[key] else 0
  }

  /** Code must be known where an account appears or disappears. */
  predicate CodeKnown(pre: Option<PodAccount>, post: Option<PodAccount>) {
    match (pre, post)
    case (None, Some(x)) => x.code.Some?
    case (Some(x), None) => x.code.Some?
    case _ => true
  }

  function DiffStorage(pre: PodAccount, post: PodAccount): map<H256, Diff<H256>> {
    map k | k in pre.storage.Keys + post.storage.Keys && Slot(pre, k) != Slot(post, k) ::
      NewDiff(Slot(pre, k), Slot(post, k))
  }

  function DiffPod(pre: Option<PodAccount>, post: Option<PodAccount>): Option<AccountDiff>
    requires CodeKnown(pre, post)
  {
    match (pre, post)
    case (None, Some(x)) =>
      Some(AccountDiff(Born(x.balance), Born(x.nonce), Born(x.code.value),
                       map k | k in x.storage :: Born(x.storage[k])))
    case (Some(x), None) =>
      Some(AccountDiff(Died(x.balance), Died(x.nonce), Died(x.code.value),
                       map k | k in x.storage :: Died(x.storage[k])))
    case (Some(pre), Some(post)) =>
      var code := if pre.code.Some? && post.code.Some? then NewDiff(pre.code.value, post.code.value) else Same;
      var d := AccountDiff(NewDiff(pre.balance, post.balance), NewDiff(pre.nonce, post.nonce), code,
                           DiffStorage(pre, post));
      if d.balance.Same? && d.nonce.Same? && d.code.Same? && d.storage == map[] then None else Some(d)
    case (None, None) => None
  }

  function DiffState(pre: PodState, post: PodState): map<Address, AccountDiff>
    requires forall a :: CodeKnown(Get(pre, a), Get(post, a))
  {
    map a | a in pre.Keys + post.Keys && DiffPod(Get(pre, a), Get(post, a)).Some? ::
      DiffPod(Get(pre, a), Get(post, a)).value
  }

  // ---------------------------------------------------------------------------------------
  // Putting a difference back on

  function Patched<T>(value: T, d: Diff<T>): T {
    if d.Born? || d.Changed? then d.after else value
  }

  function PatchAccount(pre: Option<PodAccount>, d: Option<AccountDiff>): Option<PodAccount> {
    match d
    case None => pre
    case Some(d) =>
      if d.balance.Died? then None
      else
        var was := if pre.Some? then pre.value else PodAccount(0, 0, Some([]), map[]);
        Some(PodAccount(Patched(was.balance, d.balance), Patched(was.nonce, d.nonce),
                        match d.code { case Same => was.code case Died(_) => None case c => Some(c.after) },
                        was.storage + map k | k in d.storage && (d.storage[k].Born? || d.storage[k].Changed?) ::
                                         d.storage[k].after))
  }

  /** Equal up to storage slots that hold zero. */
  ghost predicate Alike(a: Option<PodAccount>, b: Option<PodAccount>) {
    match (a, b)
    case (Some(x), Some(y)) =>
      x.balance == y.balance && x.nonce == y.nonce && x.code == y.code && forall k :: Slot(x, k) == Slot(y, k)
    case (None, None) => true
    case _ => false
  }

  /** The difference of two accounts, put on the first, gives the second; and there is no difference
      exactly when they are alike. */
  lemma DiffRoundTrip(pre: Option<PodAccount>, post: Option<PodAccount>)
    requires pre.Some? ==> pre.value.code.Some?
    requires post.Some? ==> post.value.code.Some?
    ensures Alike(PatchAccount(pre, DiffPod(pre, post)), post)
    ensures DiffPod(pre, post).None? <==> Alike(pre, post)
  {
    if pre.Some? && post.Some? {
      var d := DiffStorage(pre.value, post.value);
      forall k ensures Slot(pre.value, k) == Slot(post.value, k) <==> k !in d {
      }
      assert (forall k :: Slot(pre.value, k) == Slot(post.value, k)) <==> d == map[];
    }
  }

  function Unpatched<T>(value: T, d: Diff<T>): T {
    if d.Died? || d.Changed? then d.before else value
  }

  /** Taking a difference back off. */
  function UnpatchAccount(post: Option<PodAccount>, d: Option<AccountDiff>): Option<PodAccount> {
    match d
    case None => post
    case Some(d) =>
      if d.balance.Born? then None
      else
        var now := if post.Some? then post.value else PodAccount(0, 0, Some([]), map[]);
        Some(PodAccount(Unpatched(now.balance, d.balance), Unpatched(now.nonce, d.nonce),
                        match d.code { case Same => now.code case Born(_) => None case c => Some(c.before) },
                        now.storage + map k | k in d.storage && (d.storage[k].Died? || d.storage[k].Changed?) ::
                                        d.storage[k].before))
  }

  /** The difference of two accounts, taken off the second, gives the first. */
  lemma DiffTakenOff(pre: Option<PodAccount>, post: Option<PodAccount>)
    requires pre.Some? ==> pre.value.code.Some?
    requires post.Some? ==> post.value.code.Some?
    ensures Alike(UnpatchAccount(post, DiffPod(pre, post)), pre)
  {
    DiffRoundTrip(pre, post);
    if pre.Some? && post.Some? {
      forall k ensures k in DiffStorage(pre.value, post.value) <==> Slot(pre.value, k) != Slot(post.value, k) {
        StorageDiffExact(pre.value, post.value, k);
      }
    }
  }

  /** The storage difference of a surviving account lists exactly the slots whose values differ. */
  lemma StorageDiffExact(pre: PodAccount, post: PodAccount, k: H256)
    ensures k in DiffStorage(pre, post) <==> Slot(pre, k) != Slot(post, k)
    ensures k in DiffStorage(pre, post) ==> DiffStorage(pre, post)[k] == Changed(Slot(pre, k), Slot(post, k))
  {
  }

  function PatchState(pre: PodState, d: map<Address, AccountDiff>): PodState {
    map a | a in pre.Keys + d.Keys && PatchAccount(Get(pre, a), Get(d, a)).Some? ::
      PatchAccount(Get(pre, a), Get(d, a)).value
  }

  /** The round trip for whole states, and the accounts listed are exactly those that differ. */
  lemma StateRoundTrip(pre: PodState, post: PodState, a: Address)
    requires forall b :: b in pre ==> pre[b].code.Some?
    requires forall b :: b in post ==> post[b].code.Some?
    ensures forall b :: CodeKnown(Get(pre, b), Get(post, b))
    ensures Alike(Get(PatchState(pre, DiffState(pre, post)), a), Get(post, a))
    ensures a in DiffState(pre, post) <==> !Alike(Get(pre, a), Get(post, a))
  {
    DiffRoundTrip(Get(pre, a), Get(post, a));
    var d := DiffState(pre, post);
    assert Get(d, a) == DiffPod(Get(pre, a), Get(post, a));
    assert Get(PatchState(pre, d), a) == PatchAccount(Get(pre, a), Get(d, a));
  }
}
