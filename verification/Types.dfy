/** Names shared by every module: hashes, addresses, options, account records and small helpers. */
module Types {

  type H256 = nat
  type Address = nat
  type Bytes = seq<nat>

  datatype Option<+T> = None | Some(value: T)

  /** One account. Storage slots that are absent hold zero. */
  datatype Account = Account(balance: nat, nonce: nat, code: Bytes, storage: map<H256, H256>)

  function Get<K, V>(m: map<K, V>, k: K): Option<V> {
    if k in m then Some(m[k]) else None
  }

  const U64_LIMIT: nat := 0x1_0000_0000_0000_0000

  function Min(a: nat, b: nat): nat { if a <= b then a else b }
  function Max(a: nat, b: nat): nat { if a >= b then a else b }

  /** `n` times the same value. */
  function Repeat<T>(x: T, n: nat): seq<T> {
    seq(n, _ => x)
  }
}
