/** Ethash: the sizes of its data sets, the memo of seed hashes and the two-slot light cache. */
module Ethash {
  import opened Types

  const DATASET_BYTES_INIT: nat := 0x4000_0000
  const DATASET_BYTES_GROWTH: nat := 0x80_0000
  const CACHE_BYTES_INIT: nat := 0x100_0000
  const CACHE_BYTES_GROWTH: nat := 0x2_0000
  const ETHASH_EPOCH_LENGTH: nat := 30000
  const ETHASH_MIX_BYTES: nat := 128
  const NODE_BYTES: nat := 64

  function Epoch(blockNumber: nat): nat {
    blockNumber / ETHASH_EPOCH_LENGTH
  }

  // ---------------------------------------------------------------------------------------
  // Sizes

  predicate Divides(d: nat, n: nat) {
    d != 0 && n % d == 0
  }

  predicate IsPrime(n: nat) {
    n >= 2 && forall d :: 2 <= d < n ==> !Divides(d, n)
  }

  /** `p` is the largest prime that is not above `bound`. */
  ghost predicate LargestPrime(p: nat, bound: nat) {
    IsPrime(p) && p <= bound && NoPrimeAbove(p, bound)
  }

  ghost predicate NoPrimeAbove(n: nat, bound: nat) {
    forall q: nat :: q <= bound && IsPrime(q) ==> q <= n
  }

  function CacheBound(epoch: nat): nat {
    CACHE_BYTES_INIT + CACHE_BYTES_GROWTH * epoch
  }

  function DataBound(epoch: nat): nat {
    DATASET_BYTES_INIT + DATASET_BYTES_GROWTH * epoch
  }

  lemma ThreeIsPrime()
    ensures IsPrime(3)
  {
  }

  lemma EvenNotPrime(n: nat)
    requires n > 2 && n % 2 == 0
    ensures !IsPrime(n)
  {
    assert Divides(2, n);
  }

  /** From an odd number that is not prime, two steps down skip no prime and stay above two. */
  lemma StepDown(n: nat, bound: nat)
    requires n % 2 == 1 && n >= 3 && !IsPrime(n)
    requires NoPrimeAbove(n, bound)
    ensures n - 2 >= 3 && NoPrimeAbove(n - 2, bound)
  {
    ThreeIsPrime();
    EvenNotPrime(n - 1);
  }

  /** The size of the light cache: the node size times the largest prime within the epoch's bound. The
      search ends without going below zero, for every block whose bound fits in 64 bits. */
  method GetCacheSize(blockNumber: nat) returns (size: nat)
    requires CacheBound(Epoch(blockNumber)) < U64_LIMIT
    ensures size % NODE_BYTES == 0
    ensures LargestPrime(size / NODE_BYTES, CacheBound(Epoch(blockNumber)) / NODE_BYTES)
  {
    var sz := CACHE_BYTES_INIT + CACHE_BYTES_GROWTH * (blockNumber / ETHASH_EPOCH_LENGTH);
    ghost var half := CACHE_BYTES_INIT / NODE_BYTES / 2 + CACHE_BYTES_GROWTH / NODE_BYTES / 2 * Epoch(blockNumber);
    ghost var bound := 2 * half;
    assert sz == bound * NODE_BYTES;
    EvenNotPrime(bound);
    sz := sz - NODE_BYTES;
    ghost var n := bound - 1;
    while !IsPrime(sz / NODE_BYTES)
      invariant sz == n * NODE_BYTES && n % 2 == 1 && 3 <= n < bound
      invariant NoPrimeAbove(n, bound)
      decreases n
    {
      StepDown(n, bound);
      sz := sz - 2 * NODE_BYTES;
      n := n - 2;
    }
    size := sz;
  }

  /** The size of the full data set, in the same way with the mix size. */
  method GetDataSize(blockNumber: nat) returns (size: nat)
    requires DataBound(Epoch(blockNumber)) < U64_LIMIT
    ensures size % ETHASH_MIX_BYTES == 0
    ensures LargestPrime(size / ETHASH_MIX_BYTES, DataBound(Epoch(blockNumber)) / ETHASH_MIX_BYTES)
  {
    var sz := DATASET_BYTES_INIT + DATASET_BYTES_GROWTH * (blockNumber / ETHASH_EPOCH_LENGTH);
    ghost var half := DATASET_BYTES_INIT / ETHASH_MIX_BYTES / 2
                      + DATASET_BYTES_GROWTH / ETHASH_MIX_BYTES / 2 * Epoch(blockNumber);
    ghost var bound := 2 * half;
    assert sz == bound * ETHASH_MIX_BYTES;
    EvenNotPrime(bound);
    sz := sz - ETHASH_MIX_BYTES;
    ghost var n := bound - 1;
    while !IsPrime(sz / ETHASH_MIX_BYTES)
      invariant sz == n * ETHASH_MIX_BYTES && n % 2 == 1 && 3 <= n < bound
      invariant NoPrimeAbove(n, bound)
      decreases n
    {
      StepDown(n, bound);
      sz := sz - 2 * ETHASH_MIX_BYTES;
      n := n - 2;
    }
    size := sz;
  }

  /** A size is determined by its epoch, and later epochs never have smaller ones. */
  lemma SizesMonotone(p: nat, q: nat, early: nat, late: nat)
    requires early <= late
    requires || (LargestPrime(p, CacheBound(early) / NODE_BYTES) && LargestPrime(q, CacheBound(late) / NODE_BYTES))
             || (&& LargestPrime(p, DataBound(early) / ETHASH_MIX_BYTES)
                 && LargestPrime(q, DataBound(late) / ETHASH_MIX_BYTES))
    ensures p <= q && (early == late ==> p == q)
  {
    assert CacheBound(early) / NODE_BYTES <= CacheBound(late) / NODE_BYTES;
    assert DataBound(early) / ETHASH_MIX_BYTES <= DataBound(late) / ETHASH_MIX_BYTES;
  }

  // ---------------------------------------------------------------------------------------
  // Seed hashes

  function Iterate(f: H256 -> H256, n: nat, x: H256): H256 {
    if n == 0 then x else f(Iterate(f, n - 1, x))
  }

  lemma {:induction false} IterateAdds(f: H256 -> H256, m: nat, n: nat, x: H256)
    ensures Iterate(f, m + n, x) == Iterate(f, n, Iterate(f, m, x))
  {
    if n != 0 {
      IterateAdds(f, m, n - 1, x);
    }
  }

  /** Remembers the last seed hash and goes on from there when it can. */
  class SeedHashCompute {
    const keccak: H256 -> H256
    var prevEpoch: nat
    var prevSeedhash: H256

    ghost predicate Valid()
      reads this
    {
      prevSeedhash == Iterate(keccak, prevEpoch, 0)
    }

    constructor (keccak: H256 -> H256)
      ensures Valid() && this.keccak == keccak
    {
      this.keccak, prevEpoch, prevSeedhash := keccak, 0, 0;
    }

    method ResetCache()
      modifies this
      ensures Valid() && prevEpoch == 0
    {
      prevEpoch, prevSeedhash := 0, 0;
    }

    /** The seed hash of an epoch is the hash iterated from zero, whatever was asked before. */
    method HashEpoch(epoch: nat) returns (r: H256)
      requires Valid()
      modifies this
      ensures Valid() && r == Iterate(keccak, epoch, 0) && prevEpoch == epoch
    {
      if epoch < prevEpoch {
        ResetCache();
      }
      if epoch > prevEpoch {
        var seedHash := ResumeComputeSeedhash(keccak, prevSeedhash, prevEpoch, epoch);
        IterateAdds(keccak, prevEpoch, epoch - prevEpoch, 0);
        prevSeedhash := seedHash;
        prevEpoch := epoch;
      }
      r := prevSeedhash;
    }

    static method ResumeComputeSeedhash(keccak: H256 -> H256, hash: H256, start: nat, end: nat) returns (r: H256)
      ensures r == if start <= end then Iterate(keccak, end - start, hash) else hash
    {
      r := hash;
      var i := start;
      while i < end
        invariant start <= end ==> start <= i <= end && r == Iterate(keccak, i - start, hash)
        invariant end < start ==> i == start && r == hash
      {
        r := keccak(r);
        i := i + 1;
      }
    }
  }

  // ---------------------------------------------------------------------------------------
  // The light cache

  /** A light cache built for a block; everything it computes depends on the block's epoch only. */
  datatype Light = Light(blockNumber: nat)

  predicate Newer(a: Option<nat>, b: Option<nat>) {
    a.Some? && (b.None? || a.value > b.value)
  }

  class LightCache {
    var recentEpoch: Option<nat>
    var recent: Option<Light>
    var prevEpoch: Option<nat>
    var prev: Option<Light>

    /** A slot and its epoch tag are set together and agree. */
    ghost predicate Tagged(tag: Option<nat>, light: Option<Light>) {
      match (tag, light)
      case (Some(e), Some(l)) => Epoch(l.blockNumber) == e
      case (None, None) => true
      case _ => false
    }

    ghost predicate Valid()
      reads this
    {
      && Tagged(recentEpoch, recent)
      && Tagged(prevEpoch, prev)
      && (prevEpoch.Some? ==> recentEpoch.Some? && prevEpoch != recentEpoch)
    }

    constructor ()
      ensures Valid()
    {
      recentEpoch, recent, prevEpoch, prev := None, None, None, None;
    }

    /** The light for a block: always one built for the block's epoch, which is then the recent one.
        `fromFile` is what the cache file gives, if there is one. */
    method LightFor(blockNumber: nat, fromFile: Option<Light>) returns (light: Light)
      requires Valid()
      requires fromFile.Some? ==> Epoch(fromFile.value.blockNumber) == Epoch(blockNumber)
      modifies this
      ensures Valid()
      ensures Epoch(light.blockNumber) == Epoch(blockNumber)
      ensures recentEpoch == Some(Epoch(blockNumber)) && recent == Some(light)
      ensures old(recentEpoch) != recentEpoch ==> prevEpoch == old(recentEpoch) && prev == old(recent)
      ensures old(recentEpoch) == recentEpoch ==> light == old(recent).value && prevEpoch == old(prevEpoch)
    {
      var epoch := blockNumber / ETHASH_EPOCH_LENGTH;
      var found: Option<Light> := None;
      if recentEpoch == Some(epoch) {
        found := recent;
      } else if prevEpoch == Some(epoch) {
        if !Newer(recentEpoch, prevEpoch) {
          recentEpoch, prevEpoch := prevEpoch, recentEpoch;
          recent, prev := prev, recent;
          found := recent;
        }
      }
      match found {
        case None =>
          light := if fromFile.Some? then fromFile.value else Light(blockNumber);
          prevEpoch, recentEpoch := recentEpoch, Some(epoch);
          prev, recent := recent, Some(light);
        case Some(l) =>
          light := l;
      }
    }
  }
}
