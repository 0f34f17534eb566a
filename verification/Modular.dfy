/** Powers and remainders of natural numbers. */
module Modular {

  function Pow(b: nat, e: nat): nat {
    if e == 0 then 1 else b * Pow(b, e - 1)
  }

  lemma MulGrows(x: nat, y: nat, z: nat)
    requires x <= y
    ensures x * z <= y * z
  {
  }

  /** A quotient and a small remainder determine the number, and the other way round. */
  lemma DivModUnique(q: nat, r: nat, m: nat)
    requires r < m
    ensures (q * m + r) % m == r && (q * m + r) / m == q
  {
    var x := q * m + r;
    var q', r' := x / m, x % m;
    assert x == q' * m + r';
    if q < q' {
      MulGrows(q + 1, q', m);
    } else if q' < q {
      MulGrows(q' + 1, q, m);
    }
  }

  /** Division with remainder, kept apart so that proofs can use it one step at a time. */
  function Quot(a: nat, b: nat): nat
    requires b > 0
  {
    a / b
  }

  function Rem(a: nat, b: nat): (r: nat)
    requires b > 0
    ensures r < b
  {
    a % b
  }

  lemma QuotRem(a: nat, b: nat)
    requires b > 0
    ensures a == Quot(a, b) * b + Rem(a, b)
  {
  }

  lemma MulDistributes(x: nat, y: nat, z: nat)
    ensures (x + y) * z == x * z + y * z
  {
  }

  lemma MulShuffles(x: nat, y: nat, z: nat)
    ensures x * y * z == x * z * y
  {
  }

  lemma AddMultiple(k: nat, x: nat, m: nat)
    requires 0 < m
    ensures (k * m + x) % m == x % m
  {
    var s, t := x / m, x % m;
    assert x == s * m + t;
    MulDistributes(k, s, m);
    DivModUnique(k + s, t, m);
  }

  /** Reducing a factor first does not change the product's remainder. */
  lemma ModMul(a: nat, b: nat, m: nat)
    requires 0 < m
    ensures (a % m) * b % m == a * b % m
  {
    ModMulParts(a / m, a % m, b, m);
    assert a == (a / m) * m + a % m;
  }

  lemma ModMulParts(q: nat, r: nat, b: nat, m: nat)
    requires 0 < m
    ensures (q * m + r) * b % m == r * b % m
  {
    MulDistributes(q * m, r, b);
    MulShuffles(q, m, b);
    AddMultiple(q * b, r * b, m);
  }

  lemma ModMulBoth(a: nat, b: nat, m: nat)
    requires 0 < m
    ensures (a % m) * (b % m) % m == a * b % m
  {
    ModMul(a, b % m, m);
    ModMul(b, a, m);
  }

  lemma {:induction false} PowMod(b: nat, e: nat, m: nat)
    requires 0 < m
    ensures Pow(b % m, e) % m == Pow(b, e) % m
  {
    if e != 0 {
      PowMod(b, e - 1, m);
      ModMulBoth(b % m, Pow(b % m, e - 1), m);
      ModMulBoth(b, Pow(b, e - 1), m);
      assert (b % m) % m == b % m by {
        DivModUnique(0, b % m, m);
      }
    }
  }

  lemma {:induction false} PowSquare(b: nat, e: nat)
    ensures Pow(b, 2 * e) == Pow(b * b, e)
  {
    if e != 0 {
      PowSquare(b, e - 1);
      var p := Pow(b, 2 * (e - 1));
      assert Pow(b, 2 * e) == b * (b * p);
      assert b * (b * p) == (b * b) * p;
    }
  }

  lemma {:induction false} PowAdd(b: nat, d: nat, e: nat)
    ensures Pow(b, d + e) == Pow(b, d) * Pow(b, e)
  {
    if d != 0 {
      PowAdd(b, d - 1, e);
      var p, q := Pow(b, d - 1), Pow(b, e);
      assert b * (p * q) == (b * p) * q;
    }
  }

  lemma {:induction false} PowPositive(b: nat, e: nat)
    requires 0 < b
    ensures 0 < Pow(b, e)
  {
    if e != 0 {
      PowPositive(b, e - 1);
    }
  }

  // ---------------------------------------------------------------------------------------
  // Binary length

  /** The number of binary digits; zero has none. */
  function BitLen(n: nat): nat {
    if n == 0 then 0 else 1 + BitLen(n / 2)
  }

  /** The digit count tells between which powers of two a number lies. */
  lemma {:induction false} BitLenBounds(n: nat)
    ensures n < Pow(2, BitLen(n))
    ensures n > 0 ==> Pow(2, BitLen(n) - 1) <= n
  {
    if n != 0 {
      BitLenBounds(n / 2);
    }
  }

  lemma {:induction false} BitLenBelow(n: nat, k: nat)
    requires n < Pow(2, k)
    ensures BitLen(n) <= k
  {
    if n != 0 {
      assert k != 0;
      BitLenBelow(n / 2, k - 1);
    }
  }
}
