/** Modular exponentiation as a built-in contract, and its price (EIP-198). */
module Modexp {
  import opened Types
  import opened Modular

  type Byte = n: nat | n < 256

  // ---------------------------------------------------------------------------------------
  // The number

  /** What EIP-198 asks for: `base` to the `exp`, modulo `modulus`, and zero without a modulus. */
  function ModPow(base: nat, exp: nat, modulus: nat): nat {
    if modulus == 0 then 0 else Pow(base, exp) % modulus
  }

  lemma ZeroBase(base: nat, exp: nat, modulus: nat)
    requires modulus > 0 && exp > 0 && base % modulus == 0
    ensures Pow(base, exp) % modulus == 0
  {
    var p := Pow(base, exp - 1);
    ModMul(base, p, modulus);
    assert 0 * p == 0;
    DivModUnique(0, 0, modulus);
  }

  /** One round of the loop keeps the remainder of `result * base^exp`. */
  lemma RoundKeeps(result: nat, base: nat, exp: nat, modulus: nat)
    requires modulus > 0 && exp > 0
    ensures var result' := if exp % 2 == 1 then (result * base) % modulus else result;
            var base' := (base * base) % modulus;
            result' * Pow(base', exp / 2) % modulus == result * Pow(base, exp) % modulus
  {
    var half := exp / 2;
    var square := Pow(base * base, half);
    PowSquare(base, half);
    if exp % 2 == 1 {
      assert Pow(base, exp) == base * square;
      assert result * (base * square) == (result * base) * square;
      ReducedTwice(result * base, base * base, half, modulus);
    } else {
      assert Pow(base, exp) == square;
      ReducedTwice(result, base * base, half, modulus);
      ModMul(result, Pow((base * base) % modulus, half), modulus);
    }
  }

  lemma ReducedTwice(r: nat, b: nat, e: nat, m: nat)
    requires 0 < m
    ensures (r % m) * Pow(b % m, e) % m == r * Pow(b, e) % m
  {
    PowMod(b, e, m);
    ModMul(r, Pow(b % m, e), m);
    ModMulBoth(r, Pow(b % m, e), m);
    ModMulBoth(r, Pow(b, e), m);
  }

  /** The remainder that is left to compute. */
  ghost function Rest(result: nat, base: nat, exp: nat, modulus: nat): nat
    requires modulus > 0
  {
    result * Pow(base, exp) % modulus
  }

  /** One round of the loop. */
  method Round(result: nat, base: nat, exp: nat, modulus: nat) returns (result': nat, base': nat, exp': nat)
    requires exp > 0 && result < modulus
    ensures Rest(result', base', exp', modulus) == Rest(result, base, exp, modulus)
    ensures result' < modulus && exp' < exp && BitLen(exp) == 1 + BitLen(exp')
  {
    RoundKeeps(result, base, exp, modulus);
    result' := result;
    if exp % 2 == 1 {
      result' := (result * base) % modulus;
    }
    exp' := exp / 2;
    base' := (base * base) % modulus;
  }

  /** Exponentiation by squaring. `rounds` counts the rounds of the loop. */
  method ModexpBySquaring(base0: nat, exp0: nat, modulus: nat) returns (r: nat, ghost rounds: nat)
    ensures r == ModPow(base0, exp0, modulus)
    ensures rounds <= BitLen(exp0)
  {
    rounds := 0;
    if modulus <= 1 {
      return 0, rounds;
    }
    if exp0 == 0 {
      return 1, rounds;
    }
    if base0 == 0 {
      ZeroBase(base0, exp0, modulus);
      return 0, rounds;
    }
    var result: nat := 1;
    var base: nat, exp: nat := base0 % modulus, exp0;
    if base == 0 {
      ZeroBase(base0, exp0, modulus);
      return 0, rounds;
    }
    PowMod(base0, exp0, modulus);
    assert Rest(result, base, exp, modulus) == ModPow(base0, exp0, modulus);
    while exp != 0
      invariant Rest(result, base, exp, modulus) == ModPow(base0, exp0, modulus)
      invariant result < modulus
      invariant rounds + BitLen(exp) == BitLen(exp0)
      decreases exp
    {
      result, base, exp := Round(result, base, exp, modulus);
      rounds := rounds + 1;
    }
    r := result;
    assert Rest(result, base, 0, modulus) == result by {
      DivModUnique(0, result, modulus);
    }
  }

  // ---------------------------------------------------------------------------------------
  // Bytes

  function FromBe(b: seq<Byte>): nat {
    if b == [] then 0 else FromBe(b[..|b| - 1]) * 256 + b[|b| - 1]
  }

  /** The shortest big-endian form; zero is one byte. */
  function ToBe(n: nat): (b: seq<Byte>)
    ensures |b| >= 1 && FromBe(b) == n
  {
    if n < 256 then
      assert [n][..0] == [];
      [n]
    else
      var b := ToBe(n / 256) + [n % 256];
      assert b[..|b| - 1] == ToBe(n / 256);
      b
  }

  lemma {:induction false} ToBeShort(n: nat, k: nat)
    requires n < Pow(256, k) && 1 <= k
    ensures |ToBe(n)| <= k
  {
    assert Pow(256, 1) == 256;
    if n >= 256 {
      ToBeShort(n / 256, k - 1);
    }
  }

  lemma {:induction false} FromBeBound(b: seq<Byte>)
    ensures FromBe(b) < Pow(256, |b|)
  {
    if b != [] {
      FromBeBound(b[..|b| - 1]);
    }
  }

  lemma {:induction false} FromBeAppend(a: seq<Byte>, b: seq<Byte>)
    ensures FromBe(a + b) == FromBe(a) * Pow(256, |b|) + FromBe(b)
  {
    if b == [] {
      assert a + b == a;
    } else {
      var init := b[..|b| - 1];
      FromBeAppend(a, init);
      assert (a + b)[..|a + b| - 1] == a + init;
      var x, p := FromBe(a), Pow(256, |init|);
      assert x * (256 * p) == (x * p) * 256;
    }
  }

  lemma {:induction false} FromBeZeros(n: nat)
    ensures FromBe(Repeat<Byte>(0, n)) == 0
  {
    if n != 0 {
      assert Repeat<Byte>(0, n)[..n - 1] == Repeat<Byte>(0, n - 1);
      FromBeZeros(n - 1);
    }
  }

  /** `len` bytes of the input from `start` on; past its end the input is zero. */
  function Read(input: seq<Byte>, start: nat, len: nat): seq<Byte> {
    seq(len, i requires 0 <= i < len => if start + i < |input| then input[start + i] else 0)
  }

  lemma ReadSplit(input: seq<Byte>, start: nat, len: nat, k: nat)
    requires k <= len
    ensures Read(input, start, len) == Read(input, start, k) + Read(input, start + k, len - k)
  {
  }

  lemma ReadPastEnd(input: seq<Byte>, start: nat, len: nat)
    requires |input| <= start
    ensures FromBe(Read(input, start, len)) == 0
  {
    assert Read(input, start, len) == Repeat<Byte>(0, len);
    FromBeZeros(len);
  }

  // ---------------------------------------------------------------------------------------
  // The contract

  /** The three lengths at the head of the input, as 32-byte words. */
  function LengthWord(input: seq<Byte>, k: nat): nat {
    FromBe(Read(input, 32 * k, 32))
  }

  /** The lengths as the contract reads them: the last eight bytes of each word. */
  function ShortLength(input: seq<Byte>, k: nat): nat {
    FromBe(Read(input, 32 * k + 24, 8))
  }

  /** The two readings agree for every length below 2^64, so for every length that can be paid for. */
  lemma LengthsAgree(input: seq<Byte>, k: nat)
    requires LengthWord(input, k) < U64_LIMIT
    ensures ShortLength(input, k) == LengthWord(input, k)
  {
    ReadSplit(input, 32 * k, 32, 24);
    var high := Read(input, 32 * k, 24);
    FromBeAppend(high, Read(input, 32 * k + 24, 8));
    assert Pow(256, 8) == 0x1_0000_0000_0000_0000 by {
      assert Pow(256, 2) == 65536;
      PowAdd(256, 2, 2);
      PowAdd(256, 4, 4);
    }
    if FromBe(high) > 0 {
      MulGrows(1, FromBe(high), Pow(256, 8));
    }
  }

  datatype Operands = Operands(base: nat, exp: nat, modulus: nat)

  /** The operands, one after another behind the three words. */
  function OperandsOf(input: seq<Byte>, baseLen: nat, expLen: nat, modLen: nat): Operands {
    Operands(FromBe(Read(input, 96, baseLen)),
             FromBe(Read(input, 96 + baseLen, expLen)),
             FromBe(Read(input, 96 + baseLen + expLen, modLen)))
  }

  /** A number as 32 bytes. */
  function Word(n: nat): (b: seq<Byte>)
    requires n < Pow(256, 32)
    ensures |b| == 32
  {
    ToBeShort(n, 32);
    Repeat<Byte>(0, 32 - |ToBe(n)|) + ToBe(n)
  }

  lemma WordIsNumber(n: nat)
    requires n < Pow(256, 32)
    ensures FromBe(Word(n)) == n
  {
    ToBeShort(n, 32);
    FromBeZeros(32 - |ToBe(n)|);
    FromBeAppend(Repeat<Byte>(0, 32 - |ToBe(n)|), ToBe(n));
  }

  /** The input as EIP-198 has it written: the three lengths as words, then base, exponent and modulus. */
  function Encoded(base: seq<Byte>, exp: seq<Byte>, modulus: seq<Byte>): seq<Byte>
    requires |base| < Pow(256, 32) && |exp| < Pow(256, 32) && |modulus| < Pow(256, 32)
  {
    Word(|base|) + Word(|exp|) + Word(|modulus|) + base + exp + modulus
  }

  /** Reading an encoded input gives the three lengths and the three numbers back. */
  lemma {:induction false} DecodesEncoded(base: seq<Byte>, exp: seq<Byte>, modulus: seq<Byte>)
    requires |base| < Pow(256, 32) && |exp| < Pow(256, 32) && |modulus| < Pow(256, 32)
    ensures var input := Encoded(base, exp, modulus);
            && LengthWord(input, 0) == |base| && LengthWord(input, 1) == |exp| && LengthWord(input, 2) == |modulus|
            && OperandsOf(input, |base|, |exp|, |modulus|) == Operands(FromBe(base), FromBe(exp), FromBe(modulus))
  {
    var head := Word(|base|) + Word(|exp|) + Word(|modulus|);
    var body := base + exp + modulus;
    var input := Encoded(base, exp, modulus);
    assert input == head + body;
    HeadDecodes(|base|, |exp|, |modulus|, body);
    ReadsPart(head, base, exp + modulus);
    assert input == head + base + (exp + modulus);
    ReadsPart(head + base, exp, modulus);
    ReadsPart(head + base + exp, modulus, []);
    assert input == head + base + exp + modulus + [];
  }

  lemma HeadDecodes(x: nat, y: nat, z: nat, body: seq<Byte>)
    requires x < Pow(256, 32) && y < Pow(256, 32) && z < Pow(256, 32)
    ensures var input := Word(x) + Word(y) + Word(z) + body;
            LengthWord(input, 0) == x && LengthWord(input, 1) == y && LengthWord(input, 2) == z
  {
    var input := Word(x) + Word(y) + Word(z) + body;
    WordIsNumber(x);
    WordIsNumber(y);
    WordIsNumber(z);
    assert input == [] + Word(x) + (Word(y) + Word(z) + body);
    ReadsPart([], Word(x), Word(y) + Word(z) + body);
    assert input == Word(x) + Word(y) + (Word(z) + body);
    ReadsPart(Word(x), Word(y), Word(z) + body);
    ReadsPart(Word(x) + Word(y), Word(z), body);
  }

  lemma ReadsPart(before: seq<Byte>, part: seq<Byte>, after: seq<Byte>)
    ensures Read(before + part + after, |before|, |part|) == part
  {
  }

  /** Runs the contract: the output is exactly as long as the modulus and holds the power, left padded
      with zeros. */
  method Execute(input: seq<Byte>) returns (output: seq<Byte>, ghost rounds: nat)
    ensures var baseLen, expLen, modLen := ShortLength(input, 0), ShortLength(input, 1), ShortLength(input, 2);
            var o := OperandsOf(input, baseLen, expLen, modLen);
            |output| == modLen && FromBe(output) == ModPow(o.base, o.exp, o.modulus)
    ensures rounds <= BitLen(OperandsOf(input, ShortLength(input, 0), ShortLength(input, 1), ShortLength(input, 2)).exp)
    ensures ShortLength(input, 0) == 0 && ShortLength(input, 2) == 0 ==> rounds == 0
  {
    var baseLen, expLen, modLen := ShortLength(input, 0), ShortLength(input, 1), ShortLength(input, 2);
    ghost var o := OperandsOf(input, baseLen, expLen, modLen);
    FromBeBound(Read(input, 96 + baseLen + expLen, modLen));
    var r: nat := 0;
    rounds := 0;
    if !(baseLen == 0 && modLen == 0) {
      var base := FromBe(Read(input, 96, baseLen));
      var exp := FromBe(Read(input, 96 + baseLen, expLen));
      var modulus := FromBe(Read(input, 96 + baseLen + expLen, modLen));
      r, rounds := ModexpBySquaring(base, exp, modulus);
    }
    assert r == ModPow(o.base, o.exp, o.modulus);
    var bytes := ToBe(r);
    output := [];
    if modLen > 0 {
      PowPositive(256, modLen);
      ToBeShort(r, modLen);
    }
    if |bytes| <= modLen {
      var start := modLen - |bytes|;
      output := Repeat<Byte>(0, start) + bytes;
      FromBeZeros(start);
      FromBeAppend(Repeat<Byte>(0, start), bytes);
    }
  }
}
