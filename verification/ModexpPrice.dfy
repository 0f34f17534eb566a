/** The price of modular exponentiation, as the code computes it in 64-bit arithmetic and as EIP-198
    writes it down. */
module ModexpPrice {
  import opened Types
  import opened Modular
  import opened Modexp

  const U256_MAX: nat := 0xffff_ffff_ffff_ffff_ffff_ffff_ffff_ffff_ffff_ffff_ffff_ffff_ffff_ffff_ffff_ffff
  const MAX_LEN: nat := 0x7fff_ffff

  function Mul(a: nat, b: nat): nat { a * b }

  /** The position of the highest bit of a word; zero for zero. */
  function HighestBit(word: nat): nat {
    if word == 0 then 0 else BitLen(word) - 1
  }

  function AdjustedExpLen(len: nat, expLow: nat): nat {
    if len <= 32 then HighestBit(expLow) else 8 * (len - 32) + HighestBit(expLow)
  }

  /** The product is never negative and, for every length that is not refused, fits in 64 bits. */
  function MultComplexity(x: nat): (c: nat)
    ensures x <= MAX_LEN ==> x * x < U64_LIMIT && c < U64_LIMIT
  {
    assert x <= MAX_LEN ==> x * x <= MAX_LEN * MAX_LEN by {
      if x <= MAX_LEN {
        MulGrows(x, MAX_LEN, x);
        MulGrows(x, MAX_LEN, MAX_LEN);
      }
    }
    if x <= 64 then x * x
    else if x <= 1024 then x * x / 4 + 96 * x - 3072
    else x * x / 16 + 480 * x - 199680
  }

  /** A longer operand never makes the multiplication cheaper, across all three pieces. */
  lemma {:induction false} MultComplexityMonotone(x: nat, y: nat)
    requires x <= y
    ensures MultComplexity(x) <= MultComplexity(y)
  {
    MulGrows(x, y, x);
    MulGrows(x, y, y);
    assert x * x <= y * y;
    if x <= 64 < y {
      MulGrows(x, 64, x);
      MulGrows(x, 64, 64);
      MulGrows(65, y, 65);
      MulGrows(65, y, y);
      assert y * y >= 4225;
    }
    if 64 < x <= 1024 < y {
      MulGrows(x, 1024, x);
      MulGrows(x, 1024, 1024);
      MulGrows(1025, y, 1025);
      MulGrows(1025, y, y);
      assert y * y >= 1050625 && x * x <= 1048576;
    }
  }

  /** The first word of the exponent, as the pricer reads it. */
  function FirstWord(input: seq<Byte>, baseLen: nat, expLen: nat): nat {
    if baseLen + 96 >= |input| then 0
    else FromBe(Read(input, 96 + baseLen, Min(expLen, 32)))
  }

  /** The price in gas. */
  function Cost(input: seq<Byte>, divisor: nat): nat
    requires divisor > 0
  {
    var baseLen, expLen, modLen := LengthWord(input, 0), LengthWord(input, 1), LengthWord(input, 2);
    if modLen == 0 && baseLen == 0 then 0
    else if baseLen > MAX_LEN || modLen > MAX_LEN || expLen > MAX_LEN then U256_MAX
    else
      var adjusted := AdjustedExpLen(expLen, FirstWord(input, baseLen, expLen));
      var gas := Mul(MultComplexity(Max(modLen, baseLen)), Max(adjusted, 1));
      if gas >= U64_LIMIT then U256_MAX else Quot(gas, divisor)
  }

  // ---------------------------------------------------------------------------------------
  // EIP-198

  /** The first 32 bytes of an exponent of `len` bytes, or all of it. */
  function Head(exp: nat, len: nat): nat {
    if len <= 32 then exp
    else
      PowPositive(256, len - 32);
      Quot(exp, Pow(256, len - 32))
  }

  /** The index of the highest bit that is set, counting from the lowest, as the proposal asks for. */
  function TopBit(x: nat): nat {
    if x < 2 then 0 else 1 + TopBit(x / 2)
  }

  /** What a multiplication of numbers of `x` bytes counts for, and what the exponent counts for. */
  function EipComplexity(x: nat): int {
    if x <= 64 then x * x
    else if x <= 1024 then x * x / 4 + 96 * x - 3072
    else x * x / 16 + 480 * x - 199680
  }

  function EipAdjusted(len: nat, exp: nat): nat {
    8 * (if len <= 32 then 0 else len - 32) + TopBit(Head(exp, len))
  }

  /** The price the proposal gives, over numbers of any size. */
  function EipCost(baseLen: nat, expLen: nat, modLen: nat, exp: nat, divisor: nat): nat
    requires divisor > 0
  {
    ComplexityIsEip(Max(modLen, baseLen));
    Quot(Mul(EipComplexity(Max(modLen, baseLen)), Max(EipAdjusted(expLen, exp), 1)), divisor)
  }

  lemma ComplexityIsEip(x: nat)
    ensures MultComplexity(x) == EipComplexity(x) >= 0
  {
  }

  lemma {:induction false} HighestIsTop(word: nat)
    ensures HighestBit(word) == TopBit(word)
    ensures word > 0 ==> Pow(2, TopBit(word)) <= word < 2 * Pow(2, TopBit(word))
  {
    assert BitLen(1) == 1;
    if word >= 2 {
      HighestIsTop(word / 2);
    }
  }

  lemma AdjustedIsEip(len: nat, exp: nat)
    ensures AdjustedExpLen(len, Head(exp, len)) == EipAdjusted(len, exp)
  {
    HighestIsTop(Head(exp, len));
  }

  /** The word the pricer reads is the head of the exponent the contract computes with. */
  lemma FirstWordIsHead(input: seq<Byte>, baseLen: nat, expLen: nat)
    ensures FirstWord(input, baseLen, expLen) == Head(FromBe(Read(input, 96 + baseLen, expLen)), expLen)
  {
    var start := 96 + baseLen;
    if |input| <= start {
      ReadPastEnd(input, start, expLen);
      if expLen > 32 {
        PowPositive(256, expLen - 32);
        DivModUnique(0, 0, Pow(256, expLen - 32));
      }
    } else if expLen > 32 {
      ReadSplit(input, start, expLen, 32);
      var low := Read(input, start + 32, expLen - 32);
      FromBeAppend(Read(input, start, 32), low);
      FromBeBound(low);
      DivModUnique(FromBe(Read(input, start, 32)), FromBe(low), Pow(256, expLen - 32));
    }
  }

  /** When the price is not the proposal's: a length above the limit, or a product above 64 bits. */
  predicate Saturates(input: seq<Byte>) {
    var baseLen, expLen, modLen := LengthWord(input, 0), LengthWord(input, 1), LengthWord(input, 2);
    && !(modLen == 0 && baseLen == 0)
    && (baseLen > MAX_LEN || modLen > MAX_LEN || expLen > MAX_LEN ||
        Mul(MultComplexity(Max(modLen, baseLen)),
            Max(AdjustedExpLen(expLen, FirstWord(input, baseLen, expLen)), 1)) >= U64_LIMIT)
  }

  /** The code charges the proposal's price, or saturates to the maximum. */
  lemma {:induction false} CostIsEip(input: seq<Byte>, divisor: nat)
    requires divisor > 0
    ensures var baseLen, expLen, modLen := LengthWord(input, 0), LengthWord(input, 1), LengthWord(input, 2);
            var exp := FromBe(Read(input, 96 + baseLen, expLen));
            Cost(input, divisor) ==
            if Saturates(input) then U256_MAX else EipCost(baseLen, expLen, modLen, exp, divisor)
    ensures Cost(input, divisor) == U256_MAX <==> Saturates(input)
  {
    var baseLen, expLen, modLen := LengthWord(input, 0), LengthWord(input, 1), LengthWord(input, 2);
    FirstWordIsHead(input, baseLen, expLen);
    ComplexityIsEip(Max(modLen, baseLen));
    AdjustedIsEip(expLen, FromBe(Read(input, 96 + baseLen, expLen)));
    if modLen == 0 && baseLen == 0 {
      ZeroProduct(Max(AdjustedExpLen(expLen, FirstWord(input, baseLen, expLen)), 1), divisor);
    }
  }

  lemma ZeroProduct(x: nat, divisor: nat)
    requires divisor > 0
    ensures Quot(Mul(0, x), divisor) == 0
  {
  }

  /** No step of the computation leaves 64 bits: the word that is read has at most 256 of them. */
  lemma AdjustedFits(input: seq<Byte>, baseLen: nat, expLen: nat)
    requires baseLen <= MAX_LEN && expLen <= MAX_LEN
    ensures baseLen + 96 < U64_LIMIT
    ensures AdjustedExpLen(expLen, FirstWord(input, baseLen, expLen)) < U64_LIMIT
    ensures HighestBit(FirstWord(input, baseLen, expLen)) <= 255
  {
    var word := FirstWord(input, baseLen, expLen);
    if word != 0 {
      var bytes := Read(input, 96 + baseLen, Min(expLen, 32));
      FromBeBound(bytes);
      BytesToBits(|bytes|);
      BitLenBelow(word, 8 * |bytes|);
    }
  }

  lemma {:induction false} BytesToBits(k: nat)
    ensures Pow(256, k) == Pow(2, 8 * k)
  {
    if k != 0 {
      BytesToBits(k - 1);
      PowAdd(2, 8, 8 * (k - 1));
      assert Pow(2, 8) == 256 by {
        assert Pow(2, 4) == 16;
        PowAdd(2, 4, 4);
      }
    }
  }

  // ---------------------------------------------------------------------------------------
  // Work is paid for

  /** For every exponent of `len` bytes, the number of its bits is at most the adjusted length plus
      one. */
  lemma BitsArePriced(exp: nat, len: nat)
    requires exp < Pow(256, len)
    ensures BitLen(exp) <= AdjustedExpLen(len, Head(exp, len)) + 1
  {
    if len > 32 {
      var k := len - 32;
      PowPositive(256, k);
      BytesToBits(k);
      QuotRem(exp, Pow(256, k));
      HeadBits(Quot(exp, Pow(256, k)), Rem(exp, Pow(256, k)), 8 * k);
    }
  }

  lemma HeadBits(head: nat, low: nat, k: nat)
    requires low < Pow(2, k)
    ensures BitLen(head * Pow(2, k) + low) <= BitLen(head) + k
  {
    var h := BitLen(head);
    BitLenBounds(head);
    MulGrows(head + 1, Pow(2, h), Pow(2, k));
    MulDistributes(head, 1, Pow(2, k));
    PowAdd(2, h, k);
    BitLenBelow(head * Pow(2, k) + low, h + k);
  }

  /** The rounds of the loop on any input are at most the length that the pricer charges for, plus
      one. */
  lemma RoundsArePriced(input: seq<Byte>, baseLen: nat, expLen: nat)
    ensures BitLen(FromBe(Read(input, 96 + baseLen, expLen)))
         <= AdjustedExpLen(expLen, FirstWord(input, baseLen, expLen)) + 1
  {
    FirstWordIsHead(input, baseLen, expLen);
    FromBeBound(Read(input, 96 + baseLen, expLen));
    BitsArePriced(FromBe(Read(input, 96 + baseLen, expLen)), expLen);
  }

  /** On every input that has a price, the contract gives what EIP-198 asks for at the full 256-bit lengths, and
      its loop runs at most one round more than the length that is charged for. */
  method ExecutePriced(input: seq<Byte>) returns (output: seq<Byte>, ghost rounds: nat)
    requires !Saturates(input)
    ensures var baseLen, expLen, modLen := LengthWord(input, 0), LengthWord(input, 1), LengthWord(input, 2);
            var o := OperandsOf(input, baseLen, expLen, modLen);
            |output| == modLen && FromBe(output) == ModPow(o.base, o.exp, o.modulus)
    ensures var baseLen, expLen := LengthWord(input, 0), LengthWord(input, 1);
            rounds <= AdjustedExpLen(expLen, FirstWord(input, baseLen, expLen)) + 1
  {
    ghost var baseLen, expLen, modLen := LengthWord(input, 0), LengthWord(input, 1), LengthWord(input, 2);
    LengthsAgree(input, 0);
    LengthsAgree(input, 2);
    output, rounds := Execute(input);
    if !(baseLen == 0 && modLen == 0) {
      LengthsAgree(input, 1);
      RoundsArePriced(input, baseLen, expLen);
    }
  }
}
