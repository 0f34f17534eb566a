/** The search for a brain-wallet phrase: an odometer over lists of candidate words. */
module Phrases {
  import opened Types
  import opened Modular

  type Words = seq<seq<string>>

  /** How many phrases there are. */
  function Product(words: Words): nat {
    if words == [] then 1 else Product(words[..|words| - 1]) * |words[|words| - 1]|
  }

  /** One position per list, each within its list. */
  ghost predicate Fits(ix: seq<nat>, words: Words) {
    |ix| == |words| && forall i :: 0 <= i < |ix| ==> ix[i] < |words[i]|
  }

  /** The number of positions before `ix`, counting the last list fastest. */
  function Rank(ix: seq<nat>, words: Words): nat
    requires |ix| == |words|
  {
    if ix == [] then 0
    else
      var last := |ix| - 1;
      Rank(ix[..last], words[..last]) * |words[last]| + ix[last]
  }

  /** The positions with rank `k`. */
  function Digits(k: nat, words: Words): (ix: seq<nat>)
    requires forall i :: 0 <= i < |words| ==> words[i] != []
    ensures |ix| == |words|
    decreases |words|
  {
    if words == [] then []
    else
      var last := |words| - 1;
      Digits(Quot(k, |words[last]|), words[..last]) + [Rem(k, |words[last]|)]
  }

  lemma {:induction false} RankBelowProduct(ix: seq<nat>, words: Words)
    requires Fits(ix, words)
    ensures Rank(ix, words) < Product(words)
  {
    if ix != [] {
      var last := |ix| - 1;
      RankBelowProduct(ix[..last], words[..last]);
      MulGrows(Rank(ix[..last], words[..last]) + 1, Product(words[..last]), |words[last]|);
      MulDistributes(Rank(ix[..last], words[..last]), 1, |words[last]|);
    }
  }

  /** Every position tuple is found at its rank ... */
  lemma {:induction false} DigitsOfRank(ix: seq<nat>, words: Words)
    requires Fits(ix, words)
    ensures forall i :: 0 <= i < |words| ==> words[i] != []
    ensures Digits(Rank(ix, words), words) == ix
  {
    if ix != [] {
      var last := |ix| - 1;
      DigitsOfRank(ix[..last], words[..last]);
      assert forall i :: 0 <= i < last ==> words[i] == words[..last][i];
      DivModUnique(Rank(ix[..last], words[..last]), ix[last], |words[last]|);
    }
  }

  /** ... and every rank below the product has its tuple, so ranks number the tuples exactly once. */
  lemma {:induction false} RankOfDigits(k: nat, words: Words)
    requires forall i :: 0 <= i < |words| ==> words[i] != []
    requires k < Product(words)
    ensures Fits(Digits(k, words), words) && Rank(Digits(k, words), words) == k
    decreases |words|
  {
    if words != [] {
      var last := |words| - 1;
      var n := |words[last]|;
      var q := Quot(k, n);
      QuotRem(k, n);
      if q >= Product(words[..last]) {
        MulGrows(Product(words[..last]), q, n);
      }
      RankOfDigits(q, words[..last]);
      assert Digits(k, words)[..last] == Digits(q, words[..last]);
    }
  }

  /** `ix` comes before `jx` in dictionary order. */
  ghost predicate LexLess(ix: seq<nat>, jx: seq<nat>) {
    |ix| == |jx| && exists d :: 0 <= d < |ix| && ix[..d] == jx[..d] && ix[d] < jx[d]
  }

  /** Ranks follow the dictionary order. */
  lemma {:induction false} RankLexicographic(ix: seq<nat>, jx: seq<nat>, words: Words)
    requires Fits(ix, words) && Fits(jx, words)
    requires LexLess(ix, jx)
    ensures Rank(ix, words) < Rank(jx, words)
  {
    var d :| 0 <= d < |ix| && ix[..d] == jx[..d] && ix[d] < jx[d];
    var last := |ix| - 1;
    var n := |words[last]|;
    if d == last {
      assert ix[..last] == jx[..last];
    } else {
      assert ix[..last][..d] == ix[..d] && jx[..last][..d] == jx[..d];
      assert LexLess(ix[..last], jx[..last]);
      RankLexicographic(ix[..last], jx[..last], words[..last]);
      var a, b := Rank(ix[..last], words[..last]), Rank(jx[..last], words[..last]);
      MulGrows(a + 1, b, n);
      MulDistributes(a, 1, n);
    }
  }

  /** The next positions, and whether there are any: carrying past the first list starts over. */
  function Next(ix: seq<nat>, words: Words): (seq<nat>, bool)
    requires |ix| == |words|
  {
    if ix == [] then ([], false)
    else
      var last := |ix| - 1;
      if ix[last] + 1 < |words[last]| then (ix[..last] + [ix[last] + 1], true)
      else
        var (rest, more) := Next(ix[..last], words[..last]);
        (rest + [0], more)
  }

  lemma {:induction false} NextFits(ix: seq<nat>, words: Words)
    requires Fits(ix, words)
    ensures Fits(Next(ix, words).0, words)
  {
    if ix != [] {
      var last := |ix| - 1;
      NextFits(ix[..last], words[..last]);
    }
  }

  /** Stepping adds one to the rank, or says that the last tuple was reached. */
  lemma {:induction false} NextRank(ix: seq<nat>, words: Words)
    requires Fits(ix, words)
    ensures var (jx, more) := Next(ix, words);
            && Fits(jx, words)
            && (more ==> Rank(jx, words) == Rank(ix, words) + 1)
            && (!more ==> Rank(ix, words) == Product(words) - 1)
  {
    NextFits(ix, words);
    if ix != [] {
      var last := |ix| - 1;
      var n := |words[last]|;
      NextRank(ix[..last], words[..last]);
      if ix[last] + 1 < n {
        assert (ix[..last] + [ix[last] + 1])[..last] == ix[..last];
      } else {
        var rest := Next(ix[..last], words[..last]).0;
        assert (rest + [0])[..last] == rest;
        Carries(Rank(ix[..last], words[..last]), n);
      }
    }
  }

  /** The last position of `r` lists of `n` is followed by the first of the next one. */
  lemma Carries(r: nat, n: nat)
    requires n > 0
    ensures (r + 1) * n == r * n + (n - 1) + 1
  {
    MulDistributes(r, 1, n);
  }

  /** The words at the positions, joined by blanks. */
  function Phrase(words: Words, ix: seq<nat>): string
    requires |ix| == |words| && ix != []
    requires forall i :: 0 <= i < |ix| ==> ix[i] < |words[i]|
  {
    var last := |ix| - 1;
    if last == 0 then words[0][ix[0]]
    else Phrase(words[..last], ix[..last]) + " " + words[last][ix[last]]
  }

  class PhrasesIterator {
    const words: Words
    const combinations: nat
    var indexes: seq<nat>
    var hasNext: bool
    /** How many phrases were handed out. */
    ghost var produced: nat

    ghost predicate Valid()
      reads this
    {
      && combinations == Product(words)
      && (hasNext ==> Fits(indexes, words) && produced == Rank(indexes, words))
      && (!hasNext ==> produced == combinations)
    }

    constructor (words: Words)
      ensures Valid() && this.words == words && produced == 0
    {
      this.words := words;
      var product := 1;
      var i := 0;
      while i < |words|
        invariant 0 <= i <= |words| && product == Product(words[..i])
      {
        assert words[..i + 1][..i] == words[..i];
        product := product * |words[i]|;
        i := i + 1;
      }
      assert words[..|words|] == words;
      combinations := product;
      indexes := Repeat<nat>(0, |words|);
      hasNext := product > 0;
      produced := 0;
      new;
      if hasNext {
        NoneEmpty(words);
        ZeroRank(words);
      }
    }

    method Current() returns (s: string)
      requires words != [] && Fits(indexes, words)
      ensures s == Phrase(words, indexes)
    {
      s := words[0][indexes[0]];
      var i := 1;
      while i < |indexes|
        invariant 1 <= i <= |indexes|
        invariant s == Phrase(words[..i], indexes[..i])
      {
        assert words[..i + 1][..i] == words[..i] && indexes[..i + 1][..i] == indexes[..i];
        s := s + " " + words[i][indexes[i]];
        i := i + 1;
      }
      assert words[..|words|] == words && indexes[..|indexes|] == indexes;
    }

    /** The carry loop, from the last list to the first. */
    method NextIndex() returns (more: bool)
      requires |indexes| == |words|
      modifies this`indexes
      ensures (indexes, more) == Next(old(indexes), words)
    {
      ghost var ix := indexes;
      var pos := |indexes|;
      assert ix[..pos] == ix && words[..pos] == words;
      assert Next(ix, words).0 + Repeat<nat>(0, 0) == Next(ix, words).0;
      while pos > 0
        invariant 0 <= pos <= |indexes| == |ix|
        invariant indexes == ix[..pos] + Repeat<nat>(0, |ix| - pos)
        invariant Next(ix, words) == (Next(ix[..pos], words[..pos]).0 + Repeat<nat>(0, |ix| - pos),
                                      Next(ix[..pos], words[..pos]).1)
      {
        pos := pos - 1;
        assert ix[..pos + 1][..pos] == ix[..pos] && words[..pos + 1][..pos] == words[..pos];
        assert Repeat<nat>(0, |ix| - pos) == [0] + Repeat<nat>(0, |ix| - (pos + 1));
        if indexes[pos] + 1 >= |words[pos]| {
          indexes := indexes[pos := 0];
          ghost var rest := Next(ix[..pos], words[..pos]).0;
          assert (rest + [0]) + Repeat<nat>(0, |ix| - (pos + 1)) == rest + Repeat<nat>(0, |ix| - pos);
        } else {
          indexes := indexes[pos := indexes[pos] + 1];
          assert indexes == (ix[..pos] + [ix[pos] + 1]) + Repeat<nat>(0, |ix| - (pos + 1));
          return true;
        }
      }
      return false;
    }

    /** The phrases come in dictionary order of their positions, each exactly once; afterwards there
        are none, for ever. */
    method NextPhrase() returns (r: Option<string>)
      requires Valid() && words != []
      modifies this
      ensures Valid()
      ensures old(produced) == combinations ==> r == None && produced == combinations
      ensures old(produced) != combinations ==>
                && produced == old(produced) + 1 <= combinations
                && (forall i :: 0 <= i < |words| ==> words[i] != [])
                && Fits(Digits(old(produced), words), words)
                && r == Some(Phrase(words, Digits(old(produced), words)))
    {
      if !hasNext {
        return None;
      }
      var phrase := Current();
      RankBelowProduct(indexes, words);
      DigitsOfRank(indexes, words);
      NextRank(indexes, words);
      hasNext := NextIndex();
      produced := produced + 1;
      r := Some(phrase);
    }
  }

  lemma {:induction false} ZeroRank(words: Words)
    ensures Rank(Repeat<nat>(0, |words|), words) == 0
  {
    if words != [] {
      var last := |words| - 1;
      assert Repeat<nat>(0, |words|)[..last] == Repeat<nat>(0, last);
      ZeroRank(words[..last]);
    }
  }

  lemma {:induction false} NoneEmpty(words: Words)
    requires Product(words) > 0
    ensures forall i :: 0 <= i < |words| ==> words[i] != []
  {
    if words != [] {
      var last := |words| - 1;
      NoneEmpty(words[..last]);
      forall i | 0 <= i < |words| ensures words[i] != [] {
        if i < last {
          assert words[i] == words[..last][i];
        }
      }
    }
  }
}
