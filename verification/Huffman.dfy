/**
 Canonical Huffman codes (RFC 1951 section 3.2.2): the codes generated from a list
 of code lengths. A list that meets the Kraft inequality yields a prefix-free code, one
 that meets it with equality a code that covers every bit string; in any other list two
 symbols share the codeword of zeros.
 */
module Huffman {
  import opened BitSequence
  import opened Arithmetic

  /** How many entries of s equal l. */
  function Count(s: seq<nat>, l: nat): nat {
    if s == [] then 0
    else Count(s[..|s| - 1], l) + (if s[|s| - 1] == l then 1 else 0)
  }

  /** The smallest code of length l, as the standard defines it (lengths of zero do not count). */
  function FirstCode(lengths: seq<nat>, l: nat): nat {
    if l <= 1 then 0 else 2 * (FirstCode(lengths, l - 1) + Count(lengths, l - 1))
  }

  /** Codes of one length are handed out consecutively in symbol order. */
  function CanonicalCode(lengths: seq<nat>, symbol: nat): nat
    requires symbol < |lengths|
  {
    FirstCode(lengths, lengths[symbol]) + Count(lengths[..symbol], lengths[symbol])
  }

  /** The code as it appears in the bit stream, most significant bit first. */
  function Codeword(lengths: seq<nat>, symbol: nat): (w: seq<bool>)
    requires symbol < |lengths|
    ensures |w| == lengths[symbol]
  {
    MsbBits(CanonicalCode(lengths, symbol), lengths[symbol])
  }

  /** The share of the 2^max bit strings of length max taken by the codes. */
  function KraftSum(lengths: seq<nat>, max: nat): nat
    requires Bounded(lengths, max)
  {
    if lengths == [] then 0
    else KraftSum(lengths[..|lengths| - 1], max) + Share(lengths[|lengths| - 1], max)
  }

  function Share(length: nat, max: nat): nat
    requires length <= max
  {
    if length == 0 then 0 else Pow2(max - length)
  }

  predicate Bounded(lengths: seq<nat>, max: nat) {
    forall i :: 0 <= i < |lengths| ==> lengths[i] <= max
  }

  /** Kraft equality: the code uses up all bit strings exactly. */
  predicate CompleteCode(lengths: seq<nat>, max: nat) {
    Bounded(lengths, max) && KraftSum(lengths, max) == Pow2(max)
  }

  /** Kraft inequality: the codes do not use up more bit strings than there are. */
  predicate FittingCode(lengths: seq<nat>, max: nat) {
    Bounded(lengths, max) && KraftSum(lengths, max) <= Pow2(max)
  }

  /** Fewer than two symbols have a code. */
  ghost predicate AtMostOne(lengths: seq<nat>) {
    forall s, t :: Present(lengths, s) && Present(lengths, t) ==> s == t
  }

  /** The lists that have a decoding table: complete ones, and those with fewer than two symbols. */
  ghost predicate UsableCode(lengths: seq<nat>, max: nat) {
    CompleteCode(lengths, max) || (Bounded(lengths, max) && AtMostOne(lengths))
  }

  predicate Present(lengths: seq<nat>, symbol: nat) {
    symbol < |lengths| && lengths[symbol] > 0
  }

  // Left-aligned codes tile the numbers below 2^max, length by length.

  /** Where the codes of length l begin once every code is padded to max bits. */
  function Base(lengths: seq<nat>, max: nat, l: nat): nat
    requires l <= max + 1
  {
    if l <= 1 then 0 else Base(lengths, max, l - 1) + Count(lengths, l - 1) * Pow2(max - (l - 1))
  }

  lemma {:induction false} BaseIsFirstCode(lengths: seq<nat>, max: nat, l: nat)
    requires 1 <= l <= max
    ensures Base(lengths, max, l) == FirstCode(lengths, l) * Pow2(max - l)
  {
    if l > 1 {
      BaseIsFirstCode(lengths, max, l - 1);
      var f, c, p := FirstCode(lengths, l - 1), Count(lengths, l - 1), Pow2(max - l);
      assert Pow2(max - (l - 1)) == 2 * p;
      Distribute(f, c, 2 * p);
      MulAssociates(f + c, 2, p);
    }
  }

  lemma {:induction false} BaseGrows(lengths: seq<nat>, max: nat, l: nat, m: nat)
    requires l <= m <= max + 1
    ensures Base(lengths, max, l) <= Base(lengths, max, m)
    decreases m
  {
    if l < m {
      BaseGrows(lengths, max, l, m - 1);
    }
  }

  lemma {:induction false} BaseOfAppend(lengths: seq<nat>, x: nat, max: nat, l: nat)
    requires l <= max + 1 && x <= max
    ensures Base(lengths + [x], max, l) == Base(lengths, max, l) + (if 1 <= x < l then Pow2(max - x) else 0)
    decreases l
  {
    if l > 1 {
      BaseOfAppend(lengths, x, max, l - 1);
      assert (lengths + [x])[..|lengths|] == lengths;
      var c, p := Count(lengths, l - 1), Pow2(max - (l - 1));
      Distribute(c, 1, p);
    }
  }

  lemma {:induction false} KraftSumIsBase(lengths: seq<nat>, max: nat)
    requires Bounded(lengths, max)
    ensures KraftSum(lengths, max) == Base(lengths, max, max + 1)
    decreases |lengths|
  {
    if lengths == [] {
      BaseOfNothing(max, max + 1);
    } else {
      var n := |lengths| - 1;
      KraftSumIsBase(lengths[..n], max);
      BaseOfAppend(lengths[..n], lengths[n], max, max + 1);
      assert lengths == lengths[..n] + [lengths[n]];
    }
  }

  lemma {:induction false} BaseOfNothing(max: nat, l: nat)
    requires l <= max + 1
    ensures Base([], max, l) == 0
    decreases l
  {
    if l > 1 {
      BaseOfNothing(max, l - 1);
    }
  }

  // Ranks: the position of a symbol among those of its length.

  lemma {:induction false} CountOfPrefix(s: seq<nat>, l: nat, i: nat, j: nat)
    requires i <= j <= |s|
    ensures Count(s[..i], l) <= Count(s[..j], l)
    ensures i < j && s[i] == l ==> Count(s[..i], l) < Count(s[..j], l)
    decreases j - i
  {
    if i < j {
      CountOfPrefix(s, l, i, j - 1);
      assert s[..j][..j - 1] == s[..j - 1];
    }
  }

  lemma {:induction false} SymbolOfRank(s: seq<nat>, l: nat, rank: nat) returns (symbol: nat)
    requires rank < Count(s, l)
    ensures symbol < |s| && s[symbol] == l && Count(s[..symbol], l) == rank
    decreases |s|
  {
    var n := |s| - 1;
    if rank < Count(s[..n], l) {
      symbol := SymbolOfRank(s[..n], l, rank);
      assert s[..n][..symbol] == s[..symbol];
    } else {
      symbol := n;
    }
  }

  /** The padded code of a symbol and the end of its slice lie within the slices of its length. */
  lemma PaddedCode(lengths: seq<nat>, max: nat, symbol: nat)
    requires Bounded(lengths, max) && Present(lengths, symbol)
    ensures var l := lengths[symbol]; var c := CanonicalCode(lengths, symbol);
            && Base(lengths, max, l) <= c * Pow2(max - l)
            && (c + 1) * Pow2(max - l) <= Base(lengths, max, l + 1)
  {
    var l := lengths[symbol];
    var f, r, p := FirstCode(lengths, l), Count(lengths[..symbol], l), Pow2(max - l);
    BaseIsFirstCode(lengths, max, l);
    CountOfPrefix(lengths, l, symbol, |lengths|);
    assert lengths[..|lengths|] == lengths;
    SliceBounds(f, r, Count(lengths, l), p);
  }

  lemma SliceBounds(f: nat, r: nat, n: nat, p: nat)
    requires r < n
    ensures f * p <= (f + r) * p && (f + r + 1) * p <= f * p + n * p
  {
    Distribute(f, r, p);
    Distribute(f, r + 1, p);
    MulMonotone(r + 1, n, p);
  }

  lemma DivBounds(v: nat, c: nat, p: nat)
    requires p >= 1
    ensures v / p == c <==> c * p <= v < (c + 1) * p
  {
    assert v == (v / p) * p + v % p;
    Distribute(c, 1, p);
    if c * p <= v < (c + 1) * p {
      ModIs(v, p, c, v - c * p);
    }
  }

  /** A complete list, and one with fewer than two symbols, meets the Kraft inequality. */
  lemma {:induction false} UsableFits(lengths: seq<nat>, max: nat)
    requires UsableCode(lengths, max)
    ensures FittingCode(lengths, max)
    decreases |lengths|
  {
    if !CompleteCode(lengths, max) && lengths != [] {
      var n := |lengths| - 1;
      if lengths[n] == 0 {
        assert AtMostOne(lengths[..n]) by {
          assert forall s :: Present(lengths[..n], s) ==> Present(lengths, s);
        }
        UsableFits(lengths[..n], max);
      } else {
        assert Present(lengths, n);
        forall i | 0 <= i < n
          ensures lengths[..n][i] == 0
        {
          assert Present(lengths, i) ==> i == n;
        }
        KraftOfZeros(lengths[..n], max);
        Pow2Monotone(max - lengths[n], max);
      }
    }
  }

  lemma {:induction false} KraftOfZeros(lengths: seq<nat>, max: nat)
    requires forall i :: 0 <= i < |lengths| ==> lengths[i] == 0
    ensures KraftSum(lengths, max) == 0
    decreases |lengths|
  {
    if lengths != [] {
      KraftOfZeros(lengths[..|lengths| - 1], max);
    }
  }

  lemma UsableIsBounded(lengths: seq<nat>, max: nat)
    requires UsableCode(lengths, max)
    ensures Bounded(lengths, max)
  {
  }

  lemma CompleteFits(lengths: seq<nat>, max: nat)
    requires CompleteCode(lengths, max)
    ensures FittingCode(lengths, max) && UsableCode(lengths, max)
  {
  }

  lemma CodeFits(lengths: seq<nat>, max: nat, symbol: nat)
    requires FittingCode(lengths, max) && Present(lengths, symbol)
    ensures CanonicalCode(lengths, symbol) < Pow2(lengths[symbol])
  {
    var l, c := lengths[symbol], CanonicalCode(lengths, symbol);
    PaddedCode(lengths, max, symbol);
    BaseGrows(lengths, max, l + 1, max + 1);
    KraftSumIsBase(lengths, max);
    Pow2Adds(l, max - l);
    hide Base, CanonicalCode, Pow2, KraftSum;
    if c >= Pow2(l) {
      Distribute(Pow2(l), 1, Pow2(max - l));
      MulMonotone(Pow2(l) + 1, c + 1, Pow2(max - l));
    }
  }

  /** Every number below the Kraft sum has exactly one symbol whose code it starts with: existence. */
  lemma SomeSymbolCovers(lengths: seq<nat>, max: nat, v: nat) returns (symbol: nat)
    requires Bounded(lengths, max) && v < KraftSum(lengths, max)
    ensures Present(lengths, symbol)
    ensures v / Pow2(max - lengths[symbol]) == CanonicalCode(lengths, symbol)
  {
    KraftSumIsBase(lengths, max);
    var l := LengthOfSlice(lengths, max, v, max + 1);
    BaseIsFirstCode(lengths, max, l);
    var rank := RankInSlice(FirstCode(lengths, l), Count(lengths, l), Pow2(max - l), v);
    symbol := SymbolOfRank(lengths, l, rank);
  }

  lemma RankInSlice(f: nat, n: nat, p: nat, v: nat) returns (rank: nat)
    requires p >= 1 && f * p <= v < f * p + n * p
    ensures rank < n && v / p == f + rank
  {
    rank := (v - f * p) / p;
    DivBounds(v - f * p, rank, p);
    Distribute(f, rank, p);
    Distribute(f, rank + 1, p);
    DivBounds(v, f + rank, p);
    if rank >= n {
      MulMonotone(n, rank, p);
    }
  }

  lemma {:induction false} LengthOfSlice(lengths: seq<nat>, max: nat, v: nat, top: nat) returns (l: nat)
    requires top <= max + 1 && v < Base(lengths, max, top)
    ensures 1 <= l < top && Base(lengths, max, l) <= v < Base(lengths, max, l + 1)
    decreases top
  {
    if Base(lengths, max, top - 1) <= v {
      l := top - 1;
    } else {
      l := LengthOfSlice(lengths, max, v, top - 1);
    }
  }

  /** Every number has at most one symbol whose code it starts with. */
  lemma OneSymbolCovers(lengths: seq<nat>, max: nat, v: nat, s: nat, t: nat)
    requires Bounded(lengths, max) && Present(lengths, s) && Present(lengths, t)
    requires v / Pow2(max - lengths[s]) == CanonicalCode(lengths, s)
    requires v / Pow2(max - lengths[t]) == CanonicalCode(lengths, t)
    ensures s == t
  {
    var ls, lt := lengths[s], lengths[t];
    PaddedCode(lengths, max, s);
    PaddedCode(lengths, max, t);
    DivBounds(v, CanonicalCode(lengths, s), Pow2(max - ls));
    DivBounds(v, CanonicalCode(lengths, t), Pow2(max - lt));
    if ls < lt {
      BaseGrows(lengths, max, ls + 1, lt);
    } else if lt < ls {
      BaseGrows(lengths, max, lt + 1, ls);
    } else if s < t {
      CountOfPrefix(lengths, ls, s, t);
    } else if t < s {
      CountOfPrefix(lengths, ls, t, s);
    }
  }

  // The same facts about bit strings.

  /** Starting with a codeword is starting with that number. */
  lemma StartsWithCodeword(lengths: seq<nat>, max: nat, symbol: nat, bits: seq<bool>)
    requires FittingCode(lengths, max) && Present(lengths, symbol) && |bits| == max
    ensures Codeword(lengths, symbol) <= bits
            <==> MsbValue(bits) / Pow2(max - lengths[symbol]) == CanonicalCode(lengths, symbol)
  {
    var l, c := lengths[symbol], CanonicalCode(lengths, symbol);
    CodeFits(lengths, max, symbol);
    MsbValueOfPrefix(bits, l);
    MsbValueOfBits(c, l);
    ModIs(c, Pow2(l), 0, c);
    MsbBitsOfValue(bits[..l]);
    if Codeword(lengths, symbol) <= bits {
      assert bits[..l] == Codeword(lengths, symbol);
    }
  }

  /** A complete code covers every bit string that is long enough. */
  lemma EveryStringIsCovered(lengths: seq<nat>, max: nat, bits: seq<bool>) returns (symbol: nat)
    requires CompleteCode(lengths, max) && |bits| >= max
    ensures Present(lengths, symbol) && Codeword(lengths, symbol) <= bits
  {
    var head := bits[..max];
    MsbValueBound(head);
    CompleteFits(lengths, max);
    symbol := SomeSymbolCovers(lengths, max, MsbValue(head));
    StartsWithCodeword(lengths, max, symbol, head);
  }

  /** Under the Kraft inequality a code is prefix-free: no bit string starts with two different codewords. */
  lemma PrefixFree(lengths: seq<nat>, max: nat, bits: seq<bool>, s: nat, t: nat)
    requires FittingCode(lengths, max) && Present(lengths, s) && Present(lengths, t)
    requires Codeword(lengths, s) <= bits && Codeword(lengths, t) <= bits
    ensures s == t
  {
    var padded := bits + seq(max, _ => false);
    var head := padded[..max];
    assert Codeword(lengths, s) <= head && Codeword(lengths, t) <= head;
    StartsWithCodeword(lengths, max, s, head);
    StartsWithCodeword(lengths, max, t, head);
    OneSymbolCovers(lengths, max, MsbValue(head), s, t);
  }

  // Lists that are not complete.

  /** The order of section 3.2.2 of RFC 1951: codes of one length in symbol order, shorter codes before longer ones. */
  lemma CanonicalOrder(lengths: seq<nat>, max: nat, s: nat, t: nat)
    requires Bounded(lengths, max) && Present(lengths, s) && Present(lengths, t)
    ensures lengths[s] == lengths[t] && s < t ==> CanonicalCode(lengths, s) < CanonicalCode(lengths, t)
    ensures var after, code := CanonicalCode(lengths, s) + 1, CanonicalCode(lengths, t);
            lengths[s] < lengths[t] ==> after * Pow2(max - lengths[s]) <= code * Pow2(max - lengths[t])
    ensures ComesFirst(lengths, s) ==> CanonicalCode(lengths, s) == 0
  {
    if lengths[s] == lengths[t] && s < t {
      CountOfPrefix(lengths, lengths[s], s, t);
    } else if lengths[s] < lengths[t] {
      PaddedCode(lengths, max, s);
      PaddedCode(lengths, max, t);
      BaseGrows(lengths, max, lengths[s] + 1, lengths[t]);
    }
    if ComesFirst(lengths, s) {
      FirstIsZero(lengths, s);
    }
  }

  /** The first symbol of the shortest length. */
  ghost predicate ComesFirst(lengths: seq<nat>, s: nat) {
    && Present(lengths, s)
    && forall u: nat :: Present(lengths, u) ==> lengths[s] < lengths[u] || (lengths[s] == lengths[u] && s <= u)
  }

  lemma FirstIsZero(lengths: seq<nat>, s: nat)
    requires ComesFirst(lengths, s)
    ensures CanonicalCode(lengths, s) == 0
  {
    NoneShorter(lengths, lengths[s]);
    NoneOf(lengths[..s], lengths[s]);
  }

  lemma {:induction false} NoneShorter(lengths: seq<nat>, l: nat)
    requires forall u: nat :: Present(lengths, u) ==> l <= lengths[u]
    ensures FirstCode(lengths, l) == 0
    decreases l
  {
    if l > 1 {
      NoneShorter(lengths, l - 1);
      forall i | 0 <= i < |lengths|
        ensures lengths[i] != l - 1
      {
        assert lengths[i] > 0 ==> Present(lengths, i);
      }
      NoneOf(lengths, l - 1);
    }
  }

  lemma {:induction false} NoneOf(s: seq<nat>, l: nat)
    requires forall i :: 0 <= i < |s| ==> s[i] != l
    ensures Count(s, l) == 0
    decreases |s|
  {
    if s != [] {
      NoneOf(s[..|s| - 1], l);
    }
  }

  /** Bits above the length of a code do not show in its codeword. */
  lemma MsbBitsMod(c: nat, n: nat)
    ensures MsbBits(c % Pow2(n), n) == MsbBits(c, n)
  {
    MsbValueOfBits(c, n);
    MsbBitsOfValue(MsbBits(c, n));
  }

  lemma {:induction false} MsbBitsOfZero(n: nat)
    ensures forall i :: 0 <= i < n ==> !MsbBits(0, n)[i]
  {
    if n > 0 {
      MsbBitsOfZero(n - 1);
    }
  }

  ghost predicate ZeroCodeword(lengths: seq<nat>, s: nat) {
    Present(lengths, s) && forall i :: 0 <= i < lengths[s] ==> !Codeword(lengths, s)[i]
  }

  lemma ZeroCode(lengths: seq<nat>, s: nat)
    requires Present(lengths, s) && CanonicalCode(lengths, s) % Pow2(lengths[s]) == 0
    ensures ZeroCodeword(lengths, s)
  {
    hide Pow2, CanonicalCode, MsbBits;
    MsbBitsMod(CanonicalCode(lengths, s), lengths[s]);
    MsbBitsOfZero(lengths[s]);
  }

  /** Codes longer than k bits take little of the code space. */
  lemma {:induction false} KraftOfLong(lengths: seq<nat>, max: nat, k: nat)
    requires Bounded(lengths, max) && k <= max && forall i :: 0 <= i < |lengths| && lengths[i] > 0 ==> lengths[i] > k
    ensures KraftSum(lengths, max) <= |lengths| * Pow2(max - k)
    decreases |lengths|
  {
    if lengths != [] {
      var n := |lengths| - 1;
      KraftOfLong(lengths[..n], max, k);
      if lengths[n] > 0 {
        Pow2Monotone(max - lengths[n], max - k);
      }
      Distribute(n, 1, Pow2(max - k));
    }
  }

  /** A list of fewer than 2^k symbols that breaks the Kraft inequality has a code of at most k bits. */
  lemma SomeShortCode(lengths: seq<nat>, max: nat, k: nat) returns (u: nat)
    requires Bounded(lengths, max) && KraftSum(lengths, max) > Pow2(max) && |lengths| <= Pow2(k)
    ensures Present(lengths, u) && lengths[u] <= k
  {
    if k >= max {
      u := SomeSymbolCovers(lengths, max, 0);
    } else if forall i :: 0 <= i < |lengths| && lengths[i] > 0 ==> lengths[i] > k {
      KraftOfLong(lengths, max, k);
      MulMonotone(|lengths|, Pow2(k), Pow2(max - k));
      Pow2Adds(k, max - k);
      assert false;
    } else {
      u :| 0 <= u < |lengths| && 0 < lengths[u] <= k;
    }
  }

  /** The symbol whose slice starts at 0 has one of the shortest codes. */
  lemma FirstIsShortest(lengths: seq<nat>, max: nat, s: nat, u: nat)
    requires Bounded(lengths, max) && Present(lengths, s) && Present(lengths, u) && CanonicalCode(lengths, s) == 0
    ensures lengths[s] <= lengths[u]
  {
    hide CanonicalCode, Pow2;
    PaddedCode(lengths, max, s);
    PaddedCode(lengths, max, u);
    if lengths[u] < lengths[s] {
      var p := Pow2(max - lengths[u]);
      MulMonotone(1, CanonicalCode(lengths, u) + 1, p);
      BaseGrows(lengths, max, lengths[u] + 1, lengths[s]);
    }
  }

  /**
   A list that breaks the Kraft inequality has two symbols whose codeword, reduced to its length, is
   all zeros: the first symbol, and the one whose code has overflowed; the first has a short code.
   */
  lemma TwoZeroCodewords(lengths: seq<nat>, max: nat, k: nat) returns (s: nat, t: nat)
    requires Bounded(lengths, max) && KraftSum(lengths, max) > Pow2(max) && |lengths| <= Pow2(k)
    ensures s != t && ZeroCodeword(lengths, s) && ZeroCodeword(lengths, t) && lengths[s] <= k
  {
    hide CanonicalCode, KraftSum, ZeroCodeword, Pow2;
    s := SomeSymbolCovers(lengths, max, 0);
    t := SomeSymbolCovers(lengths, max, Pow2(max));
    var u := SomeShortCode(lengths, max, k);
    var l, m := lengths[s], lengths[t];
    ModIs(0, Pow2(max - l), 0, 0);
    ModIs(0, Pow2(l), 0, 0);
    Pow2Adds(m, max - m);
    MulCommutes(Pow2(m), Pow2(max - m));
    ModIs(Pow2(max), Pow2(max - m), Pow2(m), 0);
    ModIs(Pow2(m), Pow2(m), 1, 0);
    ZeroCode(lengths, s);
    ZeroCode(lengths, t);
    FirstIsShortest(lengths, max, s, u);
  }

  lemma MulCommutes(a: nat, b: nat)
    ensures a * b == b * a
  {
  }

  /** In a list below Kraft equality no codeword is all ones. */
  lemma NoOnes(lengths: seq<nat>, max: nat, s: nat)
    requires Bounded(lengths, max) && KraftSum(lengths, max) < Pow2(max) && Present(lengths, s)
    ensures exists i :: 0 <= i < lengths[s] && !Codeword(lengths, s)[i]
  {
    hide CanonicalCode, Pow2, KraftSum, MsbBits, MsbValue;
    var l, c := lengths[s], CanonicalCode(lengths, s);
    BelowOnes(lengths, max, s);
    MsbValueOfBits(c, l);
    ModIs(c, Pow2(l), 0, c);
    if forall i :: 0 <= i < l ==> Codeword(lengths, s)[i] {
      MsbValueOfOnes(Codeword(lengths, s));
    }
  }

  lemma BelowOnes(lengths: seq<nat>, max: nat, s: nat)
    requires Bounded(lengths, max) && KraftSum(lengths, max) < Pow2(max) && Present(lengths, s)
    ensures CanonicalCode(lengths, s) + 1 < Pow2(lengths[s])
  {
    hide Base, CanonicalCode, Pow2, KraftSum;
    var l, c := lengths[s], CanonicalCode(lengths, s);
    PaddedCode(lengths, max, s);
    BaseGrows(lengths, max, l + 1, max + 1);
    KraftSumIsBase(lengths, max);
    Pow2Adds(l, max - l);
    if Pow2(l) <= c + 1 {
      MulMonotone(Pow2(l), c + 1, Pow2(max - l));
    }
  }

  lemma {:induction false} MsbValueOfOnes(bits: seq<bool>)
    requires forall i :: 0 <= i < |bits| ==> bits[i]
    ensures MsbValue(bits) == Pow2(|bits|) - 1
  {
    if bits != [] {
      MsbValueOfOnes(bits[..|bits| - 1]);
    }
  }
}
