/**
 Looking symbols up in the two-level table, and building the table for any list of code
 lengths: complete lists decode every bit string, lists with fewer than two symbols
 answer other bit strings with an invalid symbol, and all other lists are refused.
 */
module HuffmanLookup {
  import opened BitSequence
  import opened Huffman
  import opened HuffmanTable

  const INVALID_SYMBOL: nat := 65535
  const MAX_SYMBOLS: nat := 288

  /** What the decoder needs of a table: every lookup stays inside it and ends in a full entry. */
  ghost predicate SafeTable(len: seq<nat>, value: seq<nat>) {
    && |len| == |value| >= HEAD_SIZE
    && forall i :: 0 <= i < HEAD_SIZE ==> SafeEntry(len, value, i)
  }

  ghost predicate SafeEntry(len: seq<nat>, value: seq<nat>, i: nat)
    requires i < |len| == |value|
  {
    || 1 <= len[i] <= FIRST_BITS
    || (FIRST_BITS < len[i] <= MAX_BITS && value[i] + Pow2(len[i] - FIRST_BITS) <= |len|
        && forall k :: value[i] <= k < value[i] + Pow2(len[i] - FIRST_BITS) ==> FIRST_BITS < len[k] <= MAX_BITS)
  }

  /** Two-level lookup: the symbol the bits start with and the length of its code. */
  ghost function Lookup(len: seq<nat>, value: seq<nat>, bits: seq<bool>): (r: (nat, nat))
    requires SafeTable(len, value) && |bits| >= MAX_BITS
    ensures 1 <= r.1 <= MAX_BITS
  {
    SmallPowers();
    LsbValueBound(bits[..FIRST_BITS]);
    var i := LsbValue(bits[..FIRST_BITS]);
    assert SafeEntry(len, value, i);
    if len[i] <= FIRST_BITS then (value[i], len[i])
    else
      LsbValueBound(bits[FIRST_BITS..len[i]]);
      var k := value[i] + LsbValue(bits[FIRST_BITS..len[i]]);
      (value[k], len[k])
  }

  /** Some symbol's codeword starts the bits. */
  ghost predicate Starts(lengths: seq<nat>, bits: seq<bool>) {
    exists s: nat :: Present(lengths, s) && Codeword(lengths, s) <= bits
  }

  /** The table finds the symbol that bits start with, and the invalid symbol if there is none. */
  ghost predicate Decodes(lengths: seq<nat>, len: seq<nat>, value: seq<nat>) {
    && SafeTable(len, value)
    && (forall s: nat, bits :: |bits| >= MAX_BITS && Present(lengths, s) && Codeword(lengths, s) <= bits ==>
          Lookup(len, value, bits) == (s, lengths[s]))
    && (forall bits :: |bits| >= MAX_BITS && !Starts(lengths, bits) ==> Lookup(len, value, bits).0 == INVALID_SYMBOL)
  }

  // A finished table.

  /** Symbols and pointers are in place, and unclaimed entries hold the invalid symbol. */
  ghost predicate Finished(lengths: seq<nat>, maxlens: seq<nat>, len: seq<nat>, value: seq<nat>) {
    && Placed(lengths, maxlens, |lengths|, len, value)
    && (forall i :: 0 <= i < |len| && Unclaimed(lengths, maxlens, |lengths|, i) ==>
          len[i] == (if i < HEAD_SIZE then 1 else FIRST_BITS + 1) && value[i] == INVALID_SYMBOL)
  }

  /** An entry that is no pointer holds a code of the right part of the table. */
  lemma FinishedEntry(lengths: seq<nat>, maxlens: seq<nat>, len: seq<nat>, value: seq<nat>, i: nat)
    requires Bounded(lengths, MAX_BITS) && |maxlens| == HEAD_SIZE && Finished(lengths, maxlens, len, value) && i < |len|
    requires i < HEAD_SIZE ==> maxlens[i] == 0
    ensures if i < HEAD_SIZE then 1 <= len[i] <= FIRST_BITS else FIRST_BITS < len[i] <= MAX_BITS
  {
    hide Start, Codeword, LsbBits, FirstIndex;
    if !Unclaimed(lengths, maxlens, |lengths|, i) {
      var s :| 0 <= s < |lengths| && Present(lengths, s) && Covers(lengths, maxlens, s, i);
      if i < HEAD_SIZE {
        HeadPath(lengths, maxlens, s, i);
      }
    }
  }

  lemma FinishedIsSafe(lengths: seq<nat>, maxlens: seq<nat>, len: seq<nat>, value: seq<nat>)
    requires Bounded(lengths, MAX_BITS) && MaxLensOk(maxlens) && Finished(lengths, maxlens, len, value)
    ensures SafeTable(len, value)
  {
    hide Covers, Unclaimed, Pow2;
    forall i | 0 <= i < HEAD_SIZE
      ensures SafeEntry(len, value, i)
    {
      if maxlens[i] == 0 {
        FinishedEntry(lengths, maxlens, len, value, i);
      } else {
        StartGrows(maxlens, 0, i);
        StartGrows(maxlens, i, |maxlens|);
        forall k | value[i] <= k < value[i] + Pow2(len[i] - FIRST_BITS)
          ensures FIRST_BITS < len[k] <= MAX_BITS
        {
          FinishedEntry(lengths, maxlens, len, value, k);
        }
      }
    }
  }

  lemma LookupFinds(lengths: seq<nat>, maxlens: seq<nat>, len: seq<nat>, value: seq<nat>, s: nat, bits: seq<bool>)
    requires Bounded(lengths, MAX_BITS) && MaxLens(lengths, |lengths|, maxlens) && MaxLensOk(maxlens)
    requires Placed(lengths, maxlens, |lengths|, len, value) && SafeTable(len, value)
    requires |bits| >= MAX_BITS && Present(lengths, s) && Codeword(lengths, s) <= bits
    ensures Lookup(len, value, bits) == (s, lengths[s])
  {
    hide MaxLens, Pow2, Codeword, LsbBits, LsbValue, SafeTable, Placed;
    var w, head := Codeword(lengths, s), bits[..FIRST_BITS];
    if lengths[s] <= FIRST_BITS {
      ShortLookup(lengths, maxlens, len, value, s, bits);
    } else {
      assert w[..FIRST_BITS] == head;
      LongLookup(lengths, maxlens, len, value, s, bits);
    }
  }

  lemma ShortLookup(lengths: seq<nat>, maxlens: seq<nat>, len: seq<nat>, value: seq<nat>, s: nat, bits: seq<bool>)
    requires |maxlens| == HEAD_SIZE && Placed(lengths, maxlens, |lengths|, len, value)
    requires |bits| >= MAX_BITS && Present(lengths, s) && Codeword(lengths, s) <= bits && lengths[s] <= FIRST_BITS
    ensures var i := LsbValue(bits[..FIRST_BITS]); i < |len| && len[i] == lengths[s] && value[i] == s
  {
    hide Pow2, Codeword, LsbBits, LsbValue, Start;
    var head := bits[..FIRST_BITS];
    LsbBitsOfValue(head);
    LsbValueBound(head);
    SmallPowers();
    assert Covers(lengths, maxlens, s, LsbValue(head));
  }

  lemma LongLookup(lengths: seq<nat>, maxlens: seq<nat>, len: seq<nat>, value: seq<nat>, s: nat, bits: seq<bool>)
    requires MaxLens(lengths, |lengths|, maxlens) && MaxLensOk(maxlens)
    requires Placed(lengths, maxlens, |lengths|, len, value)
    requires |bits| >= MAX_BITS && Present(lengths, s) && Codeword(lengths, s) <= bits && lengths[s] > FIRST_BITS
    requires FirstIndex(lengths, s) == LsbValue(bits[..FIRST_BITS])
    ensures var i := LsbValue(bits[..FIRST_BITS]);
            && i < HEAD_SIZE <= |len| == |value| && FIRST_BITS < len[i] <= MAX_BITS
            && var k := value[i] + LsbValue(bits[FIRST_BITS..len[i]]);
               k < |len| && len[k] == lengths[s] && value[k] == s
  {
    hide MaxLens, Pow2, Codeword, LsbBits, LsbValue, Covers, FirstIndex, Start;
    PointerOf(lengths, maxlens, len, value, s);
    LongCovers(lengths, maxlens, s, bits);
  }

  lemma LongCovers(lengths: seq<nat>, maxlens: seq<nat>, s: nat, bits: seq<bool>)
    requires MaxLens(lengths, |lengths|, maxlens) && MaxLensOk(maxlens)
    requires |bits| >= MAX_BITS && Present(lengths, s) && Codeword(lengths, s) <= bits && lengths[s] > FIRST_BITS
    ensures |maxlens| == HEAD_SIZE && FirstIndex(lengths, s) < HEAD_SIZE
    ensures var i := FirstIndex(lengths, s);
            && FIRST_BITS < maxlens[i] <= MAX_BITS
            && var k := Start(maxlens, i) + LsbValue(bits[FIRST_BITS..maxlens[i]]);
               k < Start(maxlens, |maxlens|) && Covers(lengths, maxlens, s, k)
  {
    hide MaxLens, Pow2, Codeword, LsbBits, LsbValue, FirstIndex;
    UpperBound(lengths, maxlens, s);
    var w, i := Codeword(lengths, s), FirstIndex(lengths, s);
    var tail := bits[FIRST_BITS..maxlens[i]];
    LsbBitsOfValue(tail);
    LsbValueBound(tail);
    assert w[FIRST_BITS..] <= tail;
    StartGrows(maxlens, i + 1, |maxlens|);
  }

  /** Bits that start with no codeword end in an unclaimed entry. */
  lemma LookupInvalid(lengths: seq<nat>, maxlens: seq<nat>, len: seq<nat>, value: seq<nat>, bits: seq<bool>)
    requires MaxLensOk(maxlens) && Finished(lengths, maxlens, len, value) && SafeTable(len, value)
    requires |bits| >= MAX_BITS && !Starts(lengths, bits)
    ensures Lookup(len, value, bits).0 == INVALID_SYMBOL
  {
    hide Pow2, Codeword, LsbBits, LsbValue, Covers, Start, SafeTable;
    var head := bits[..FIRST_BITS];
    LsbValueBound(head);
    SmallPowers();
    var i := LsbValue(head);
    if maxlens[i] == 0 {
      UnclaimedHead(lengths, maxlens, bits);
    } else {
      UnclaimedTail(lengths, maxlens, bits);
    }
  }

  lemma UnclaimedHead(lengths: seq<nat>, maxlens: seq<nat>, bits: seq<bool>)
    requires MaxLensOk(maxlens) && |bits| >= MAX_BITS && !Starts(lengths, bits)
    requires var i := LsbValue(bits[..FIRST_BITS]); i < HEAD_SIZE && maxlens[i] == 0
    ensures Unclaimed(lengths, maxlens, |lengths|, LsbValue(bits[..FIRST_BITS]))
  {
    hide Codeword, LsbBits, LsbValue, Covers, Start;
    var i := LsbValue(bits[..FIRST_BITS]);
    LsbBitsOfValue(bits[..FIRST_BITS]);
    forall s | 0 <= s < |lengths| && Present(lengths, s)
      ensures !Covers(lengths, maxlens, s, i)
    {
      if Covers(lengths, maxlens, s, i) {
        HeadPath(lengths, maxlens, s, i);
      }
    }
  }

  lemma UnclaimedTail(lengths: seq<nat>, maxlens: seq<nat>, bits: seq<bool>)
    requires MaxLensOk(maxlens) && |bits| >= MAX_BITS && !Starts(lengths, bits)
    requires var i := LsbValue(bits[..FIRST_BITS]); i < HEAD_SIZE && maxlens[i] != 0
    ensures var i := LsbValue(bits[..FIRST_BITS]);
            var k := Start(maxlens, i) + LsbValue(bits[FIRST_BITS..maxlens[i]]);
            HEAD_SIZE <= k < Start(maxlens, |maxlens|) && Unclaimed(lengths, maxlens, |lengths|, k)
  {
    hide Codeword, LsbBits, LsbValue, Covers, Pow2;
    var i := LsbValue(bits[..FIRST_BITS]);
    var tail := bits[FIRST_BITS..maxlens[i]];
    var k := Start(maxlens, i) + LsbValue(tail);
    LsbBitsOfValue(bits[..FIRST_BITS]);
    LsbBitsOfValue(tail);
    LsbValueBound(tail);
    StartGrows(maxlens, 0, i);
    StartGrows(maxlens, i + 1, |maxlens|);
    assert bits[..FIRST_BITS] + tail <= bits;
    forall s | 0 <= s < |lengths| && Present(lengths, s)
      ensures !Covers(lengths, maxlens, s, k)
    {
      if Covers(lengths, maxlens, s, k) {
        SubPath(lengths, maxlens, s, i, k);
      }
    }
  }

  lemma FinishedDecodes(lengths: seq<nat>, maxlens: seq<nat>, len: seq<nat>, value: seq<nat>)
    requires Bounded(lengths, MAX_BITS) && MaxLens(lengths, |lengths|, maxlens) && MaxLensOk(maxlens)
    requires Finished(lengths, maxlens, len, value)
    ensures |len| == |value| && Decodes(lengths, len, value)
  {
    hide MaxLens, Covers, Lookup, SafeTable, Codeword, Start, Starts, Unclaimed;
    FinishedIsSafe(lengths, maxlens, len, value);
    forall s: nat, bits | |bits| >= MAX_BITS && Present(lengths, s) && Codeword(lengths, s) <= bits
      ensures Lookup(len, value, bits) == (s, lengths[s])
    {
      LookupFinds(lengths, maxlens, len, value, s, bits);
    }
    forall bits | |bits| >= MAX_BITS && !Starts(lengths, bits)
      ensures Lookup(len, value, bits).0 == INVALID_SYMBOL
    {
      LookupInvalid(lengths, maxlens, len, value, bits);
    }
  }

  // Which lists leave an entry unused, and which make two codes collide.

  lemma MaxLenRange(lengths: seq<nat>, max: nat, maxlens: seq<nat>)
    requires Bounded(lengths, max) && max <= MAX_BITS && MaxLens(lengths, |lengths|, maxlens)
    ensures MaxLensOk(maxlens)
  {
    hide FirstIndex;
  }

  /** A complete list leaves no entry unused. */
  lemma CompleteIsFull(lengths: seq<nat>, max: nat, maxlens: seq<nat>, len: seq<nat>, value: seq<nat>)
    requires CompleteCode(lengths, max) && max <= MAX_BITS && MaxLens(lengths, |lengths|, maxlens) && MaxLensOk(maxlens)
    requires Filled(lengths, maxlens, |lengths|, len, value)
    ensures forall i :: 0 <= i < |len| ==> len[i] != UNUSED
    ensures Finished(lengths, maxlens, len, value)
  {
    hide MaxLens, Start, KraftSum, Codeword, Covers, CompleteCode;
    assert Bounded(lengths, max) by {
      CompleteIsBounded(lengths, max);
    }
    forall i | 0 <= i < |len|
      ensures len[i] != UNUSED && !Unclaimed(lengths, maxlens, |lengths|, i)
    {
      if i >= HEAD_SIZE || maxlens[i] == 0 {
        var s := EveryEntryIsCovered(lengths, max, maxlens, i);
      }
    }
  }

  lemma CompleteIsBounded(lengths: seq<nat>, max: nat)
    requires CompleteCode(lengths, max)
    ensures Bounded(lengths, max)
  {
  }

  /** A list below Kraft equality leaves the entry of the string of ones unused. */
  lemma IncompleteHasGap(lengths: seq<nat>, max: nat, maxlens: seq<nat>, len: seq<nat>, value: seq<nat>)
    returns (i: nat)
    requires Bounded(lengths, max) && KraftSum(lengths, max) < Pow2(max) && MaxLensOk(maxlens)
    requires Filled(lengths, maxlens, |lengths|, len, value)
    ensures i < |len| && len[i] == UNUSED
  {
    hide Start, KraftSum, Codeword, Covers, LsbBits, Pow2;
    OnesBits(FIRST_BITS);
    SmallPowers();
    if maxlens[511] == 0 {
      i := 511;
      forall s | 0 <= s < |lengths| && Present(lengths, s)
        ensures !Covers(lengths, maxlens, s, i)
      {
        if Covers(lengths, maxlens, s, i) {
          HeadPath(lengths, maxlens, s, i);
          NoOnes(lengths, max, s);
        }
      }
    } else {
      i := LastEntry(maxlens);
      var m := maxlens[511] - FIRST_BITS;
      OnesBits(m);
      forall s | 0 <= s < |lengths| && Present(lengths, s)
        ensures !Covers(lengths, maxlens, s, i)
      {
        if Covers(lengths, maxlens, s, i) {
          SubPath(lengths, maxlens, s, 511, i);
          NoOnes(lengths, max, s);
        }
      }
    }
    assert Unclaimed(lengths, maxlens, |lengths|, i);
  }

  /** The last entry of the table is the last of the last sub-table. */
  lemma LastEntry(maxlens: seq<nat>) returns (i: nat)
    requires MaxLensOk(maxlens) && maxlens[511] != 0
    ensures HEAD_SIZE <= i && Start(maxlens, 511) <= i < Start(maxlens, 512) == Start(maxlens, |maxlens|)
    ensures i - Start(maxlens, 511) == Pow2(maxlens[511] - FIRST_BITS) - 1
  {
    hide Pow2;
    StartGrows(maxlens, 0, 511);
    assert Start(maxlens, 512) == Start(maxlens, 511) + SubSize(maxlens[511]);
    i := Start(maxlens, 511) + Pow2(maxlens[511] - FIRST_BITS) - 1;
  }

  lemma {:induction false} OnesBits(n: nat)
    ensures LsbBits(Pow2(n) - 1, n) == Ones(n)
  {
    if n > 0 {
      OnesBits(n - 1);
      assert (Pow2(n) - 1) / 2 == Pow2(n - 1) - 1;
      assert Ones(n) == [true] + Ones(n - 1);
    }
  }

  function Ones(n: nat): (s: seq<bool>) {
    seq(n, _ => true)
  }

  /** In a list that breaks the Kraft inequality two codes meet in entry 0. */
  lemma OversubscribedCollides(lengths: seq<nat>, max: nat, maxlens: seq<nat>, len: seq<nat>)
    requires Bounded(lengths, max) && |lengths| <= MAX_SYMBOLS && MaxLens(lengths, |lengths|, maxlens)
    requires MaxLensOk(maxlens) && |len| >= HEAD_SIZE
    requires ClearAt(lengths, maxlens, |lengths|, len, 0)
    ensures FittingCode(lengths, max)
  {
    hide MaxLens, Codeword, KraftSum, Start, Pow2, LsbBits, LsbValue, Covers;
    if KraftSum(lengths, max) > Pow2(max) {
      SmallPowers();
      var s, t := TwoZeroCodewords(lengths, max, FIRST_BITS);
      ZeroIsShort(lengths, maxlens, s);
      if lengths[t] <= FIRST_BITS {
        ZeroIsShort(lengths, maxlens, t);
      } else {
        ZeroIsLong(lengths, maxlens, t);
      }
    }
  }

  lemma ZeroIsShort(lengths: seq<nat>, maxlens: seq<nat>, s: nat)
    requires |maxlens| == HEAD_SIZE && ZeroCodeword(lengths, s) && lengths[s] <= FIRST_BITS
    ensures s < |lengths| && ShortAt(lengths, maxlens, s, 0)
  {
    hide Codeword, LsbBits;
    LsbBitsOfZero(FIRST_BITS);
    var w, z := Codeword(lengths, s), LsbBits(0, FIRST_BITS);
    assert w == z[..|w|];
  }

  lemma ZeroIsLong(lengths: seq<nat>, maxlens: seq<nat>, t: nat)
    requires MaxLens(lengths, |lengths|, maxlens) && ZeroCodeword(lengths, t) && lengths[t] > FIRST_BITS
    ensures |maxlens| == HEAD_SIZE && maxlens[0] != 0
  {
    hide Codeword, LsbBits, MaxLens, LsbValue;
    UpperBound(lengths, maxlens, t);
    LsbBitsOfZero(FIRST_BITS);
    assert Codeword(lengths, t)[..FIRST_BITS] == LsbBits(0, FIRST_BITS);
    LsbValueOfBits(0, FIRST_BITS);
  }

  lemma {:induction false} LsbBitsOfZero(n: nat)
    ensures forall i :: 0 <= i < n ==> !LsbBits(0, n)[i]
  {
    if n > 0 {
      LsbBitsOfZero(n - 1);
    }
  }

  // How many symbols have a code.

  function PresentCount(lengths: seq<nat>): (n: nat) {
    if lengths == [] then 0 else PresentCount(lengths[..|lengths| - 1]) + if lengths[|lengths| - 1] > 0 then 1 else 0
  }

  lemma {:induction false} CountOfNone(lengths: seq<nat>)
    ensures PresentCount(lengths) == 0 <==> forall i :: 0 <= i < |lengths| ==> lengths[i] == 0
    decreases |lengths|
  {
    if lengths != [] {
      var n := |lengths| - 1;
      CountOfNone(lengths[..n]);
      assert forall i :: 0 <= i < n ==> lengths[..n][i] == lengths[i];
    }
  }

  lemma {:induction false} CountOfFew(lengths: seq<nat>)
    ensures PresentCount(lengths) < 2 <==> AtMostOne(lengths)
    decreases |lengths|
  {
    if lengths != [] {
      var n := |lengths| - 1;
      CountOfFew(lengths[..n]);
      CountOfNone(lengths[..n]);
      forall s: nat | s < n
        ensures Present(lengths[..n], s) <==> Present(lengths, s)
      {
      }
      if lengths[n] > 0 {
        assert Present(lengths, n);
        if PresentCount(lengths[..n]) > 0 {
          var i :| 0 <= i < n && lengths[..n][i] != 0;
          assert Present(lengths, i);
        }
      }
    }
  }

  // Building the table.

  /** Give every unused entry the invalid symbol. */
  method FillInvalid(ghost lengths: seq<nat>, ghost maxlens: seq<nat>, len: array<nat>, value: array<nat>)
    requires MaxLensOk(maxlens) && len != value && Filled(lengths, maxlens, |lengths|, len[..], value[..])
    requires Bounded(lengths, MAX_BITS)
    modifies len, value
    ensures Finished(lengths, maxlens, len[..], value[..])
  {
    hide Covers, Start;
    ghost var len0, value0 := len[..], value[..];
    for i := 0 to len.Length
      invariant forall k :: 0 <= k < len.Length ==>
        if k < i && len0[k] == UNUSED
        then len[k] == (if k < HEAD_SIZE then 1 else FIRST_BITS + 1) && value[k] == INVALID_SYMBOL
        else len[k] == len0[k] && value[k] == value0[k]
    {
      if len[i] == UNUSED {
        len[i] := if i < HEAD_SIZE then 1 else FIRST_BITS + 1;
        value[i] := INVALID_SYMBOL;
      }
    }
    FilledIsFinished(lengths, maxlens, len0, value0, len[..], value[..]);
  }

  lemma FilledIsFinished(lengths: seq<nat>, maxlens: seq<nat>, len: seq<nat>, value: seq<nat>, len': seq<nat>,
                         value': seq<nat>)
    requires MaxLensOk(maxlens) && Filled(lengths, maxlens, |lengths|, len, value) && Bounded(lengths, MAX_BITS)
    requires |len'| == |value'| == |len| && forall k :: 0 <= k < |len| ==>
      if len[k] == UNUSED then len'[k] == (if k < HEAD_SIZE then 1 else FIRST_BITS + 1) && value'[k] == INVALID_SYMBOL
      else len'[k] == len[k] && value'[k] == value[k]
    ensures Finished(lengths, maxlens, len', value')
  {
    hide Covers, Start;
  }

  method HasUnused(len: array<nat>) returns (found: bool)
    ensures found <==> exists i :: 0 <= i < len.Length && len[i] == UNUSED
  {
    for i := 0 to len.Length
      invariant forall k :: 0 <= k < i ==> len[k] != UNUSED
    {
      if len[i] == UNUSED {
        return true;
      }
    }
    return false;
  }

  /** Enter all symbols and count them; two codes that collide end it with error 55. */
  method FillSymbols(lengths: seq<nat>, codes: seq<nat>, ghost max: nat, ghost maxlens: seq<nat>, len: array<nat>,
                     value: array<nat>)
    returns (error: nat, numpresent: nat)
    requires Bounded(lengths, max) && max <= MAX_BITS && |lengths| <= MAX_SYMBOLS
    requires MaxLens(lengths, |lengths|, maxlens) && MaxLensOk(maxlens) && GoodCodes(lengths, codes) && len != value
    requires Filled(lengths, maxlens, 0, len[..], value[..])
    modifies len, value
    ensures error == 0 || error == 55
    ensures error == 0 <==> FittingCode(lengths, max)
    ensures error == 0 ==>
              numpresent == PresentCount(lengths) && Filled(lengths, maxlens, |lengths|, len[..], value[..])
  {
    hide MaxLens, FittingCode, Filled, GoodCodes, ClearAt, PresentCount, Pointers;
    numpresent := 0;
    Begin(lengths, maxlens, len[..], value[..]);
    for n := 0 to |lengths|
      invariant Pointers(maxlens, len[..], value[..]) && HEAD_SIZE <= len.Length
      invariant ClearAt(lengths, maxlens, n, len[..], 0)
      invariant FittingCode(lengths, max) ==> Filled(lengths, maxlens, n, len[..], value[..])
      invariant numpresent == PresentCount(lengths[..n])
    {
      CountNextPresent(lengths, n);
      if lengths[n] != 0 {
        numpresent := numpresent + 1;
        error := FillSymbol(lengths, codes, max, maxlens, n, len, value);
        if error != 0 {
          return;
        }
      } else {
        SkipSymbol(lengths, max, maxlens, n, len[..], value[..]);
      }
    }
    assert lengths[..|lengths|] == lengths;
    OversubscribedCollides(lengths, max, maxlens, len[..]);
    error := 0;
  }

  lemma Begin(lengths: seq<nat>, maxlens: seq<nat>, len: seq<nat>, value: seq<nat>)
    requires |maxlens| == HEAD_SIZE && Filled(lengths, maxlens, 0, len, value)
    ensures Pointers(maxlens, len, value) && HEAD_SIZE <= |len| && ClearAt(lengths, maxlens, 0, len, 0)
    ensures PresentCount(lengths[..0]) == 0
  {
    hide Covers, Start;
  }

  lemma CountNextPresent(lengths: seq<nat>, n: nat)
    requires n < |lengths|
    ensures PresentCount(lengths[..n + 1]) == PresentCount(lengths[..n]) + if lengths[n] > 0 then 1 else 0
  {
    assert lengths[..n + 1][..n] == lengths[..n];
  }

  lemma SkipSymbol(lengths: seq<nat>, max: nat, maxlens: seq<nat>, n: nat, len: seq<nat>, value: seq<nat>)
    requires n < |lengths| && |maxlens| == HEAD_SIZE && lengths[n] == 0 && 0 < |len|
    requires ClearAt(lengths, maxlens, n, len, 0)
    ensures ClearAt(lengths, maxlens, n + 1, len, 0)
    ensures Filled(lengths, maxlens, n, len, value) ==> Filled(lengths, maxlens, n + 1, len, value)
  {
    hide Covers, Start;
  }

  /**
   Build the lookup table of any list of up to 288 lengths. It fails with 55 exactly when the list is
   neither complete nor has fewer than two symbols; otherwise the table decodes every bit string to the
   symbol whose code it starts with, or to the invalid symbol if there is none.
   */
  method MakeTable(lengths: seq<nat>, codes: seq<nat>, ghost max: nat)
    returns (error: nat, tableLen: seq<nat>, tableValue: seq<nat>)
    requires Bounded(lengths, max) && max <= MAX_BITS && |lengths| <= MAX_SYMBOLS && GoodCodes(lengths, codes)
    ensures error == 0 || error == 55
    ensures error == 0 <==> UsableCode(lengths, max)
    ensures error == 0 ==> |tableLen| == |tableValue| < 65536 && Decodes(lengths, tableLen, tableValue)
  {
    hide MaxLens, KraftSum, Filled, Decodes, GoodCodes, Finished, PresentCount, AtMostOne;
    tableLen, tableValue := [], [];
    var maxlens := ComputeMaxLens(lengths, codes);
    MaxLenRange(lengths, max, maxlens);
    var len, value := InitTable(lengths, maxlens);
    var numpresent;
    error, numpresent := FillSymbols(lengths, codes, max, maxlens, len, value);
    if error != 0 {
      assert !UsableCode(lengths, max) by {
        if UsableCode(lengths, max) {
          UsableFits(lengths, max);
        }
      }
      return;
    }
    CountOfFew(lengths);
    if numpresent < 2 {
      FillInvalid(lengths, maxlens, len, value);
    } else {
      FullOrNot(lengths, max, maxlens, len[..], value[..]);
      var unused := HasUnused(len);
      if unused {
        error := 55;
        return;
      }
    }
    tableLen, tableValue := len[..], value[..];
    FinishedDecodes(lengths, maxlens, tableLen, tableValue);
  }

  /** A filled table has no unused entry exactly when the list is complete. */
  lemma FullOrNot(lengths: seq<nat>, max: nat, maxlens: seq<nat>, len: seq<nat>, value: seq<nat>)
    requires FittingCode(lengths, max) && max <= MAX_BITS && MaxLens(lengths, |lengths|, maxlens) && MaxLensOk(maxlens)
    requires Filled(lengths, maxlens, |lengths|, len, value)
    ensures (forall i :: 0 <= i < |len| ==> len[i] != UNUSED) <==> CompleteCode(lengths, max)
    ensures CompleteCode(lengths, max) ==> Finished(lengths, maxlens, len, value)
  {
    hide MaxLens, KraftSum, Filled, Finished;
    if CompleteCode(lengths, max) {
      CompleteIsFull(lengths, max, maxlens, len, value);
    } else {
      var i := IncompleteHasGap(lengths, max, maxlens, len, value);
    }
  }
}
