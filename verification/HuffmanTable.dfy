/**
 Generating the codes and the two-level lookup table from a list of code lengths,
 and looking symbols up in it.
 */
module HuffmanTable {
  import opened BitSequence
  import opened Arithmetic
  import opened Huffman

  const MAX_BITS: nat := 15
  const FIRST_BITS: nat := 9
  const HEAD_SIZE: nat := 512
  const UNUSED: nat := 16

  method ReverseBits(bits: nat, num: nat) returns (result: nat)
    ensures result == LsbValue(MsbBits(bits, num))
  {
    result := 0;
    var i := 0;
    while i < num
      invariant 0 <= i <= num && result == LsbValue(MsbBits(bits, num)[..i])
    {
      var bit := bits / Pow2(num - i - 1) % 2;
      MsbBitAt(bits, num, i);
      LsbValueSnoc(MsbBits(bits, num)[..i], bit == 1);
      assert MsbBits(bits, num)[..i + 1] == MsbBits(bits, num)[..i] + [bit == 1];
      result := result + bit * Pow2(i);
      i := i + 1;
    }
    assert MsbBits(bits, num)[..num] == MsbBits(bits, num);
  }

  method CountLengths(lengths: seq<nat>, max: nat) returns (blcount: array<nat>)
    requires Bounded(lengths, max)
    ensures fresh(blcount) && blcount.Length == max + 1
    ensures forall l :: 0 <= l <= max ==> blcount[l] == Count(lengths, l)
  {
    blcount := new nat[max + 1](_ => 0);
    for i := 0 to |lengths|
      invariant forall l :: 0 <= l <= max ==> blcount[l] == Count(lengths[..i], l)
    {
      assert lengths[..i + 1][..i] == lengths[..i];
      blcount[lengths[i]] := blcount[lengths[i]] + 1;
    }
    assert lengths[..|lengths|] == lengths;
  }

  /** The first code of each length, off by a multiple of 2^l because length zero is counted as well. */
  method NextCodes(lengths: seq<nat>, max: nat) returns (nextcode: array<nat>)
    requires Bounded(lengths, max)
    ensures fresh(nextcode) && nextcode.Length == max + 1
    ensures forall l :: 1 <= l <= max ==> nextcode[l] == FirstCode(lengths, l) + Count(lengths, 0) * Pow2(l)
  {
    var blcount := CountLengths(lengths, max);
    nextcode := new nat[max + 1](_ => 0);
    for bits := 1 to max + 1
      invariant forall l :: 0 <= l <= max ==> blcount[l] == Count(lengths, l)
      invariant forall l :: 0 <= l < bits ==> nextcode[l] == ShiftedCode(lengths, l)
    {
      ShiftedCodeStep(lengths, bits);
      nextcode[bits] := (nextcode[bits - 1] + blcount[bits - 1]) * 2;
    }
  }

  ghost function ShiftedCode(lengths: seq<nat>, l: nat): nat {
    if l == 0 then 0 else FirstCode(lengths, l) + Count(lengths, 0) * Pow2(l)
  }

  lemma ShiftedCodeStep(lengths: seq<nat>, l: nat)
    requires l >= 1
    ensures ShiftedCode(lengths, l) == (ShiftedCode(lengths, l - 1) + Count(lengths, l - 1)) * 2
  {
    MulAssociates(Count(lengths, 0), Pow2(l - 1), 2);
    assert Pow2(l) == Pow2(l - 1) * 2;
  }

  /**
   Codes from lengths. Symbols of length zero are counted too and shift the running code of
   length l by a multiple of 2^l; masking the code to l bits removes that again.
   */
  method MakeCodes(lengths: seq<nat>, max: nat) returns (codes: seq<nat>)
    requires Bounded(lengths, max)
    ensures |codes| == |lengths|
    ensures forall s :: 0 <= s < |lengths| && Present(lengths, s) ==>
      codes[s] == CanonicalCode(lengths, s) % Pow2(lengths[s])
  {
    hide Pow2, FirstCode, Count, CanonicalCode;
    var nextcode := NextCodes(lengths, max);
    var out := new nat[|lengths|](_ => 0);
    CountNone(lengths);
    for n := 0 to |lengths|
      invariant forall l :: 1 <= l <= max ==>
        nextcode[l] == FirstCode(lengths, l) + Count(lengths, 0) * Pow2(l) + Count(lengths[..n], l)
      invariant forall s :: 0 <= s < n && Present(lengths, s) ==>
        out[s] == CanonicalCode(lengths, s) % Pow2(lengths[s])
    {
      CountNext(lengths, n);
      var l := lengths[n];
      if l != 0 {
        RemoveMultiple(CanonicalCode(lengths, n), Count(lengths, 0), Pow2(l));
        out[n] := nextcode[l] % Pow2(l);
        nextcode[l] := nextcode[l] + 1;
      }
    }
    codes := out[..];
  }

  lemma CountNone(lengths: seq<nat>)
    ensures forall l :: Count(lengths[..0], l) == 0
  {
    assert lengths[..0] == [];
  }

  lemma CountNext(lengths: seq<nat>, n: nat)
    requires n < |lengths|
    ensures CanonicalCode(lengths, n) == FirstCode(lengths, lengths[n]) + Count(lengths[..n], lengths[n])
    ensures forall l :: Count(lengths[..n + 1], l) == Count(lengths[..n], l) + if l == lengths[n] then 1 else 0
  {
    hide FirstCode;
    assert lengths[..n + 1][..n] == lengths[..n];
  }

  lemma RemoveMultiple(c: nat, k: nat, p: nat)
    requires p >= 1
    ensures (c + k * p) % p == c % p
  {
    assert c == p * (c / p) + c % p;
    assert p * (c / p + k) == p * (c / p) + k * p;
    ModIs(c + k * p, p, c / p + k, c % p);
  }

  // Layout of the table: 512 head entries, then one sub-table per 9-bit prefix of long codes.

  function FirstIndex(lengths: seq<nat>, symbol: nat): nat
    requires symbol < |lengths| && lengths[symbol] >= FIRST_BITS
  {
    LsbValue(Codeword(lengths, symbol)[..FIRST_BITS])
  }

  /** maxlens[i] is the longest code of the first n symbols that starts with prefix i and needs a second lookup. */
  ghost predicate MaxLens(lengths: seq<nat>, n: nat, maxlens: seq<nat>)
    requires n <= |lengths|
  {
    && |maxlens| == HEAD_SIZE
    && (forall s :: 0 <= s < n && lengths[s] > FIRST_BITS ==>
          FirstIndex(lengths, s) < HEAD_SIZE && lengths[s] <= maxlens[FirstIndex(lengths, s)])
    && (forall i :: 0 <= i < HEAD_SIZE && maxlens[i] != 0 ==>
          exists s :: 0 <= s < n && lengths[s] > FIRST_BITS && FirstIndex(lengths, s) == i && lengths[s] == maxlens[i])
  }

  /** Where the sub-table of head entry i starts; i == 512 gives the table size. */
  function Start(maxlens: seq<nat>, i: nat): nat
    requires i <= |maxlens|
  {
    if i == 0 then HEAD_SIZE else Start(maxlens, i - 1) + SubSize(maxlens[i - 1])
  }

  function SubSize(maxlen: nat): nat {
    if maxlen > FIRST_BITS then Pow2(maxlen - FIRST_BITS) else 0
  }

  lemma {:induction false} StartGrows(maxlens: seq<nat>, i: nat, j: nat)
    requires i <= j <= |maxlens|
    ensures Start(maxlens, i) <= Start(maxlens, j)
    ensures i < j ==> Start(maxlens, i) + SubSize(maxlens[i]) <= Start(maxlens, j)
    decreases j
  {
    if i < j {
      StartGrows(maxlens, i, j - 1);
    }
  }

  /** Pointers fit the 16-bit table entries. */
  lemma {:induction false} StartBound(maxlens: seq<nat>, i: nat)
    requires i <= |maxlens| && forall k :: 0 <= k < |maxlens| ==> maxlens[k] <= MAX_BITS
    ensures HEAD_SIZE <= Start(maxlens, i) <= HEAD_SIZE + 64 * i
  {
    if i > 0 {
      StartBound(maxlens, i - 1);
      SmallPowers();
      if maxlens[i - 1] > FIRST_BITS {
        Pow2Monotone(maxlens[i - 1] - FIRST_BITS, MAX_BITS - FIRST_BITS);
      }
    }
  }

  /** The entries that must hold symbol s. */
  ghost predicate Covers(lengths: seq<nat>, maxlens: seq<nat>, s: nat, index: nat)
    requires |maxlens| == HEAD_SIZE && Present(lengths, s)
  {
    var w, l := Codeword(lengths, s), lengths[s];
    if l <= FIRST_BITS then
      index < HEAD_SIZE && w <= LsbBits(index, FIRST_BITS)
    else
      var i := FirstIndex(lengths, s);
      && i < HEAD_SIZE && l <= maxlens[i]
      && Start(maxlens, i) <= index < Start(maxlens, i + 1)
      && w[FIRST_BITS..] <= LsbBits(index - Start(maxlens, i), maxlens[i] - FIRST_BITS)
  }

  lemma HeadPath(lengths: seq<nat>, maxlens: seq<nat>, s: nat, index: nat)
    requires |maxlens| == HEAD_SIZE && Present(lengths, s) && Covers(lengths, maxlens, s, index)
    requires index < HEAD_SIZE
    ensures lengths[s] <= FIRST_BITS && Codeword(lengths, s) <= LsbBits(index, FIRST_BITS)
  {
    if lengths[s] > FIRST_BITS {
      StartGrows(maxlens, 0, FirstIndex(lengths, s));
    }
  }

  lemma SubPath(lengths: seq<nat>, maxlens: seq<nat>, s: nat, i: nat, index: nat)
    requires |maxlens| == HEAD_SIZE && Present(lengths, s) && Covers(lengths, maxlens, s, index)
    requires i < HEAD_SIZE && maxlens[i] > FIRST_BITS && Start(maxlens, i) <= index < Start(maxlens, i + 1)
    ensures Codeword(lengths, s)
         <= LsbBits(i, FIRST_BITS) + LsbBits(index - Start(maxlens, i), maxlens[i] - FIRST_BITS)
  {
    hide Codeword, LsbBits, LsbValue;
    var w := Codeword(lengths, s);
    StartGrows(maxlens, 0, i);
    var j := FirstIndex(lengths, s);
    if i < j {
      StartGrows(maxlens, i + 1, j);
    } else if j < i {
      StartGrows(maxlens, j + 1, i);
    }
    LsbBitsOfValue(w[..FIRST_BITS]);
    assert w == w[..FIRST_BITS] + w[FIRST_BITS..];
  }

  lemma {:induction false} SubTableOf(maxlens: seq<nat>, index: nat, top: nat) returns (i: nat)
    requires top <= |maxlens| && HEAD_SIZE <= index < Start(maxlens, top)
    ensures i < top && maxlens[i] > FIRST_BITS && Start(maxlens, i) <= index < Start(maxlens, i + 1)
    decreases top
  {
    if Start(maxlens, top - 1) <= index {
      i := top - 1;
    } else {
      i := SubTableOf(maxlens, index, top - 1);
    }
  }

  /** No entry is claimed twice. */
  lemma CoversOnce(lengths: seq<nat>, max: nat, maxlens: seq<nat>, s: nat, t: nat, index: nat)
    requires FittingCode(lengths, max) && |maxlens| == HEAD_SIZE && index < Start(maxlens, |maxlens|)
    requires Present(lengths, s) && Covers(lengths, maxlens, s, index)
    requires Present(lengths, t) && Covers(lengths, maxlens, t, index)
    ensures s == t
  {
    hide Covers, Codeword, LsbBits, Start, FittingCode;
    if index < HEAD_SIZE {
      HeadPath(lengths, maxlens, s, index);
      HeadPath(lengths, maxlens, t, index);
      PrefixFree(lengths, max, LsbBits(index, FIRST_BITS), s, t);
    } else {
      var i := SubTableOf(maxlens, index, |maxlens|);
      SubPath(lengths, maxlens, s, i, index);
      SubPath(lengths, maxlens, t, i, index);
      var path := LsbBits(i, FIRST_BITS) + LsbBits(index - Start(maxlens, i), maxlens[i] - FIRST_BITS);
      PrefixFree(lengths, max, path, s, t);
    }
  }

  /** A head entry that points to a sub-table is claimed by no symbol. */
  lemma PointerIsFree(lengths: seq<nat>, max: nat, maxlens: seq<nat>, s: nat, index: nat)
    requires FittingCode(lengths, max) && MaxLens(lengths, |lengths|, maxlens)
    requires Present(lengths, s) && index < HEAD_SIZE && Covers(lengths, maxlens, s, index)
    ensures maxlens[index] == 0
  {
    if maxlens[index] != 0 {
      var t :| 0 <= t < |lengths| && lengths[t] > FIRST_BITS && FirstIndex(lengths, t) == index;
      var w := Codeword(lengths, t);
      HeadPath(lengths, maxlens, s, index);
      LsbBitsOfValue(w[..FIRST_BITS]);
      PrefixFree(lengths, max, w, s, t);
    }
  }

  /** Every entry is claimed: a head entry by a symbol or as a pointer, a sub-table entry by a symbol. */
  lemma EveryEntryIsCovered(lengths: seq<nat>, max: nat, maxlens: seq<nat>, index: nat) returns (s: nat)
    requires CompleteCode(lengths, max) && MaxLens(lengths, |lengths|, maxlens)
    requires index < Start(maxlens, |maxlens|) && (index < HEAD_SIZE ==> maxlens[index] == 0)
    ensures Present(lengths, s) && Covers(lengths, maxlens, s, index)
  {
    hide LsbBits, LsbValue, Codeword, CompleteCode, Start, Pow2;
    if index < HEAD_SIZE {
      var path := LsbBits(index, FIRST_BITS);
      s := EveryStringIsCovered(lengths, max, path + seq(max, _ => false));
      var w := Codeword(lengths, s);
      if lengths[s] > FIRST_BITS {
        assert w[..FIRST_BITS] == path;
        LsbValueOfBits(index, FIRST_BITS);
        SmallPowers();
      }
    } else {
      s := EverySubEntryIsCovered(lengths, max, maxlens, index);
    }
  }

  lemma EverySubEntryIsCovered(lengths: seq<nat>, max: nat, maxlens: seq<nat>, index: nat) returns (s: nat)
    requires CompleteCode(lengths, max) && MaxLens(lengths, |lengths|, maxlens)
    requires HEAD_SIZE <= index < Start(maxlens, |maxlens|)
    ensures Present(lengths, s) && Covers(lengths, maxlens, s, index)
  {
    hide LsbBits, LsbValue, Codeword, CompleteCode, Start, Pow2;
    var i := SubTableOf(maxlens, index, |maxlens|);
    var head, tail := LsbBits(i, FIRST_BITS), LsbBits(index - Start(maxlens, i), maxlens[i] - FIRST_BITS);
    var bits := head + tail + seq(max, _ => false);
    s := EveryStringIsCovered(lengths, max, bits);
    var w := Codeword(lengths, s);
    LsbValueOfBits(i, FIRST_BITS);
    SmallPowers();
    if lengths[s] <= FIRST_BITS {
      var t :| 0 <= t < |lengths| && lengths[t] > FIRST_BITS && FirstIndex(lengths, t) == i;
      LsbBitsOfValue(Codeword(lengths, t)[..FIRST_BITS]);
      assert w <= head;
      CompleteFits(lengths, max);
      PrefixFree(lengths, max, Codeword(lengths, t), s, t);
    } else {
      assert w[..FIRST_BITS] == head;
      assert FirstIndex(lengths, s) == i;
      assert w[FIRST_BITS..] <= tail;
    }
  }

  // Filling the table.

  /** The table has its size and all pointers to sub-tables are in place. */
  ghost predicate Pointers(maxlens: seq<nat>, len: seq<nat>, value: seq<nat>) {
    && |maxlens| == HEAD_SIZE && |len| == |value| == Start(maxlens, |maxlens|) >= HEAD_SIZE
    && (forall i :: 0 <= i < HEAD_SIZE && maxlens[i] != 0 ==> len[i] == maxlens[i] && value[i] == Start(maxlens, i))
  }

  /** The first n symbols and all pointers are in place. */
  ghost predicate Placed(lengths: seq<nat>, maxlens: seq<nat>, n: nat, len: seq<nat>, value: seq<nat>)
    requires n <= |lengths|
  {
    && Pointers(maxlens, len, value)
    && (forall s, i :: 0 <= s < n && Present(lengths, s) && 0 <= i < |len| && Covers(lengths, maxlens, s, i) ==>
          len[i] == lengths[s] && value[i] == s)
  }

  /** Moreover, unclaimed entries are marked unused. */
  ghost predicate Filled(lengths: seq<nat>, maxlens: seq<nat>, n: nat, len: seq<nat>, value: seq<nat>)
    requires n <= |lengths|
  {
    && Placed(lengths, maxlens, n, len, value)
    && (forall i :: 0 <= i < |len| && Unclaimed(lengths, maxlens, n, i) ==> len[i] == UNUSED)
  }

  ghost predicate Unclaimed(lengths: seq<nat>, maxlens: seq<nat>, n: nat, index: nat)
    requires n <= |lengths| && |maxlens| == HEAD_SIZE
  {
    && (index < HEAD_SIZE ==> maxlens[index] == 0)
    && forall s :: 0 <= s < n && Present(lengths, s) ==> !Covers(lengths, maxlens, s, index)
  }

  /** Every code, written with as many bits as its length says, is the symbol's codeword. */
  ghost predicate GoodCodes(lengths: seq<nat>, codes: seq<nat>) {
    && |codes| == |lengths|
    && forall s :: 0 <= s < |lengths| && Present(lengths, s) ==> MsbBits(codes[s], lengths[s]) == Codeword(lengths, s)
  }

  method HeadIndex(lengths: seq<nat>, codes: seq<nat>, s: nat) returns (index: nat)
    requires GoodCodes(lengths, codes) && s < |lengths| && lengths[s] > FIRST_BITS
    ensures index == FirstIndex(lengths, s) < HEAD_SIZE
  {
    assert Present(lengths, s);
    hide MsbBits, LsbValue, Pow2, CanonicalCode, Codeword;
    index := ReverseBits(codes[s] / Pow2(lengths[s] - FIRST_BITS), FIRST_BITS);
    MsbBitsPrefix(codes[s], lengths[s], FIRST_BITS);
    SmallPowers();
    LsbValueBound(Codeword(lengths, s)[..FIRST_BITS]);
  }

  lemma NoMaxLens(lengths: seq<nat>, maxlens: seq<nat>)
    requires |maxlens| == HEAD_SIZE && forall k :: 0 <= k < HEAD_SIZE ==> maxlens[k] == 0
    ensures MaxLens(lengths, 0, maxlens)
  {
    hide FirstIndex;
  }

  method ComputeMaxLens(lengths: seq<nat>, codes: seq<nat>) returns (result: seq<nat>)
    requires GoodCodes(lengths, codes)
    ensures MaxLens(lengths, |lengths|, result)
  {
    hide FirstIndex, GoodCodes, MaxLens;
    var maxlens := new nat[HEAD_SIZE](_ => 0);
    NoMaxLens(lengths, maxlens[..]);
    for i := 0 to |lengths|
      invariant MaxLens(lengths, i, maxlens[..])
    {
      var l := lengths[i];
      if l <= FIRST_BITS {
        KeepMaxLens(lengths, i, maxlens[..]);
      } else {
        var index := HeadIndex(lengths, codes, i);
        ghost var before := maxlens[..];
        maxlens[index] := if maxlens[index] > l then maxlens[index] else l;
        RaiseMaxLen(lengths, i, before, maxlens[..]);
      }
    }
    result := maxlens[..];
  }

  lemma UpperBound(lengths: seq<nat>, maxlens: seq<nat>, s: nat)
    requires MaxLens(lengths, |lengths|, maxlens) && s < |lengths| && lengths[s] > FIRST_BITS
    ensures |maxlens| == HEAD_SIZE && FirstIndex(lengths, s) < HEAD_SIZE
    ensures lengths[s] <= maxlens[FirstIndex(lengths, s)]
  {
    hide FirstIndex;
  }

  lemma KeepMaxLens(lengths: seq<nat>, n: nat, maxlens: seq<nat>)
    requires n < |lengths| && lengths[n] <= FIRST_BITS && MaxLens(lengths, n, maxlens)
    ensures MaxLens(lengths, n + 1, maxlens)
  {
    hide FirstIndex;
    forall k | 0 <= k < HEAD_SIZE && maxlens[k] != 0
      ensures exists s ::
                0 <= s < n + 1 && lengths[s] > FIRST_BITS && FirstIndex(lengths, s) == k && lengths[s] == maxlens[k]
    {
      var s :| 0 <= s < n && lengths[s] > FIRST_BITS && FirstIndex(lengths, s) == k && lengths[s] == maxlens[k];
    }
  }

  lemma RaiseMaxLen(lengths: seq<nat>, n: nat, before: seq<nat>, after: seq<nat>)
    requires n < |lengths| && lengths[n] > FIRST_BITS && MaxLens(lengths, n, before)
    requires FirstIndex(lengths, n) < HEAD_SIZE
    requires var i := FirstIndex(lengths, n);
             after == before[i := if before[i] > lengths[n] then before[i] else lengths[n]]
    ensures MaxLens(lengths, n + 1, after)
  {
    hide FirstIndex;
    var i := FirstIndex(lengths, n);
    forall k | 0 <= k < HEAD_SIZE && after[k] != 0
      ensures exists s ::
                0 <= s < n + 1 && lengths[s] > FIRST_BITS && FirstIndex(lengths, s) == k && lengths[s] == after[k]
    {
      if k == i && before[i] <= lengths[n] {
        assert lengths[n] == after[k];
      } else {
        var s :| 0 <= s < n && lengths[s] > FIRST_BITS && FirstIndex(lengths, s) == k && lengths[s] == before[k];
      }
    }
  }

  /** Index `offset + first + j * stride` for some j below count. */
  ghost predicate Hit(index: nat, offset: nat, first: nat, stride: nat, count: nat)
    requires stride >= 1
  {
    offset <= index && (index - offset) % stride == first && (index - offset) / stride < count
  }

  lemma HitStep(index: nat, offset: nat, first: nat, stride: nat, j: nat)
    requires first < stride
    ensures Hit(index, offset, first, stride, j + 1)
            <==> Hit(index, offset, first, stride, j) || index == offset + first + j * stride
  {
    if index == offset + first + j * stride {
      ModIs(index - offset, stride, j, first);
    } else if offset <= index && (index - offset) / stride == j {
      assert index - offset == stride * j + (index - offset) % stride;
    }
  }

  /** Write symbol s into every stride-th entry. */
  method Stamp(len: array<nat>, value: array<nat>, offset: nat, first: nat, stride: nat, num: nat, l: nat, s: nat)
    requires len.Length == value.Length && len != value && first < stride
    requires offset + stride * num <= len.Length
    modifies len, value
    ensures forall i :: 0 <= i < len.Length ==> Hit(i, offset, first, stride, num) ==> len[i] == l && value[i] == s
    ensures forall i :: 0 <= i < len.Length ==>
      !Hit(i, offset, first, stride, num) ==> len[i] == old(len[i]) && value[i] == old(value[i])
  {
    var j := 0;
    while j < num
      invariant 0 <= j <= num
      invariant forall i :: 0 <= i < len.Length ==> Hit(i, offset, first, stride, j) ==> len[i] == l && value[i] == s
      invariant forall i :: 0 <= i < len.Length ==>
        !Hit(i, offset, first, stride, j) ==> len[i] == old(len[i]) && value[i] == old(value[i])
    {
      StrideBound(first, stride, j, num);
      var index := offset + first + j * stride;
      forall i | 0 <= i < len.Length
        ensures Hit(i, offset, first, stride, j + 1) <==> Hit(i, offset, first, stride, j) || i == index
      {
        HitStep(i, offset, first, stride, j);
      }
      hide Hit;
      len[index] := l;
      value[index] := s;
      j := j + 1;
    }
  }

  /** The same, but only over unused entries: the first one in use ends it with error 55. */
  method StampFree(len: array<nat>, value: array<nat>, first: nat, stride: nat, num: nat, l: nat, s: nat)
    returns (error: nat)
    requires len.Length == value.Length && len != value && first < stride && stride * num <= len.Length
    modifies len, value
    ensures error == 0 || error == 55
    ensures forall i ::
              0 <= i < len.Length && old(len[i]) != UNUSED ==> len[i] == old(len[i]) && value[i] == old(value[i])
    ensures error == 0 ==> forall i :: 0 <= i < len.Length ==>
      if Hit(i, 0, first, stride, num) then old(len[i]) == UNUSED && len[i] == l && value[i] == s
      else len[i] == old(len[i]) && value[i] == old(value[i])
    ensures error != 0 ==> exists i :: 0 <= i < len.Length && Hit(i, 0, first, stride, num) && old(len[i]) != UNUSED
  {
    var j := 0;
    while j < num
      invariant 0 <= j <= num
      invariant forall i :: 0 <= i < len.Length ==>
        if Hit(i, 0, first, stride, j) then old(len[i]) == UNUSED && len[i] == l && value[i] == s
        else len[i] == old(len[i]) && value[i] == old(value[i])
    {
      StrideBound(first, stride, j, num);
      var index := first + j * stride;
      forall i | 0 <= i < len.Length
        ensures Hit(i, 0, first, stride, j + 1) <==> Hit(i, 0, first, stride, j) || i == index
      {
        HitStep(i, 0, first, stride, j);
      }
      ModIs(index, stride, j, first);
      assert Hit(index, 0, first, stride, num) && !Hit(index, 0, first, stride, j);
      hide Hit;
      if len[index] != UNUSED {
        return 55;
      }
      len[index] := l;
      value[index] := s;
      j := j + 1;
    }
    return 0;
  }

  lemma StrideBound(first: nat, stride: nat, j: nat, num: nat)
    requires first < stride && j < num
    ensures first + j * stride < stride * num
  {
    MulMonotone(j + 1, num, stride);
    Distribute(j, 1, stride);
  }

  lemma ShortEntries(lengths: seq<nat>, maxlens: seq<nat>, s: nat, index: nat)
    requires |maxlens| == HEAD_SIZE && Present(lengths, s) && lengths[s] <= FIRST_BITS
    ensures var l := lengths[s];
            Covers(lengths, maxlens, s, index)
            <==> Hit(index, 0, LsbValue(Codeword(lengths, s)), Pow2(l), Pow2(FIRST_BITS - l))
  {
    var l := lengths[s];
    StartsWithLsb(Codeword(lengths, s), index, FIRST_BITS);
    Pow2Adds(l, FIRST_BITS - l);
    SmallPowers();
    DivLess(index, Pow2(l), Pow2(FIRST_BITS - l));
  }

  lemma LongEntries(lengths: seq<nat>, maxlens: seq<nat>, s: nat, index: nat)
    requires |maxlens| == HEAD_SIZE && Present(lengths, s) && lengths[s] > FIRST_BITS
    requires FirstIndex(lengths, s) < HEAD_SIZE && lengths[s] <= maxlens[FirstIndex(lengths, s)]
    ensures var l, i := lengths[s] - FIRST_BITS, FirstIndex(lengths, s);
            Covers(lengths, maxlens, s, index)
            <==> Hit(index, Start(maxlens, i), LsbValue(Codeword(lengths, s)[FIRST_BITS..]), Pow2(l),
                     Pow2(maxlens[i] - FIRST_BITS - l))
  {
    hide Codeword, FirstIndex, LsbBits, LsbValue, Pow2;
    var l, i := lengths[s] - FIRST_BITS, FirstIndex(lengths, s);
    var w, m := Codeword(lengths, s), maxlens[i] - FIRST_BITS;
    if Start(maxlens, i) <= index {
      StartsWithLsb(w[FIRST_BITS..], index - Start(maxlens, i), m);
      Pow2Adds(l, m - l);
      DivLess(index - Start(maxlens, i), Pow2(l), Pow2(m - l));
    }
  }

  lemma DivLess(v: nat, p: nat, q: nat)
    requires p >= 1
    ensures v / p < q <==> v < p * q
  {
    var d := v / p;
    DivBounds(v, d, p);
    if d < q {
      MulMonotone(d + 1, q, p);
    } else {
      MulMonotone(q, d, p);
    }
  }

  /** Writing symbol n into exactly its entries extends the filled table by that symbol. */
  lemma AddSymbol(lengths: seq<nat>, max: nat, maxlens: seq<nat>, n: nat,
                  len: seq<nat>, value: seq<nat>, len': seq<nat>, value': seq<nat>)
    requires FittingCode(lengths, max) && MaxLens(lengths, |lengths|, maxlens) && n < |lengths| && Present(lengths, n)
    requires Filled(lengths, maxlens, n, len, value) && Wrote(lengths, maxlens, n, len, value, len', value')
    ensures Filled(lengths, maxlens, n + 1, len', value')
  {
    hide FittingCode, MaxLens, Covers, Start;
    forall s, i | 0 <= s < n + 1 && Present(lengths, s) && 0 <= i < |len| && Covers(lengths, maxlens, s, i)
      ensures len'[i] == lengths[s] && value'[i] == s
    {
      if Covers(lengths, maxlens, n, i) {
        CoversOnce(lengths, max, maxlens, s, n, i);
      }
    }
    forall i | 0 <= i < HEAD_SIZE && maxlens[i] != 0
      ensures len'[i] == maxlens[i] && value'[i] == Start(maxlens, i)
    {
      if Covers(lengths, maxlens, n, i) {
        PointerIsFree(lengths, max, maxlens, n, i);
      }
    }
  }

  /** No entry of symbol n is in use before it is written, so the conflict exit (error 55) is not taken. */
  lemma EntriesAreFree(lengths: seq<nat>, max: nat, maxlens: seq<nat>, n: nat, len: seq<nat>, value: seq<nat>, i: nat)
    requires FittingCode(lengths, max) && MaxLens(lengths, |lengths|, maxlens) && n < |lengths|
    requires |maxlens| == HEAD_SIZE && Filled(lengths, maxlens, n, len, value) && i < |len|
    requires Present(lengths, n) && Covers(lengths, maxlens, n, i)
    ensures len[i] == UNUSED
  {
    hide FittingCode, MaxLens, Covers, Start;
    if i < HEAD_SIZE {
      PointerIsFree(lengths, max, maxlens, n, i);
    }
    forall s | 0 <= s < n && Present(lengths, s)
      ensures !Covers(lengths, maxlens, s, i)
    {
      if Covers(lengths, maxlens, s, i) {
        CoversOnce(lengths, max, maxlens, s, n, i);
      }
    }
    assert Unclaimed(lengths, maxlens, n, i);
  }

  method TableSize(maxlens: seq<nat>) returns (size: nat)
    ensures size == Start(maxlens, |maxlens|)
  {
    size := HEAD_SIZE;
    for i := 0 to |maxlens|
      invariant size == Start(maxlens, i)
    {
      if maxlens[i] > FIRST_BITS {
        size := size + Pow2(maxlens[i] - FIRST_BITS);
      }
    }
  }

  /** Allocate the table, mark it unused and write the pointers to the sub-tables. */
  method InitTable(ghost lengths: seq<nat>, maxlens: seq<nat>) returns (len: array<nat>, value: array<nat>)
    requires MaxLensOk(maxlens)
    ensures fresh(len) && fresh(value) && len != value && Filled(lengths, maxlens, 0, len[..], value[..])
    ensures len.Length < 65536
  {
    hide Pow2, Covers, Filled, Start;
    var size := TableSize(maxlens);
    StartBound(maxlens, |maxlens|);
    len := new nat[size](_ => UNUSED);
    value := new nat[size](_ => 0);
    WritePointers(maxlens, len, value);
    OnlyPointers(lengths, maxlens, len[..], value[..]);
  }

  method WritePointers(maxlens: seq<nat>, len: array<nat>, value: array<nat>)
    requires |maxlens| <= len.Length == value.Length && len != value
    modifies len, value
    ensures forall k :: 0 <= k < len.Length ==>
      len[k] == if k < |maxlens| && maxlens[k] > FIRST_BITS then maxlens[k] else old(len[k])
    ensures forall k :: 0 <= k < |maxlens| && maxlens[k] > FIRST_BITS ==> value[k] == Start(maxlens, k)
  {
    hide Pow2;
    var pointer := HEAD_SIZE;
    for i := 0 to |maxlens|
      invariant pointer == Start(maxlens, i)
      invariant forall k :: 0 <= k < len.Length ==>
        len[k] == if k < i && maxlens[k] > FIRST_BITS then maxlens[k] else old(len[k])
      invariant forall k :: 0 <= k < i && maxlens[k] > FIRST_BITS ==> value[k] == Start(maxlens, k)
    {
      if maxlens[i] > FIRST_BITS {
        len[i] := maxlens[i];
        value[i] := pointer;
        pointer := pointer + Pow2(maxlens[i] - FIRST_BITS);
      }
    }
  }

  lemma OnlyPointers(lengths: seq<nat>, maxlens: seq<nat>, len: seq<nat>, value: seq<nat>)
    requires |maxlens| == HEAD_SIZE && |len| == |value| == Start(maxlens, |maxlens|) >= HEAD_SIZE
    requires forall k :: 0 <= k < HEAD_SIZE && maxlens[k] != 0 ==> len[k] == maxlens[k] && value[k] == Start(maxlens, k)
    requires forall k :: 0 <= k < |len| && (k < HEAD_SIZE ==> maxlens[k] == 0) ==> len[k] == UNUSED
    ensures Filled(lengths, maxlens, 0, len, value)
  {
    hide Covers, Start;
  }

  /** Entry i belongs to no short code of the first n symbols, or is in use and no two of them claim it. */
  ghost predicate ClearAt(lengths: seq<nat>, maxlens: seq<nat>, n: nat, len: seq<nat>, i: nat)
    requires n <= |lengths| && |maxlens| == HEAD_SIZE && i < |len|
  {
    forall s :: 0 <= s < n && ShortAt(lengths, maxlens, s, i) ==>
      && len[i] != UNUSED && (i < HEAD_SIZE ==> maxlens[i] == 0)
      && forall t :: 0 <= t < n && ShortAt(lengths, maxlens, t, i) ==> s == t
  }

  ghost predicate ShortAt(lengths: seq<nat>, maxlens: seq<nat>, s: nat, i: nat)
    requires |maxlens| == HEAD_SIZE
  {
    Present(lengths, s) && lengths[s] <= FIRST_BITS && Covers(lengths, maxlens, s, i)
  }

  ghost predicate MaxLensOk(maxlens: seq<nat>) {
    |maxlens| == HEAD_SIZE && forall i :: 0 <= i < HEAD_SIZE ==> maxlens[i] == 0 || FIRST_BITS < maxlens[i] <= MAX_BITS
  }

  /**
   What writing symbol n does to the table: its entries hold it, no other changes, and a short
   code takes unused entries only.
   */
  ghost predicate Wrote(lengths: seq<nat>, maxlens: seq<nat>, n: nat, len: seq<nat>, value: seq<nat>, len': seq<nat>,
                        value': seq<nat>)
    requires |maxlens| == HEAD_SIZE && Present(lengths, n)
  {
    && |len| == |value| == |len'| == |value'|
    && forall i :: 0 <= i < |len| ==>
         if Covers(lengths, maxlens, n, i)
         then len'[i] == lengths[n] && value'[i] == n && (lengths[n] <= FIRST_BITS ==> len[i] == UNUSED)
         else len'[i] == len[i] && value'[i] == value[i]
  }

  lemma WroteKeepsPointers(lengths: seq<nat>, maxlens: seq<nat>, n: nat, len: seq<nat>, value: seq<nat>, len': seq<nat>,
                           value': seq<nat>)
    requires MaxLensOk(maxlens) && Present(lengths, n)
    requires Pointers(maxlens, len, value) && Wrote(lengths, maxlens, n, len, value, len', value')
    ensures Pointers(maxlens, len', value')
  {
    hide Covers, Start;
    forall i | 0 <= i < HEAD_SIZE && maxlens[i] != 0
      ensures len'[i] == maxlens[i] && value'[i] == Start(maxlens, i)
    {
      if Covers(lengths, maxlens, n, i) {
        HeadPath(lengths, maxlens, n, i);
      }
    }
  }

  lemma WroteKeepsClear(lengths: seq<nat>, maxlens: seq<nat>, n: nat, len: seq<nat>, value: seq<nat>, len': seq<nat>,
                        value': seq<nat>, i: nat)
    requires MaxLensOk(maxlens) && n < |lengths| && Present(lengths, n) && lengths[n] <= MAX_BITS && i < HEAD_SIZE
    requires Pointers(maxlens, len, value) && Wrote(lengths, maxlens, n, len, value, len', value')
    requires ClearAt(lengths, maxlens, n, len, i)
    ensures ClearAt(lengths, maxlens, n + 1, len', i)
  {
    hide Covers, Start;
  }

  method FillSymbol(lengths: seq<nat>, codes: seq<nat>, ghost max: nat, ghost maxlens: seq<nat>, n: nat,
                    len: array<nat>, value: array<nat>) returns (error: nat)
    requires Bounded(lengths, max) && max <= MAX_BITS
    requires MaxLens(lengths, |lengths|, maxlens) && GoodCodes(lengths, codes)
    requires MaxLensOk(maxlens) && n < |lengths| && Present(lengths, n) && len != value
    requires Pointers(maxlens, len[..], value[..]) && ClearAt(lengths, maxlens, n, len[..], 0)
    requires FittingCode(lengths, max) ==> Filled(lengths, maxlens, n, len[..], value[..])
    modifies len, value
    ensures error == 0 || error == 55
    ensures FittingCode(lengths, max) ==> error == 0 && Filled(lengths, maxlens, n + 1, len[..], value[..])
    ensures error == 0 ==> Pointers(maxlens, len[..], value[..]) && ClearAt(lengths, maxlens, n + 1, len[..], 0)
  {
    hide FittingCode, MaxLens, GoodCodes, Filled, Covers, ClearAt, Start;
    var l := lengths[n];
    ghost var len0, value0 := len[..], value[..];
    var reverse := ReverseCode(lengths, codes, n);
    if l <= FIRST_BITS {
      error := FillShort(lengths, max, maxlens, n, reverse, len, value);
    } else {
      error := 0;
      FillLong(lengths, maxlens, n, reverse, len, value);
    }
    if error == 0 {
      WroteKeepsPointers(lengths, maxlens, n, len0, value0, len[..], value[..]);
      WroteKeepsClear(lengths, maxlens, n, len0, value0, len[..], value[..], 0);
      if FittingCode(lengths, max) {
        AddSymbol(lengths, max, maxlens, n, len0, value0, len[..], value[..]);
      }
    }
  }

  method ReverseCode(lengths: seq<nat>, codes: seq<nat>, n: nat) returns (reverse: nat)
    requires GoodCodes(lengths, codes) && Present(lengths, n)
    ensures reverse == LsbValue(Codeword(lengths, n))
  {
    reverse := ReverseBits(codes[n], lengths[n]);
  }

  /** A code of at most nine bits: replicated over all values of the bits that follow it. */
  method FillShort(lengths: seq<nat>, ghost max: nat, ghost maxlens: seq<nat>, n: nat, reverse: nat,
                   len: array<nat>, value: array<nat>) returns (error: nat)
    requires MaxLens(lengths, |lengths|, maxlens) && |maxlens| == HEAD_SIZE
    requires n < |lengths| && Present(lengths, n) && lengths[n] <= FIRST_BITS && len != value
    requires Pointers(maxlens, len[..], value[..]) && reverse == LsbValue(Codeword(lengths, n))
    requires FittingCode(lengths, max) ==> Filled(lengths, maxlens, n, len[..], value[..])
    modifies len, value
    ensures error == 0 || error == 55
    ensures FittingCode(lengths, max) ==> error == 0
    ensures error == 0 ==> Wrote(lengths, maxlens, n, old(len[..]), old(value[..]), len[..], value[..])
  {
    hide FittingCode, Filled, Start, Codeword, LsbValue;
    var l := lengths[n];
    Pow2Adds(l, FIRST_BITS - l);
    SmallPowers();
    LsbValueBound(Codeword(lengths, n));
    forall i | 0 <= i < len.Length
      ensures Covers(lengths, maxlens, n, i) <==> Hit(i, 0, reverse, Pow2(l), Pow2(FIRST_BITS - l))
    {
      ShortEntries(lengths, maxlens, n, i);
    }
    if FittingCode(lengths, max) {
      forall i | 0 <= i < len.Length && Covers(lengths, maxlens, n, i)
        ensures len[i] == UNUSED
      {
        EntriesAreFree(lengths, max, maxlens, n, len[..], value[..], i);
      }
    }
    hide Hit, Covers, MaxLens, Pow2;
    error := StampFree(len, value, reverse, Pow2(l), Pow2(FIRST_BITS - l), l, n);
  }

  /** A longer code: written over the sub-table its first nine bits point to, whatever is there. */
  method FillLong(lengths: seq<nat>, ghost maxlens: seq<nat>, n: nat, reverse: nat, len: array<nat>, value: array<nat>)
    requires MaxLens(lengths, |lengths|, maxlens) && |maxlens| == HEAD_SIZE
    requires n < |lengths| && Present(lengths, n) && lengths[n] > FIRST_BITS && len != value
    requires Pointers(maxlens, len[..], value[..]) && reverse == LsbValue(Codeword(lengths, n))
    modifies len, value
    ensures Wrote(lengths, maxlens, n, old(len[..]), old(value[..]), len[..], value[..])
  {
    hide *;
    var l := lengths[n];
    SplitReverse(lengths, n);
    LongTarget(lengths, maxlens, n);
    PointerOf(lengths, maxlens, len[..], value[..], n);
    var index, reverse2 := reverse % Pow2(FIRST_BITS), reverse / Pow2(FIRST_BITS);
    var maxlen, start := len[index], value[index];
    // The longest code with this prefix is at least this one, so the second exit with 55 is never taken.
    assert maxlen >= l;
    var m := maxlen - l;
    forall i | 0 <= i < len.Length
      ensures Covers(lengths, maxlens, n, i) <==> Hit(i, start, reverse2, Pow2(l - FIRST_BITS), Pow2(m))
    {
      LongEntries(lengths, maxlens, n, i);
    }
    ghost var len0, value0 := len[..], value[..];
    Stamp(len, value, start, reverse2, Pow2(l - FIRST_BITS), Pow2(m), l, n);
    WroteIs(lengths, maxlens, n, len0, value0, len[..], value[..]);
  }

  lemma WroteIs(lengths: seq<nat>, maxlens: seq<nat>, n: nat, len: seq<nat>, value: seq<nat>, len': seq<nat>,
                value': seq<nat>)
    requires |maxlens| == HEAD_SIZE && Present(lengths, n)
    requires lengths[n] > FIRST_BITS && |len| == |value| == |len'| == |value'|
    requires forall i :: 0 <= i < |len| ==> Covers(lengths, maxlens, n, i) ==> len'[i] == lengths[n] && value'[i] == n
    requires forall i ::
               0 <= i < |len| ==> !Covers(lengths, maxlens, n, i) ==> len'[i] == len[i] && value'[i] == value[i]
    ensures Wrote(lengths, maxlens, n, len, value, len', value')
  {
    hide Covers;
  }

  lemma PointerOf(lengths: seq<nat>, maxlens: seq<nat>, len: seq<nat>, value: seq<nat>, s: nat)
    requires MaxLens(lengths, |lengths|, maxlens) && Pointers(maxlens, len, value)
    requires s < |lengths| && lengths[s] > FIRST_BITS
    ensures |maxlens| == HEAD_SIZE && |len| == |value| == Start(maxlens, |maxlens|) >= HEAD_SIZE
    ensures var i := FirstIndex(lengths, s);
            i < HEAD_SIZE && len[i] == maxlens[i] && value[i] == Start(maxlens, i)
  {
    hide MaxLens, FirstIndex, Start;
    UpperBound(lengths, maxlens, s);
  }

  /** The sub-table of a long code exists, is deep enough for it and lies inside the table. */
  lemma LongTarget(lengths: seq<nat>, maxlens: seq<nat>, n: nat)
    requires MaxLens(lengths, |lengths|, maxlens) && Present(lengths, n) && lengths[n] > FIRST_BITS
    requires FirstIndex(lengths, n) < HEAD_SIZE
    ensures |maxlens| == HEAD_SIZE
    ensures var i, l := FirstIndex(lengths, n), lengths[n];
            && maxlens[i] >= l
            && Start(maxlens, i) + Pow2(l - FIRST_BITS) * Pow2(maxlens[i] - l) <= Start(maxlens, |maxlens|)
            && LsbValue(Codeword(lengths, n)[FIRST_BITS..]) < Pow2(l - FIRST_BITS)
  {
    hide MaxLens, FirstIndex, LsbValue, Codeword, Pow2, Start;
    UpperBound(lengths, maxlens, n);
    var i, l := FirstIndex(lengths, n), lengths[n];
    StartGrows(maxlens, i, |maxlens|);
    Pow2Adds(l - FIRST_BITS, maxlens[i] - l);
    LsbValueBound(Codeword(lengths, n)[FIRST_BITS..]);
  }

  lemma SplitReverse(lengths: seq<nat>, n: nat)
    requires Present(lengths, n) && lengths[n] > FIRST_BITS
    ensures var v := LsbValue(Codeword(lengths, n));
            && v % Pow2(FIRST_BITS) == FirstIndex(lengths, n) < HEAD_SIZE
            && v / Pow2(FIRST_BITS) == LsbValue(Codeword(lengths, n)[FIRST_BITS..])
  {
    var w := Codeword(lengths, n);
    LsbValueConcat(w[..FIRST_BITS], w[FIRST_BITS..]);
    assert w == w[..FIRST_BITS] + w[FIRST_BITS..];
    LsbValueBound(w[..FIRST_BITS]);
    SmallPowers();
    hide Pow2, LsbValue, Codeword;
    ModIs(LsbValue(w), Pow2(FIRST_BITS), LsbValue(w[FIRST_BITS..]), LsbValue(w[..FIRST_BITS]));
  }
}
