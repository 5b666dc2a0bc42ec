/**
 A Huffman tree in the form the codec uses it: lengths, codes and the lookup
 table, built from lengths, and decoding one symbol from a bit reader.
 */
module HuffmanTree {
  import opened BitSequence
  import opened Arithmetic
  import opened BitIo
  import opened Huffman
  import opened HuffmanTable
  import opened HuffmanLookup

  datatype Tree = Tree(lengths: seq<nat>, codes: seq<nat>, tableLen: seq<nat>, tableValue: seq<nat>) {
    ghost predicate Valid() {
      && UsableCode(lengths, MAX_BITS) && |lengths| <= MAX_SYMBOLS
      && GoodCodes(lengths, codes) && Decodes(lengths, tableLen, tableValue)
    }
  }

  /** A code that is complete with a smaller maximum is complete with a larger one. */
  lemma {:induction false} CompleteWithSlack(lengths: seq<nat>, max: nat, max': nat)
    requires Bounded(lengths, max) && max <= max'
    ensures Bounded(lengths, max') && KraftSum(lengths, max') == KraftSum(lengths, max) * Pow2(max' - max)
    decreases |lengths|
  {
    if lengths != [] {
      var n := |lengths| - 1;
      CompleteWithSlack(lengths[..n], max, max');
      ShareWithSlack(lengths[n], max, max');
      hide Pow2, Share;
      Distribute(KraftSum(lengths[..n], max), Share(lengths[n], max), Pow2(max' - max));
    }
  }

  lemma ShareWithSlack(l: nat, max: nat, max': nat)
    requires l <= max <= max'
    ensures Share(l, max') == Share(l, max) * Pow2(max' - max)
  {
    hide Pow2;
    if l > 0 {
      Pow2Adds(max - l, max' - max);
    }
  }

  /** A list that has a table with a smaller maximum has one with a larger. */
  lemma UsableWithSlack(lengths: seq<nat>, max: nat, max': nat)
    requires UsableCode(lengths, max) && max <= max'
    ensures UsableCode(lengths, max')
  {
    hide KraftSum, Pow2, AtMostOne;
    if CompleteCode(lengths, max) {
      CompleteWithSlack(lengths, max, max');
      Pow2Adds(max, max' - max);
    }
  }

  /** Codes and table for any list of up to 288 lengths of at most `max` bits, or error 55. */
  method MakeFromLengths(lengths: seq<nat>, max: nat) returns (error: nat, tree: Tree)
    requires Bounded(lengths, max) && max <= MAX_BITS && |lengths| <= MAX_SYMBOLS
    ensures error == 0 || error == 55
    ensures error == 0 <==> UsableCode(lengths, max)
    ensures error == 0 ==> tree.Valid() && tree.lengths == lengths
  {
    hide UsableCode, GoodCodes, Decodes;
    var codes := MakeCodes(lengths, max);
    CodesAreGood(lengths, codes);
    var tableLen, tableValue;
    error, tableLen, tableValue := MakeTable(lengths, codes, max);
    if error == 0 {
      UsableWithSlack(lengths, max, MAX_BITS);
    }
    tree := Tree(lengths, codes, tableLen, tableValue);
  }

  lemma CodesAreGood(lengths: seq<nat>, codes: seq<nat>)
    requires |codes| == |lengths|
    requires forall s :: 0 <= s < |lengths| && Present(lengths, s) ==>
      codes[s] == CanonicalCode(lengths, s) % Pow2(lengths[s])
    ensures GoodCodes(lengths, codes)
  {
    hide CanonicalCode, Pow2, MsbBits;
    forall s | 0 <= s < |lengths| && Present(lengths, s)
      ensures MsbBits(codes[s], lengths[s]) == Codeword(lengths, s)
    {
      MsbBitsMod(CanonicalCode(lengths, s), lengths[s]);
    }
  }

  // The trees of fixed blocks (RFC 1951 section 3.2.6).

  function Repeat(l: nat, n: nat): (s: seq<nat>)
    ensures |s| == n
  {
    seq(n, _ => l)
  }

  function FixedLitLenLengths(): seq<nat> {
    Repeat(8, 144) + Repeat(9, 112) + Repeat(7, 24) + Repeat(8, 8)
  }

  function FixedDistanceLengths(): seq<nat> {
    Repeat(5, 32)
  }

  lemma {:induction false} KraftOfRun(s: seq<nat>, l: nat, n: nat, max: nat)
    requires Bounded(s, max) && l <= max
    ensures Bounded(s + Repeat(l, n), max)
    ensures KraftSum(s + Repeat(l, n), max) == KraftSum(s, max) + n * Share(l, max)
    decreases n
  {
    if n == 0 {
      assert s + Repeat(l, n) == s;
    } else {
      KraftOfRun(s, l, n - 1, max);
      var t := s + Repeat(l, n);
      assert t[..|t| - 1] == s + Repeat(l, n - 1) && t[|t| - 1] == l;
      Distribute(n - 1, 1, Share(l, max));
    }
  }

  lemma FixedCodesAreComplete()
    ensures CompleteCode(FixedLitLenLengths(), MAX_BITS) && |FixedLitLenLengths()| == 288
    ensures CompleteCode(FixedDistanceLengths(), MAX_BITS) && |FixedDistanceLengths()| == 32
  {
    hide KraftSum;
    SmallPowers();
    KraftOfNothing();
    KraftOfRun([], 8, 144, MAX_BITS);
    KraftOfRun([] + Repeat(8, 144), 9, 112, MAX_BITS);
    KraftOfRun([] + Repeat(8, 144) + Repeat(9, 112), 7, 24, MAX_BITS);
    KraftOfRun([] + Repeat(8, 144) + Repeat(9, 112) + Repeat(7, 24), 8, 8, MAX_BITS);
    KraftOfRun([], 5, 32, MAX_BITS);
    assert [] + Repeat(8, 144) + Repeat(9, 112) + Repeat(7, 24) + Repeat(8, 8) == FixedLitLenLengths();
    assert [] + Repeat(5, 32) == FixedDistanceLengths();
  }

  lemma KraftOfNothing()
    ensures KraftSum([], MAX_BITS) == 0
  {
  }

  method GenerateFixedLitLenTree() returns (tree: Tree)
    ensures tree.Valid() && tree.lengths == FixedLitLenLengths()
  {
    hide CompleteCode;
    var bitlen := new nat[288](i => if i <= 143 then 8 else if i <= 255 then 9 else if i <= 279 then 7 else 8);
    assert bitlen[..] == FixedLitLenLengths();
    FixedCodesAreComplete();
    CompleteFits(bitlen[..], 15);
    var error;
    error, tree := MakeFromLengths(bitlen[..], 15);
  }

  method GenerateFixedDistanceTree() returns (tree: Tree)
    ensures tree.Valid() && tree.lengths == FixedDistanceLengths()
  {
    hide CompleteCode;
    var bitlen := new nat[32](_ => 5);
    assert bitlen[..] == FixedDistanceLengths();
    FixedCodesAreComplete();
    CompleteFits(bitlen[..], 15);
    var error;
    error, tree := MakeFromLengths(bitlen[..], 15);
  }

  // Decoding.

  /** The symbol whose codeword the stream continues with at bit p, or the invalid symbol if there is none. */
  ghost function SymbolAt(lengths: seq<nat>, data: seq<byte>, p: nat): (s: nat)
    ensures if Starts(lengths, Ahead(data, p, MAX_BITS))
            then Present(lengths, s) && Codeword(lengths, s) <= Ahead(data, p, MAX_BITS)
            else s == INVALID_SYMBOL
  {
    if Starts(lengths, Ahead(data, p, MAX_BITS)) then
      var s: nat :| Present(lengths, s) && Codeword(lengths, s) <= Ahead(data, p, MAX_BITS);
      s
    else INVALID_SYMBOL
  }

  /** The bits a symbol takes; an invalid one takes at least one. */
  function LengthOf(lengths: seq<nat>, s: nat): (n: nat) {
    if Present(lengths, s) then lengths[s] else 1
  }

  /** A symbol that was read is in the alphabet or invalid. */
  lemma SymbolRange(lengths: seq<nat>, data: seq<byte>, p: nat)
    ensures var s := SymbolAt(lengths, data, p); Present(lengths, s) || s == INVALID_SYMBOL
    ensures LengthOf(lengths, SymbolAt(lengths, data, p)) >= 1
  {
  }

  /** A complete code has a symbol for every stream. */
  lemma CompleteSymbol(lengths: seq<nat>, data: seq<byte>, p: nat)
    requires CompleteCode(lengths, MAX_BITS)
    ensures Present(lengths, SymbolAt(lengths, data, p))
  {
    var s := EveryStringIsCovered(lengths, MAX_BITS, Ahead(data, p, MAX_BITS));
    assert Starts(lengths, Ahead(data, p, MAX_BITS));
  }

  /** If the stream continues with the codeword of s, then s is that symbol. */
  lemma SymbolAtIs(lengths: seq<nat>, data: seq<byte>, p: nat, s: nat)
    requires UsableCode(lengths, MAX_BITS) && Present(lengths, s)
    requires Ahead(data, p, lengths[s]) == Codeword(lengths, s)
    ensures SymbolAt(lengths, data, p) == s
  {
    hide Codeword, Ahead, KraftSum, AtMostOne;
    UsableFits(lengths, MAX_BITS);
    AheadSplit(data, p, lengths[s], MAX_BITS);
    assert Starts(lengths, Ahead(data, p, MAX_BITS));
    PrefixFree(lengths, MAX_BITS, Ahead(data, p, MAX_BITS), s, SymbolAt(lengths, data, p));
  }

  /** Decode one symbol through the lookup table, for any stream. */
  method DecodeSymbol(reader: BitReader, tree: Tree) returns (symbol: nat)
    requires reader.Valid() && reader.held >= MAX_BITS && tree.Valid()
    modifies reader
    ensures reader.Valid() && symbol == SymbolAt(tree.lengths, reader.data, old(reader.bp))
    ensures Present(tree.lengths, symbol) || symbol == INVALID_SYMBOL
    ensures LengthOf(tree.lengths, symbol) <= MAX_BITS && reader.bp > old(reader.bp)
    ensures Present(tree.lengths, symbol) ==>
              && reader.bp == old(reader.bp) + LengthOf(tree.lengths, symbol)
              && reader.held == old(reader.held) - LengthOf(tree.lengths, symbol)
  {
    hide LsbValue, Ahead, KraftSum, Codeword, SafeTable, SymbolAt, Tree.Valid;
    ghost var bp := reader.bp;
    SymbolRange(tree.lengths, reader.data, bp);
    LookupAt(tree, reader.data, bp);
    var code := reader.PeekBits(FIRST_BITS);
    var l, value := tree.tableLen[code], tree.tableValue[code];
    if l <= FIRST_BITS {
      reader.AdvanceBits(l);
      symbol := value;
    } else {
      reader.AdvanceBits(FIRST_BITS);
      var more := reader.PeekBits(l - FIRST_BITS);
      value := value + more;
      reader.AdvanceBits(tree.tableLen[value] - FIRST_BITS);
      symbol := tree.tableValue[value];
    }
  }

  /** The lookup finds the symbol at bit p, and its length if it is a symbol of the alphabet. */
  lemma LookupAt(tree: Tree, data: seq<byte>, p: nat)
    requires tree.Valid()
    ensures |tree.tableLen| == |tree.tableValue| && LengthOf(tree.lengths, SymbolAt(tree.lengths, data, p)) <= MAX_BITS
    ensures var i, s := LsbValue(Ahead(data, p, FIRST_BITS)), SymbolAt(tree.lengths, data, p);
            && i < |tree.tableLen| && 1 <= tree.tableLen[i] <= MAX_BITS
            && if tree.tableLen[i] <= FIRST_BITS then
                 tree.tableValue[i] == s && (Present(tree.lengths, s) ==> tree.tableLen[i] == tree.lengths[s])
               else
                 var k := tree.tableValue[i] + LsbValue(Ahead(data, p + FIRST_BITS, tree.tableLen[i] - FIRST_BITS));
                 && k < |tree.tableLen| && tree.tableValue[k] == s && FIRST_BITS <= tree.tableLen[k] <= MAX_BITS
                 && (Present(tree.lengths, s) ==> tree.tableLen[k] == tree.lengths[s])
  {
    hide LsbValue, Ahead, KraftSum, Codeword, SymbolAt, SafeTable, Lookup, UsableCode, GoodCodes, Pow2, Starts;
    var bits, s := Ahead(data, p, MAX_BITS), SymbolAt(tree.lengths, data, p);
    LookupIs(tree, data, p);
    AheadSplit(data, p, FIRST_BITS, MAX_BITS);
    LookupSteps(tree.tableLen, tree.tableValue, bits);
    var i := LsbValue(Ahead(data, p, FIRST_BITS));
    if tree.tableLen[i] > FIRST_BITS {
      var n := tree.tableLen[i] - FIRST_BITS;
      AheadSplit(data, p + FIRST_BITS, n, MAX_BITS - FIRST_BITS);
      assert bits[FIRST_BITS..FIRST_BITS + n] == bits[FIRST_BITS..][..n];
    }
  }

  lemma LookupIs(tree: Tree, data: seq<byte>, p: nat)
    requires tree.Valid()
    ensures var r := Lookup(tree.tableLen, tree.tableValue, Ahead(data, p, MAX_BITS));
            var s := SymbolAt(tree.lengths, data, p);
            r.0 == s && (Present(tree.lengths, s) ==> r.1 == tree.lengths[s]) && LengthOf(tree.lengths, s) <= MAX_BITS
  {
    hide Ahead, KraftSum, Codeword, SymbolAt, SafeTable, Lookup, GoodCodes, Pow2;
    UsableFits(tree.lengths, MAX_BITS);
    var bits, s := Ahead(data, p, MAX_BITS), SymbolAt(tree.lengths, data, p);
    if Starts(tree.lengths, bits) {
      assert Lookup(tree.tableLen, tree.tableValue, bits) == (s, tree.lengths[s]);
    }
  }

  /** The one or two steps of a lookup. */
  lemma LookupSteps(len: seq<nat>, value: seq<nat>, bits: seq<bool>)
    requires SafeTable(len, value) && |bits| >= MAX_BITS
    ensures |len| == |value|
    ensures var i := LsbValue(bits[..FIRST_BITS]);
            && i < |len| && 1 <= len[i] <= MAX_BITS && Lookup(len, value, bits).1 <= MAX_BITS
            && if len[i] <= FIRST_BITS then Lookup(len, value, bits) == (value[i], len[i])
               else
                 var k := value[i] + LsbValue(bits[FIRST_BITS..len[i]]);
                 k < |len| && len[k] > FIRST_BITS && Lookup(len, value, bits) == (value[k], len[k])
  {
    hide LsbValue, Pow2;
    SmallPowers();
    LsbValueBound(bits[..FIRST_BITS]);
    var i := LsbValue(bits[..FIRST_BITS]);
    assert SafeEntry(len, value, i);
    if len[i] > FIRST_BITS {
      LsbValueBound(bits[FIRST_BITS..len[i]]);
    }
  }
}
