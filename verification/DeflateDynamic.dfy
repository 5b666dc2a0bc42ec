/**
 Writing a dynamic block: counting the symbols of its tokens, choosing the codes by
 package-merge, and writing the header with the codes before the tokens.
 */
module DeflateDynamic {
  import opened BitSequence
  import opened Wrappers
  import opened BitIo
  import opened Huffman
  import opened HuffmanTable
  import opened HuffmanLookup
  import opened HuffmanTree
  import opened HuffmanBlock
  import opened Lz77
  import opened Lz77Encoder
  import opened CodeLengths
  import opened DynamicHeader
  import opened DeflateBlock
  import CodeCost
  import PackageMerge

  // Frequencies.

  ghost predicate CountedToken(ll: seq<nat>, d: seq<nat>, t: Token)
    requires |ll| == 286 && |d| == 30
  {
    && t.Valid()
    && match t
       case Literal(b) => ll[b] > 0
       case Copy(lc, _, dc, _) => ll[FIRST_LENGTH_CODE + lc] > 0 && d[dc] > 0
  }

  /** Every symbol the tokens use has been counted. */
  ghost predicate Counted(ll: seq<nat>, d: seq<nat>, tokens: seq<Token>)
    requires |ll| == 286 && |d| == 30
  {
    forall i :: 0 <= i < |tokens| ==> CountedToken(ll, d, tokens[i])
  }

  function LlSymbol(t: Token): nat {
    if t.Literal? then t.value else FIRST_LENGTH_CODE + t.lengthCode
  }

  /** How often tokens use a symbol of the literal and length alphabet, and of the distance alphabet. */
  function LlUses(tokens: seq<Token>, s: nat): (n: nat) {
    if tokens == [] then 0
    else LlUses(tokens[..|tokens| - 1], s) + if LlSymbol(tokens[|tokens| - 1]) == s then 1 else 0
  }

  function DistUses(tokens: seq<Token>, s: nat): (n: nat) {
    if tokens == [] then 0
    else
      var t := tokens[|tokens| - 1];
      DistUses(tokens[..|tokens| - 1], s) + if t.Copy? && t.distCode == s then 1 else 0
  }

  lemma UsesNext(tokens: seq<Token>, k: nat)
    requires k < |tokens|
    ensures forall s: nat ::
              LlUses(tokens[..k + 1], s) == LlUses(tokens[..k], s) + if LlSymbol(tokens[k]) == s then 1 else 0
    ensures forall s: nat :: DistUses(tokens[..k + 1], s)
                          == DistUses(tokens[..k], s) + if tokens[k].Copy? && tokens[k].distCode == s then 1 else 0
  {
    assert tokens[..k + 1][..k] == tokens[..k];
  }

  lemma {:induction false} UsedIsCounted(tokens: seq<Token>, i: nat)
    requires i < |tokens|
    ensures LlUses(tokens, LlSymbol(tokens[i])) > 0
    ensures tokens[i].Copy? ==> DistUses(tokens, tokens[i].distCode) > 0
    decreases |tokens|
  {
    var n := |tokens| - 1;
    if i < n {
      UsedIsCounted(tokens[..n], i);
    }
  }

  /** The frequencies are the numbers of uses. */
  ghost predicate Frequencies(ll: seq<nat>, d: seq<nat>, tokens: seq<Token>) {
    && |ll| == 286 && |d| == 30
    && (forall s :: 0 <= s < 286 && s != END_CODE ==> ll[s] == LlUses(tokens, s))
    && (forall s :: 0 <= s < 30 ==> d[s] == DistUses(tokens, s))
  }

  lemma FrequenciesCount(ll: seq<nat>, d: seq<nat>, tokens: seq<Token>)
    requires Frequencies(ll, d, tokens) && ValidTokens(tokens)
    ensures Counted(ll, d, tokens)
  {
    hide Pow2, LengthExtra, DistanceExtra, LlUses, DistUses;
    forall i | 0 <= i < |tokens|
      ensures CountedToken(ll, d, tokens[i])
    {
      UsedIsCounted(tokens, i);
    }
  }

  method CountFrequencies(entries: seq<nat>, ghost tokens: seq<Token>) returns (ll: seq<nat>, d: seq<nat>)
    requires ValidTokens(tokens) && entries == Lz77.Entries(tokens)
    ensures Frequencies(ll, d, tokens) && ll[END_CODE] == 1 && Counted(ll, d, tokens)
  {
    hide Lz77.Entries, Pow2, LengthExtra, DistanceExtra, LlUses, DistUses;
    var freqLl, freqD := new nat[286](_ => 0), new nat[30](_ => 0);
    var i := 0;
    ghost var k := 0;
    FirstEntries(tokens);
    while i < |entries|
      invariant 0 <= k <= |tokens| && i == |Lz77.Entries(tokens[..k])| <= |entries|
      invariant Frequencies(freqLl[..], freqD[..], tokens[..k])
      decreases |tokens| - k
    {
      EntryFields(tokens, k, i);
      UsesNext(tokens, k);
      var symbol := entries[i];
      freqLl[symbol] := freqLl[symbol] + 1;
      i := i + 1;
      if symbol > 256 {
        freqD[entries[i + 1]] := freqD[entries[i + 1]] + 1;
        i := i + 3;
      }
      k := k + 1;
    }
    freqLl[256] := 1;
    AllEntries(tokens, k);
    ll, d := freqLl[..], freqD[..];
    FrequenciesCount(ll, d, tokens);
  }

  lemma FirstEntries(tokens: seq<Token>)
    ensures Lz77.Entries(tokens[..0]) == []
    ensures forall s: nat :: LlUses(tokens[..0], s) == 0 && DistUses(tokens[..0], s) == 0
  {
    assert tokens[..0] == [];
  }

  lemma EntryFields(tokens: seq<Token>, k: nat, i: nat)
    requires ValidTokens(tokens) && k <= |tokens| && i == |Lz77.Entries(tokens[..k])| < |Lz77.Entries(tokens)|
    ensures k < |tokens|
    ensures var e, t := Lz77.Entries(tokens), tokens[k];
            && (t.Literal? ==> e[i] == t.value && |Lz77.Entries(tokens[..k + 1])| == i + 1 <= |e|)
            && (t.Copy? ==> |Lz77.Entries(tokens[..k + 1])| == i + 4 <= |e|
                            && e[i] == FIRST_LENGTH_CODE + t.lengthCode && e[i + 2] == t.distCode)
  {
    hide Pow2, LengthExtra, DistanceExtra;
    assert tokens[..|tokens|] == tokens;
    EntriesPrefix(tokens, k);
    assert tokens[..k + 1][..k] == tokens[..k];
    var own := Lz77.Entries(tokens[..k]) + tokens[k].Entries();
    assert forall m :: 0 <= m < |own| ==> own[m] == Lz77.Entries(tokens)[m];
  }

  lemma AllEntries(tokens: seq<Token>, k: nat)
    requires k <= |tokens| && |Lz77.Entries(tokens[..k])| >= |Lz77.Entries(tokens)|
    ensures tokens[..k] == tokens
  {
    if k < |tokens| {
      EntriesPrefix(tokens, k);
    }
  }

  /** Trim trailing zero frequencies, then build the tree. */
  method MakeFromFrequencies(freqs: seq<nat>, mincodes: nat, max: nat) returns (tree: Tree)
    requires 2 <= mincodes <= |freqs| <= Pow2(max) && max <= MAX_BITS && |freqs| <= MAX_SYMBOLS
    ensures tree.Valid() && mincodes <= |tree.lengths| <= |freqs| && Bounded(tree.lengths, max)
    ensures CompleteCode(tree.lengths, max) && CodeCost.Optimal(freqs[..|tree.lengths|], max, tree.lengths)
    ensures forall s :: 0 <= s < |freqs| && freqs[s] > 0 ==> Present(tree.lengths, s)
  {
    hide KraftSum, Tree.Valid, Pow2, CodeCost.Optimal;
    var n := |freqs|;
    while freqs[n - 1] == 0 && n > mincodes
      invariant mincodes <= n <= |freqs|
      invariant forall s :: n <= s < |freqs| ==> freqs[s] == 0
    {
      n := n - 1;
    }
    var error, lengths := PackageMerge.HuffmanCodeLengths(freqs[..n], max);
    CompleteFits(lengths, max);
    error, tree := MakeFromLengths(lengths, max);
  }

  // The decoder sees the lengths padded with zeros to the full alphabet; that changes no code.

  lemma {:induction false} CountOfPad(lengths: seq<nat>, k: nat, l: nat)
    requires l > 0
    ensures Count(lengths + Repeat(0, k), l) == Count(lengths, l)
    decreases k
  {
    if k == 0 {
      assert lengths + Repeat(0, k) == lengths;
    } else {
      var t := lengths + Repeat(0, k);
      assert t[..|t| - 1] == lengths + Repeat(0, k - 1) && t[|t| - 1] == 0;
      CountOfPad(lengths, k - 1, l);
    }
  }

  lemma {:induction false} FirstCodeOfPad(lengths: seq<nat>, k: nat, l: nat)
    ensures FirstCode(lengths + Repeat(0, k), l) == FirstCode(lengths, l)
    decreases l
  {
    if l > 1 {
      FirstCodeOfPad(lengths, k, l - 1);
      CountOfPad(lengths, k, l - 1);
    }
  }

  lemma CodewordOfPad(lengths: seq<nat>, n: nat, s: nat)
    requires |lengths| <= n && Present(lengths, s)
    ensures Present(Pad(lengths, n), s) && Codeword(Pad(lengths, n), s) == Codeword(lengths, s)
  {
    hide Count, FirstCode;
    FirstCodeOfPad(lengths, n - |lengths|, lengths[s]);
    assert Pad(lengths, n)[..s] == lengths[..s];
  }

  lemma UsableOfPad(lengths: seq<nat>, n: nat, max: nat)
    requires UsableCode(lengths, max) && |lengths| <= n
    ensures UsableCode(Pad(lengths, n), max)
  {
    UsableIsBounded(lengths, max);
    KraftOfRun(lengths, 0, n - |lengths|, max);
    if AtMostOne(lengths) {
      assert forall s :: Present(Pad(lengths, n), s) ==> Present(lengths, s);
    }
  }

  ghost function PadCodes(codes: Codes): Codes
    requires |codes.ll| <= NUM_LITLEN_SYMBOLS && |codes.d| <= NUM_DISTANCE_SYMBOLS
  {
    Codes(Pad(codes.ll, NUM_LITLEN_SYMBOLS), Pad(codes.d, NUM_DISTANCE_SYMBOLS))
  }

  lemma TokenBitsOfPad(codes: Codes, t: Token)
    requires |codes.ll| <= NUM_LITLEN_SYMBOLS && |codes.d| <= NUM_DISTANCE_SYMBOLS && Encodable(codes, t)
    ensures Encodable(PadCodes(codes), t) && TokenBits(PadCodes(codes), t) == TokenBits(codes, t)
  {
    hide Codeword, LsbBits, Pow2, LengthExtra, DistanceExtra, Pad;
    match t {
      case Literal(b) =>
        CodewordOfPad(codes.ll, NUM_LITLEN_SYMBOLS, b);
      case Copy(lc, _, dc, _) =>
        CodewordOfPad(codes.ll, NUM_LITLEN_SYMBOLS, FIRST_LENGTH_CODE + lc);
        CodewordOfPad(codes.d, NUM_DISTANCE_SYMBOLS, dc);
    }
  }

  lemma {:induction false} TokenStreamOfPad(codes: Codes, tokens: seq<Token>)
    requires |codes.ll| <= NUM_LITLEN_SYMBOLS && |codes.d| <= NUM_DISTANCE_SYMBOLS && AllEncodable(codes, tokens)
    ensures AllEncodable(PadCodes(codes), tokens)
    ensures TokenStream(PadCodes(codes), tokens) == TokenStream(codes, tokens)
    decreases |tokens|
  {
    hide TokenBits, Encodable, PadCodes;
    if tokens != [] {
      TokenBitsOfPad(codes, tokens[0]);
      TokenStreamOfPad(codes, tokens[1..]);
      assert AllEncodable(PadCodes(codes), tokens) by {
        assert forall i :: 1 <= i < |tokens| ==> tokens[i] == tokens[1..][i - 1];
      }
    }
  }

  lemma BlockBitsOfPad(codes: Codes, tokens: seq<Token>)
    requires |codes.ll| <= NUM_LITLEN_SYMBOLS && |codes.d| <= NUM_DISTANCE_SYMBOLS
    requires AllEncodable(codes, tokens) && Present(codes.ll, END_CODE) && codes.Valid()
    ensures PadCodes(codes).Valid() && AllEncodable(PadCodes(codes), tokens) && Present(PadCodes(codes).ll, END_CODE)
    ensures BlockBits(PadCodes(codes), tokens) == BlockBits(codes, tokens)
  {
    hide TokenStream, AllEncodable, Codeword, Pad, UsableCode;
    TokenStreamOfPad(codes, tokens);
    CodewordOfPad(codes.ll, NUM_LITLEN_SYMBOLS, END_CODE);
    UsableOfPad(codes.ll, NUM_LITLEN_SYMBOLS, MAX_BITS);
    UsableOfPad(codes.d, NUM_DISTANCE_SYMBOLS, MAX_BITS);
  }

  // The coded lengths in the stream.

  lemma {:induction false} ItemEntriesPrefix(items: seq<CodeLengths.Item>, k: nat)
    requires k <= |items|
    ensures ItemEntries(items[..k]) <= ItemEntries(items)
    ensures k < |items| ==> ItemEntries(items[..k]) + items[k].Entries() <= ItemEntries(items)
    decreases |items|
  {
    if k == |items| {
      assert items[..k] == items;
    } else {
      var n := |items| - 1;
      if k < n {
        ItemEntriesPrefix(items[..n], k);
        assert items[..n][..k] == items[..k];
      }
    }
  }

  /** The entries at index i are those of item k. */
  lemma CurrentItem(items: seq<CodeLengths.Item>, k: nat, i: nat)
    requires ValidItems(items) && k <= |items| && i == |ItemEntries(items[..k])| < |ItemEntries(items)|
    ensures k < |items|
    ensures var e, t := ItemEntries(items), items[k];
            && |ItemEntries(items[..k + 1])| == i + |t.Entries()| <= |e|
            && e[i] == t.Symbol() && (!t.Length? ==> e[i + 1] == t.extra)
  {
    assert items[..|items|] == items;
    ItemEntriesPrefix(items, k);
    assert items[..k + 1][..k] == items[..k];
    var own := ItemEntries(items[..k]) + items[k].Entries();
    assert forall m :: 0 <= m < |own| ==> own[m] == ItemEntries(items)[m];
  }

  lemma AllItems(items: seq<CodeLengths.Item>, k: nat)
    requires k <= |items| && |ItemEntries(items[..k])| >= |ItemEntries(items)|
    ensures items[..k] == items
  {
    if k < |items| {
      ItemEntriesPrefix(items, k);
    }
  }

  method CountItems(entries: seq<nat>, ghost items: seq<CodeLengths.Item>) returns (freqs: seq<nat>)
    requires ValidItems(items) && entries == ItemEntries(items)
    ensures |freqs| == NUM_CL_SYMBOLS
    ensures forall i :: 0 <= i < |items| ==> freqs[items[i].Symbol()] > 0
  {
    hide ItemEntries;
    var freq := new nat[NUM_CL_SYMBOLS](_ => 0);
    var i := 0;
    ghost var k := 0;
    NoItems([], items);
    while i < |entries|
      invariant 0 <= k <= |items| && i == |ItemEntries(items[..k])| <= |entries|
      invariant forall m :: 0 <= m < k ==> freq[items[m].Symbol()] > 0
      decreases |items| - k
    {
      CurrentItem(items, k, i);
      freq[entries[i]] := freq[entries[i]] + 1;
      if entries[i] >= 16 {
        i := i + 1;
      }
      i := i + 1;
      k := k + 1;
    }
    AllItems(items, k);
    assert |items[..k]| == |items|;
    freqs := freq[..];
  }

  lemma NoItems(cl: seq<nat>, items: seq<CodeLengths.Item>)
    ensures ItemEntries(items[..0]) == [] && ItemStream(cl, items[..0]) == []
  {
  }

  lemma {:induction false} ItemStreamSnoc(cl: seq<nat>, items: seq<CodeLengths.Item>, item: CodeLengths.Item)
    requires ItemsEncodable(cl, items) && ItemsEncodable(cl, items + [item]) && Present(cl, item.Symbol())
    ensures ItemStream(cl, items + [item]) == ItemStream(cl, items) + ItemBits(cl, item)
    decreases |items|
  {
    hide ItemBits;
    if items == [] {
      assert (items + [item])[1..] == [];
    } else {
      assert (items + [item])[1..] == items[1..] + [item];
      ItemStreamSnoc(cl, items[1..], item);
    }
  }

  method WriteItems(writer: BitWriter, entries: seq<nat>, tree: Tree, ghost items: seq<CodeLengths.Item>)
    requires writer.Valid() && tree.Valid() && ValidItems(items) && entries == ItemEntries(items)
    requires ItemsEncodable(tree.lengths, items)
    modifies writer
    ensures writer.Valid() && writer.Written() == old(writer.Written()) + ItemStream(tree.lengths, items)
  {
    hide BitWriter.Written, BitWriter.Valid, ItemStream, ItemEntries, UsableCode, Decodes, Codeword, LsbBits, ItemBits;
    ghost var cl := tree.lengths;
    var i := 0;
    ghost var k := 0;
    NoItems(cl, items);
    while i < |entries|
      invariant 0 <= k <= |items| && i == |ItemEntries(items[..k])| <= |entries| && writer.Valid()
      invariant writer.Written() == old(writer.Written()) + ItemStream(cl, items[..k])
      decreases |items| - k
    {
      CurrentItem(items, k, i);
      assert items[..k + 1] == items[..k] + [items[k]];
      ItemStreamSnoc(cl, items[..k], items[k]);
      var symbol := entries[i];
      var extra := 0;
      if symbol >= 16 {
        i := i + 1;
        extra := entries[i];
      }
      WriteItem(writer, tree, symbol, extra, items[k]);
      i := i + 1;
      k := k + 1;
    }
    AllItems(items, k);
  }

  method WriteItem(writer: BitWriter, tree: Tree, symbol: nat, extra: nat, ghost item: CodeLengths.Item)
    requires writer.Valid() && tree.Valid() && item.Valid() && Present(tree.lengths, symbol)
    requires symbol == item.Symbol() && extra == ExtraOf(item)
    modifies writer
    ensures writer.Valid() && writer.Written() == old(writer.Written()) + ItemBits(tree.lengths, item)
  {
    hide BitWriter.Written, BitWriter.Valid, UsableCode, Decodes, LsbBits, MsbBits;
    ghost var before := writer.Written();
    writer.WriteBitsReversed(tree.codes[symbol], tree.lengths[symbol]);
    writer.WriteBits(extra, if symbol <= 15 then 0 else if symbol == 16 then 2 else if symbol == 17 then 3 else 7);
    assert writer.Written()
        == before + (MsbBits(tree.codes[symbol], tree.lengths[symbol]) + LsbBits(extra, item.ExtraBits()));
  }

  /** A decoder that finds these bits reads exactly these codes. */
  ghost predicate IsHeader(header: seq<bool>, codes: Codes) {
    forall data, p: nat :: p + |header| <= 8 * |data| && Ahead(data, p, |header|) == header ==>
      ReadHeader(data, p) == Some((codes, p + |header|))
  }

  lemma WrittenHeaderIsHeader(codes: Codes, n: nat, cl: seq<nat>, items: seq<CodeLengths.Item>)
    requires |cl| == NUM_CL_SYMBOLS && 4 <= n <= NUM_CL_SYMBOLS && UsableCode(cl, CL_MAX_BITS)
    requires forall i :: n <= i < NUM_CL_SYMBOLS ==> cl[Order(i)] == 0
    requires 257 <= |codes.ll| <= NUM_LITLEN_SYMBOLS && 1 <= |codes.d| <= NUM_DISTANCE_SYMBOLS
    requires ItemsEncodable(cl, items) && UnfoldAll(items) == Some(codes.ll + codes.d)
    requires PadCodes(codes).Valid() && Present(PadCodes(codes).ll, END_CODE)
    ensures IsHeader(HeaderBits(codes.ll, codes.d, n, cl, items), PadCodes(codes))
  {
    hide Ahead, UsableCode, HeaderBits, ReadHeader, UnfoldAll, ItemsEncodable, Order;
    var header := HeaderBits(codes.ll, codes.d, n, cl, items);
    forall data, p: nat | p + |header| <= 8 * |data| && Ahead(data, p, |header|) == header
      ensures ReadHeader(data, p) == Some((PadCodes(codes), p + |header|))
    {
      ReadWrittenHeader(data, p, codes.ll, codes.d, n, cl, items);
    }
  }

  /** Trim trailing zero lengths of the code-length alphabet, keeping at least four. */
  method TrimClCount(cl: seq<nat>) returns (n: nat)
    requires |cl| == NUM_CL_SYMBOLS
    ensures 4 <= n <= NUM_CL_SYMBOLS && forall i :: n <= i < NUM_CL_SYMBOLS ==> cl[Order(i)] == 0
  {
    hide Order;
    n := NUM_CL_SYMBOLS;
    while n > 4 && cl[Order(n - 1)] == 0
      invariant 4 <= n <= NUM_CL_SYMBOLS && forall i :: n <= i < NUM_CL_SYMBOLS ==> cl[Order(i)] == 0
    {
      n := n - 1;
    }
  }

  method WriteClLengths(writer: BitWriter, cl: seq<nat>, n: nat)
    requires writer.Valid() && |cl| == NUM_CL_SYMBOLS && n <= NUM_CL_SYMBOLS
    modifies writer
    ensures writer.Valid() && writer.Written() == old(writer.Written()) + OrderBits(cl, n)
  {
    hide BitWriter.Written, BitWriter.Valid, Order, LsbBits;
    assert writer.Written() + OrderBits(cl, 0) == writer.Written();
    for i := 0 to n
      invariant writer.Valid() && writer.Written() == old(writer.Written()) + OrderBits(cl, i)
    {
      writer.WriteBits(cl[Order(i)], 3);
    }
  }

  /** Choose the code-length code for two trees and write their header. */
  method WriteHeader(writer: BitWriter, treeLl: Tree, treeD: Tree)
    returns (ghost header: seq<bool>)
    requires writer.Valid() && treeLl.Valid() && treeD.Valid()
    requires 257 <= |treeLl.lengths| <= 286 && 2 <= |treeD.lengths| <= 30
    requires PadCodes(Codes(treeLl.lengths, treeD.lengths)).Valid()
    requires Present(PadCodes(Codes(treeLl.lengths, treeD.lengths)).ll, END_CODE)
    modifies writer
    ensures writer.Valid() && writer.Written() == old(writer.Written()) + header
    ensures IsHeader(header, PadCodes(Codes(treeLl.lengths, treeD.lengths)))
  {
    hide BitWriter.Written, BitWriter.Valid, KraftSum, GoodCodes, Decodes, PadCodes, OrderBits, ItemStream, Coded,
         LsbBits, IsHeader, Order, Tree.Valid, UsableCode, UnfoldAll, ItemEntries;
    ghost var before, codes := writer.Written(), Codes(treeLl.lengths, treeD.lengths);
    var lld := treeLl.lengths + treeD.lengths;
    ValidIsBounded(treeLl);
    ValidIsBounded(treeD);
    var entries, items := EncodeLengths(lld);
    CodedFacts(lld, items, entries);
    var freqs := CountItems(entries, items);
    SmallPowers();
    var treeCl := MakeFromFrequencies(freqs, NUM_CL_SYMBOLS, CL_MAX_BITS);
    CompleteIsUsable(treeCl.lengths, CL_MAX_BITS);
    var n := TrimClCount(treeCl.lengths);
    writer.WriteBits(|treeLl.lengths| - 257, 5);
    writer.WriteBits(|treeD.lengths| - 1, 5);
    writer.WriteBits(n - 4, 4);
    WriteClLengths(writer, treeCl.lengths, n);
    WriteItems(writer, entries, treeCl, items);
    header := HeaderBits(codes.ll, codes.d, n, treeCl.lengths, items);
    assert writer.Written() == before + header;
    WrittenHeaderIsHeader(codes, n, treeCl.lengths, items);
  }

  lemma ValidIsBounded(tree: Tree)
    requires tree.Valid()
    ensures Bounded(tree.lengths, MAX_BITS)
  {
  }

  lemma CompleteIsUsable(lengths: seq<nat>, max: nat)
    requires CompleteCode(lengths, max)
    ensures UsableCode(lengths, max)
  {
  }

  lemma CodedFacts(lengths: seq<nat>, items: seq<CodeLengths.Item>, entries: seq<nat>)
    requires Coded(lengths, items, entries)
    ensures ValidItems(items) && entries == ItemEntries(items) && UnfoldAll(items) == Some(lengths)
  {
  }

  lemma CountedIsEncodable(freqLl: seq<nat>, freqD: seq<nat>, tokens: seq<Token>, codes: Codes)
    requires |freqLl| == 286 && |freqD| == 30 && Counted(freqLl, freqD, tokens)
    requires forall s :: 0 <= s < 286 && freqLl[s] > 0 ==> Present(codes.ll, s)
    requires forall s :: 0 <= s < 30 && freqD[s] > 0 ==> Present(codes.d, s)
    ensures AllEncodable(codes, tokens)
  {
    hide Present, Pow2, LengthExtra, DistanceExtra;
  }

  /** The two trees for the symbols of a block. */
  method MakeTrees(entries: seq<nat>, ghost tokens: seq<Token>)
    returns (treeLl: Tree, treeD: Tree)
    requires ValidTokens(tokens) && entries == Lz77.Entries(tokens)
    ensures treeLl.Valid() && 257 <= |treeLl.lengths| <= 286 && treeD.Valid() && 2 <= |treeD.lengths| <= 30
    ensures AllEncodable(Codes(treeLl.lengths, treeD.lengths), tokens) && Present(treeLl.lengths, END_CODE)
  {
    hide Tree.Valid, UsableCode, AllEncodable, Counted, Pow2, Lz77.Entries, ValidTokens;
    var freqLl, freqD := CountFrequencies(entries, tokens);
    SmallPowers();
    treeLl := MakeFromFrequencies(freqLl, 257, MAX_BITS);
    treeD := MakeFromFrequencies(freqD, 2, MAX_BITS);
    CountedIsEncodable(freqLl, freqD, tokens, Codes(treeLl.lengths, treeD.lengths));
  }

  /** Everything of a dynamic block, for given symbols. */
  method WriteBlock(writer: BitWriter, entries: seq<nat>, ghost tokens: seq<Token>, final: bool)
    returns (ghost codes: Codes, ghost header: seq<bool>)
    requires writer.Valid() && ValidTokens(tokens) && entries == Lz77.Entries(tokens)
    modifies writer
    ensures writer.Valid() && IsHeader(header, codes)
    ensures codes.Valid() && AllEncodable(codes, tokens) && Present(codes.ll, END_CODE)
    ensures writer.Written() == old(writer.Written()) + [final, false, true] + header + BlockBits(codes, tokens)
  {
    hide BitWriter.Written, BitWriter.Valid, UsableCode, Decodes, TokenStream, AllEncodable, PadCodes, IsHeader,
         ValidTokens, Lz77.Entries, CanonicalCode, MsbBits;
    ghost var before := writer.Written();
    var treeLl, treeD := MakeTrees(entries, tokens);
    ghost var own := Codes(treeLl.lengths, treeD.lengths);
    BlockBitsOfPad(own, tokens);
    codes := PadCodes(own);
    writer.WriteBit(if final then 1 else 0);
    writer.WriteBit(0);
    writer.WriteBit(1);
    header := WriteHeader(writer, treeLl, treeD);
    WriteLz77Data(writer, entries, treeLl, treeD, tokens);
    writer.WriteBitsReversed(treeLl.codes[256], treeLl.lengths[256]);
    assert writer.Written() == before + [final, false, true] + header + BlockBits(own, tokens);
  }

  /** A dynamic block: header bits, the two codes, tokens, end code. */
  method DeflateDynamicBlock(writer: BitWriter, hash: Hash, data: seq<byte>, datapos: nat, dataend: nat,
                             settings: Settings, final: bool)
    returns (error: nat, ghost codes: Codes, ghost header: seq<bool>, ghost tokens: seq<Token>)
    requires writer.Valid() && datapos <= dataend <= |data|
    requires hash.Valid() && hash.windowSize == settings.windowsize
    requires settings.useLz77 ==> hash.Describes(data, datapos)
    modifies writer, hash.head, hash.val, hash.headz, hash.chain, hash.chainz, hash.zeros
    ensures error == if settings.useLz77 then WindowError(settings.windowsize) else 0
    ensures writer.Valid() && (error == 0 && settings.useLz77 ==> hash.Describes(data, dataend))
    ensures error == 0 ==>
      && Represents(tokens, data, datapos, dataend) && IsHeader(header, codes)
      && codes.Valid() && AllEncodable(codes, tokens) && Present(codes.ll, END_CODE)
      && writer.Written() == old(writer.Written()) + [final, false, true] + header + BlockBits(codes, tokens)
  {
    hide BitWriter.Written, BitWriter.Valid, Hash.Describes, Codes.Valid, Expand, BlockBits, AllEncodable, IsHeader;
    codes, header := Codes([], []), [];
    var entries;
    error, entries, tokens := TokensOfRange(hash, data, datapos, dataend, settings);
    if error == 0 {
      codes, header := WriteBlock(writer, entries, tokens, final);
    }
  }
}
