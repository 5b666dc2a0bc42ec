/**
 Writing Huffman-coded blocks: the symbol vector of the LZ77 encoder as bits, and
 blocks with the fixed codes.
 */
module DeflateBlock {
  import opened BitSequence
  import opened Wrappers
  import opened BitIo
  import opened Huffman
  import opened HuffmanTable
  import opened HuffmanLookup
  import opened HuffmanTree
  import opened HuffmanBlock
  import opened Lz77
  import opened Lz77Encoder

  datatype Settings = Settings(btype: nat, useLz77: bool, windowsize: nat, minmatch: nat, nicematch: nat,
                               lazymatching: bool)

  lemma {:induction false} EntriesPrefix(tokens: seq<Token>, k: nat)
    requires k <= |tokens|
    ensures Entries(tokens[..k]) <= Entries(tokens)
    ensures k < |tokens| ==> Entries(tokens[..k]) + tokens[k].Entries() <= Entries(tokens)
    decreases |tokens|
  {
    hide Entries, Token.Entries;
    if k == |tokens| {
      assert tokens[..k] == tokens;
    } else {
      var n := |tokens| - 1;
      EntriesSnoc(tokens);
      if k < n {
        EntriesPrefix(tokens[..n], k);
        assert tokens[..n][..k] == tokens[..k];
      }
    }
  }

  lemma EntriesSnoc(tokens: seq<Token>)
    requires tokens != []
    ensures Entries(tokens) == Entries(tokens[..|tokens| - 1]) + tokens[|tokens| - 1].Entries()
  {
  }

  /** Write the symbol vector; three more fields follow every length code. */
  method WriteLz77Data(writer: BitWriter, entries: seq<nat>, treeLl: Tree, treeD: Tree, ghost tokens: seq<Token>)
    requires writer.Valid() && treeLl.Valid() && treeD.Valid() && entries == Entries(tokens)
    requires AllEncodable(Codes(treeLl.lengths, treeD.lengths), tokens)
    modifies writer
    ensures writer.Valid()
    ensures writer.Written() == old(writer.Written()) + TokenStream(Codes(treeLl.lengths, treeD.lengths), tokens)
  {
    hide BitWriter.Written, BitWriter.Valid, TokenStream, Entries, Token.Entries, Encodable, Tree.Valid, TokenBits;
    ghost var codes := Codes(treeLl.lengths, treeD.lengths);
    var i := 0;
    ghost var k := 0;
    StreamStart(codes, tokens);
    while i < |entries|
      invariant 0 <= k <= |tokens| && i == |Entries(tokens[..k])| <= |entries| && writer.Valid()
      invariant writer.Written() == old(writer.Written()) + TokenStream(codes, tokens[..k])
      decreases |tokens| - k
    {
      CurrentToken(codes, tokens, k, i);
      i := WriteEntry(writer, entries, i, treeLl, treeD, tokens[k]);
      k := k + 1;
    }
    AllWritten(codes, tokens, k);
  }

  method WriteEntry(writer: BitWriter, entries: seq<nat>, i: nat, treeLl: Tree, treeD: Tree, ghost t: Token)
    returns (next: nat)
    requires writer.Valid() && treeLl.Valid() && treeD.Valid()
    requires Encodable(Codes(treeLl.lengths, treeD.lengths), t)
    requires i + |t.Entries()| <= |entries| && entries[i..i + |t.Entries()|] == t.Entries()
    modifies writer
    ensures writer.Valid() && next == i + |t.Entries()|
    ensures writer.Written() == old(writer.Written()) + TokenBits(Codes(treeLl.lengths, treeD.lengths), t)
  {
    hide BitWriter.Written, BitWriter.Valid, Tree.Valid, TokenBits, Encodable;
    ghost var own := entries[i..i + |t.Entries()|];
    var val := entries[i];
    assert val == own[0];
    if val > 256 {
      assert own == [val, entries[i + 1], entries[i + 2], entries[i + 3]];
      WriteCopy(writer, val, entries[i + 1], entries[i + 2], entries[i + 3], treeLl, treeD, t);
      next := i + 4;
    } else {
      WriteLiteral(writer, val, treeLl, Codes(treeLl.lengths, treeD.lengths), t);
      next := i + 1;
    }
  }

  lemma StreamStart(codes: Codes, tokens: seq<Token>)
    requires AllEncodable(codes, tokens)
    ensures Entries(tokens[..0]) == [] && TokenStream(codes, tokens[..0]) == []
  {
  }

  /** The vector at the current index holds the entries of the next token. */
  lemma CurrentToken(codes: Codes, tokens: seq<Token>, k: nat, i: nat)
    requires AllEncodable(codes, tokens) && k <= |tokens| && i == |Entries(tokens[..k])| < |Entries(tokens)|
    ensures k < |tokens| && Encodable(codes, tokens[k]) && i + |tokens[k].Entries()| <= |Entries(tokens)|
    ensures Entries(tokens)[i..i + |tokens[k].Entries()|] == tokens[k].Entries()
    ensures |Entries(tokens[..k + 1])| == i + |tokens[k].Entries()|
    ensures TokenStream(codes, tokens[..k + 1]) == TokenStream(codes, tokens[..k]) + TokenBits(codes, tokens[k])
  {
    hide Encodable, TokenBits, TokenStream, Token.Entries, Entries;
    assert tokens[..|tokens|] == tokens;
    EntriesPrefix(tokens, k);
    NextEntries(tokens, k);
    TokenStreamConcat(codes, tokens[..k], [tokens[k]]);
    assert tokens[..k + 1] == tokens[..k] + [tokens[k]];
    OneToken(codes, tokens[k]);
  }

  lemma NextEntries(tokens: seq<Token>, k: nat)
    requires k < |tokens|
    ensures Entries(tokens[..k + 1]) == Entries(tokens[..k]) + tokens[k].Entries()
    ensures var i, own := |Entries(tokens[..k])|, tokens[k].Entries();
            i + |own| <= |Entries(tokens)| && Entries(tokens)[i..i + |own|] == own
  {
    hide Token.Entries, Entries;
    EntriesPrefix(tokens, k);
    EntriesSnoc(tokens[..k + 1]);
    assert tokens[..k + 1][..k] == tokens[..k];
  }

  lemma OneToken(codes: Codes, t: Token)
    requires Encodable(codes, t)
    ensures TokenStream(codes, [t]) == TokenBits(codes, t)
  {
    assert TokenStream(codes, [t]) == TokenBits(codes, t) + TokenStream(codes, []);
  }

  lemma AllWritten(codes: Codes, tokens: seq<Token>, k: nat)
    requires AllEncodable(codes, tokens) && k <= |tokens| && |Entries(tokens[..k])| >= |Entries(tokens)|
    ensures tokens[..k] == tokens
  {
    hide Encodable;
    if k < |tokens| {
      EntriesPrefix(tokens, k);
    }
  }

  method WriteLiteral(writer: BitWriter, val: nat, treeLl: Tree, ghost codes: Codes, ghost t: Token)
    requires writer.Valid() && treeLl.Valid() && codes.ll == treeLl.lengths
    requires Encodable(codes, t) && t.Literal? && t.value == val
    modifies writer
    ensures writer.Valid() && writer.Written() == old(writer.Written()) + TokenBits(codes, t)
  {
    hide BitWriter.Written, BitWriter.Valid, UsableCode, Decodes;
    writer.WriteBitsReversed(treeLl.codes[val], treeLl.lengths[val]);
  }

  method WriteCopy(writer: BitWriter, val: nat, lengthExtra: nat, distCode: nat, distExtra: nat,
                   treeLl: Tree, treeD: Tree, ghost t: Token)
    requires writer.Valid() && treeLl.Valid() && treeD.Valid()
    requires Encodable(Codes(treeLl.lengths, treeD.lengths), t) && t.Copy?
    requires t.Entries() == [val, lengthExtra, distCode, distExtra]
    modifies writer
    ensures writer.Valid()
    ensures writer.Written() == old(writer.Written()) + TokenBits(Codes(treeLl.lengths, treeD.lengths), t)
  {
    hide BitWriter.Written, BitWriter.Valid, UsableCode, Decodes, CanonicalCode, MsbBits, LsbBits,
         LengthExtra, DistanceExtra;
    ghost var before := writer.Written();
    CopyFields(Codes(treeLl.lengths, treeD.lengths), t);
    var n, m := LengthExtra(val - FIRST_LENGTH_CODE), DistanceExtra(distCode);
    writer.WriteBitsReversed(treeLl.codes[val], treeLl.lengths[val]);
    writer.WriteBits(lengthExtra, n);
    writer.WriteBitsReversed(treeD.codes[distCode], treeD.lengths[distCode]);
    writer.WriteBits(distExtra, m);
    assert writer.Written()
        == before + (MsbBits(treeLl.codes[val], treeLl.lengths[val]) + LsbBits(lengthExtra, n)
                     + MsbBits(treeD.codes[distCode], treeD.lengths[distCode]) + LsbBits(distExtra, m));
  }

  /** One-bit fields hold one-bit values. */
  lemma CopyFields(codes: Codes, t: Token)
    requires Encodable(codes, t) && t.Copy?
    ensures LengthExtra(t.lengthCode) == 1 ==> t.lengthExtra < 2
    ensures DistanceExtra(t.distCode) == 1 ==> t.distExtra < 2
  {
    hide LengthExtra, DistanceExtra;
    SmallPowers();
  }

  // Blocks with the fixed codes.

  ghost function FixedCodes(): Codes {
    Codes(FixedLitLenLengths(), FixedDistanceLengths())
  }

  lemma FixedCodesEncodeAll(tokens: seq<Token>)
    requires ValidTokens(tokens)
    ensures FixedCodes().Valid() && AllEncodable(FixedCodes(), tokens) && Present(FixedCodes().ll, END_CODE)
  {
    hide UsableCode;
    FixedCodesAreComplete();
    CompleteFits(FixedLitLenLengths(), MAX_BITS);
    CompleteFits(FixedDistanceLengths(), MAX_BITS);
    assert forall s: nat :: s < 288 ==> FixedLitLenLengths()[s] > 0;
    assert forall s: nat :: s < 32 ==> FixedDistanceLengths()[s] > 0;
  }

  /** Without LZ77 every byte is a literal. */
  function Literals(data: seq<byte>): seq<Token> {
    if data == [] then [] else Literals(data[..|data| - 1]) + [Literal(data[|data| - 1])]
  }

  lemma {:induction false} LiteralsRepresent(data: seq<byte>, start: nat, end: nat)
    requires start <= end <= |data|
    ensures Represents(Literals(data[start..end]), data, start, end)
    decreases end - start
  {
    hide Literals, Expand, Entries, Step;
    if start == end {
      assert data[start..end] == [];
      NoLiterals(data[..start]);
    } else {
      LiteralsRepresent(data, start, end - 1);
      var tokens, t := Literals(data[start..end - 1]), Literal(data[end - 1]);
      assert data[start..end] == data[start..end - 1] + [data[end - 1]];
      LiteralsSnoc(data[start..end - 1], data[end - 1]);
      AppendToken(data[..start], tokens, t);
      LiteralStep(data[..end - 1], data[end - 1]);
      assert data[..end - 1] + [data[end - 1]] == data[..end];
    }
  }

  lemma NoLiterals(history: seq<byte>)
    ensures Literals([]) == [] && Expand(history, []) == Some(history)
  {
  }

  lemma LiteralsSnoc(data: seq<byte>, b: byte)
    ensures Literals(data + [b]) == Literals(data) + [Literal(b)]
  {
    assert (data + [b])[..|data|] == data;
  }

  /** The tokens of a range: LZ77 symbols or plain literals. */
  method TokensOfRange(hash: Hash, data: seq<byte>, datapos: nat, dataend: nat, settings: Settings)
    returns (error: nat, entries: seq<nat>, ghost tokens: seq<Token>)
    requires datapos <= dataend <= |data|
    requires hash.Valid() && hash.windowSize == settings.windowsize
    requires settings.useLz77 ==> hash.Describes(data, datapos)
    modifies hash.head, hash.val, hash.headz, hash.chain, hash.chainz, hash.zeros
    ensures error == if settings.useLz77 then WindowError(settings.windowsize) else 0
    ensures error == 0 ==> Represents(tokens, data, datapos, dataend) && entries == Entries(tokens)
    ensures error == 0 && settings.useLz77 ==> hash.Describes(data, dataend)
  {
    hide Hash.Describes, Expand;
    if settings.useLz77 {
      error, entries, tokens := EncodeLz77(hash, data, datapos, dataend, settings.windowsize,
                                           settings.minmatch, settings.nicematch, settings.lazymatching);
    } else {
      error := 0;
      entries := data[datapos..dataend];
      tokens := Literals(data[datapos..dataend]);
      LiteralsRepresent(data, datapos, dataend);
      LiteralEntries(data[datapos..dataend]);
    }
  }

  lemma {:induction false} LiteralEntries(data: seq<byte>)
    ensures Entries(Literals(data)) == data
    decreases |data|
  {
    hide Literals, Entries;
    if data == [] {
      NoEntries();
    } else {
      var n := |data| - 1;
      LiteralEntries(data[..n]);
      LiteralsSnoc(data[..n], data[n]);
      assert data == data[..n] + [data[n]];
      EntriesSnoc(Literals(data));
      assert Literals(data)[..|Literals(data)| - 1] == Literals(data[..n]);
    }
  }

  lemma NoEntries()
    ensures Entries(Literals([])) == []
  {
  }

  method WriteFixedHeader(writer: BitWriter, final: bool)
    requires writer.Valid()
    modifies writer
    ensures writer.Valid() && writer.Written() == old(writer.Written()) + [final, true, false]
  {
    hide BitWriter.Written, BitWriter.Valid;
    writer.WriteBit(if final then 1 else 0);
    writer.WriteBit(1);
    writer.WriteBit(0);
  }

  /** A block with the fixed codes: header bits, tokens, end code. */
  method DeflateFixed(writer: BitWriter, hash: Hash, data: seq<byte>, datapos: nat, dataend: nat,
                      settings: Settings, final: bool)
    returns (error: nat, ghost tokens: seq<Token>)
    requires writer.Valid() && datapos <= dataend <= |data|
    requires hash.Valid() && hash.windowSize == settings.windowsize
    requires settings.useLz77 ==> hash.Describes(data, datapos)
    modifies writer, hash.head, hash.val, hash.headz, hash.chain, hash.chainz, hash.zeros
    ensures error == if settings.useLz77 then WindowError(settings.windowsize) else 0
    ensures writer.Valid() && (error == 0 && settings.useLz77 ==> hash.Describes(data, dataend))
    ensures error == 0 ==>
      && Represents(tokens, data, datapos, dataend)
      && AllEncodable(FixedCodes(), tokens) && Present(FixedCodes().ll, END_CODE)
      && writer.Written() == old(writer.Written()) + [final, true, false] + BlockBits(FixedCodes(), tokens)
  {
    hide BitWriter.Written, BitWriter.Valid, Hash.Describes, UsableCode, Decodes, Expand, TokenStream, AllEncodable,
         FixedLitLenLengths, FixedDistanceLengths;
    var treeLl := GenerateFixedLitLenTree();
    var treeD := GenerateFixedDistanceTree();
    ghost var before := writer.Written();
    WriteFixedHeader(writer, final);
    var entries;
    error, entries, tokens := TokensOfRange(hash, data, datapos, dataend, settings);
    if error == 0 {
      FixedCodesEncodeAll(tokens);
      WriteLz77Data(writer, entries, treeLl, treeD, tokens);
      writer.WriteBitsReversed(treeLl.codes[256], treeLl.lengths[256]);
      assert writer.Written() == before + [final, true, false] + BlockBits(FixedCodes(), tokens);
    }
  }
}
