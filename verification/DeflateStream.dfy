/**
 Deflating a whole byte string with any block type, and the proof that inflating the
 result gives the bytes back.
 */
module DeflateStream {
  import opened BitSequence
  import opened Arithmetic
  import opened Wrappers
  import opened BitIo
  import opened Huffman
  import opened HuffmanTree
  import opened HuffmanBlock
  import opened Lz77
  import opened Lz77Encoder
  import opened DynamicHeader
  import opened DeflateBlock
  import opened DeflateDynamic
  import opened InflateBlock
  import opened InflateStream

  /** What compressing ends in; the number of blocks is a quotient whose divisor can be zero. */
  datatype Outcome = Done(bytes: seq<byte>) | Failed(error: nat) | DivideByZero

  /** Every stream that starts with these bits inflates from their end, with `out` already decoded. */
  ghost predicate Resumes(bits: seq<bool>, out: seq<byte>) {
    forall data: seq<byte> :: bits <= BitsOf(data) ==> InflateFrom(data, 0, []) == InflateFrom(data, |bits|, out)
  }

  /** Every stream that starts with these bits inflates to `out`. */
  ghost predicate Yields(bits: seq<bool>, out: seq<byte>) {
    forall data: seq<byte> :: bits <= BitsOf(data) ==> InflateFrom(data, 0, []) == Some(out)
  }

  /** The bits of a written block are what the decoder finds there. */
  lemma BitsAhead(data: seq<byte>, bits: seq<bool>, block: seq<bool>)
    requires bits + block <= BitsOf(data)
    ensures |bits| + |block| <= 8 * |data| && Ahead(data, |bits|, |block|) == block
  {
    hide BitsOf, Ahead;
    AheadIsSlice(data, |bits|, |block|);
    assert BitsOf(data)[..|bits + block|] == bits + block;
  }

  lemma TwoPartsAhead(data: seq<byte>, bits: seq<bool>, a: seq<bool>, b: seq<bool>)
    requires bits + a + b <= BitsOf(data)
    ensures |bits| + |a| + |b| <= 8 * |data|
    ensures Ahead(data, |bits|, |a|) == a && Ahead(data, |bits| + |a|, |b|) == b
  {
    hide BitsOf, Ahead;
    assert bits + a <= bits + a + b;
    BitsAhead(data, bits, a);
    BitsAhead(data, bits + a, b);
  }

  lemma HeaderFields(data: seq<byte>, p: nat, final: bool, b0: bool, b1: bool)
    requires Ahead(data, p, 3) == [final, b0, b1]
    ensures Ahead(data, p, 1)[0] == final
    ensures LsbValue(Ahead(data, p + 1, 2)) == (if b0 then 1 else 0) + 2 * (if b1 then 1 else 0)
  {
    AheadSplit(data, p, 1, 3);
    var s := Ahead(data, p + 1, 2);
    assert s == [b0] + [b1] && [] + [b0] == [b0];
    LsbValueSnoc([b0], b1);
    LsbValueSnoc([], b0);
  }

  lemma FixedBlockAt(data: seq<byte>, bits: seq<bool>, in_: seq<byte>, start: nat, end: nat, final: bool,
                     tokens: seq<Token>)
    requires Represents(tokens, in_, start, end)
    requires AllEncodable(FixedCodes(), tokens) && Present(FixedCodes().ll, END_CODE)
    requires bits + [final, true, false] + BlockBits(FixedCodes(), tokens) <= BitsOf(data)
    ensures |bits| + 3 <= 8 * |data| && Ahead(data, |bits|, 1)[0] == final
    ensures BlockAt(data, |bits|, in_[..start])
         == Some((in_[..end], |bits| + 3 + |BlockBits(FixedCodes(), tokens)|))
  {
    hide *;
    RepresentsFacts(tokens, in_, start, end);
    TwoPartsAhead(data, bits, [final, true, false], BlockBits(FixedCodes(), tokens));
    FixedCodesEncodeAll(tokens);
    InflateOfTokens(FixedCodes(), data, |bits| + 3, in_[..start], tokens);
    FixedBlock(data, |bits|, in_[..start], final);
  }

  lemma RepresentsFacts(tokens: seq<Token>, in_: seq<byte>, start: nat, end: nat)
    requires Represents(tokens, in_, start, end)
    ensures start <= end <= |in_| && ValidTokens(tokens) && Expand(in_[..start], tokens) == Some(in_[..end])
  {
  }

  lemma HeaderFound(data: seq<byte>, p: nat, header: seq<bool>, codes: Codes)
    requires IsHeader(header, codes) && p + |header| <= 8 * |data| && Ahead(data, p, |header|) == header
    ensures ReadHeader(data, p) == Some((codes, p + |header|))
  {
    hide Ahead, ReadHeader;
  }

  lemma FixedBlock(data: seq<byte>, p: nat, out: seq<byte>, final: bool)
    requires p + 3 <= 8 * |data| && Ahead(data, p, 3) == [final, true, false] && FixedCodes().Valid()
    ensures Ahead(data, p, 1)[0] == final
    ensures BlockAt(data, p, out) == Inflate(FixedCodes(), data, p + 3, out)
  {
    hide Ahead, Inflate, LsbValue, FixedCodes, Stored, ReadHeader, UsableCode;
    HeaderFields(data, p, final, true, false);
  }

  lemma DynamicBlockAt(data: seq<byte>, bits: seq<bool>, in_: seq<byte>, start: nat, end: nat, final: bool,
                       codes: Codes, header: seq<bool>, tokens: seq<Token>)
    requires Represents(tokens, in_, start, end) && IsHeader(header, codes)
    requires codes.Valid() && AllEncodable(codes, tokens) && Present(codes.ll, END_CODE)
    requires bits + [final, false, true] + header + BlockBits(codes, tokens) <= BitsOf(data)
    ensures |bits| + 3 <= 8 * |data| && Ahead(data, |bits|, 1)[0] == final
    ensures BlockAt(data, |bits|, in_[..start])
         == Some((in_[..end], |bits| + 3 + |header| + |BlockBits(codes, tokens)|))
  {
    hide *;
    RepresentsFacts(tokens, in_, start, end);
    var head, block := [final, false, true], BlockBits(codes, tokens);
    TwoPartsAhead(data, bits + head, header, block);
    assert bits + head <= bits + head + header + block;
    BitsAhead(data, bits, head);
    HeaderFound(data, |bits| + 3, header, codes);
    InflateOfTokens(codes, data, |bits| + 3 + |header|, in_[..start], tokens);
    DynamicBlock(data, |bits|, in_[..start], final, codes, |bits| + 3 + |header|);
  }

  lemma DynamicBlock(data: seq<byte>, p: nat, out: seq<byte>, final: bool, codes: Codes, p': nat)
    requires p + 3 <= 8 * |data| && Ahead(data, p, 3) == [final, false, true] && codes.Valid()
    requires ReadHeader(data, p + 3) == Some((codes, p'))
    ensures Ahead(data, p, 1)[0] == final
    ensures BlockAt(data, p, out) == Inflate(codes, data, p', out)
  {
    hide Ahead, Inflate, LsbValue, FixedCodes, Stored, ReadHeader, UsableCode;
    HeaderFields(data, p, final, false, true);
  }

  /** A decoder that has come to a block and can read it goes on after it, or is done if the block is final. */
  lemma NextBlock(bits: seq<bool>, bits': seq<bool>, out: seq<byte>, out': seq<byte>, final: bool)
    requires Resumes(bits, out)
    requires forall data: seq<byte> :: bits' <= BitsOf(data) ==>
      && bits <= BitsOf(data) && |bits| + 3 <= 8 * |data| && Ahead(data, |bits|, 1)[0] == final
      && BlockAt(data, |bits|, out) == Some((out', |bits'|))
    ensures if final then Yields(bits', out') else Resumes(bits', out')
  {
    hide BitsOf, Ahead, BlockAt;
  }

  /** One block of type 1 or 2, seen from the decoder. */
  method DeflateOne(writer: BitWriter, hash: Hash, data: seq<byte>, start: nat, end: nat, settings: Settings,
                    final: bool)
    returns (error: nat)
    requires writer.Valid() && start <= end <= |data|
    requires hash.Valid() && hash.windowSize == settings.windowsize
    requires settings.useLz77 ==> hash.Describes(data, start)
    requires Resumes(writer.Written(), data[..start])
    modifies writer, hash.head, hash.val, hash.headz, hash.chain, hash.chainz, hash.zeros
    ensures error == if settings.useLz77 then WindowError(settings.windowsize) else 0
    ensures writer.Valid() && (error == 0 && settings.useLz77 ==> hash.Describes(data, end))
    ensures error == 0 ==>
      if final then Yields(writer.Written(), data[..end]) else Resumes(writer.Written(), data[..end])
  {
    hide *;
    ghost var bits := writer.Written();
    if settings.btype == 1 {
      ghost var tokens;
      error, tokens := DeflateFixed(writer, hash, data, start, end, settings, final);
      if error == 0 {
        FixedNext(bits, data, start, end, final, tokens);
      }
    } else {
      ghost var codes, header, tokens;
      error, codes, header, tokens := DeflateDynamicBlock(writer, hash, data, start, end, settings, final);
      if error == 0 {
        DynamicNext(bits, data, start, end, final, codes, header, tokens);
      }
    }
  }

  lemma FixedNext(bits: seq<bool>, in_: seq<byte>, start: nat, end: nat, final: bool, tokens: seq<Token>)
    requires start <= end <= |in_| && Resumes(bits, in_[..start]) && Represents(tokens, in_, start, end)
    requires AllEncodable(FixedCodes(), tokens) && Present(FixedCodes().ll, END_CODE)
    ensures var bits' := bits + [final, true, false] + BlockBits(FixedCodes(), tokens);
            if final then Yields(bits', in_[..end]) else Resumes(bits', in_[..end])
  {
    hide *;
    var bits' := bits + [final, true, false] + BlockBits(FixedCodes(), tokens);
    forall data: seq<byte> | bits' <= BitsOf(data)
      ensures bits <= BitsOf(data) && |bits| + 3 <= 8 * |data| && Ahead(data, |bits|, 1)[0] == final
      ensures BlockAt(data, |bits|, in_[..start]) == Some((in_[..end], |bits'|))
    {
      FixedBlockAt(data, bits, in_, start, end, final, tokens);
      assert bits <= bits';
    }
    NextBlock(bits, bits', in_[..start], in_[..end], final);
  }

  lemma DynamicNext(bits: seq<bool>, in_: seq<byte>, start: nat, end: nat, final: bool,
                    codes: Codes, header: seq<bool>, tokens: seq<Token>)
    requires start <= end <= |in_| && Resumes(bits, in_[..start])
    requires Represents(tokens, in_, start, end) && IsHeader(header, codes)
    requires codes.Valid() && AllEncodable(codes, tokens) && Present(codes.ll, END_CODE)
    ensures var bits' := bits + [final, false, true] + header + BlockBits(codes, tokens);
            if final then Yields(bits', in_[..end]) else Resumes(bits', in_[..end])
  {
    hide *;
    var bits' := bits + [final, false, true] + header + BlockBits(codes, tokens);
    forall data: seq<byte> | bits' <= BitsOf(data)
      ensures bits <= BitsOf(data) && |bits| + 3 <= 8 * |data| && Ahead(data, |bits|, 1)[0] == final
      ensures BlockAt(data, |bits|, in_[..start]) == Some((in_[..end], |bits'|))
    {
      DynamicBlockAt(data, bits, in_, start, end, final, codes, header, tokens);
      assert bits <= bits';
    }
    NextBlock(bits, bits', in_[..start], in_[..end], final);
  }

  /** The blocks tile the data: each starts inside it, and the last one reaches the end. */
  lemma BlockCount(size: nat, blocksize: nat, count: nat)
    requires blocksize > 0 && count == (if size == 0 then 1 else (size + blocksize - 1) / blocksize)
    ensures count >= 1 && (count - 1) * blocksize <= size <= count * blocksize
  {
    if size > 0 {
      var q, r := (size + blocksize - 1) / blocksize, (size + blocksize - 1) % blocksize;
      assert size + blocksize - 1 == blocksize * q + r;
      assert (q - 1) * blocksize == blocksize * q - blocksize && q * blocksize == blocksize * q;
      PositiveFactor(blocksize, q);
    }
  }

  lemma BlockStart(i: nat, count: nat, size: nat, blocksize: nat)
    requires i < count && (count - 1) * blocksize <= size
    ensures i * blocksize <= size && (i + 1) * blocksize == i * blocksize + blocksize
    ensures i < count - 1 ==> (i + 1) * blocksize <= size
  {
    MulMonotone(i, count - 1, blocksize);
    Distribute(i, 1, blocksize);
    if i < count - 1 {
      MulMonotone(i + 1, count - 1, blocksize);
    }
  }

  /** Deflate in blocks of type 1 or 2. */
  method DeflateBlocks(data: seq<byte>, settings: Settings, blocksize: nat)
    returns (error: nat, bytes: seq<byte>)
    requires blocksize > 0
    ensures error == if settings.useLz77 then WindowError(settings.windowsize) else 0
    ensures error == 0 ==> Yields(BitsOf(bytes), data)
  {
    hide *;
    var count := (|data| + blocksize - 1) / blocksize;
    if count == 0 {
      count := 1;
    }
    SmallCount(|data|, blocksize);
    BlockCount(|data|, blocksize, count);
    var writer := new BitWriter([]);
    var hash := new Hash(settings.windowsize);
    NothingWritten(data);
    error := 0;
    var i := 0;
    while i < count
      invariant 0 <= i <= count && writer.Valid() && hash.Valid() && hash.windowSize == settings.windowsize
      invariant i < count ==> i * blocksize <= |data| && Resumes(writer.Written(), data[..i * blocksize])
      invariant i < count && settings.useLz77 ==> hash.Describes(data, i * blocksize)
      invariant fresh(hash.head) && fresh(hash.val) && fresh(hash.headz)
      invariant fresh(hash.chain) && fresh(hash.chainz) && fresh(hash.zeros)
      invariant i > 0 ==> 0 == if settings.useLz77 then WindowError(settings.windowsize) else 0
      invariant i == count ==> Yields(writer.Written(), data)
    {
      BlockStart(i, count, |data|, blocksize);
      var start := i * blocksize;
      var end := start + blocksize;
      if end > |data| {
        end := |data|;
      }
      error := DeflateOne(writer, hash, data, start, end, settings, i == count - 1);
      if error != 0 {
        return error, [];
      }
      assert i == count - 1 ==> data[..end] == data;
      i := i + 1;
    }
    WrittenPrefix(writer, data);
    bytes := writer.data;
  }

  lemma SmallCount(size: nat, blocksize: nat)
    requires blocksize > 0
    ensures (size + blocksize - 1) / blocksize == 0 <==> size == 0
  {
    if size == 0 {
      ModIs(blocksize - 1, blocksize, 0, blocksize - 1);
    } else {
      BlockCount(size, blocksize, (size + blocksize - 1) / blocksize);
    }
  }

  lemma NothingWritten(data: seq<byte>)
    ensures BitsOf([]) == [] && Resumes([], data[..0])
  {
    assert data[..0] == [];
  }

  lemma WrittenPrefix(writer: BitWriter, out: seq<byte>)
    requires writer.Valid() && Yields(writer.Written(), out)
    ensures Yields(BitsOf(writer.data), out)
  {
    hide BitsOf, InflateFrom;
    assert writer.Written() <= BitsOf(writer.data);
  }

  // Stored blocks.

  const MAX_STORED: nat := 65535

  function StoredBytes(final: bool, chunk: seq<byte>): seq<byte>
    requires |chunk| <= MAX_STORED
  {
    var len, nlen := |chunk|, MAX_STORED - |chunk|;
    [if final then 1 else 0, len % 256, len / 256, nlen % 256, nlen / 256] + chunk
  }

  /** A bit string made of whole bytes determines them. */
  lemma BytesOfBits(a: seq<byte>, data: seq<byte>)
    requires BitsOf(a) <= BitsOf(data)
    ensures a <= data
  {
    hide BitsOf, LsbBits, LsbValue, Pow2;
    SmallPowers();
    forall i | 0 <= i < |a|
      ensures a[i] == data[i]
    {
      ByteBits(a, i);
      ByteBits(data, i);
      LsbValueOfBits(a[i], 8);
      LsbValueOfBits(data[i], 8);
      assert BitsOf(a)[8 * i..8 * i + 8] == BitsOf(data)[8 * i..8 * i + 8];
    }
  }

  lemma StoredHeader(data: seq<byte>, i: nat, final: bool)
    requires i < |data| && data[i] == if final then 1 else 0
    ensures Ahead(data, 8 * i, 1)[0] == final && LsbValue(Ahead(data, 8 * i + 1, 2)) == 0
  {
    hide BitsOf, Ahead, LsbValue;
    AheadByte(data, i);
    AheadSplit(data, 8 * i, 3, 8);
    assert LsbBits(data[i], 8)[..3] == [final, false, false];
    HeaderFields(data, 8 * i, final, false, false);
  }

  lemma StoredBlockAt(data: seq<byte>, front: seq<byte>, out: seq<byte>, chunk: seq<byte>, final: bool)
    requires 1 <= |chunk| <= MAX_STORED && front + StoredBytes(final, chunk) <= data
    ensures 8 * |front| + 3 <= 8 * |data| && Ahead(data, 8 * |front|, 1)[0] == final
    ensures BlockAt(data, 8 * |front|, out) == Some((out + chunk, 8 * |front + StoredBytes(final, chunk)|))
  {
    hide Ahead, LsbValue, Inflate, ReadHeader, FixedCodes;
    var b, n := front + StoredBytes(final, chunk), |front|;
    assert forall k :: 0 <= k < |b| ==> data[k] == b[k];
    StoredHeader(data, n, final);
    assert data[n + 5..n + 5 + |chunk|] == chunk;
  }

  lemma StoredNext(front: seq<byte>, out: seq<byte>, chunk: seq<byte>, final: bool)
    requires 1 <= |chunk| <= MAX_STORED && Resumes(BitsOf(front), out)
    ensures var bits := BitsOf(front + StoredBytes(final, chunk));
            if final then Yields(bits, out + chunk) else Resumes(bits, out + chunk)
  {
    hide *;
    var block := StoredBytes(final, chunk);
    BitsOfConcat(front, block);
    forall data: seq<byte> | BitsOf(front + block) <= BitsOf(data)
      ensures BitsOf(front) <= BitsOf(data) && |BitsOf(front)| + 3 <= 8 * |data|
      ensures Ahead(data, |BitsOf(front)|, 1)[0] == final
      ensures BlockAt(data, |BitsOf(front)|, out) == Some((out + chunk, |BitsOf(front + block)|))
    {
      BytesOfBits(front + block, data);
      StoredBlockAt(data, front, out, chunk, final);
      assert BitsOf(front) <= BitsOf(front + block);
    }
    NextBlock(BitsOf(front), BitsOf(front + block), out, out + chunk, final);
  }

  /** As few stored blocks of up to 65535 bytes as hold the data; an empty input produces no block at all. */
  method DeflateNoCompression(data: seq<byte>) returns (bytes: seq<byte>)
    ensures data == [] ==> bytes == []
    ensures data != [] ==> Yields(BitsOf(bytes), data)
    ensures |bytes| == |data| + 5 * ((|data| + 65534) / 65535)
  {
    hide BitsOf, Resumes, Yields, StoredBytes;
    var numblocks := (|data| + 65534) / 65535;
    bytes := [];
    var datapos := 0;
    NothingWritten(data);
    for i := 0 to numblocks
      invariant datapos == (if i == numblocks then |data| else MAX_STORED * i) <= |data|
      invariant |bytes| == datapos + 5 * i && (data == [] ==> bytes == [])
      invariant datapos < |data| ==> Resumes(BitsOf(bytes), data[..datapos])
      invariant datapos == |data| > 0 ==> Yields(BitsOf(bytes), data)
    {
      var final := i == numblocks - 1;
      var len := MAX_STORED;
      if |data| - datapos < MAX_STORED {
        len := |data| - datapos;
      }
      assert final <==> datapos + len == |data|;
      var chunk := data[datapos..datapos + len];
      StoredNext(bytes, data[..datapos], chunk, final);
      StoredSize(final, chunk);
      assert data[..datapos] + chunk == data[..datapos + len];
      assert final ==> data[..datapos + len] == data;
      bytes := bytes + StoredBytes(final, chunk);
      datapos := datapos + len;
    }
  }

  lemma StoredSize(final: bool, chunk: seq<byte>)
    requires |chunk| <= MAX_STORED
    ensures |StoredBytes(final, chunk)| == |chunk| + 5
  {
  }

  /** The window size only matters when LZ77 is used. */
  function SettingsError(settings: Settings): nat {
    if settings.btype > 2 then 61
    else if settings.btype > 0 && settings.useLz77 then WindowError(settings.windowsize)
    else 0
  }

  /** Accepted are three block types and, where LZ77 runs, the window sizes 2^0 to 2^15. */
  lemma SettingsAccepted(settings: Settings)
    ensures SettingsError(settings) == 61 <==> settings.btype > 2
    ensures SettingsError(settings) == 0
       <==> settings.btype == 0 || (settings.btype in {1, 2} && !settings.useLz77)
            || (settings.btype in {1, 2} && exists k: nat :: k <= 15 && settings.windowsize == Pow2(k))
  {
    hide Pow2, WindowError;
    WindowSizes(settings.windowsize);
    WindowErrors(settings.windowsize);
  }

  lemma WindowErrors(windowsize: nat)
    ensures WindowError(windowsize) in {0, 60, 90}
  {
  }

  /** Every stream that starts with these bytes inflates to `out`. */
  ghost predicate InflatesTo(bytes: seq<byte>, out: seq<byte>) {
    forall rest: seq<byte> :: InflateFrom(bytes + rest, 0, []) == Some(out)
  }

  lemma YieldsInflates(bytes: seq<byte>, out: seq<byte>)
    requires Yields(BitsOf(bytes), out)
    ensures InflatesTo(bytes, out)
  {
    hide BitsOf, InflateFrom;
    forall rest: seq<byte>
      ensures InflateFrom(bytes + rest, 0, []) == Some(out)
    {
      BitsOfConcat(bytes, rest);
    }
  }

  lemma EmptyStreamFails()
    ensures !InflatesTo([], [])
  {
    assert InflateFrom([] + [], 0, []).None?;
  }

  /**
   Compress with any settings. Fixed blocks of empty data divide by zero. Otherwise the result,
   followed by anything, inflates to the data if and only if it is not a stored empty input.
   */
  method Deflate(data: seq<byte>, settings: Settings) returns (r: Outcome)
    ensures r.DivideByZero? <==> settings.btype == 1 && data == []
    ensures r.Failed? <==> SettingsError(settings) != 0 && !(settings.btype == 1 && data == [])
    ensures r.Failed? ==> r.error == SettingsError(settings)
    ensures r.Done? ==> (InflatesTo(r.bytes, data) <==> !(settings.btype == 0 && data == []))
    ensures settings.btype == 0 && data == [] ==> r == Done([])
  {
    hide InflatesTo, Yields, WindowError;
    if settings.btype > 2 {
      return Failed(61);
    }
    if settings.btype == 0 {
      var stored := DeflateNoCompression(data);
      if data == [] {
        EmptyStreamFails();
      } else {
        YieldsInflates(stored, data);
      }
      return Done(stored);
    }
    var blocksize;
    if settings.btype == 1 {
      blocksize := |data|;
    } else {
      blocksize := |data| / 8 + 8;
      if blocksize < 65536 {
        blocksize := 65536;
      }
      if blocksize > 262144 {
        blocksize := 262144;
      }
    }
    if blocksize == 0 {
      return DivideByZero;
    }
    var error, bytes := DeflateBlocks(data, settings, blocksize);
    if error != 0 {
      return Failed(error);
    }
    YieldsInflates(bytes, data);
    return Done(bytes);
  }

  /** Inflating what was deflated gives back the data. */
  method DeflateThenInflate(data: seq<byte>, settings: Settings)
    returns (r: Outcome, error: nat, out: ByteVector)
    ensures fresh(out) && out.Valid()
    ensures r.Done? <==> SettingsError(settings) == 0 && !(settings.btype == 1 && data == [])
    ensures r.Done? && !(settings.btype == 0 && data == []) ==> error == 0 && out.Contents() == data
  {
    hide InflateFrom, SettingsError;
    out := new ByteVector([]);
    error := 0;
    r := Deflate(data, settings);
    if r.Done? {
      assert r.bytes + [] == r.bytes;
      error := InflateAll(out, r.bytes);
    }
  }
}
