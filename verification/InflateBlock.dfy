/**
 Inflating one Huffman-coded block: symbols are read through the lookup tables and
 back-references are copied inside the growing output buffer.
 */
module InflateBlock {
  import opened BitSequence
  import opened Wrappers
  import opened BitIo
  import opened Huffman
  import opened HuffmanTable
  import opened HuffmanLookup
  import opened HuffmanTree
  import opened HuffmanBlock
  import opened Lz77

  const RESERVED_SIZE: nat := 260

  /** A growing byte buffer; data.Length is the allocated size. */
  class ByteVector {
    var data: array<byte>
    var size: nat

    ghost predicate Valid()
      reads this
    {
      size <= data.Length
    }

    ghost function Contents(): (s: seq<byte>)
      requires Valid()
      reads this, data
    {
      data[..size]
    }

    constructor (contents: seq<byte>)
      ensures Valid() && Contents() == contents && fresh(data)
    {
      data := new byte[|contents|](i requires 0 <= i < |contents| => contents[i]);
      size := |contents|;
    }

    method Reserve(n: nat)
      requires Valid()
      modifies `data
      ensures Valid() && data.Length >= n && Contents() == old(Contents())
      ensures fresh(data) || data == old(data)
    {
      if n > data.Length {
        var old_, length := data, n + data.Length / 2;
        data := new byte[length](i requires 0 <= i < length reads old_ => if i < old_.Length then old_[i] else 0);
      }
    }

    method Push(b: byte)
      requires Valid() && size < data.Length
      modifies `size, data
      ensures Valid() && size == old(size) + 1 && Contents() == old(Contents()) + [b]
    {
      data[size] := b;
      size := size + 1;
    }

    method Append(bytes: seq<byte>)
      requires Valid() && size + |bytes| <= data.Length
      modifies `size, data
      ensures Valid() && Contents() == old(Contents()) + bytes
    {
      forall i | 0 <= i < |bytes| {
        data[size + i] := bytes[i];
      }
      size := size + |bytes|;
    }

    /** Append `length` bytes that repeat those `distance` back, in the two stages of the source. */
    method CopyReference(distance: nat, length: nat)
      requires Valid() && 1 <= distance <= size && size + length <= data.Length
      modifies `size, data
      ensures Valid() && size == old(size) + length
      ensures Contents() == CopyBack(old(Contents()), distance, length)
    {
      var start := size;
      size := size + length;
      var block := if distance < length then distance else length;
      CopyBlock(data, start, distance, block);
      if distance < length {
        CopyTail(data, start, distance, length);
      }
      ghost var all := data[..];
      CopyBackOfMatch(all, start, length, distance);
      assert all[..start] == old(data[..start]) && data[..size] == all[..size];
    }
  }

  /** The block copy: source and destination do not overlap. */
  method CopyBlock(data: array<byte>, start: nat, distance: nat, length: nat)
    requires length <= distance <= start && start + length <= data.Length
    modifies data
    ensures data[..start] == old(data[..start])
    ensures forall k :: start <= k < start + length ==> data[k] == data[k - distance]
  {
    var backward := start - distance;
    for i := 0 to length
      invariant data[..start] == old(data[..start])
      invariant forall k :: start <= k < start + i ==> data[k] == data[k - distance]
    {
      data[start + i] := data[backward + i];
    }
  }

  /** The overlapping part, reading again from the start of the block copied first. */
  method CopyTail(data: array<byte>, start: nat, distance: nat, length: nat)
    requires 1 <= distance < length && distance <= start && start + length <= data.Length
    requires forall k :: start <= k < start + distance ==> data[k] == data[k - distance]
    modifies data
    ensures data[..start] == old(data[..start])
    ensures forall k :: start <= k < start + length ==> data[k] == data[k - distance]
  {
    var to, from := start + distance, start - distance;
    for forward := distance to length
      invariant to == start + forward && from == start + forward - 2 * distance
      invariant data[..start] == old(data[..start])
      invariant forall k :: start <= k < start + forward ==> data[k] == data[k - distance]
    {
      assert data[to - distance] == data[from];
      data[to] := data[from];
      to := to + 1;
      from := from + 1;
    }
  }

  /** The fields after a length code; the error is an unused or disallowed distance code. */
  method ReadLengthDistance(reader: BitReader, treeD: Tree, ghost codes: Codes, lc: nat)
    returns (error: nat, length: nat, distance: nat)
    requires reader.Valid() && treeD.Valid() && codes.Valid() && codes.d == treeD.lengths && lc < NUM_LENGTH_CODES
    modifies reader
    ensures reader.Valid()
    ensures var (item, p) := ReadCopy(codes, reader.data, lc, old(reader.bp));
            && reader.bp >= old(reader.bp)
            && (error != 0 <==> item.Bad?)
            && (error == 0 ==>
                  && item.Tok? && item.token.Copy? && reader.bp == p
                  && length == item.token.Length() && distance == item.token.Distance())
  {
    hide LsbValue, Ahead, SymbolAt, LengthOf, LengthBase, LengthExtra, BitReader.Valid, UsableCode, Tree.Valid,
         ReadCopy, Token.Valid;
    ghost var p := reader.bp;
    CopyFacts(codes, reader.data, lc, p);
    if LengthExtra(lc) != 0 {
      reader.EnsureBytes(4);
    }
    var more := ReadExtra(reader, LengthExtra(lc));
    length := LengthBase(lc) + more;
    error, distance := ReadDistance(reader, treeD);
  }

  /** The distance code and its extra bits. */
  method ReadDistance(reader: BitReader, treeD: Tree) returns (error: nat, distance: nat)
    requires reader.Valid() && treeD.Valid()
    modifies reader
    ensures reader.Valid() && reader.bp >= old(reader.bp)
    ensures var dc := SymbolAt(treeD.lengths, reader.data, old(reader.bp));
            && (error != 0 <==> dc >= NUM_DISTANCE_CODES)
            && (error == 0 ==>
                  var p := old(reader.bp) + LengthOf(treeD.lengths, dc);
                  && reader.bp == p + DistanceExtra(dc)
                  && distance == DistanceBase(dc) + LsbValue(Ahead(reader.data, p, DistanceExtra(dc))))
  {
    hide LsbValue, Ahead, Pow2, SymbolAt, LengthOf, DistanceBase, DistanceExtra, BitReader.Valid, UsableCode,
         Tree.Valid;
    reader.Ensure32();
    var dc := DecodeSymbol(reader, treeD);
    if dc >= NUM_DISTANCE_CODES {
      error, distance := if dc <= 31 then 18 else 16, 0;
    } else {
      var more := ReadExtra(reader, DistanceExtra(dc));
      error, distance := 0, DistanceBase(dc) + more;
    }
  }

  /** The fields of a copy, one by one. */
  lemma CopyFacts(codes: Codes, data: seq<byte>, lc: nat, p: nat)
    requires codes.Valid() && lc < NUM_LENGTH_CODES
    ensures var (item, q) := ReadCopy(codes, data, lc, p);
            var p1 := p + LengthExtra(lc);
            var dc := SymbolAt(codes.d, data, p1);
            if dc >= NUM_DISTANCE_CODES then item.Bad?
            else
              var p2 := p1 + LengthOf(codes.d, dc);
              && item.Tok? && item.token.Copy? && q == p2 + DistanceExtra(dc)
              && item.token.Length() == LengthBase(lc) + LsbValue(Ahead(data, p, LengthExtra(lc)))
              && item.token.Distance() == DistanceBase(dc) + LsbValue(Ahead(data, p2, DistanceExtra(dc)))
  {
    hide LsbValue, Ahead, Pow2, SymbolAt, LengthOf, LengthBase, LengthExtra, DistanceBase, DistanceExtra, UsableCode,
         Token.Valid;
  }

  /** Extra bits, which are not read at all when there are none. */
  method ReadExtra(reader: BitReader, n: nat) returns (v: nat)
    requires reader.Valid() && (n != 0 ==> n <= reader.held)
    modifies reader
    ensures reader.Valid() && reader.bp == old(reader.bp) + n
    ensures v == LsbValue(Ahead(reader.data, old(reader.bp), n))
  {
    hide Ahead, LsbValue;
    NoBits(reader.data, reader.bp);
    v := 0;
    if n != 0 {
      v := reader.ReadBits(n);
    }
  }

  lemma NoBits(data: seq<byte>, p: nat)
    ensures LsbValue(Ahead(data, p, 0)) == 0
  {
  }

  /** Past the end of the data nothing decodes, whatever the steps taken there. */
  lemma NothingPastEnd(codes: Codes, data: seq<byte>, p: nat, out: seq<byte>)
    requires codes.Valid() && p > 8 * |data|
    ensures Inflate(codes, data, p, out).None?
  {
  }

  /** Inflate after a literal/length symbol s that ends at bit p. */
  ghost function AfterSymbol(codes: Codes, data: seq<byte>, s: nat, p: nat, out: seq<byte>)
    : (r: Option<(seq<byte>, nat)>)
    requires codes.Valid()
  {
    if s <= 255 then Inflate(codes, data, p, out + [s])
    else if s == END_CODE then (if p <= 8 * |data| then Some((out, p)) else None)
    else if s > LAST_LENGTH_CODE then None
    else
      var (item, p') := ReadCopy(codes, data, s - FIRST_LENGTH_CODE, p);
      if !item.Tok? || Step(out, item.token).None? then None
      else Inflate(codes, data, p', Step(out, item.token).value)
  }

  lemma InflateSymbol(codes: Codes, data: seq<byte>, p: nat, out: seq<byte>, s: nat)
    requires codes.Valid() && s == SymbolAt(codes.ll, data, p)
    ensures Inflate(codes, data, p, out) == AfterSymbol(codes, data, s, p + LengthOf(codes.ll, s), out)
  {
    hide UsableCode, SymbolAt, LengthOf, Step, ReadCopy, Inflate, ReadItem, Token.Valid;
    SymbolRange(codes.ll, data, p);
    if s <= 255 {
      LiteralStep(out, s);
    }
    if p <= 8 * |data| {
      ItemOfSymbol(codes, data, p, s);
      InflateUnfold(codes, data, p, out);
    } else {
      NothingPastEnd(codes, data, p, out);
      SymbolPastEnd(codes, data, s, p + LengthOf(codes.ll, s), out);
    }
  }

  lemma ItemOfSymbol(codes: Codes, data: seq<byte>, p: nat, s: nat)
    requires codes.Valid() && s == SymbolAt(codes.ll, data, p)
    ensures var p1 := p + LengthOf(codes.ll, s);
            ReadItem(codes, data, p)
            == if s <= 255 then (Tok(Literal(s)), p1)
               else if s == END_CODE then (End, p1)
               else if s <= LAST_LENGTH_CODE then ReadCopy(codes, data, s - FIRST_LENGTH_CODE, p1)
               else (Bad, p1)
    ensures END_CODE < s <= LAST_LENGTH_CODE ==> !ReadItem(codes, data, p).0.End?
  {
    hide UsableCode, SymbolAt, LengthOf, ReadCopy, Token.Valid;
  }

  lemma InflateUnfold(codes: Codes, data: seq<byte>, p: nat, out: seq<byte>)
    requires codes.Valid() && p <= 8 * |data|
    ensures var (item, p') := ReadItem(codes, data, p);
            Inflate(codes, data, p, out)
            == match item
               case Bad => None
               case End => (if p' <= 8 * |data| then Some((out, p')) else None)
               case Tok(t) =>
                 (var next := Step(out, t); if next.None? then None else Inflate(codes, data, p', next.value))
  {
    hide UsableCode, ReadItem, Step, Token.Valid;
  }

  lemma SymbolPastEnd(codes: Codes, data: seq<byte>, s: nat, p: nat, out: seq<byte>)
    requires codes.Valid() && p > 8 * |data|
    ensures AfterSymbol(codes, data, s, p, out).None?
  {
    hide UsableCode, SymbolAt, Step, Pow2, LengthExtra, DistanceExtra;
    if END_CODE < s <= LAST_LENGTH_CODE {
      assert ReadCopy(codes, data, s - FIRST_LENGTH_CODE, p).1 >= p;
    }
  }

  /** What one round of the decoding loop does to the result still expected. */
  ghost predicate Round(expected: Option<(seq<byte>, nat)>, codes: Codes, data: seq<byte>,
                        error: nat, done: bool, p: nat, out: seq<byte>)
    requires codes.Valid()
  {
    if error != 0 then expected.None?
    else if done then expected == if p <= 8 * |data| then Some((out, p)) else None
    else expected == Inflate(codes, data, p, out)
  }

  /** The copy a length code starts. */
  method HandleCopy(out: ByteVector, reader: BitReader, treeD: Tree, ghost codes: Codes, lc: nat)
    returns (error: nat)
    requires out.Valid() && out.data.Length - out.size >= MAX_LENGTH && lc < NUM_LENGTH_CODES
    requires reader.Valid() && treeD.Valid() && codes.Valid() && codes.d == treeD.lengths
    modifies out`size, out.data, reader
    ensures out.Valid() && reader.Valid() && old(out.size) <= out.size <= old(out.size) + MAX_LENGTH
    ensures reader.bp >= old(reader.bp)
    ensures var (item, p) := ReadCopy(codes, reader.data, lc, old(reader.bp));
            if error != 0 then !item.Tok? || Step(old(out.Contents()), item.token).None?
            else item.Tok? && reader.bp == p && Step(old(out.Contents()), item.token) == Some(out.Contents())
  {
    hide UsableCode, SymbolAt, BitReader.Valid, Tree.Valid, ReadCopy, CopyBack, LengthExtra, LengthBase,
         DistanceBase, DistanceExtra, Pow2;
    var length, distance;
    error, length, distance := ReadLengthDistance(reader, treeD, codes, lc);
    if error != 0 {
      return;
    }
    if distance > out.size {
      error := 52;
    } else {
      TokenRange(ReadCopy(codes, reader.data, lc, old(reader.bp)).0.token);
      out.CopyReference(distance, length);
    }
  }

  /** Act on a literal/length symbol that has just been read. */
  method HandleSymbol(out: ByteVector, reader: BitReader, treeD: Tree, ghost codes: Codes, code: nat)
    returns (error: nat, done: bool)
    requires out.Valid() && out.data.Length - out.size >= MAX_LENGTH
    requires reader.Valid() && treeD.Valid() && codes.Valid() && codes.d == treeD.lengths
    modifies out`size, out.data, reader
    ensures out.Valid() && reader.Valid() && old(out.size) <= out.size <= old(out.size) + MAX_LENGTH
    ensures reader.bp >= old(reader.bp)
    ensures Round(old(AfterSymbol(codes, reader.data, code, reader.bp, out.Contents())), codes, reader.data,
                  error, done, reader.bp, out.Contents())
  {
    hide Inflate, UsableCode, SymbolAt, BitReader.Valid, Tree.Valid, ReadCopy, Step, Token.Valid;
    error, done := 0, false;
    if code <= 255 {
      out.Push(code);
    } else if FIRST_LENGTH_CODE <= code <= LAST_LENGTH_CODE {
      error := HandleCopy(out, reader, treeD, codes, code - FIRST_LENGTH_CODE);
    } else if code == END_CODE {
      done := true;
    } else {
      error := 16;
    }
  }

  /** One round of the loop: a symbol, or a literal and then a second symbol. */
  method DecodeRound(out: ByteVector, reader: BitReader, treeLl: Tree, treeD: Tree, ghost codes: Codes)
    returns (error: nat, done: bool)
    requires out.Valid() && out.data.Length - out.size >= RESERVED_SIZE
    requires reader.Valid() && treeLl.Valid() && treeD.Valid()
    requires codes.Valid() && codes == Codes(treeLl.lengths, treeD.lengths)
    modifies out`size, out.data, reader
    ensures out.Valid() && reader.Valid() && old(out.size) <= out.size
    ensures reader.bp > old(reader.bp)
    ensures Round(old(Inflate(codes, reader.data, reader.bp, out.Contents())), codes, reader.data,
                  error, done, reader.bp, out.Contents())
  {
    hide Inflate, UsableCode, SymbolAt, LengthOf, BitReader.Valid, Tree.Valid, AfterSymbol, Round;
    reader.Ensure32();
    InflateAt(codes, reader.data, reader.bp, out.Contents());
    var code := DecodeSymbol(reader, treeLl);
    InvalidAnywhere(codes, reader.data, code, reader.bp, old(reader.bp) + LengthOf(codes.ll, code), out.Contents());
    if code <= 255 {
      LiteralSymbol(codes, reader.data, code, reader.bp, out.Contents());
      out.Push(code);
      InflateAt(codes, reader.data, reader.bp, out.Contents());
      ghost var p := reader.bp;
      code := DecodeSymbol(reader, treeLl);
      InvalidAnywhere(codes, reader.data, code, reader.bp, p + LengthOf(codes.ll, code), out.Contents());
    }
    error, done := HandleSymbol(out, reader, treeD, codes, code);
  }

  lemma InflateAt(codes: Codes, data: seq<byte>, p: nat, out: seq<byte>)
    requires codes.Valid()
    ensures var s := SymbolAt(codes.ll, data, p);
            Inflate(codes, data, p, out) == AfterSymbol(codes, data, s, p + LengthOf(codes.ll, s), out)
  {
    hide UsableCode, SymbolAt, Inflate, AfterSymbol;
    InflateSymbol(codes, data, p, out, SymbolAt(codes.ll, data, p));
  }

  /** Where an invalid symbol ends does not matter. */
  lemma InvalidAnywhere(codes: Codes, data: seq<byte>, s: nat, p: nat, p': nat, out: seq<byte>)
    requires codes.Valid()
    ensures s == INVALID_SYMBOL ==> AfterSymbol(codes, data, s, p, out) == AfterSymbol(codes, data, s, p', out)
  {
  }

  lemma LiteralSymbol(codes: Codes, data: seq<byte>, s: nat, p: nat, out: seq<byte>)
    requires codes.Valid() && s <= 255
    ensures AfterSymbol(codes, data, s, p, out) == Inflate(codes, data, p, out + [s])
  {
  }

  /**
   Inflate one block with the given trees. For every stream: the method accepts exactly the streams
   the format defines a result for (and whose result respects a given size limit), produces that
   result, and leaves the reader right after the end code. Output is written only inside the space
   reserved before each round.
   */
  method InflateHuffmanBlock(out: ByteVector, reader: BitReader, treeLl: Tree, treeD: Tree, maxOutputSize: nat)
    returns (error: nat)
    requires out.Valid() && reader.Valid() && treeLl.Valid() && treeD.Valid()
    modifies out, out.data, reader
    ensures out.Valid() && reader.Valid() && (fresh(out.data) || out.data == old(out.data))
    ensures var r := Inflate(Codes(treeLl.lengths, treeD.lengths), reader.data, old(reader.bp), old(out.Contents()));
            && (error == 0 <==> r.Some? && (maxOutputSize == 0 || |r.value.0| <= maxOutputSize))
            && (error == 0 ==> out.Contents() == r.value.0 && reader.bp == r.value.1)
  {
    hide Inflate, UsableCode, BitReader.Valid, GoodCodes, Decodes;
    ghost var codes := Codes(treeLl.lengths, treeD.lengths);
    ghost var r := Inflate(codes, reader.data, reader.bp, out.Contents());
    out.Reserve(out.size + RESERVED_SIZE);
    error := 0;
    var done := false;
    while !done
      invariant out.Valid() && reader.Valid() && out.data.Length - out.size >= RESERVED_SIZE
      invariant fresh(out.data) || out.data == old(out.data)
      invariant Round(r, codes, reader.data, 0, done, reader.bp, out.Contents())
      invariant done ==> reader.bp <= 8 * |reader.data| && (maxOutputSize == 0 || out.size <= maxOutputSize)
      decreases !done, if reader.bp <= 8 * |reader.data| then 8 * |reader.data| + 1 - reader.bp else 0
    {
      error, done := DecodeRound(out, reader, treeLl, treeD, codes);
      if error != 0 {
        return;
      }
      if out.data.Length - out.size < RESERVED_SIZE {
        out.Reserve(out.size + RESERVED_SIZE);
      }
      if reader.bp > 8 * |reader.data| {
        NothingPastEnd(codes, reader.data, reader.bp, out.Contents());
        return 51;
      }
      if maxOutputSize != 0 && out.size > maxOutputSize {
        return 109;
      }
    }
  }
}
