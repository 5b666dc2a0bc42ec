/**
 Inflating a whole DEFLATE stream: stored, fixed and dynamic blocks up to the one
 marked final (RFC 1951 section 3.2.3).
 */
module InflateStream {
  import opened BitSequence
  import opened Wrappers
  import opened BitIo
  import opened Huffman
  import opened HuffmanTree
  import opened HuffmanBlock
  import opened DynamicHeader
  import opened DeflateBlock
  import opened InflateBlock
  import opened InflateDynamic

  type Partial = Option<(seq<byte>, nat)>

  function Word16(data: seq<byte>, i: nat): nat
    requires i + 2 <= |data|
  {
    data[i] as int + 256 * (data[i + 1] as int)
  }

  /** A stored block whose header bits end at bit p: LEN, its complement, and LEN bytes. */
  function Stored(data: seq<byte>, p: nat, out: seq<byte>): (r: Partial)
    ensures r.Some? ==> p < r.value.1 <= 8 * |data|
  {
    var b := (p + 7) / 8;
    if b + 4 >= |data| then None
    else
      var len := Word16(data, b);
      if len + Word16(data, b + 2) != 65535 || b + 4 + len > |data| then None
      else Some((out + data[b + 4..b + 4 + len], 8 * (b + 4 + len)))
  }

  /** One block whose three header bits start at bit p. */
  ghost function BlockAt(data: seq<byte>, p: nat, out: seq<byte>): (r: Partial)
    requires p + 3 <= 8 * |data|
    ensures r.Some? ==> p < r.value.1 <= 8 * |data|
  {
    var btype := LsbValue(Ahead(data, p + 1, 2));
    if btype == 0 then Stored(data, p + 3, out)
    else if btype == 1 then
      FixedCodesEncodeAll([]);
      Inflate(FixedCodes(), data, p + 3, out)
    else if btype == 2 then
      var header := ReadHeader(data, p + 3);
      if header.None? then None
      else Inflate(header.value.0, data, header.value.1, out)
    else None
  }

  /** Blocks from bit p until the final one; None if the stream is malformed. */
  ghost function InflateFrom(data: seq<byte>, p: nat, out: seq<byte>): (r: Option<seq<byte>>)
    decreases 8 * |data| - p
  {
    if p + 3 > 8 * |data| then None
    else
      var block := BlockAt(data, p, out);
      if block.None? then None
      else if Ahead(data, p, 1)[0] then Some(block.value.0)
      else InflateFrom(data, block.value.1, block.value.0)
  }

  /** Copy a stored block; bits up to the next byte boundary are skipped. */
  method InflateNoCompression(out: ByteVector, reader: BitReader) returns (error: nat)
    requires out.Valid() && reader.Valid()
    modifies out, out.data, reader
    ensures out.Valid() && reader.Valid() && (fresh(out.data) || out.data == old(out.data))
    ensures var r := Stored(reader.data, old(reader.bp), old(out.Contents()));
            && (error == 0 <==> r.Some?)
            && (error == 0 ==> out.Contents() == r.value.0 && reader.bp == r.value.1)
  {
    hide LsbValue, Ahead;
    var bytepos, size := (reader.bp + 7) / 8, |reader.data|;
    if bytepos + 4 >= size {
      return 52;
    }
    var len, nlen := Word16(reader.data, bytepos), Word16(reader.data, bytepos + 2);
    bytepos := bytepos + 4;
    if len + nlen != 65535 {
      return 21;
    }
    if bytepos + len > size {
      return 23;
    }
    out.Reserve(out.size + len);
    out.Append(reader.data[bytepos..bytepos + len]);
    reader.MoveTo(8 * (bytepos + len));
    error := 0;
  }

  /** One block with its header bits. */
  method InflateOne(out: ByteVector, reader: BitReader) returns (error: nat, final: bool)
    requires out.Valid() && reader.Valid() && reader.bp + 3 <= 8 * |reader.data|
    modifies out, out.data, reader
    ensures out.Valid() && reader.Valid() && (fresh(out.data) || out.data == old(out.data))
    ensures final == Ahead(reader.data, old(reader.bp), 1)[0]
    ensures var r := BlockAt(reader.data, old(reader.bp), old(out.Contents()));
            && (error == 0 <==> r.Some?)
            && (error == 0 ==> out.Contents() == r.value.0 && reader.bp == r.value.1)
  {
    hide LsbValue, Ahead, BitReader.Valid, Tree.Valid, UsableCode, Inflate, ReadHeader, Stored,
         FixedLitLenLengths, FixedDistanceLengths;
    ghost var p := reader.bp;
    reader.EnsureBytes(2);
    var bfinal := reader.ReadBits(1);
    var btype := reader.ReadBits(2);
    OneBitValue(reader.data, p);
    final := bfinal == 1;
    if btype == 3 {
      error := 20;
    } else if btype == 0 {
      error := InflateNoCompression(out, reader);
    } else {
      LsbValueBound(Ahead(reader.data, p + 1, 2));
      SmallPowers();
      var treeLl, treeD;
      if btype == 1 {
        treeLl := GenerateFixedLitLenTree();
        treeD := GenerateFixedDistanceTree();
      } else {
        error, treeLl, treeD := GetTreeInflateDynamic(reader);
        if error != 0 {
          return;
        }
      }
      error := InflateHuffmanBlock(out, reader, treeLl, treeD, 0);
    }
  }

  lemma OneBitValue(data: seq<byte>, p: nat)
    ensures LsbValue(Ahead(data, p, 1)) == if Ahead(data, p, 1)[0] then 1 else 0
  {
    assert Ahead(data, p, 1)[1..] == [];
  }

  /**
   Inflate a stream into a buffer. For every byte string the result is the one the format
   defines, or an error if it defines none.
   */
  method InflateAll(out: ByteVector, data: seq<byte>) returns (error: nat)
    requires out.Valid()
    modifies out, out.data
    ensures out.Valid() && (fresh(out.data) || out.data == old(out.data))
    ensures error == 0 <==> InflateFrom(data, 0, old(out.Contents())).Some?
    ensures error == 0 ==> InflateFrom(data, 0, old(out.Contents())) == Some(out.Contents())
  {
    hide Ahead, BitReader.Valid, BlockAt;
    var reader := new BitReader(data);
    ghost var r := InflateFrom(data, 0, out.Contents());
    error := 0;
    var final := false;
    while !final
      invariant out.Valid() && reader.Valid() && reader.data == data && reader.bp <= 8 * |data| && error == 0
      invariant fresh(out.data) || out.data == old(out.data)
      invariant if final then r == Some(out.Contents()) else r == InflateFrom(data, reader.bp, out.Contents())
      decreases !final, 8 * |data| - reader.bp
    {
      if 8 * |data| - reader.bp < 3 {
        return 52;
      }
      error, final := InflateOne(out, reader);
      if error != 0 {
        return;
      }
    }
  }
}
