/**
 The zlib container (RFC 1950 section 2.2): two header bytes, a DEFLATE stream and the
 Adler-32 checksum of the data, most significant byte first.
 */
module Zlib {
  import opened BitSequence
  import opened Wrappers
  import opened BitIo
  import opened Huffman
  import opened HuffmanTree
  import opened HuffmanBlock
  import opened Lz77
  import opened DynamicHeader
  import opened DeflateBlock
  import opened InflateBlock
  import opened InflateStream
  import opened DeflateStream
  import Adler32
  import DeflateFormat

  function Word32(data: seq<byte>, i: nat): nat
    requires i + 4 <= |data|
  {
    ((data[i] as int * 256 + data[i + 1]) * 256 + data[i + 2]) * 256 + data[i + 3]
  }

  function BigEndian(v: nat): (s: seq<byte>)
    requires v < Adler32.WORD
    ensures |s| == 4
  {
    [v / 16777216, v / 65536 % 256, v / 256 % 256, v % 256]
  }

  lemma ReadBigEndian(front: seq<byte>, v: nat)
    requires v < Adler32.WORD
    ensures Word32(front + BigEndian(v), |front|) == v
  {
    hide BigEndian;
    var s, b := front + BigEndian(v), BigEndian(v);
    assert s[|front|] == b[0] && s[|front| + 1] == b[1] && s[|front| + 2] == b[2] && s[|front| + 3] == b[3];
    FourBytes(v);
  }

  lemma FourBytes(v: nat)
    requires v < Adler32.WORD
    ensures var b := BigEndian(v); ((b[0] as int * 256 + b[1]) * 256 + b[2]) * 256 + b[3] == v
  {
    var high, middle := v / 65536, v / 256;
    ModIs(high, 256, v / 16777216, high % 256);
    ModIs(middle, 256, high, middle % 256);
  }

  /** The checksum covers the length truncated to 32 bits. */
  function Covered(data: seq<byte>): seq<byte> {
    data[..|data| % Adler32.WORD]
  }

  /** The checks on the two header bytes. */
  function HeaderError(data: seq<byte>): nat {
    if |data| < 2 then 53
    else if (data[0] as int * 256 + data[1]) % 31 != 0 then 24
    else if data[0] % 16 != 8 || data[0] / 16 % 16 > 7 then 25
    else if data[1] / 32 % 2 != 0 then 26
    else 0
  }

  /**
   Section 2.2 of RFC 1950: a header is accepted exactly if the two bytes are a multiple of 31 as
   one number, the method is 8 with a window of at most 2^15 bytes, and no dictionary is preset.
   */
  lemma HeaderLaw(data: seq<byte>)
    ensures HeaderError(data) == 0 <==>
              && |data| >= 2 && (256 * (data[0] as int) + data[1]) % 31 == 0
              && data[0] % 16 == 8 && 8 + data[0] / 16 <= 15 && data[1] % 64 < 32
    ensures |data| < 2 <==> HeaderError(data) == 53
  {
    if |data| >= 2 {
      FifthBit(data[1]);
    }
  }

  lemma FifthBit(v: nat)
    ensures v / 32 % 2 == 0 <==> v % 64 < 32
  {
    assert v / 32 == 2 * (v / 64) + v % 64 / 32;
  }

  /** A checksum of four bytes, the highest first. */
  lemma Word32Law(data: seq<byte>, i: nat)
    requires i + 4 <= |data|
    ensures Word32(data, i) == 0x100_0000 * (data[i] as int) + 0x1_0000 * (data[i + 1] as int)
                               + 0x100 * (data[i + 2] as int) + data[i + 3]
  {
  }

  /** A stream that inflates is longer than one byte, so the checksum field lies inside the container. */
  lemma StreamIsLong(data: seq<byte>)
    requires InflateFrom(data, 0, []).Some?
    ensures |data| >= 2
  {
    hide Ahead, LsbValue, Inflate, UsableCode, ReadHeaderBody, FixedCodes;
    var btype := LsbValue(Ahead(data, 1, 2));
    if btype == 1 {
      FixedCodesEncodeAll([]);
      FixedIsLong(data, 3, []);
    }
  }

  lemma FixedIsLong(data: seq<byte>, p: nat, out: seq<byte>)
    requires FixedCodes().Valid() && Inflate(FixedCodes(), data, p, out).Some?
    ensures 8 * |data| >= p + 7
  {
    hide UsableCode, SymbolAt, Ahead, LsbValue, Step, ReadCopy;
    var s := SymbolAt(FixedCodes().ll, data, p);
    assert FixedLitLenLengths()[s] >= 7;
    var (item, p') := HuffmanBlock.ReadItem(FixedCodes(), data, p);
    if item.Tok? {
      assert Inflate(FixedCodes(), data, p', Step(out, item.token).value).Some?;
    }
  }

  /** What a container holds, if it is well-formed and its checksum matches. */
  ghost function ZlibContents(data: seq<byte>): Option<seq<byte>> {
    if HeaderError(data) != 0 then None
    else
      var r := InflateFrom(data[2..], 0, []);
      if r.None? then None
      else
        StreamIsLong(data[2..]);
        if Adler32.Checksum(Covered(r.value)) != Word32(data, |data| - 4) then None else r
  }

  /** Decompress any byte string. */
  method ZlibDecompress(data: seq<byte>) returns (error: nat, out: ByteVector)
    ensures fresh(out) && out.Valid()
    ensures error == 0 <==> ZlibContents(data).Some?
    ensures error == 0 ==> ZlibContents(data) == Some(out.Contents())
  {
    hide InflateFrom, Adler32.AddBytes, Word32;
    out := new ByteVector([]);
    error := HeaderError(data);
    if error != 0 {
      return;
    }
    error := InflateAll(out, data[2..]);
    if error != 0 {
      return;
    }
    StreamIsLong(data[2..]);
    var all := out.data[..out.size];
    var checksum := Adler32.UpdateAdler32(1, Covered(all));
    if checksum != Word32(data, |data| - 4) {
      error := 58;
    }
  }

  /** Compress into a container. */
  method ZlibCompress(data: seq<byte>, settings: Settings) returns (r: Outcome)
    ensures r.DivideByZero? <==> settings.btype == 1 && data == []
    ensures r.Failed? <==> SettingsError(settings) != 0 && !(settings.btype == 1 && data == [])
    ensures r.Done? ==> (ZlibContents(r.bytes) == Some(data) <==> !(settings.btype == 0 && data == []))
  {
    hide InflatesTo, SettingsError, ZlibContents, Word32, Adler32.AddBytes;
    r := Deflate(data, settings);
    if r.Done? {
      var checksum := Adler32.UpdateAdler32(1, Covered(data));
      var cmfflg: int := 256 * 120;
      cmfflg := cmfflg + (31 - cmfflg % 31);
      assert cmfflg / 256 == 120 && cmfflg % 256 == 1;
      if settings.btype == 0 && data == [] {
        StoredEmpty(checksum);
      } else {
        Container(r.bytes, data, checksum);
      }
      r := Done([cmfflg / 256, cmfflg % 256] + r.bytes + BigEndian(checksum));
    }
  }

  lemma Container(bytes: seq<byte>, data: seq<byte>, checksum: nat)
    requires InflatesTo(bytes, data) && checksum == Adler32.Checksum(Covered(data)) < Adler32.WORD
    ensures ZlibContents([120, 1] + bytes + BigEndian(checksum)) == Some(data)
  {
    hide InflateFrom, Word32, BigEndian, Adler32.AddBytes;
    var all := [120, 1] + bytes + BigEndian(checksum);
    assert all[2..] == bytes + BigEndian(checksum);
    ReadBigEndian([120, 1] + bytes, checksum);
  }

  /** An empty stored stream leaves only the four checksum bytes, too few for any block. */
  lemma StoredEmpty(checksum: nat)
    requires checksum == Adler32.Checksum(Covered([]))
    ensures ZlibContents([120, 1] + [] + BigEndian(checksum)).None?
  {
    hide InflateFrom;
    assert Covered([]) == [];
    var all := [120, 1] + [] + BigEndian(checksum);
    assert all[2..] == [0, 0, 0, 1];
    FourBytesFail();
  }

  lemma FourBytesFail()
    ensures InflateFrom([0, 0, 0, 1], 0, []).None?
  {
    hide Ahead, LsbValue, BitsOf, Inflate, ReadHeader, FixedCodes;
    StoredHeader([0, 0, 0, 1], 0, false);
  }

  /** Decompressing what was compressed gives back the data. */
  method CompressThenDecompress(data: seq<byte>, settings: Settings)
    returns (r: Outcome, error: nat, out: ByteVector)
    ensures fresh(out) && out.Valid()
    ensures r.Done? <==> SettingsError(settings) == 0 && !(settings.btype == 1 && data == [])
    ensures r.Done? && !(settings.btype == 0 && data == []) ==> error == 0 && out.Contents() == data
  {
    hide ZlibContents, SettingsError;
    r := ZlibCompress(data, settings);
    if r.Done? {
      error, out := ZlibDecompress(r.bytes);
    } else {
      out := new ByteVector([]);
      error := 0;
    }
  }

  /** A container that holds the letter a. */
  lemma ContainerExample()
    ensures ZlibContents([0x78, 0x01, 0x4B, 0x04, 0x00, 0x00, 0x62, 0x00, 0x62]) == Some([0x61])
  {
    hide InflateFrom, Adler32.Checksum;
    var data: seq<byte> := [0x78, 0x01, 0x4B, 0x04, 0x00, 0x00, 0x62, 0x00, 0x62];
    assert data[2..] == [0x4B, 0x04, 0x00] + [0x00, 0x62, 0x00, 0x62];
    DeflateFormat.FixedStream([0x00, 0x62, 0x00, 0x62]);
    assert Covered([0x61]) == [0x61];
    ChecksumOfA();
    assert Word32(data, 5) == 0x62_0062;
  }

  lemma ChecksumOfA()
    ensures Adler32.Checksum([0x61]) == 0x62_0062
  {
    Adler32.ChecksumIs([0x61]);
    var data: seq<byte> := [0x61];
    assert data[1..] == [] && data[..0] == [];
    assert Adler32.WeightedSum(data) == 0x61 && Adler32.ByteSum(data) == 0x61;
  }
}
