/**
 The constants of the DEFLATE format as RFC 1951 gives them, proved of the tables and
 definitions the other modules use: the codes of fixed blocks, the ranges of length and
 distance codes, the fields of a dynamic header, and two streams whose contents are known.
 */
module DeflateFormat {
  import opened BitSequence
  import opened Wrappers
  import opened BitIo
  import opened Huffman
  import opened HuffmanTree
  import opened HuffmanBlock
  import opened Lz77
  import opened CodeLengths
  import opened DynamicHeader
  import opened DeflateBlock
  import opened InflateStream

  // Codes of fixed blocks, section 3.2.6.

  lemma {:induction false} CountOfRun(s: seq<nat>, x: nat, n: nat, l: nat)
    ensures Count(s + Repeat(x, n), l) == Count(s, l) + if x == l then n else 0
    decreases n
  {
    var t := s + Repeat(x, n);
    if n == 0 {
      assert t == s;
    } else {
      CountOfRun(s, x, n - 1, l);
      assert t[..|t| - 1] == s + Repeat(x, n - 1) && t[|t| - 1] == x;
    }
  }

  /** How often a length occurs in a prefix of four runs. */
  lemma CountOfRuns(a: nat, b: nat, c: nat, d: nat, l: nat)
    ensures Count(Repeat(8, a) + Repeat(9, b) + Repeat(7, c) + Repeat(8, d), l)
            == if l == 7 then c else if l == 8 then a + d else if l == 9 then b else 0
  {
    CountOfRun([], 8, a, l);
    assert [] + Repeat(8, a) == Repeat(8, a);
    CountOfRun(Repeat(8, a), 9, b, l);
    CountOfRun(Repeat(8, a) + Repeat(9, b), 7, c, l);
    CountOfRun(Repeat(8, a) + Repeat(9, b) + Repeat(7, c), 8, d, l);
  }

  lemma FirstFixedCodes()
    ensures var f := FixedLitLenLengths();
            FirstCode(f, 7) == 0 && FirstCode(f, 8) == 0x30 && FirstCode(f, 9) == 0x190
  {
    hide Count;
    var f := FixedLitLenLengths();
    forall l: nat
      ensures Count(f, l) == if l == 7 then 24 else if l == 8 then 152 else if l == 9 then 112 else 0
    {
      CountOfRuns(144, 112, 24, 8, l);
    }
    hide FixedLitLenLengths;
    assert FirstCode(f, 2) == 0 && FirstCode(f, 3) == 0 && FirstCode(f, 4) == 0;
    assert FirstCode(f, 5) == 0 && FirstCode(f, 6) == 0 && FirstCode(f, 7) == 0;
  }

  /** The prefix of the list before symbol s. */
  lemma FixedPrefix(s: nat)
    requires s < 288
    ensures var a, b := if s < 144 then s else 144, if s < 144 then 0 else if s < 256 then s - 144 else 112;
            var c, d := if s < 256 then 0 else if s < 280 then s - 256 else 24, if s < 280 then 0 else s - 280;
            FixedLitLenLengths()[..s] == Repeat(8, a) + Repeat(9, b) + Repeat(7, c) + Repeat(8, d)
  {
  }

  /** The literal and length codes: four ranges of symbols with consecutive codes of 8, 9, 7 and 8 bits. */
  lemma FixedLitLenCodes(s: nat)
    requires s < 288
    ensures |FixedLitLenLengths()| == 288
    ensures var bits, code := FixedLitLenLengths()[s], CanonicalCode(FixedLitLenLengths(), s);
            && (s < 144 ==> bits == 8 && code == 0x30 + s)
            && (144 <= s < 256 ==> bits == 9 && code == 0x190 + (s - 144))
            && (256 <= s < 280 ==> bits == 7 && code == s - 256)
            && (280 <= s ==> bits == 8 && code == 0xC0 + (s - 280))
  {
    hide Count, FirstCode;
    FirstFixedCodes();
    FixedPrefix(s);
    var a, b := if s < 144 then s else 144, if s < 144 then 0 else if s < 256 then s - 144 else 112;
    var c, d := if s < 256 then 0 else if s < 280 then s - 256 else 24, if s < 280 then 0 else s - 280;
    CountOfRuns(a, b, c, d, FixedLitLenLengths()[s]);
  }

  /** The distance codes are the symbols themselves, in five bits. */
  lemma FixedDistanceCodes(s: nat)
    requires s < 32
    ensures |FixedDistanceLengths()| == 32
    ensures FixedDistanceLengths()[s] == 5 && CanonicalCode(FixedDistanceLengths(), s) == s
  {
    hide Count;
    var f := FixedDistanceLengths();
    forall l: nat
      ensures Count(f, l) == if l == 5 then 32 else 0
    {
      CountOfRun([], 5, 32, l);
      NothingCounted(l);
      assert [] + Repeat(5, 32) == f;
    }
    CountOfRun([], 5, s, 5);
    NothingCounted(5);
    assert [] + Repeat(5, s) == f[..s];
    assert FirstCode(f, 2) == 0 && FirstCode(f, 3) == 0 && FirstCode(f, 4) == 0;
  }

  lemma NothingCounted(l: nat)
    ensures Count([], l) == 0
  {
  }

  // Length and distance codes, section 3.2.5.

  /** Four length codes for every number of extra bits, each range behind the last; code 28 is 258 alone. */
  lemma LengthCodes(c: nat)
    requires c < 29
    ensures LengthExtra(c) == if c < 8 || c == 28 then 0 else c / 4 - 1
    ensures LengthBase(0) == 3 && LengthBase(28) == 258
    ensures 0 < c < 28 ==> LengthBase(c) == LengthBase(c - 1) + Pow2(LengthExtra(c - 1))
  {
    hide Pow2;
    SmallPowers();
  }

  /** Two distance codes for every number of extra bits, each range behind the last. */
  lemma DistanceCodes(c: nat)
    requires c < 30
    ensures DistanceExtra(c) == if c < 4 then 0 else c / 2 - 1
    ensures DistanceBase(0) == 1 && (0 < c ==> DistanceBase(c) == DistanceBase(c - 1) + Pow2(DistanceExtra(c - 1)))
  {
    hide Pow2, DistanceBase, DistanceExtra;
    DistanceExtras(c);
    if c > 0 {
      DistanceExtras(c - 1);
    }
    DistanceBases(c);
  }

  lemma DistanceExtras(c: nat)
    requires c < 30
    ensures DistanceExtra(c) == if c < 4 then 0 else c / 2 - 1
  {
  }

  lemma DistanceBases(c: nat)
    requires c < 30
    ensures DistanceBase(0) == 1
    ensures 0 < c ==> DistanceBase(c) == DistanceBase(c - 1) + Pow2(if c < 5 then 0 else (c - 1) / 2 - 1)
  {
    hide Pow2;
    SmallPowers();
  }

  /** A back reference keeps the output and goes on with what lies `distance` bytes back, its own bytes included. */
  lemma {:induction false} BackReference(out: seq<byte>, distance: nat, length: nat)
    requires 1 <= distance <= |out|
    ensures var r := CopyBack(out, distance, length);
            out <= r && forall i :: |out| <= i < |r| ==> r[i] == r[i - distance]
    decreases length
  {
    if length > 0 {
      var next := out + [out[|out| - distance]];
      BackReference(next, distance, length - 1);
      var r := CopyBack(next, distance, length - 1);
      assert r[|out|] == next[|out|] && r[|out| - distance] == next[|out| - distance];
      assert out <= next <= r;
    }
  }

  /** Literals, end code and length codes share one alphabet. */
  lemma SymbolRanges(t: Token)
    requires t.Valid()
    ensures t.Literal? ==> t.Entries() == [t.value] && t.value < 256
    ensures t.Copy? ==> |t.Entries()| == 4 && 257 <= t.Entries()[0] <= 285 && t.Entries()[2] <= 29
    ensures END_CODE == 256
  {
  }

  /** What a decoded symbol means: a byte, the end, or a copy; the last two symbols of the alphabet mean nothing. */
  lemma Alphabet(codes: Codes, data: seq<byte>, p: nat)
    requires codes.Valid()
    ensures var s, item := SymbolAt(codes.ll, data, p), ReadItem(codes, data, p).0;
            && (s < 256 ==> item == Tok(Literal(s))) && (s == 256 ==> item == End) && (s > 285 ==> item == Bad)
            && (257 <= s <= 285 && item.Tok? ==> item.token.Copy? && item.token.lengthCode == s - 257)
  {
    hide SymbolAt, UsableCode, Token.Valid, LsbValue, Ahead, LengthExtra, DistanceExtra, Pow2;
  }

  // Dynamic headers, section 3.2.7.

  /** The order of the code-length code: 16, 17, 18, 0, then outwards from 8 and 7. */
  lemma CodeLengthOrder(i: nat)
    requires i < 19
    ensures Order(i) == if i < 3 then 16 + i
                        else if i == 3 then 0
                        else if i % 2 == 0 then 8 + (i - 4) / 2
                        else 7 - (i - 5) / 2
  {
  }

  /** Literal and length codes come first, distance codes behind them; what is not sent is 0. */
  lemma LengthsInOrder(lengths: seq<nat>, hlit: nat, hdist: nat)
    requires |lengths| == hlit + hdist && hlit <= 288 && hdist <= 32
    ensures var c := SplitLengths(lengths, hlit, hdist);
            && c.ll[..hlit] == lengths[..hlit] && c.d[..hdist] == lengths[hlit..]
            && (forall i :: hlit <= i < 288 ==> c.ll[i] == 0) && (forall i :: hdist <= i < 32 ==> c.d[i] == 0)
  {
  }

  /** The new lengths are n times the given one. */
  ghost predicate Appends(out: seq<nat>, r: Option<seq<nat>>, length: nat, n: nat) {
    r.Some? && |r.value| == |out| + n && out <= r.value && forall i :: |out| <= i < |r.value| ==> r.value[i] == length
  }

  /** What the code-length symbols stand for. */
  lemma CodeLengthSymbols(out: seq<nat>, s: nat, e: nat)
    requires s <= 18
    ensures ExtraBitsOf(s) == if s == 16 then 2 else if s == 17 then 3 else if s == 18 then 7 else 0
    ensures s <= 15 ==> Appends(out, Unfold(out, ItemOf(s, e)), s, 1)
    ensures s == 16 ==> (Unfold(out, ItemOf(s, e)).None? <==> out == [])
    ensures s == 16 && out != [] ==> Appends(out, Unfold(out, ItemOf(s, e)), out[|out| - 1], 3 + e)
    ensures s == 17 ==> Appends(out, Unfold(out, ItemOf(s, e)), 0, 3 + e)
    ensures s == 18 ==> Appends(out, Unfold(out, ItemOf(s, e)), 0, 11 + e)
  {
  }

  /** The fields at the start of a dynamic header. */
  lemma HeaderFields(ll: seq<nat>, d: seq<nat>, n: nat, cl: seq<nat>, items: seq<CodeLengths.Item>, i: nat)
    requires |cl| == 19 && 4 <= n <= 19 && 257 <= |ll| <= 288 && 1 <= |d| <= 32 && ItemsEncodable(cl, items)
    requires i < n && cl[Order(i)] < 8
    ensures var bits := HeaderBits(ll, d, n, cl, items);
            && |bits| >= 14 + 3 * n
            && LsbValue(bits[..5]) == |ll| - 257 && LsbValue(bits[5..10]) == |d| - 1 && LsbValue(bits[10..14]) == n - 4
            && LsbValue(bits[14 + 3 * i..17 + 3 * i]) == cl[Order(i)]
  {
    hide LsbValue, LsbBits, OrderBits, ItemStream, Order, Pow2;
    SmallPowers();
    FieldValue(|ll| - 257, 5);
    FieldValue(|d| - 1, 5);
    FieldValue(n - 4, 4);
    var a, b, c := LsbBits(|ll| - 257, 5), LsbBits(|d| - 1, 5), LsbBits(n - 4, 4);
    var order, rest := OrderBits(cl, n), ItemStream(cl, items);
    var bits := HeaderBits(ll, d, n, cl, items);
    assert bits[..5] == a && bits[5..10] == b && bits[10..14] == c;
    OrderField(cl, n, i);
    assert bits[14 + 3 * i..17 + 3 * i] == order[3 * i..3 * i + 3];
  }

  lemma FieldValue(v: nat, n: nat)
    requires v < Pow2(n)
    ensures LsbValue(LsbBits(v, n)) == v
  {
    hide LsbValue, LsbBits, Pow2;
    LsbValueOfBits(v, n);
    ModIs(v, Pow2(n), 0, v);
  }

  lemma {:induction false} OrderField(cl: seq<nat>, n: nat, i: nat)
    requires |cl| == 19 && i < n <= 19 && cl[Order(i)] < 8
    ensures LsbValue(OrderBits(cl, n)[3 * i..3 * i + 3]) == cl[Order(i)]
    decreases n
  {
    hide LsbValue, LsbBits, Order, Pow2;
    if i == n - 1 {
      SmallPowers();
      FieldValue(cl[Order(i)], 3);
      assert OrderBits(cl, n)[3 * i..3 * i + 3] == LsbBits(cl[Order(i)], 3);
    } else {
      OrderField(cl, n - 1, i);
      assert OrderBits(cl, n)[3 * i..3 * i + 3] == OrderBits(cl, n - 1)[3 * i..3 * i + 3];
    }
  }

  // Block headers, section 3.2.3, and two whole streams.

  /** The type is two bits behind the final bit, the lower one first. */
  lemma BlockTypes(data: seq<byte>, p: nat, out: seq<byte>)
    requires p + 3 <= 8 * |data|
    ensures var low, high := BitsOf(data)[p + 1], BitsOf(data)[p + 2];
            && (!low && !high ==> BlockAt(data, p, out) == Stored(data, p + 3, out))
            && FixedCodes().Valid()
            && (low && !high ==> BlockAt(data, p, out) == Inflate(FixedCodes(), data, p + 3, out))
            && (low && high ==> BlockAt(data, p, out).None?)
  {
    hide Stored, Inflate, BitsOf, ReadHeader, FixedLitLenLengths, FixedDistanceLengths, UsableCode, Ahead, LsbValue;
    FixedCodesEncodeAll([]);
    AheadIsSlice(data, p + 1, 2);
    TwoBits(Ahead(data, p + 1, 2));
  }

  lemma TwoBits(bits: seq<bool>)
    requires |bits| == 2
    ensures LsbValue(bits) == (if bits[0] then 1 else 0) + if bits[1] then 2 else 0
  {
    assert bits[1..][1..] == [];
    assert LsbValue(bits[1..]) == if bits[1] then 1 else 0;
  }

  /** One fixed block that holds the letter a, whatever follows it. */
  lemma FixedStream(rest: seq<byte>)
    ensures InflateFrom([0x4B, 0x04, 0x00] + rest, 0, []) == Some([0x61])
  {
    hide BlockAt, Inflate, FixedLitLenLengths, FixedDistanceLengths, BitsOf, Ahead;
    FixedStreamBits(rest);
    BlockTypes([0x4B, 0x04, 0x00] + rest, 0, []);
    FixedStreamBlock(rest);
  }

  lemma FixedStreamBits(rest: seq<byte>)
    ensures var data: seq<byte> := [0x4B, 0x04, 0x00] + rest;
            && BitsOf(data)[1] && !BitsOf(data)[2] && Ahead(data, 0, 1)[0]
            && Ahead(data, 3, 15) == [true, false, false, true, false, false, false, true]
                                    + [false, false, false, false, false, false, false]
  {
    hide LsbBits, BitsOf, Ahead;
    var data: seq<byte> := [0x4B, 0x04, 0x00] + rest;
    FixedStreamBytes();
    BitsOfThree(0x4B, 0x04, 0x00);
    BitsOfConcat([0x4B, 0x04, 0x00], rest);
    AheadIsSlice(data, 0, 1);
    AheadIsSlice(data, 3, 15);
    SliceOfFront(BitsOf([0x4B, 0x04, 0x00]), BitsOf(rest), 3, 18);
    SliceOfFront(BitsOf([0x4B, 0x04, 0x00]), BitsOf(rest), 0, 1);
  }

  lemma SliceOfFront(a: seq<bool>, b: seq<bool>, i: nat, j: nat)
    requires i <= j <= |a|
    ensures (a + b)[i..j] == a[i..j]
  {
  }

  lemma FixedStreamBytes()
    ensures LsbBits(0x4B, 8) == [true, true, false, true, false, false, true, false]
    ensures LsbBits(0x04, 8) == [false, false, true, false, false, false, false, false]
    ensures LsbBits(0x00, 8) == [false, false, false, false, false, false, false, false]
  {
    hide LsbBits;
    EightBits(0x4B);
    EightBits(0x04);
    EightBits(0x00);
  }

  lemma FourBits(v: nat, n: nat)
    ensures LsbBits(v, n + 4)
            == [v % 2 == 1, v / 2 % 2 == 1, v / 4 % 2 == 1, v / 8 % 2 == 1] + LsbBits(v / 16, n)
  {
    hide LsbBits;
    var v1 := v / 2;
    var v2 := v1 / 2;
    var v3 := v2 / 2;
    Quotients(v);
    FirstBit(v, n + 3);
    FirstBit(v1, n + 2);
    FirstBit(v2, n + 1);
    FirstBit(v3, n);
    FourInFront(v % 2 == 1, v1 % 2 == 1, v2 % 2 == 1, v3 % 2 == 1, LsbBits(v3 / 2, n));
  }

  lemma NoBits(v: nat)
    ensures LsbBits(v, 0) == []
  {
  }

  lemma FirstBit(v: nat, n: nat)
    ensures LsbBits(v, n + 1) == [v % 2 == 1] + LsbBits(v / 2, n)
  {
  }

  lemma Quotients(v: nat)
    ensures v / 4 == v / 2 / 2 && v / 8 == v / 2 / 2 / 2 && v / 16 == v / 2 / 2 / 2 / 2
  {
  }

  lemma FourInFront(a: bool, b: bool, c: bool, d: bool, rest: seq<bool>)
    ensures [a] + ([b] + ([c] + ([d] + rest))) == [a, b, c, d] + rest
  {
  }

  lemma EightBits(v: nat)
    ensures var h := v / 16;
            LsbBits(v, 8) == [v % 2 == 1, v / 2 % 2 == 1, v / 4 % 2 == 1, v / 8 % 2 == 1]
                             + [h % 2 == 1, h / 2 % 2 == 1, h / 4 % 2 == 1, h / 8 % 2 == 1]
  {
    hide LsbBits;
    FourBits(v, 4);
    FourBits(v / 16, 0);
    NoBits(v / 16 / 16);
  }

  lemma BitsOfThree(a: byte, b: byte, c: byte)
    ensures BitsOf([a, b, c]) == LsbBits(a, 8) + LsbBits(b, 8) + LsbBits(c, 8)
  {
    hide LsbBits;
    BitsOfConcat([a], [b, c]);
    BitsOfConcat([b], [c]);
    BitsOfOne(a);
    BitsOfOne(b);
    BitsOfOne(c);
    assert [a] + [b, c] == [a, b, c] && [b] + [c] == [b, c];
  }

  lemma FixedStreamBlock(rest: seq<byte>)
    ensures FixedCodes().Valid()
    ensures Inflate(FixedCodes(), [0x4B, 0x04, 0x00] + rest, 3, []) == Some(([0x61], 18))
  {
    hide Inflate, FixedLitLenLengths, FixedDistanceLengths, BitsOf, Ahead, Codeword;
    var data: seq<byte>, tokens := [0x4B, 0x04, 0x00] + rest, [Literal(0x61)];
    FixedCodesEncodeAll(tokens);
    FixedCodewords();
    FixedStreamBits(rest);
    assert tokens[1..] == [];
    assert TokenStream(FixedCodes(), tokens) == TokenBits(FixedCodes(), tokens[0]) + TokenStream(FixedCodes(), []);
    assert BlockBits(FixedCodes(), tokens)
        == Codeword(FixedLitLenLengths(), 0x61) + Codeword(FixedLitLenLengths(), 256);
    OneLiteral(0x61);
    InflateOfTokens(FixedCodes(), data, 3, [], tokens);
  }

  lemma OneLiteral(b: byte)
    ensures ValidTokens([Literal(b)]) && Expand([], [Literal(b)]) == Some([b])
  {
    ExpandOfNothing([]);
    AppendToken([], [], Literal(b));
    LiteralStep([], b);
    var none: seq<byte>, first: seq<Token> := [], [];
    assert none + [b] == [b] && first + [Literal(b)] == [Literal(b)];
  }

  lemma FixedCodewords()
    ensures |FixedLitLenLengths()| == 288
    ensures Codeword(FixedLitLenLengths(), 0x61) == [true, false, false, true, false, false, false, true]
    ensures Codeword(FixedLitLenLengths(), 256) == [false, false, false, false, false, false, false]
  {
    hide FixedLitLenLengths, CanonicalCode;
    FixedLitLenCodes(0x61);
    FixedLitLenCodes(256);
    assert MsbBits(0x91, 8) == [true, false, false, true, false, false, false, true];
    assert MsbBits(0, 7) == [false, false, false, false, false, false, false];
  }

  /** One stored block that holds the letter a. */
  lemma StoredStream()
    ensures InflateFrom([0x01, 0x01, 0x00, 0xFE, 0xFF, 0x61], 0, []) == Some([0x61])
  {
    hide BlockAt, BitsOf, Stored, LsbBits, Inflate, FixedLitLenLengths, FixedDistanceLengths, Ahead;
    var data: seq<byte> := [0x01, 0x01, 0x00, 0xFE, 0xFF, 0x61];
    StoredStreamBits(data);
    BlockTypes(data, 0, []);
    StoredBlock();
  }

  lemma StoredStreamBits(data: seq<byte>)
    requires data != [] && data[0] == 0x01
    ensures !BitsOf(data)[1] && !BitsOf(data)[2] && Ahead(data, 0, 1)[0]
  {
    hide BitsOf, LsbBits, Ahead;
    FirstByte(data);
    FirstBits();
    AheadIsSlice(data, 0, 1);
    var bits := BitsOf(data);
    assert bits[0] == bits[..8][0] && bits[1] == bits[..8][1] && bits[2] == bits[..8][2];
  }

  lemma FirstBits()
    ensures LsbBits(0x01, 8) == [true, false, false, false, false, false, false, false]
  {
  }

  lemma StoredBlock()
    ensures Stored([0x01, 0x01, 0x00, 0xFE, 0xFF, 0x61], 3, []) == Some(([0x61], 48))
  {
    var data: seq<byte> := [0x01, 0x01, 0x00, 0xFE, 0xFF, 0x61];
    assert Word16(data, 1) == 1 && Word16(data, 3) == 65534;
    assert [] + data[5..6] == [0x61];
  }

  lemma FirstByte(data: seq<byte>)
    requires data != []
    ensures BitsOf(data)[..8] == LsbBits(data[0], 8)
  {
  }
}
