/**
 Laws of the checksum as a whole: what its start value and final mask do, and the
 constant that every checksummed message leaves behind.
 */
module Crc32Laws {
  import opened BitSequence
  import opened Crc32
  import opened Crc32Table

  /** The bits of up to four bytes, as the low end of a word. */
  function BytesWord(d: seq<byte>): (w: Word)
    requires |d| <= 4
  {
    BitsOf(d) + Zeros(32 - 8 * |d|)
  }

  /** Bytes that enter one at a time may as well enter together before the shifts. */
  lemma {:induction false} EnterTogether(r: Word, d: seq<byte>)
    requires |d| <= 4
    ensures Register(r, d) == Shifts(Xor(r, BytesWord(d)), 8 * |d|)
    decreases |d|
  {
    hide Shifts, Xor, ByteWord, BytesWord;
    if d == [] {
      RegisterNone(r);
      NoBytes();
      Cancels(r);
      ShiftsNone(r);
    } else {
      var n := |d| - 1;
      var init, b := d[..n], d[n];
      assert d == init + [b];
      RegisterConcat(r, init, [b]);
      EnterTogether(r, init);
      var x := Xor(r, BytesWord(init));
      RegisterStep(Shifts(x, 8 * n), b, []);
      assert [b] + [] == [b];
      RegisterNone(Shifts(Xor(Shifts(x, 8 * n), ByteWord(b)), 8));
      LastByte(init, b);
      Associates(r, BytesWord(init), High(b, n));
      HighShifts(b, n);
      ShiftsLinear(x, High(b, n), 8 * n);
      ShiftsAdd(Xor(x, High(b, n)), 8 * n, 8);
    }
  }

  lemma NoBytes()
    ensures BytesWord([]) == Zero()
  {
    Equal(BytesWord([]), Zero());
  }

  /** A byte in place n of a word. */
  function High(b: byte, n: nat): (w: Word)
    requires n < 4
  {
    Zeros(8 * n) + LsbBits(b, 8) + Zeros(24 - 8 * n)
  }

  lemma LastByte(d: seq<byte>, b: byte)
    requires |d| < 4
    ensures BytesWord(d + [b]) == Xor(BytesWord(d), High(b, |d|))
  {
    hide BitsOf, LsbBits;
    BitsOfConcat(d, [b]);
    OneByteBits(b);
    Equal(BytesWord(d + [b]), Xor(BytesWord(d), High(b, |d|)));
  }

  lemma OneByteBits(b: byte)
    ensures BitsOf([b]) == LsbBits(b, 8)
  {
    assert BitsOf([b]) == LsbBits(b, 8) + BitsOf([]);
  }

  lemma HighShifts(b: byte, n: nat)
    requires n < 4
    ensures Shifts(High(b, n), 8 * n) == ByteWord(b)
  {
    hide Shifts, LsbBits;
    ShiftsOfEven(High(b, n), 8 * n);
    Equal(ShiftRight(High(b, n), 8 * n), ByteWord(b));
  }

  // The start value complements the first four bytes, the mask the result.

  /** The data with its first four bytes complemented. */
  function Complemented(data: seq<byte>): (r: seq<byte>)
    requires |data| >= 4
  {
    [255 - data[0], 255 - data[1], 255 - data[2], 255 - data[3]] + data[4..]
  }

  lemma {:induction false} ComplementBits(v: nat, n: nat, i: nat)
    requires v < Pow2(n) && i < n
    ensures LsbBits(Pow2(n) - 1 - v, n)[i] == !LsbBits(v, n)[i]
    decreases n
  {
    var c := Pow2(n) - 1 - v;
    assert Pow2(n) == 2 * Pow2(n - 1);
    if i > 0 {
      assert c / 2 == Pow2(n - 1) - 1 - v / 2;
      ComplementBits(v / 2, n - 1, i - 1);
    }
  }

  lemma ComplementByte(b: byte)
    ensures forall i :: 0 <= i < 8 ==> LsbBits(255 - b, 8)[i] == !LsbBits(b, 8)[i]
  {
    hide LsbBits;
    SmallPowers();
    forall i | 0 <= i < 8
      ensures LsbBits(255 - b, 8)[i] == !LsbBits(b, 8)[i]
    {
      ComplementBits(b, 8, i);
    }
  }

  lemma ComplementWord(a: byte, b: byte, c: byte, d: byte)
    ensures BytesWord([255 - a, 255 - b, 255 - c, 255 - d]) == Xor(Ones(), BytesWord([a, b, c, d]))
  {
    hide BitsOf, LsbBits;
    FourBytesBits(a, b, c, d);
    FourBytesBits(255 - a, 255 - b, 255 - c, 255 - d);
    ComplementByte(a);
    ComplementByte(b);
    ComplementByte(c);
    ComplementByte(d);
    Equal(BytesWord([255 - a, 255 - b, 255 - c, 255 - d]), Xor(Ones(), BytesWord([a, b, c, d])));
  }

  lemma FourBytesBits(a: byte, b: byte, c: byte, d: byte)
    ensures BytesWord([a, b, c, d]) == LsbBits(a, 8) + LsbBits(b, 8) + LsbBits(c, 8) + LsbBits(d, 8)
  {
    hide BitsOf, LsbBits;
    OneByteBits(a);
    OneByteBits(b);
    OneByteBits(c);
    OneByteBits(d);
    assert [a] + [b] + [c] + [d] == [a, b, c, d];
    BitsOfConcat([a], [b]);
    BitsOfConcat([a] + [b], [c]);
    BitsOfConcat([a] + [b] + [c], [d]);
  }

  /** Every bit of the checksum is the complement of the plain remainder of the complemented data. */
  lemma StartAndMask(data: seq<byte>)
    requires |data| >= 4
    ensures forall i :: 0 <= i < 32 ==> Crc(data)[i] == !Register(Zero(), Complemented(data))[i]
  {
    hide Register, BytesWord, Shifts;
    var d, rest := data[..4], data[4..];
    var e := [255 - data[0], 255 - data[1], 255 - data[2], 255 - data[3]];
    assert data == d + rest && d == [data[0], data[1], data[2], data[3]];
    RegisterConcat(Ones(), d, rest);
    RegisterConcat(Zero(), e, rest);
    EnterTogether(Ones(), d);
    EnterTogether(Zero(), e);
    ComplementWord(data[0], data[1], data[2], data[3]);
    Cancels(BytesWord(e));
  }

  // What a message with its checksum leaves behind.

  lemma OnesVector()
    ensures WordOf(0xFFFF_FFFF) == Ones()
  {
    hide Bits;
    FourOctets(0xFFFF_FFFF, 0);
    Equal(WordOf(0xFFFF_FFFF), Ones());
  }

  /** Appending the checksum, lowest byte first, always gives the same checksum. */
  lemma Residue(data: seq<byte>, tail: seq<byte>)
    requires |tail| == 4 && BitsOf(tail) == Crc(data)
    ensures Crc(data + tail) == WordOf(0x2144_DF1C)
  {
    hide Register, Xor, Shifts, WordOf, BitsOf;
    var r := Register(Ones(), data);
    RegisterConcat(Ones(), data, tail);
    EnterTogether(r, tail);
    assert BytesWord(tail) == Crc(data) + Zeros(0) == Crc(data);
    Associates(r, r, Ones());
    Cancels(r);
    Cancels(Ones());
    ResidueValue();
  }

  lemma ResidueValue()
    ensures Xor(Shifts(Ones(), 32), Ones()) == WordOf(0x2144_DF1C)
  {
    hide Register, Xor, Shifts, WordOf;
    OnesVector();
    ShiftsOfVector(0xFFFF_FFFF);
    ResidueVector();
    WordOfXor(0xDEBB_20E3, 0xFFFF_FFFF);
  }

  function Shifts32(c: bv32): (r: bv32) {
    EightShifts(EightShifts(EightShifts(EightShifts(c))))
  }

  lemma ShiftsOfVector(c: bv32)
    ensures Shifts(WordOf(c), 32) == WordOf(Shifts32(c))
  {
    hide Shifts, WordOf, EightShifts;
    var w := WordOf(c);
    var c1 := EightShifts(c);
    var c2 := EightShifts(c1);
    var c3 := EightShifts(c2);
    WordOfEightShifts(c);
    WordOfEightShifts(c1);
    WordOfEightShifts(c2);
    WordOfEightShifts(c3);
    ShiftsAdd(w, 8, 8);
    ShiftsAdd(w, 16, 8);
    ShiftsAdd(w, 24, 8);
  }

  lemma ResidueVector()
    ensures Shifts32(0xFFFF_FFFF) == 0xDEBB_20E3 && XorVector(0xDEBB_20E3, 0xFFFF_FFFF) == 0x2144_DF1C
  {
    hide EightShifts;
    ResidueSteps();
  }

  ghost predicate Steps(a: bv32, b: bv32, c: bv32, d: bv32, e: bv32) {
    EightShifts(a) == b && EightShifts(b) == c && EightShifts(c) == d && EightShifts(d) == e
  }

  lemma ResidueSteps()
    ensures Steps(0xFFFF_FFFF, 0x2dfd1072, 0xbe26ed00, 0x00be26ed, 0xDEBB_20E3) == true
  {
  }

  /** The checksum of the chunk type "IEND", which ends every PNG file. */
  lemma EndChunk()
    ensures Crc([0x49, 0x45, 0x4E, 0x44]) == WordOf(0xAE42_6082)
  {
    hide Register, Xor, Shifts, WordOf, BytesWord, EightShifts;
    var d: seq<byte> := [0x49, 0x45, 0x4E, 0x44];
    EnterTogether(Ones(), d);
    EndChunkWord();
    OnesVector();
    WordOfXor(0xFFFF_FFFF, 0x444E_4549);
    EndChunkSteps();
    ShiftsOfVector(0xbbb1bab6);
    WordOfXor(0x51BD_9F7D, 0xFFFF_FFFF);
  }

  lemma EndChunkSteps()
    ensures XorVector(0xFFFF_FFFF, 0x444E_4549) == 0xbbb1bab6 && XorVector(0x51BD_9F7D, 0xFFFF_FFFF) == 0xAE42_6082
    ensures Steps(0xbbb1bab6, 0x22b9a703, 0x992be81d, 0x639f4731, 0x51BD_9F7D) == true
  {
  }

  lemma EndChunkWord()
    ensures BytesWord([0x49, 0x45, 0x4E, 0x44]) == WordOf(0x444E_4549)
  {
    hide Bits, Octet, LsbBits, LsbValue, BytesWord;
    FourBytesBits(0x49, 0x45, 0x4E, 0x44);
    FourOctets(0x444E_4549, 0);
    EvenZero();
    EndChunkOctets();
    LsbBitsOfValue(Octet(0x49));
    LsbBitsOfValue(Octet(0x45));
    LsbBitsOfValue(Octet(0x4E));
    LsbBitsOfValue(Octet(0x44));
  }

  lemma EndChunkOctets()
    ensures Down8(0x444E_4549) == 0x44_4E45 && Down8(0x44_4E45) == 0x444E && Down8(0x444E) == 0x44
    ensures Octet(0x444E_4549) == Octet(0x49) && Octet(0x44_4E45) == Octet(0x45) && Octet(0x444E) == Octet(0x4E)
    ensures LsbValue(Octet(0x49)) == 0x49 && LsbValue(Octet(0x45)) == 0x45
    ensures LsbValue(Octet(0x4E)) == 0x4E && LsbValue(Octet(0x44)) == 0x44
  {
    OctetValue(0x49, [true, false, false, true, false, false, true, false]);
    OctetValue(0x45, [true, false, true, false, false, false, true, false]);
    OctetValue(0x4E, [false, true, true, true, false, false, true, false]);
    OctetValue(0x44, [false, false, true, false, false, false, true, false]);
  }
}
