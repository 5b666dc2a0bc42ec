/**
 The bit writer and the bit reader. The writer appends bits to a growing byte
 vector; the reader keeps up to 32 upcoming bits in a buffer and reads zeros past
 the end of its data.
 */
module BitIo {
  import opened BitSequence

  class BitWriter {
    var data: seq<byte>
    var bp: nat

    ghost predicate Valid()
      reads this
    {
      && bp < 256
      && (bp % 8 != 0 ==> data != [] && data[|data| - 1] < Pow2(bp % 8))
    }

    /** The bits written so far, in order. */
    ghost function Written(): (s: seq<bool>)
      requires Valid()
      reads this
    {
      BitsOf(data)[..WrittenCount(data, bp)]
    }

    constructor (data: seq<byte>)
      ensures Valid() && this.data == data && Written() == BitsOf(data)
    {
      this.data := data;
      bp := 0;
    }

    method WriteBit(bit: nat)
      requires Valid() && bit < 2
      modifies this
      ensures Valid() && Written() == old(Written()) + [bit == 1]
    {
      hide BitsOf, Pow2;
      NewByte(data, bp);
      if bp % 8 == 0 {
        data := data + [0];
      }
      var last := data[|data| - 1];
      AppendBit(data[..|data| - 1], last, bp % 8, bit);
      assert data == data[..|data| - 1] + [last];
      data := data[..|data| - 1] + [last + bit * Pow2(bp % 8)];
      NextBitPosition(data, bp);
      bp := (bp + 1) % 256;
    }

    /** LSB of the value first. */
    method WriteBits(value: nat, nbits: nat)
      requires Valid() && (nbits == 1 ==> value < 2)
      modifies this
      ensures Valid() && Written() == old(Written()) + LsbBits(value, nbits)
    {
      hide Valid, Written, LsbBits, Pow2;
      if nbits == 1 {
        OneBit(value);
        WriteBit(value);
      } else {
        var i := 0;
        assert Written() + LsbBits(value, nbits)[..0] == Written();
        while i != nbits
          invariant 0 <= i <= nbits && Valid()
          invariant Written() == old(Written()) + LsbBits(value, nbits)[..i]
          decreases nbits - i
        {
          LsbBitAt(value, nbits, i);
          WriteBit(value / Pow2(i) % 2);
          assert LsbBits(value, nbits)[..i + 1] == LsbBits(value, nbits)[..i] + [LsbBits(value, nbits)[i]];
          i := i + 1;
        }
      }
    }

    /** MSB of the value first. */
    method WriteBitsReversed(value: nat, nbits: nat)
      requires Valid()
      modifies this
      ensures Valid() && Written() == old(Written()) + MsbBits(value, nbits)
    {
      hide Valid, Written, MsbBits, Pow2;
      var i := 0;
      assert Written() + MsbBits(value, nbits)[..0] == Written();
      while i != nbits
        invariant 0 <= i <= nbits && Valid()
        invariant Written() == old(Written()) + MsbBits(value, nbits)[..i]
        decreases nbits - i
      {
        MsbBitAt(value, nbits, i);
        WriteBit(value / Pow2(nbits - 1 - i) % 2);
        assert MsbBits(value, nbits)[..i + 1] == MsbBits(value, nbits)[..i] + [MsbBits(value, nbits)[i]];
        i := i + 1;
      }
    }
  }

  ghost function WrittenCount(data: seq<byte>, bp: nat): (n: nat)
    requires bp % 8 != 0 ==> data != []
    ensures n <= 8 * |data|
  {
    if bp % 8 == 0 then 8 * |data| else 8 * (|data| - 1) + bp % 8
  }

  lemma LsbBitAt(v: nat, n: nat, i: nat)
    requires i < n
    ensures LsbBits(v, n)[i] == (v / Pow2(i) % 2 == 1)
    decreases n
  {
    if i > 0 {
      LsbBitAt(v / 2, n - 1, i - 1);
      DivTwice(v, Pow2(i - 1));
    }
  }

  lemma OneBit(v: nat)
    requires v < 2
    ensures LsbBits(v, 1) == [v == 1]
  {
    assert LsbBits(v, 1) == [v % 2 == 1] + LsbBits(v / 2, 0);
  }

  lemma NewByte(data: seq<byte>, bp: nat)
    requires bp % 8 != 0 ==> data != []
    ensures bp % 8 == 0 ==> BitsOf(data + [0])[..8 * |data|] == BitsOf(data) && Pow2(bp % 8) == 1
  {
    BitsOfConcat(data, [0]);
  }

  /** After the last bit of a byte the next position is the start of a new byte. */
  lemma NextBitPosition(data: seq<byte>, bp: nat)
    requires data != [] && bp < 256 && data[|data| - 1] < Pow2(bp % 8 + 1)
    ensures var bp' := (bp + 1) % 256;
            && WrittenCount(data, bp') == 8 * (|data| - 1) + bp % 8 + 1
            && (bp' % 8 != 0 ==> bp' % 8 == bp % 8 + 1)
  {
    hide Pow2;
    var q, r := bp / 8, bp % 8;
    if bp == 255 {
      ModIs(bp + 1, 256, 1, 0);
    } else {
      ModIs(bp + 1, 256, 0, bp + 1);
      ModIs(bp + 1, 8, if r == 7 then q + 1 else q, if r == 7 then 0 else r + 1);
    }
  }

  lemma SetBit(last: byte, k: nat, bit: nat)
    requires k < 8 && last < Pow2(k) && bit < 2
    ensures last + bit * Pow2(k) < Pow2(k + 1) <= 256
    ensures LsbBits(last + bit * Pow2(k), 8)[..k + 1] == LsbBits(last, 8)[..k] + [bit == 1]
  {
    hide LsbBits, LsbValue;
    SmallPowers();
    Pow2Monotone(k + 1, 8);
    LsbBitsPrefix(last, 8, k);
    LsbBitsPrefix(last + bit * Pow2(k), 8, k + 1);
    var s := LsbBits(last, k);
    LsbValueOfBits(last, k);
    ModIs(last, Pow2(k), 0, last);
    LsbValueSnoc(s, bit == 1);
    LsbBitsOfValue(s + [bit == 1]);
  }

  /** Setting bit k of a byte whose bits from k on are clear appends that bit to the stream. */
  lemma AppendBit(front: seq<byte>, last: byte, k: nat, bit: nat)
    requires k < 8 && last < Pow2(k) && bit < 2
    ensures last + bit * Pow2(k) < Pow2(k + 1) <= 256
    ensures BitsOf(front + [last + bit * Pow2(k)])[..8 * |front| + k + 1]
         == BitsOf(front + [last])[..8 * |front| + k] + [bit == 1]
  {
    hide LsbBits, BitsOf, Pow2;
    SetBit(last, k, bit);
    var v := last + bit * Pow2(k);
    BitsOfConcat(front, [last]);
    BitsOfConcat(front, [v]);
    BitsOfOne(last);
    BitsOfOne(v);
    PrefixOfConcat(BitsOf(front), LsbBits(last, 8), k);
    PrefixOfConcat(BitsOf(front), LsbBits(v, 8), k + 1);
  }

  lemma PrefixOfConcat(a: seq<bool>, b: seq<bool>, k: nat)
    requires k <= |b|
    ensures (a + b)[..|a| + k] == a + b[..k]
  {
  }

  lemma BitsOfOne(b: byte)
    ensures BitsOf([b]) == LsbBits(b, 8)
  {
    assert BitsOf([b]) == LsbBits(b, 8) + BitsOf([]);
  }

  // Reading.

  /** Byte i of the stream; zero past the end. */
  function ByteAt(data: seq<byte>, i: nat): byte {
    if i < |data| then data[i] else 0
  }

  /** The n bits of the stream from bit position p on; zeros past the end. */
  ghost function Ahead(data: seq<byte>, p: nat, n: nat): (s: seq<bool>)
    ensures |s| == n
  {
    seq(n, i requires 0 <= i < n => p + i < 8 * |data| && BitsOf(data)[p + i])
  }

  lemma AheadSplit(data: seq<byte>, p: nat, m: nat, n: nat)
    requires m <= n
    ensures Ahead(data, p, n)[..m] == Ahead(data, p, m)
    ensures Ahead(data, p, n)[m..] == Ahead(data, p + m, n - m)
    ensures Ahead(data, p, n) == Ahead(data, p, m) + Ahead(data, p + m, n - m)
  {
    hide BitsOf;
  }

  /** Within the data, looking ahead is slicing. */
  lemma AheadIsSlice(data: seq<byte>, p: nat, n: nat)
    requires p + n <= 8 * |data|
    ensures Ahead(data, p, n) == BitsOf(data)[p..p + n]
  {
    hide BitsOf;
  }

  lemma AheadByte(data: seq<byte>, i: nat)
    ensures Ahead(data, 8 * i, 8) == LsbBits(ByteAt(data, i), 8)
  {
    if i < |data| {
      ByteBits(data, i);
      AheadIsSlice(data, 8 * i, 8);
    } else {
      LsbBitsOfValue(Ahead(data, 8 * i, 8));
      ZeroValue(Ahead(data, 8 * i, 8));
    }
  }

  lemma ByteBits(data: seq<byte>, i: nat)
    requires i < |data|
    ensures BitsOf(data)[8 * i..8 * i + 8] == LsbBits(data[i], 8)
  {
    hide LsbBits, BitsOf;
    BitsOfSplit(data, i);
    BitsOfSplit(data[i..], 1);
    assert data[i..][..1] == [data[i]];
    BitsOfOne(data[i]);
    assert BitsOf(data)[8 * i..][..8] == BitsOf(data)[8 * i..8 * i + 8];
  }

  lemma {:induction false} ZeroValue(s: seq<bool>)
    requires forall i :: 0 <= i < |s| ==> !s[i]
    ensures LsbValue(s) == 0
  {
    if s != [] {
      ZeroValue(s[1..]);
    }
  }

  /** Little-endian value of n bytes from index i. */
  function Load(data: seq<byte>, i: nat, n: nat): nat
    decreases n
  {
    if n == 0 then 0 else ByteAt(data, i) + 256 * Load(data, i + 1, n - 1)
  }

  lemma {:induction false} LoadIsAhead(data: seq<byte>, i: nat, n: nat)
    ensures Load(data, i, n) == LsbValue(Ahead(data, 8 * i, 8 * n))
    decreases n
  {
    hide LsbBits, LsbValue, BitsOf, Pow2, Ahead;
    if n == 0 {
      ZeroValue(Ahead(data, 8 * i, 0));
    } else {
      LoadIsAhead(data, i + 1, n - 1);
      AheadSplit(data, 8 * i, 8, 8 * n);
      AheadByte(data, i);
      LsbValueOfBits(ByteAt(data, i), 8);
      LsbValueConcat(Ahead(data, 8 * i, 8), Ahead(data, 8 * i + 8, 8 * n - 8));
      SmallPowers();
    }
  }

  /** Shifting out the first k bits. */
  lemma ShiftOut(data: seq<byte>, p: nat, k: nat, n: nat)
    requires k <= n
    ensures LsbValue(Ahead(data, p, n)) / Pow2(k) == LsbValue(Ahead(data, p + k, n - k))
    ensures LsbValue(Ahead(data, p, n)) % Pow2(k) == LsbValue(Ahead(data, p, k))
  {
    hide LsbValue, Ahead, Pow2;
    AheadSplit(data, p, k, n);
    LsbValueConcat(Ahead(data, p, k), Ahead(data, p + k, n - k));
    LsbValueBound(Ahead(data, p, k));
    ModIs(LsbValue(Ahead(data, p, n)), Pow2(k), LsbValue(Ahead(data, p + k, n - k)), LsbValue(Ahead(data, p, k)));
  }

  class BitReader {
    const data: seq<byte>
    var bp: nat
    var buffer: nat
    /** How many upcoming bits the buffer holds. */
    ghost var held: nat

    ghost predicate Valid()
      reads this
    {
      buffer == LsbValue(Ahead(data, bp, held))
    }

    constructor (data: seq<byte>)
      ensures Valid() && this.data == data && bp == 0
    {
      this.data := data;
      bp, buffer, held := 0, 0, 0;
    }

    /** Load `count` bytes (2, 3 or 4 for up to 9, 17 or 25 bits), as far as the data has them. */
    method EnsureBytes(count: nat)
      requires 1 <= count
      modifies `buffer, `held
      ensures Valid() && held == 8 * count - bp % 8
    {
      hide Pow2, LsbValue, Ahead, Load;
      var start := bp / 8;
      LoadIsAhead(data, start, count);
      ShiftOut(data, 8 * start, bp % 8, 8 * count);
      buffer := Load(data, start, count) / Pow2(bp % 8);
      held := 8 * count - bp % 8;
    }

    /** Four bytes and, when the data has it, as much of a fifth as fits into 32 bits. */
    method Ensure32()
      modifies `buffer, `held
      ensures Valid() && held == 32
    {
      hide Pow2, LsbValue, Ahead, Load, TopBits;
      var start, k := bp / 8, bp % 8;
      EnsureBytes(4);
      FifthByte(data, bp);
      if start + 4 < |data| {
        buffer := buffer + TopBits(data[start + 4], k);
      }
      held := 32;
    }

    method PeekBits(n: nat) returns (v: nat)
      requires Valid() && n <= held
      ensures v == LsbValue(Ahead(data, bp, n))
    {
      ShiftOut(data, bp, n, held);
      v := buffer % Pow2(n);
    }

    method AdvanceBits(n: nat)
      requires Valid() && n <= held
      modifies this
      ensures Valid() && bp == old(bp) + n && held == old(held) - n
    {
      ShiftOut(data, bp, n, held);
      buffer := buffer / Pow2(n);
      bp := bp + n;
      held := held - n;
    }

    /** Jump to a bit position; the buffer is loaded again before the next read. */
    method MoveTo(p: nat)
      modifies this
      ensures Valid() && bp == p
    {
      bp, buffer, held := p, 0, 0;
    }

    method ReadBits(n: nat) returns (v: nat)
      requires Valid() && n <= held
      modifies this
      ensures Valid() && bp == old(bp) + n && held == old(held) - n
      ensures v == LsbValue(Ahead(data, old(bp), n))
    {
      v := PeekBits(n);
      AdvanceBits(n);
    }
  }

  /** A fifth byte shifted left by 24 and by 8 - k, in 32 bits. */
  function TopBits(b: byte, k: nat): (v: nat)
    requires k <= 8
  {
    (b * Pow2(24)) * Pow2(8 - k) % Pow2(32)
  }

  /** The fifth byte supplies the bits that shifting the first four left empty. */
  lemma FifthByte(data: seq<byte>, bp: nat)
    ensures var i, k := bp / 8 + 4, bp % 8;
            LsbValue(Ahead(data, bp, 32))
            == LsbValue(Ahead(data, bp, 32 - k)) + if i < |data| then TopBits(data[i], k) else 0
  {
    hide LsbValue, Ahead, Pow2, LsbBits;
    var k, i := bp % 8, bp / 8 + 4;
    var b := ByteAt(data, i);
    AheadSplit(data, bp, 32 - k, 32);
    LsbValueConcat(Ahead(data, bp, 32 - k), Ahead(data, 8 * i, k));
    AheadByte(data, i);
    AheadSplit(data, 8 * i, k, 8);
    LsbBitsPrefix(b, 8, k);
    LsbValueOfBits(b, k);
    assert LsbValue(Ahead(data, 8 * i, k)) == b % Pow2(k);
    HighPart(b, k);
  }

  lemma HighPart(b: nat, k: nat)
    requires k <= 8
    ensures (b * Pow2(24)) * Pow2(8 - k) % Pow2(32) == Pow2(32 - k) * (b % Pow2(k))
  {
    hide Pow2;
    var q, r, p := b / Pow2(k), b % Pow2(k), Pow2(32 - k);
    Pow2Adds(24, 8 - k);
    Pow2Adds(32 - k, k);
    MulAssociates(b, Pow2(24), Pow2(8 - k));
    ShiftedMod(b, p, Pow2(k));
  }

  lemma ShiftedMod(b: nat, p: nat, m: nat)
    requires p >= 1 && m >= 1
    ensures b * p % (p * m) == p * (b % m)
  {
    var q, r := b / m, b % m;
    assert b == m * q + r;
    assert b * p == (p * m) * q + p * r by {
      MulAssociates(p, m, q);
    }
    assert p * r < p * m;
    ModIs(b * p, p * m, q, p * r);
  }
}
