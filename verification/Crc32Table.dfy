/**
 The literal entries of the CRC tables are what the shift register makes of their
 indices: entry b of table k is the byte b after 8 * (k + 1) steps.
 */
module Crc32Table {
  import opened BitSequence
  import opened Crc32
  import opened Crc32Literals

  // Bit vectors as words.

  function Odd(c: bv32): (r: bool) {
    c & 1 == 1
  }

  function Half(c: bv32): (r: bv32) {
    c >> 1
  }

  function XorVector(a: bv32, b: bv32): (r: bv32) {
    a ^ b
  }

  /** The lowest n bits, least significant first. */
  function Bits(c: bv32, n: nat): (s: seq<bool>)
    ensures |s| == n
    decreases n
  {
    if n == 0 then [] else [Odd(c)] + Bits(Half(c), n - 1)
  }

  function WordOf(c: bv32): (w: Word) {
    Bits(c, 32)
  }

  /** One step of the shift register. */
  function ShiftVector(c: bv32): (r: bv32) {
    if Odd(c) then XorVector(Half(c), 0xedb88320) else Half(c)
  }

  lemma {:induction false} BitsOfXor(a: bv32, b: bv32, n: nat)
    ensures forall k :: 0 <= k < n ==> Bits(XorVector(a, b), n)[k] == (Bits(a, n)[k] != Bits(b, n)[k])
    decreases n
  {
    hide Odd, Half, XorVector;
    if n > 0 {
      XorHalves(a, b);
      BitsOfXor(Half(a), Half(b), n - 1);
    }
  }

  lemma XorHalves(a: bv32, b: bv32)
    ensures Half(XorVector(a, b)) == XorVector(Half(a), Half(b))
    ensures Odd(XorVector(a, b)) == (Odd(a) != Odd(b))
  {
  }

  function Down8(c: bv32): (r: bv32) {
    c >> 8
  }

  /** The bits of the lowest byte. */
  function Octet(c: bv32): (s: seq<bool>)
    ensures |s| == 8
  {
    [c & 1 != 0, c & 2 != 0, c & 4 != 0, c & 8 != 0, c & 16 != 0, c & 32 != 0, c & 64 != 0, c & 128 != 0]
  }

  lemma OneBit(c: bv32, n: nat)
    ensures Bits(c, n + 1) == [Odd(c)] + Bits(Half(c), n)
  {
  }

  lemma FourBits(c: bv32, n: nat)
    ensures var c1 := Half(c); var c2 := Half(c1); var c3 := Half(c2);
            Bits(c, n + 4) == [Odd(c), Odd(c1), Odd(c2), Odd(c3)] + Bits(Half(c3), n)
  {
    hide Bits, Odd, Half;
    OneBit(c, n + 3);
    OneBit(Half(c), n + 2);
    OneBit(Half(Half(c)), n + 1);
    OneBit(Half(Half(Half(c))), n);
    var c3 := Half(Half(Half(c)));
    Flatten([Odd(c)], [Odd(Half(c))], [Odd(Half(Half(c)))], [Odd(c3)], Bits(Half(c3), n));
  }

  lemma EightBits(c: bv32, n: nat)
    ensures Bits(c, n + 8) == Octet(c) + Bits(Down8(c), n)
  {
    hide Bits, Odd, Half, Octet;
    FourBits(c, n + 4);
    FourBits(Half(Half(Half(Half(c)))), n);
    EightHalves(c);
  }

  lemma EightHalves(c: bv32)
    ensures var c1 := Half(c); var c2 := Half(c1); var c3 := Half(c2); var c4 := Half(c3);
            var c5 := Half(c4); var c6 := Half(c5); var c7 := Half(c6);
            && Half(c7) == Down8(c)
            && Octet(c) == [Odd(c), Odd(c1), Odd(c2), Odd(c3), Odd(c4), Odd(c5), Odd(c6), Odd(c7)]
  {
  }

  lemma FourOctets(c: bv32, n: nat)
    ensures var c1 := Down8(c); var c2 := Down8(c1); var c3 := Down8(c2);
            Bits(c, n + 32) == Octet(c) + Octet(c1) + Octet(c2) + Octet(c3) + Bits(0, n)
  {
    hide Octet, Bits, Down8;
    var c1 := Down8(c);
    var c2 := Down8(c1);
    var c3 := Down8(c2);
    EightBits(c, n + 24);
    EightBits(c1, n + 16);
    EightBits(c2, n + 8);
    EightBits(c3, n);
    NothingLeft(c);
    Flatten(Octet(c), Octet(c1), Octet(c2), Octet(c3), Bits(0, n));
  }

  lemma NothingLeft(c: bv32)
    ensures Down8(Down8(Down8(Down8(c)))) == 0
  {
  }

  lemma Flatten(a: seq<bool>, b: seq<bool>, c: seq<bool>, d: seq<bool>, e: seq<bool>)
    ensures a + (b + (c + (d + e))) == a + b + c + d + e
  {
  }

  lemma WordOfXor(a: bv32, b: bv32)
    ensures WordOf(XorVector(a, b)) == Xor(WordOf(a), WordOf(b))
  {
    hide Bits, XorVector;
    BitsOfXor(a, b, 32);
    Equal(WordOf(XorVector(a, b)), Xor(WordOf(a), WordOf(b)));
  }

  lemma WordOfHalf(c: bv32)
    ensures WordOf(Half(c)) == ShiftRight(WordOf(c), 1)
    ensures WordOf(c)[0] == Odd(c)
  {
    hide Odd, Half, Octet, Bits, Down8;
    OneBit(c, 32);
    OneBit(c, 31);
    FourOctets(c, 1);
    FourOctets(c, 0);
    OneBit(0, 0);
    EvenZero();
    assert Bits(c, 33) == Bits(c, 32) + [false];
    assert Bits(Half(c), 32) == Bits(c, 33)[1..] == Bits(c, 32)[1..] + [false];
    assert Zeros(1) == [false];
  }

  lemma EvenZero()
    ensures !Odd(0) && Bits(0, 0) == [] && Bits(Half(0), 0) == []
  {
  }

  lemma PolynomialVector()
    ensures WordOf(0xedb88320) == Polynomial()
  {
    hide Bits, Octet, LsbValue, LsbBits;
    FourOctets(0xedb88320, 0);
    PolynomialOctets();
    EvenZero();
    var a, b, c, d := Octet(0x20), Octet(0x83), Octet(0xb8), Octet(0xed);
    LsbValueConcat(c, d);
    LsbValueConcat(b, c + d);
    LsbValueConcat(a, b + (c + d));
    SmallPowers();
    LsbBitsOfValue(a + (b + (c + d)));
    assert a + b + c + d + [] == a + (b + (c + d));
  }

  lemma PolynomialOctets()
    ensures Down8(0xedb88320) == 0xedb883 && Down8(0xedb883) == 0xedb8 && Down8(0xedb8) == 0xed
    ensures Octet(0xedb88320) == Octet(0x20) && Octet(0xedb883) == Octet(0x83) && Octet(0xedb8) == Octet(0xb8)
    ensures LsbValue(Octet(0x20)) == 0x20 && LsbValue(Octet(0x83)) == 0x83
    ensures LsbValue(Octet(0xb8)) == 0xb8 && LsbValue(Octet(0xed)) == 0xed
  {
    OctetValue(0x20, [false, false, false, false, false, true, false, false]);
    OctetValue(0x83, [true, true, false, false, false, false, false, true]);
    OctetValue(0xb8, [false, false, false, true, true, true, false, true]);
    OctetValue(0xed, [true, false, true, true, false, true, true, true]);
  }

  lemma OctetValue(c: bv32, s: seq<bool>)
    requires |s| == 8 && Octet(c) == s
    ensures LsbValue(s) == (if s[0] then 1 else 0) + (if s[1] then 2 else 0) + (if s[2] then 4 else 0)
                           + (if s[3] then 8 else 0) + (if s[4] then 16 else 0) + (if s[5] then 32 else 0)
                           + (if s[6] then 64 else 0) + (if s[7] then 128 else 0)
  {
    hide Octet, LsbValue;
    assert s == s[..4] + s[4..];
    LsbValueConcat(s[..4], s[4..]);
    SmallPowers();
    NibbleValue(s[..4]);
    NibbleValue(s[4..]);
  }

  lemma NibbleValue(s: seq<bool>)
    requires |s| == 4
    ensures LsbValue(s) == (if s[0] then 1 else 0) + (if s[1] then 2 else 0) + (if s[2] then 4 else 0)
                           + (if s[3] then 8 else 0)
  {
    assert s[1..][1..] == s[2..] && s[2..][1..] == s[3..] && s[3..][1..] == [];
    assert LsbValue(s[3..]) == (if s[3] then 1 else 0);
    assert LsbValue(s[2..]) == (if s[2] then 1 else 0) + 2 * LsbValue(s[3..]);
    assert LsbValue(s[1..]) == (if s[1] then 1 else 0) + 2 * LsbValue(s[2..]);
  }

  /** The shift register on bit vectors is the one on words. */
  lemma WordOfShift(c: bv32)
    ensures WordOf(ShiftVector(c)) == Shift(WordOf(c))
  {
    hide WordOf, Polynomial, Xor, Odd, Half, XorVector;
    WordOfHalf(c);
    WordOfXor(Half(c), 0xedb88320);
    PolynomialVector();
  }

  // Checking the entries: a table is linear, and halving an index is one more shift.

  ghost predicate RowOk(r: Row, first: Row) {
    && r.e1 == XorVector(r.e0, first.e1) && r.e2 == XorVector(r.e0, first.e2) && r.e3 == XorVector(r.e0, first.e3)
    && r.e4 == XorVector(r.e0, first.e4) && r.e5 == XorVector(r.e0, first.e5) && r.e6 == XorVector(r.e0, first.e6)
    && r.e7 == XorVector(r.e0, first.e7)
  }

  ghost predicate BlockOk(b: Block, first: Block) {
    && RowOk(b.r0, first.r0) && RowOk(b.r1, first.r0) && RowOk(b.r2, first.r0) && RowOk(b.r3, first.r0)
    && RowOk(b.r4, first.r0) && RowOk(b.r5, first.r0) && RowOk(b.r6, first.r0) && RowOk(b.r7, first.r0)
    && RowOk(Column(b), Column(first))
  }

  /** The first entries of the rows of a block. */
  function Column(b: Block): (r: Row) {
    Row(b.r0.e0, b.r1.e0, b.r2.e0, b.r3.e0, b.r4.e0, b.r5.e0, b.r6.e0, b.r7.e0)
  }

  /** Entries at sums of powers of two. */
  ghost predicate SumsOk(r: Row) {
    && r.e0 == 0 && r.e3 == XorVector(r.e1, r.e2) && r.e5 == XorVector(r.e1, r.e4)
    && r.e6 == XorVector(r.e2, r.e4) && r.e7 == XorVector(r.e3, r.e4)
  }

  ghost predicate PowersOk(t: Literals) {
    var row, column := t.b0.r0, Column(t.b0);
    && t.b1.r0.e0 == ShiftVector(t.b2.r0.e0) && column.e4 == ShiftVector(t.b1.r0.e0)
    && column.e2 == ShiftVector(column.e4) && column.e1 == ShiftVector(column.e2)
    && row.e4 == ShiftVector(column.e1) && row.e2 == ShiftVector(row.e4) && row.e1 == ShiftVector(row.e2)
  }

  ghost predicate TableOk(t: Literals) {
    && BlockOk(t.b0, t.b0) && BlockOk(t.b1, t.b0) && BlockOk(t.b2, t.b0) && BlockOk(t.b3, t.b0)
    && SumsOk(t.b0.r0) && SumsOk(Column(t.b0)) && PowersOk(t)
    && t.b3.r0.e0 == XorVector(t.b1.r0.e0, t.b2.r0.e0)
  }

  /** The entry of the highest power of two in each table. */
  function Highest(k: nat): (e: bv32)
    requires k < 8
  {
    match k
    case 0 => 0xedb88320
    case 1 => 0x3b83984b
    case 2 => 0xe1351b80
    case 3 => 0xed59b63b
    case 4 => 0xb1e6b092
    case 5 => 0x1eb014d8
    case 6 => 0x8816eaf2
    case _ => 0x533b85da
  }

  // Each table by evaluation, as one truth value.

  lemma Table0Ok()
    ensures TableOk(Literals0()) == true
    ensures Literals0().b2.r0.e0 == Highest(0)
  {
  }

  lemma Table1Ok()
    ensures TableOk(Literals1()) == true
    ensures Literals1().b2.r0.e0 == Highest(1)
  {
  }

  lemma Table2Ok()
    ensures TableOk(Literals2()) == true
    ensures Literals2().b2.r0.e0 == Highest(2)
  {
  }

  lemma Table3Ok()
    ensures TableOk(Literals3()) == true
    ensures Literals3().b2.r0.e0 == Highest(3)
  {
  }

  lemma Table4Ok()
    ensures TableOk(Literals4()) == true
    ensures Literals4().b2.r0.e0 == Highest(4)
  {
  }

  lemma Table5Ok()
    ensures TableOk(Literals5()) == true
    ensures Literals5().b2.r0.e0 == Highest(5)
  {
  }

  lemma Table6Ok()
    ensures TableOk(Literals6()) == true
    ensures Literals6().b2.r0.e0 == Highest(6)
  {
  }

  lemma Table7Ok()
    ensures TableOk(Literals7()) == true
    ensures Literals7().b2.r0.e0 == Highest(7)
  {
  }

  lemma TablesOk(k: nat)
    requires k < 8
    ensures TableOk(TableOf(k)) && TableOf(k).b2.r0.e0 == Highest(k)
  {
    hide TableOk, Highest, Literals0, Literals1, Literals2, Literals3, Literals4, Literals5, Literals6, Literals7;
    match k {
      case 0 => Table0Ok();
      case 1 => Table1Ok();
      case 2 => Table2Ok();
      case 3 => Table3Ok();
      case 4 => Table4Ok();
      case 5 => Table5Ok();
      case 6 => Table6Ok();
      case _ => Table7Ok();
    }
  }

  // Every table is linear.

  lemma RowAt(r: Row, first: Row, i: nat)
    requires RowOk(r, first) && first.e0 == 0
    ensures r.At(i) == XorVector(r.e0, first.At(i))
  {
    hide XorVector;
    XorZero(r.e0);
  }

  lemma SumsAt(r: Row, i: nat, m: nat)
    requires SumsOk(r) && m < 3 && Pow2(m) <= i < 2 * Pow2(m)
    ensures r.At(i) == XorVector(r.At(i - Pow2(m)), r.At(Pow2(m)))
  {
    hide Pow2, XorVector;
    SmallPowers();
    XorZeroLeft(r.e1);
    XorZeroLeft(r.e2);
    XorZeroLeft(r.e4);
    assert if m == 0 then i == 1 else if m == 1 then i == 2 || i == 3 else 4 <= i <= 7;
  }

  /** An entry from the first entries of its block, of its row and of its place in a row. */
  lemma EntrySplits(t: Literals, b: byte)
    requires TableOk(t)
    ensures t.Entry(b) == XorVector(XorVector(t.At(b / 64).r0.e0, Column(t.b0).At(b / 8 % 8)), t.b0.r0.At(b % 8))
  {
    hide XorVector, RowOk, SumsOk, PowersOk;
    var block, c, i := t.At(b / 64), b / 8 % 8, b % 8;
    BlockRows(t, b / 64, c);
    FirstEntries(t);
    RowAt(block.At(c), t.b0.r0, i);
    ColumnAt(block, c);
    RowAt(Column(block), Column(t.b0), c);
  }

  lemma XorZeroLeft(a: bv32)
    ensures XorVector(0, a) == a
  {
  }

  lemma BlockRows(t: Literals, a: nat, c: nat)
    requires TableOk(t)
    ensures RowOk(t.At(a).At(c), t.b0.r0) && RowOk(Column(t.At(a)), Column(t.b0))
  {
    hide RowOk, SumsOk, PowersOk, XorVector, Column;
  }

  lemma FirstEntries(t: Literals)
    requires TableOk(t)
    ensures t.b0.r0.e0 == 0 && Column(t.b0).e0 == 0
  {
    hide RowOk, PowersOk, XorVector;
  }

  lemma ColumnAt(b: Block, c: nat)
    ensures Column(b).At(c) == b.At(c).e0
  {
  }

  /** Adding the highest power of two to an index adds its entry. */
  lemma EntryIsSum(t: Literals, b: byte, m: nat)
    requires TableOk(t) && m < 8 && Pow2(m) <= b < 2 * Pow2(m)
    ensures t.Entry(b) == XorVector(t.Entry(b - Pow2(m)), t.Entry(Pow2(m)))
  {
    hide XorVector, TableOk, Literals.Entry, Pow2;
    SmallPowers();
    if m < 3 {
      LowSum(t, b, m);
    } else if m < 6 {
      Pow2Adds(3, m - 3);
      var k, i := b / 8, b % 8;
      assert b == 8 * k + i && Pow2(m - 3) <= k < 2 * Pow2(m - 3) <= 8;
      MiddleSum(t, k, i, m - 3);
    } else {
      Pow2Adds(6, m - 6);
      HighSum(t, b, m - 6);
    }
  }

  lemma LowSum(t: Literals, b: byte, m: nat)
    requires TableOk(t) && m < 3 && Pow2(m) <= b < 2 * Pow2(m)
    ensures t.Entry(b) == XorVector(t.Entry(b - Pow2(m)), t.Entry(Pow2(m)))
  {
    hide XorVector, TableOk, Literals.Entry, Pow2, Row.At, SumsOk, PowersOk;
    SmallPowers();
    FirstRow(t, b);
    FirstRow(t, b - Pow2(m));
    FirstRow(t, Pow2(m));
    TableParts(t);
    SumsAt(t.b0.r0, b, m);
  }

  lemma FirstRow(t: Literals, b: byte)
    requires b < 8
    ensures t.Entry(b) == t.b0.r0.At(b)
  {
    hide Row.At;
    assert b / 64 == 0 && b / 8 % 8 == 0 && b % 8 == b;
  }

  lemma MiddleSum(t: Literals, k: nat, i: nat, m: nat)
    requires TableOk(t) && m < 3 && Pow2(m) <= k < 2 * Pow2(m) && k < 8 && i < 8
    ensures t.Entry(8 * k + i) == XorVector(t.Entry(8 * (k - Pow2(m)) + i), t.Entry(8 * Pow2(m)))
  {
    hide *;
    TableParts(t);
    SumsAt(Column(t.b0), k, m);
    RowSum(t, k, i, Pow2(m));
  }

  lemma RowSum(t: Literals, k: nat, i: nat, p: nat)
    requires TableOk(t) && p <= k < 8 && i < 8
    requires Column(t.b0).At(k) == XorVector(Column(t.b0).At(k - p), Column(t.b0).At(p))
    ensures t.Entry(8 * k + i) == XorVector(t.Entry(8 * (k - p) + i), t.Entry(8 * p))
  {
    hide *;
    FirstBlock(t, 8 * k + i, k, i);
    FirstBlock(t, 8 * (k - p) + i, k - p, i);
    FirstBlock(t, 8 * p, p, 0);
    TableParts(t);
    SumWithZero(Column(t.b0).At(k - p), Column(t.b0).At(p), t.b0.r0.At(i));
  }

  lemma SumWithZero(x: bv32, y: bv32, e: bv32)
    ensures XorVector(XorVector(x, y), e) == XorVector(XorVector(x, e), XorVector(y, 0))
  {
    hide XorVector;
    XorSwap(x, y, e);
    XorZero(y);
  }

  lemma FirstBlock(t: Literals, b: byte, k: nat, i: nat)
    requires TableOk(t) && k < 8 && i < 8 && b == 8 * k + i
    ensures t.Entry(b) == XorVector(Column(t.b0).At(k), t.b0.r0.At(i))
  {
    hide XorVector, TableOk, Literals.Entry, Row.At, Column, SumsOk, PowersOk;
    EntrySplits(t, b);
    assert b / 64 == 0 && b / 8 % 8 == k && b % 8 == i;
    TableParts(t);
    XorZeroLeft(Column(t.b0).At(k));
  }

  lemma HighSum(t: Literals, b: byte, m: nat)
    requires TableOk(t) && m < 2 && 64 * Pow2(m) <= b < 128 * Pow2(m)
    ensures t.Entry(b) == XorVector(t.Entry(b - 64 * Pow2(m)), t.Entry(64 * Pow2(m)))
  {
    hide XorVector, TableOk, Literals.Entry, Pow2, Row.At, Literals.At, Column, SumsOk, PowersOk;
    SmallPowers();
    var p, a, k, i := Pow2(m), b / 64, b / 8 % 8, b % 8;
    EntrySplits(t, b);
    EntrySplits(t, b - 64 * p);
    EntrySplits(t, 64 * p);
    HighIndex(b, p);
    TableParts(t);
    BlocksAt(t, a, m);
    var x, y, c, e := t.At(a - p).r0.e0, t.At(p).r0.e0, Column(t.b0).At(k), t.b0.r0.At(i);
    XorSwap(x, y, c);
    XorSwap(XorVector(x, c), y, e);
    XorZero(y);
  }

  lemma HighIndex(b: nat, p: nat)
    requires 64 * p <= b
    ensures (b - 64 * p) / 64 == b / 64 - p && (b - 64 * p) / 8 % 8 == b / 8 % 8 && (b - 64 * p) % 8 == b % 8
    ensures 64 * p / 64 == p && 64 * p / 8 % 8 == 0 && 64 * p % 8 == 0
  {
    var q := b / 8;
    assert (b - 64 * p) / 8 == q - 8 * p && (b - 64 * p) % 8 == b % 8;
    ModIs(q - 8 * p, 8, q / 8 - p, q % 8);
    ModIs(8 * p, 8, p, 0);
  }

  lemma TableParts(t: Literals)
    requires TableOk(t)
    ensures SumsOk(t.b0.r0) && SumsOk(Column(t.b0)) && PowersOk(t)
    ensures t.b0.r0.At(0) == 0 && Column(t.b0).At(0) == 0 && t.At(0).r0.e0 == 0 && t.b0.r0.e0 == 0
    ensures t.b3.r0.e0 == XorVector(t.b1.r0.e0, t.b2.r0.e0)
  {
    hide XorVector, RowOk, PowersOk;
  }

  lemma BlocksAt(t: Literals, a: nat, m: nat)
    requires TableOk(t) && m < 2 && Pow2(m) <= a < 2 * Pow2(m)
    ensures t.At(a).r0.e0 == XorVector(t.At(a - Pow2(m)).r0.e0, t.At(Pow2(m)).r0.e0)
  {
    hide XorVector, TableOk, Pow2, SumsOk, PowersOk;
    SmallPowers();
    TableParts(t);
    XorZeroLeft(t.b1.r0.e0);
    XorZeroLeft(t.b2.r0.e0);
    assert if m == 0 then a == 1 else a == 2 || a == 3;
  }

  lemma XorSwap(a: bv32, b: bv32, c: bv32)
    ensures XorVector(XorVector(a, b), c) == XorVector(XorVector(a, c), b)
  {
    hide XorVector;
    XorAssociates(a, b, c);
    XorAssociates(a, c, b);
    XorCommutes(b, c);
  }

  lemma XorAssociates(a: bv32, b: bv32, c: bv32)
    ensures XorVector(XorVector(a, b), c) == XorVector(a, XorVector(b, c))
  {
  }

  lemma XorCommutes(a: bv32, b: bv32)
    ensures XorVector(a, b) == XorVector(b, a)
  {
  }

  /** The exponent of the highest power of two in b. */
  function Top(b: nat): (m: nat)
    requires 0 < b
    ensures Pow2(m) <= b < 2 * Pow2(m)
  {
    if b == 1 then 0 else Top(b / 2) + 1
  }

  // The same of the definition.

  /** The highest power of two in an index apart from the rest. */
  lemma {:induction false} BitsOfSum(r: nat, m: nat, n: nat)
    requires r < Pow2(m)
    ensures forall k :: 0 <= k < n ==>
              LsbBits(r + Pow2(m), n)[k] == (LsbBits(r, n)[k] != LsbBits(Pow2(m), n)[k])
    decreases n
  {
    if n > 0 {
      if m > 0 {
        BitsOfSum(r / 2, m - 1, n - 1);
      } else {
        BitsOfZero(n);
      }
    }
  }

  lemma {:induction false} BitsOfZero(n: nat)
    ensures LsbBits(0, n) == Zeros(n)
  {
    if n > 0 {
      BitsOfZero(n - 1);
    }
  }

  lemma SumIsXor(r: nat, m: nat)
    requires r < Pow2(m) && m < 8
    ensures r + Pow2(m) < 256 && ByteWord(r + Pow2(m)) == Xor(ByteWord(r), ByteWord(Pow2(m)))
  {
    hide LsbBits;
    SmallPowers();
    BitsOfSum(r, m, 8);
    Equal(ByteWord(r + Pow2(m)), Xor(ByteWord(r), ByteWord(Pow2(m))));
  }

  lemma HalfIsShift(m: nat)
    requires m < 7
    ensures Pow2(m + 1) < 256 && Shift(ByteWord(Pow2(m + 1))) == ByteWord(Pow2(m))
  {
    hide LsbBits, Polynomial;
    SmallPowers();
    BitsOfPower(m, 8);
    BitsOfPower(m + 1, 8);
    Equal(ShiftRight(ByteWord(Pow2(m + 1)), 1), ByteWord(Pow2(m)));
  }

  lemma {:induction false} BitsOfPower(m: nat, n: nat)
    ensures forall k :: 0 <= k < n ==> LsbBits(Pow2(m), n)[k] == (k == m)
    decreases n
  {
    if n > 0 {
      if m == 0 {
        BitsOfZero(n - 1);
      } else {
        BitsOfPower(m - 1, n - 1);
      }
    }
  }

  lemma ShiftsSwap(w: Word, n: nat)
    ensures Shifts(Shift(w), n) == Shift(Shifts(w, n))
  {
    hide Shift;
    ShiftsAdd(w, 1, n);
    ShiftsAdd(w, n, 1);
    assert Shifts(w, 1) == Shifts(Shift(w), 0);
    assert Shifts(Shifts(w, n), 1) == Shifts(Shift(Shifts(w, n)), 0);
  }

  lemma ShiftedBit(w: Word, n: nat, k: nat)
    requires n <= 32 && k < 32
    ensures ShiftRight(w, n)[k] == (k + n < 32 && w[k + n])
  {
  }

  lemma LastPower()
    ensures Shifts(ByteWord(128), 8) == Polynomial()
  {
    hide Polynomial, Xor, LsbBits;
    SmallPowers();
    BitsOfPower(7, 8);
    var w := ByteWord(128);
    assert forall k :: 0 <= k < 32 ==> w[k] == (k == 7);
    ShiftsAdd(w, 7, 1);
    ShiftsOfEven(w, 7);
    var one := ShiftRight(w, 7);
    forall k | 0 <= k < 32
      ensures one[k] == (k == 0) && !ShiftRight(one, 1)[k]
    {
      ShiftedBit(w, 7, k);
      ShiftedBit(one, 1, k);
      if k < 31 {
        ShiftedBit(w, 7, k + 1);
      }
    }
    assert Shifts(one, 1) == Shifts(Shift(one), 0);
    Equal(ShiftRight(one, 1), Zero());
    Cancels(Polynomial());
  }

  lemma ZeroEntry(t: Literals, n: nat)
    requires TableOk(t)
    ensures WordOf(t.Entry(0)) == Zero() == Shifts(ByteWord(0), n)
  {
    hide Polynomial, Bits, RowOk, PowersOk, XorVector, Shift;
    BitsOfZero(8);
    Equal(ByteWord(0), Zero());
    ZeroStays(n);
    WordOfXor(0, 0);
    XorZero(0);
    Cancels(WordOf(0));
  }

  lemma {:induction false} ZeroStays(n: nat)
    ensures Shifts(Zero(), n) == Zero()
  {
    hide Polynomial, Xor;
    if n > 0 {
      Equal(ShiftRight(Zero(), 1), Zero());
      ZeroStays(n - 1);
    }
  }

  lemma XorZero(a: bv32)
    ensures XorVector(a, 0) == a
  {
  }

  // The tables are those of the definition.

  lemma PowerFields(t: Literals)
    ensures t.Entry(1) == t.b0.r0.e1 && t.Entry(2) == t.b0.r0.e2 && t.Entry(4) == t.b0.r0.e4
    ensures t.Entry(8) == t.b0.r1.e0 && t.Entry(16) == t.b0.r2.e0 && t.Entry(32) == t.b0.r4.e0
    ensures t.Entry(64) == t.b1.r0.e0 && t.Entry(128) == t.b2.r0.e0
  {
  }

  lemma PowersFit(t: Literals, m: nat)
    requires TableOk(t) && m < 7
    ensures Pow2(m + 1) < 256 && t.Entry(Pow2(m)) == ShiftVector(t.Entry(Pow2(m + 1)))
  {
    hide XorVector, ShiftVector, TableOk, SumsOk, Literals.Entry, Pow2;
    SmallPowers();
    TableParts(t);
    PowerFields(t);
    assert m == 0 || m == 1 || m == 2 || m == 3 || m == 4 || m == 5 || m == 6;
  }

  /** One power after the other, from the highest. */
  lemma {:induction false} PowerIsShifts(t: Literals, n: nat, m: nat)
    requires m < 8 && TableOk(t) && WordOf(t.Entry(128)) == Shifts(ByteWord(128), n)
    ensures Pow2(m) < 256 && WordOf(t.Entry(Pow2(m))) == Shifts(ByteWord(Pow2(m)), n)
    decreases 8 - m
  {
    hide Shifts, ByteWord, WordOf, Literals.Entry, ShiftVector, Shift, TableOk;
    SmallPowers();
    if m < 7 {
      PowerIsShifts(t, n, m + 1);
      PowersFit(t, m);
      HalfIsShift(m);
      ShiftsSwap(ByteWord(Pow2(m + 1)), n);
      WordOfShift(t.Entry(Pow2(m + 1)));
    }
  }

  /** Every entry of a linear table, given the entry of the highest power of two. */
  lemma {:induction false} EntryIsShifts(t: Literals, n: nat, b: byte)
    requires TableOk(t) && WordOf(t.Entry(128)) == Shifts(ByteWord(128), n)
    ensures WordOf(t.Entry(b)) == Shifts(ByteWord(b), n)
    decreases b
  {
    hide Shifts, ByteWord, WordOf, Literals.Entry, Xor, XorVector, Pow2, Top, TableOk;
    if b == 0 {
      ZeroEntry(t, n);
    } else {
      var m := Top(b);
      TopIsSmall(b);
      var p := Pow2(m);
      EntryIsSum(t, b, m);
      EntryIsShifts(t, n, b - p);
      PowerIsShifts(t, n, m);
      SumIsXor(b - p, m);
      ShiftsLinear(ByteWord(b - p), ByteWord(p), n);
      WordOfXor(t.Entry(b - p), t.Entry(p));
    }
  }

  lemma HighestIs(k: nat)
    requires k < 8
    ensures TableOf(k).Entry(128) == Highest(k)
  {
    hide TableOk, Highest, TableOf, Literals.Entry;
    TablesOk(k);
    PowerFields(TableOf(k));
  }

  ghost predicate ChainOk() {
    && Highest(1) == EightShifts(Highest(0)) && Highest(2) == EightShifts(Highest(1))
    && Highest(3) == EightShifts(Highest(2)) && Highest(4) == EightShifts(Highest(3))
    && Highest(5) == EightShifts(Highest(4)) && Highest(6) == EightShifts(Highest(5))
    && Highest(7) == EightShifts(Highest(6))
  }

  lemma ChainIsOk()
    ensures ChainOk() == true
  {
  }

  /** The polynomial in table 0, eight more shifts in each further table. */
  lemma HighestShifts(k: nat)
    requires 0 < k < 8
    ensures Highest(k) == EightShifts(Highest(k - 1))
  {
    hide EightShifts, Highest;
    ChainIsOk();
  }

  function EightShifts(c: bv32): (r: bv32) {
    var c4 := ShiftVector(ShiftVector(ShiftVector(ShiftVector(c))));
    ShiftVector(ShiftVector(ShiftVector(ShiftVector(c4))))
  }

  lemma WordOfEightShifts(c: bv32)
    ensures WordOf(EightShifts(c)) == Shifts(WordOf(c), 8)
  {
    hide WordOf, ShiftVector, Shift;
    var c4 := ShiftVector(ShiftVector(ShiftVector(ShiftVector(c))));
    WordOfFourShifts(c);
    WordOfFourShifts(c4);
    ShiftsAdd(WordOf(c), 4, 4);
  }

  lemma WordOfFourShifts(c: bv32)
    ensures WordOf(ShiftVector(ShiftVector(ShiftVector(ShiftVector(c))))) == Shifts(WordOf(c), 4)
  {
    hide WordOf, ShiftVector, Shift;
    var c1 := ShiftVector(c);
    var c2 := ShiftVector(c1);
    var c3 := ShiftVector(c2);
    WordOfShift(c);
    WordOfShift(c1);
    WordOfShift(c2);
    WordOfShift(c3);
    assert Shifts(WordOf(c3), 1) == Shifts(WordOf(ShiftVector(c3)), 0);
    assert Shifts(WordOf(c), 4) == Shifts(WordOf(c1), 3) == Shifts(WordOf(c2), 2) == Shifts(WordOf(c3), 1);
  }

  lemma {:induction false} HighestEntry(k: nat)
    requires k < 8
    ensures WordOf(TableOf(k).Entry(128)) == Shifts(ByteWord(128), 8 * (k + 1))
  {
    hide WordOf, Shifts, ByteWord, TableOf, Literals.Entry, EightShifts, Polynomial;
    HighestIs(k);
    if k == 0 {
      LastPower();
      PolynomialVector();
    } else {
      HighestEntry(k - 1);
      HighestIs(k - 1);
      HighestShifts(k);
      WordOfEightShifts(Highest(k - 1));
      ShiftsAdd(ByteWord(128), 8 * k, 8);
    }
  }

  /** Every literal entry of every table is the definition's. */
  lemma EntryIsTable(k: nat, b: byte)
    requires k < 8
    ensures WordOf(TableOf(k).Entry(b)) == Table(k, ByteWord(b))
  {
    hide WordOf, Shifts, ByteWord, TableOf, Literals.Entry, TableOk, Table;
    TablesOk(k);
    HighestEntry(k);
    EntryIsShifts(TableOf(k), 8 * (k + 1), b);
    TableIsShifts(k, ByteWord(b));
  }

  lemma TopIsSmall(b: byte)
    requires b > 0
    ensures Top(b) < 8
  {
    SmallPowers();
    if Top(b) >= 8 {
      Pow2Monotone(8, Top(b));
    }
  }
}
