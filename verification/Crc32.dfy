/**
 The CRC-32 of PNG chunks: eight bytes per step through eight tables computes what
 section 3.4 of RFC 2083 defines one bit at a time. A 32-bit word is the list of its
 bits, lowest first.
 */
module Crc32 {
  import opened BitSequence

  // Words.

  type Word = w: seq<bool> | |w| == 32 witness seq(32, i => false)

  function Zeros(n: nat): (z: seq<bool>)
    ensures |z| == n && forall i :: 0 <= i < n ==> !z[i]
  {
    seq(n, i => false)
  }

  function Zero(): (w: Word) {
    Zeros(32)
  }

  /** The start value and final mask: all bits set. */
  function Ones(): (w: Word)
    ensures forall i :: 0 <= i < 32 ==> w[i]
  {
    seq(32, i => true)
  }

  function Xor(a: Word, b: Word): (r: Word)
    ensures forall i :: 0 <= i < 32 ==> r[i] == (a[i] != b[i])
  {
    seq(32, i requires 0 <= i < 32 => a[i] != b[i])
  }

  function ShiftRight(r: Word, n: nat): (s: Word)
    requires n <= 32
  {
    r[n..] + Zeros(n)
  }

  function Down(r: Word): (s: Word) {
    ShiftRight(r, 8)
  }

  function LowByte(r: Word): (s: Word) {
    r[..8] + Zeros(24)
  }

  function HighPart(r: Word): (h: Word) {
    Zeros(8) + r[8..]
  }

  function ByteWord(b: byte): (w: Word) {
    LsbBits(b, 8) + Zeros(24)
  }

  lemma Equal(a: Word, b: Word)
    requires forall i :: 0 <= i < 32 ==> a[i] == b[i]
    ensures a == b
  {
  }

  lemma Associates(a: Word, b: Word, c: Word)
    ensures Xor(Xor(a, b), c) == Xor(a, Xor(b, c))
  {
    Equal(Xor(Xor(a, b), c), Xor(a, Xor(b, c)));
  }

  lemma Cancels(a: Word)
    ensures Xor(a, a) == Zero() && Xor(a, Zero()) == a && Xor(Zero(), a) == a
  {
    Equal(Xor(a, a), Zero());
    Equal(Xor(a, Zero()), a);
    Equal(Xor(Zero(), a), a);
  }

  /** A constant in one argument comes out; a constant in both goes away. */
  lemma ConstantOut(a: Word, b: Word, p: Word)
    ensures Xor(Xor(a, p), b) == Xor(Xor(a, b), p) == Xor(a, Xor(b, p))
    ensures Xor(Xor(a, p), Xor(b, p)) == Xor(a, b)
  {
    Equal(Xor(Xor(a, p), b), Xor(Xor(a, b), p));
    Equal(Xor(Xor(a, b), p), Xor(a, Xor(b, p)));
    Equal(Xor(Xor(a, p), Xor(b, p)), Xor(a, b));
  }

  // Definition, one bit at a time.

  function Polynomial(): (w: Word) {
    LsbBits(0xedb88320, 32)
  }

  /** One step of the shift register. */
  function Shift(r: Word): (s: Word) {
    if r[0] then Xor(ShiftRight(r, 1), Polynomial()) else ShiftRight(r, 1)
  }

  function Shifts(r: Word, n: nat): (s: Word)
    decreases n
  {
    if n == 0 then r else Shifts(Shift(r), n - 1)
  }

  /** The register after a list of bytes, each entered at the low end and shifted through. */
  function Register(r: Word, data: seq<byte>): (s: Word)
    decreases |data|
  {
    if data == [] then r else Register(Shifts(Xor(r, ByteWord(data[0])), 8), data[1..])
  }

  function Crc(data: seq<byte>): (s: Word) {
    Xor(Register(Ones(), data), Ones())
  }

  // Tables. Table 0 is one byte's worth of shifts, each further table one more byte step.

  function Table0(index: Word): (w: Word) {
    Shifts(index, 8)
  }

  function ByteStep(r: Word): (s: Word) {
    Xor(Table0(LowByte(r)), Down(r))
  }

  function Table(k: nat, index: Word): (w: Word) {
    if k == 0 then Table0(index) else ByteStep(Table(k - 1, index))
  }

  // The register is linear.

  lemma ShiftLinear(a: Word, b: Word)
    ensures Shift(Xor(a, b)) == Xor(Shift(a), Shift(b))
  {
    hide Polynomial;
    Equal(ShiftRight(Xor(a, b), 1), Xor(ShiftRight(a, 1), ShiftRight(b, 1)));
    ConstantOut(ShiftRight(a, 1), ShiftRight(b, 1), Polynomial());
  }

  lemma {:induction false} ShiftsLinear(a: Word, b: Word, n: nat)
    ensures Shifts(Xor(a, b), n) == Xor(Shifts(a, n), Shifts(b, n))
    decreases n
  {
    hide Xor, Shift;
    if n > 0 {
      ShiftLinear(a, b);
      ShiftsLinear(Shift(a), Shift(b), n - 1);
    }
  }

  lemma {:induction false} ShiftsAdd(r: Word, m: nat, n: nat)
    ensures Shifts(r, m + n) == Shifts(Shifts(r, m), n)
    decreases m
  {
    hide Shift;
    if m > 0 {
      ShiftsAdd(Shift(r), m - 1, n);
    }
  }

  /** A word whose low n bits are 0 just moves down. */
  lemma {:induction false} ShiftsOfEven(r: Word, n: nat)
    requires n <= 32 && forall i :: 0 <= i < n ==> !r[i]
    ensures Shifts(r, n) == ShiftRight(r, n)
    decreases n
  {
    hide Polynomial;
    if n == 0 {
      Equal(r, ShiftRight(r, 0));
    } else {
      ShiftsOfEven(ShiftRight(r, 1), n - 1);
      Equal(ShiftRight(ShiftRight(r, 1), n - 1), ShiftRight(r, n));
    }
  }

  lemma HighMovesDown(r: Word)
    ensures Shifts(HighPart(r), 8) == Down(r)
  {
    ShiftsOfEven(HighPart(r), 8);
    Equal(ShiftRight(HighPart(r), 8), Down(r));
  }

  lemma Parts(r: Word)
    ensures Xor(LowByte(r), HighPart(r)) == r
  {
    Equal(Xor(LowByte(r), HighPart(r)), r);
  }

  /** Eight shifts are one table step: the low byte through the table, the rest moved down. */
  lemma ByteStepIsShifts(r: Word)
    ensures ByteStep(r) == Shifts(r, 8)
  {
    hide *;
    Parts(r);
    ShiftsLinear(LowByte(r), HighPart(r), 8);
    HighMovesDown(r);
    ByteStepIs(r);
  }

  lemma ByteStepIs(r: Word)
    ensures ByteStep(r) == Xor(Shifts(LowByte(r), 8), Down(r))
  {
  }

  lemma {:induction false} TableIsShifts(k: nat, index: Word)
    ensures Table(k, index) == Shifts(index, 8 * (k + 1))
  {
    hide Shifts, ByteStep, Xor;
    if k > 0 {
      TableIsShifts(k - 1, index);
      ByteStepIsShifts(Table(k - 1, index));
      ShiftsAdd(index, 8 * k, 8);
    }
  }

  // Eight bytes at a time.

  /** A part of the register's content acts independently of the rest and of the bytes that follow. */
  lemma {:induction false} RegisterLinear(x: Word, y: Word, data: seq<byte>)
    ensures Register(Xor(x, y), data) == Xor(Shifts(x, 8 * |data|), Register(y, data))
    decreases |data|
  {
    hide Xor, Shifts, ByteWord;
    if data == [] {
      ShiftsNone(x);
    } else {
      var w := ByteWord(data[0]);
      Associates(x, y, w);
      ShiftsLinear(x, Xor(y, w), 8);
      RegisterLinear(Shifts(x, 8), Shifts(Xor(y, w), 8), data[1..]);
      ShiftsAdd(x, 8, 8 * |data[1..]|);
    }
  }

  lemma ShiftsNone(r: Word)
    ensures Shifts(r, 0) == r
  {
  }

  /**
   The first byte, mixed with the low byte of the register, contributes its own table entry; the
   rest of the register waits.
   */
  lemma RegisterCons(r: Word, b: byte, data: seq<byte>)
    ensures Register(r, [b] + data) == Xor(Table(|data|, Xor(ByteWord(b), LowByte(r))), Register(Down(r), data))
  {
    hide *;
    RegisterStep(r, b, data);
    var x := Xor(ByteWord(b), LowByte(r));
    OneStep(r, b);
    RegisterLinear(Shifts(x, 8), Down(r), data);
    ShiftsAdd(x, 8, 8 * |data|);
    TableIsShifts(|data|, x);
  }

  lemma RegisterStep(r: Word, b: byte, data: seq<byte>)
    ensures Register(r, [b] + data) == Register(Shifts(Xor(r, ByteWord(b)), 8), data)
  {
    hide Shifts, Xor, ByteWord;
    assert ([b] + data)[1..] == data;
  }

  lemma OneStep(r: Word, b: byte)
    ensures Shifts(Xor(r, ByteWord(b)), 8) == Xor(Shifts(Xor(ByteWord(b), LowByte(r)), 8), Down(r))
  {
    hide Shifts, Xor, Down, LowByte, ByteWord, ByteStep;
    ByteStepIsShifts(Xor(r, ByteWord(b)));
    ByteStepIs(Xor(r, ByteWord(b)));
    ByteParts(r, b);
  }

  lemma ByteParts(r: Word, b: byte)
    ensures Down(Xor(r, ByteWord(b))) == Down(r) && LowByte(Xor(r, ByteWord(b))) == Xor(ByteWord(b), LowByte(r))
  {
    Equal(Down(Xor(r, ByteWord(b))), Down(r));
    Equal(LowByte(Xor(r, ByteWord(b))), Xor(ByteWord(b), LowByte(r)));
  }

  /** One round of the slicing loop. */
  function Sliced(r: Word, d: seq<byte>): (s: Word)
    requires |d| == 8
  {
    Xor(Xor(Xor(Xor(Xor(Xor(Xor(
      Table(7, Xor(ByteWord(d[0]), LowByte(r))),
      Table(6, Xor(ByteWord(d[1]), LowByte(Down(r))))),
      Table(5, Xor(ByteWord(d[2]), LowByte(Down(Down(r)))))),
      Table(4, Xor(ByteWord(d[3]), LowByte(Down(Down(Down(r))))))),
      Table(3, ByteWord(d[4]))), Table(2, ByteWord(d[5]))), Table(1, ByteWord(d[6]))), Table(0, ByteWord(d[7])))
  }

  /** Eight bytes through eight tables are eight bytes one at a time. */
  lemma EightBytes(r: Word, d: seq<byte>)
    requires |d| == 8
    ensures Register(r, d) == Sliced(r, d)
  {
    hide Xor, Table, ByteWord, LowByte, Down, Register;
    FirstFour(r, d);
    LastFour(d[4..]);
    var a, b := Table(7, Xor(ByteWord(d[0]), LowByte(r))), Table(6, Xor(ByteWord(d[1]), LowByte(Down(r))));
    var c := Table(5, Xor(ByteWord(d[2]), LowByte(Down(Down(r)))));
    var e := Table(4, Xor(ByteWord(d[3]), LowByte(Down(Down(Down(r))))));
    var f, g := Table(3, ByteWord(d[4])), Table(2, ByteWord(d[5]));
    var h, i := Table(1, ByteWord(d[6])), Table(0, ByteWord(d[7]));
    Associates(a, b, Xor(c, Xor(e, Xor(f, Xor(g, Xor(h, i))))));
    Associates(Xor(a, b), c, Xor(e, Xor(f, Xor(g, Xor(h, i)))));
    Associates(Xor(Xor(a, b), c), e, Xor(f, Xor(g, Xor(h, i))));
    Associates(Xor(Xor(Xor(a, b), c), e), f, Xor(g, Xor(h, i)));
    Associates(Xor(Xor(Xor(Xor(a, b), c), e), f), g, Xor(h, i));
    Associates(Xor(Xor(Xor(Xor(Xor(a, b), c), e), f), g), h, i);
  }

  lemma FirstFour(r: Word, d: seq<byte>)
    requires |d| == 8
    ensures Register(r, d) ==
      Xor(Table(7, Xor(ByteWord(d[0]), LowByte(r))), Xor(Table(6, Xor(ByteWord(d[1]), LowByte(Down(r)))),
      Xor(Table(5, Xor(ByteWord(d[2]), LowByte(Down(Down(r))))),
      Xor(Table(4, Xor(ByteWord(d[3]), LowByte(Down(Down(Down(r)))))),
      Register(Zero(), d[4..])))))
  {
    hide *;
    assert d == [d[0]] + d[1..] && d[1..] == [d[1]] + d[2..] && d[2..] == [d[2]] + d[3..] && d[3..] == [d[3]] + d[4..];
    RegisterCons(r, d[0], d[1..]);
    RegisterCons(Down(r), d[1], d[2..]);
    RegisterCons(Down(Down(r)), d[2], d[3..]);
    RegisterCons(Down(Down(Down(r))), d[3], d[4..]);
    FourDown(r);
  }

  lemma LastFour(d: seq<byte>)
    requires |d| == 4
    ensures Register(Zero(), d) ==
      Xor(Table(3, ByteWord(d[0])), Xor(Table(2, ByteWord(d[1])),
      Xor(Table(1, ByteWord(d[2])), Table(0, ByteWord(d[3])))))
  {
    hide *;
    assert d == [d[0]] + d[1..] && d[1..] == [d[1]] + d[2..] && d[2..] == [d[2]] + d[3..] && d[3..] == [d[3]] + d[4..];
    RegisterCons(Zero(), d[0], d[1..]);
    RegisterCons(Zero(), d[1], d[2..]);
    RegisterCons(Zero(), d[2], d[3..]);
    RegisterCons(Zero(), d[3], d[4..]);
    ZeroParts();
    RegisterNone(Zero());
    Cancels(ByteWord(d[0]));
    Cancels(ByteWord(d[1]));
    Cancels(ByteWord(d[2]));
    Cancels(ByteWord(d[3]));
    Cancels(Table(0, ByteWord(d[3])));
  }

  lemma ZeroParts()
    ensures LowByte(Zero()) == Zero() && Down(Zero()) == Zero()
  {
    Equal(LowByte(Zero()), Zero());
    Equal(Down(Zero()), Zero());
  }

  lemma RegisterNone(r: Word)
    ensures Register(r, []) == r
  {
  }

  lemma FourDown(r: Word)
    ensures Down(Down(Down(Down(r)))) == Zero()
  {
    Equal(Down(Down(Down(Down(r)))), Zero());
  }

  lemma {:induction false} RegisterConcat(r: Word, a: seq<byte>, b: seq<byte>)
    ensures Register(r, a + b) == Register(Register(r, a), b)
    decreases |a|
  {
    hide Xor, Shifts, ByteWord;
    if a == [] {
      assert a + b == b;
    } else {
      assert (a + b)[1..] == a[1..] + b;
      RegisterConcat(Shifts(Xor(r, ByteWord(a[0])), 8), a[1..], b);
    }
  }

  /** The table loop equals the bit-at-a-time definition for every list of bytes. */
  method ComputeCrc(data: seq<byte>) returns (crc: Word)
    ensures crc == Crc(data)
  {
    hide Xor, Shifts, ByteWord, Table, ByteStep, LowByte, Down, Sliced;
    var r: Word := Ones();
    var i: nat := 0;
    while |data| - i >= 8
      invariant i <= |data| && r == Register(Ones(), data[..i])
    {
      EightBytes(r, data[i..i + 8]);
      RegisterConcat(Ones(), data[..i], data[i..i + 8]);
      assert data[..i] + data[i..i + 8] == data[..i + 8];
      r := Sliced(r, data[i..i + 8]);
      i := i + 8;
    }
    while i < |data|
      invariant i <= |data| && r == Register(Ones(), data[..i])
    {
      OneByte(r, data[i]);
      RegisterConcat(Ones(), data[..i], [data[i]]);
      assert data[..i] + [data[i]] == data[..i + 1];
      r := Xor(Table(0, LowByte(Xor(r, ByteWord(data[i])))), Down(r));
      i := i + 1;
    }
    assert data[..i] == data;
    crc := Xor(r, Ones());
  }

  lemma OneByte(r: Word, b: byte)
    ensures Register(r, [b]) == Xor(Table(0, LowByte(Xor(r, ByteWord(b)))), Down(r))
  {
    hide Shifts, Xor, Down, LowByte, ByteWord;
    OneStep(r, b);
    ByteParts(r, b);
    assert [b][1..] == [];
  }
}
