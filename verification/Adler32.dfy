/** The Adler-32 checksum of zlib (RFC 1950 section 8.2), with the modulo deferred to blocks of bytes. */
module Adler32 {
  import opened BitSequence

  const BASE: nat := 65521
  const BLOCK: nat := 5552
  const WORD: nat := 0x1_0000_0000

  datatype Sums = Sums(s1: nat, s2: nat)

  function AddByte(s: Sums, b: byte): Sums {
    var s1 := (s.s1 + b) % BASE;
    Sums(s1, (s.s2 + s1) % BASE)
  }

  /** Byte by byte, reducing at every step. */
  function AddBytes(s: Sums, data: seq<byte>): Sums {
    if data == [] then s else AddByte(AddBytes(s, data[..|data| - 1]), data[|data| - 1])
  }

  function Pack(s: Sums): nat {
    s.s2 * 65536 + s.s1
  }

  /** The checksum of a byte string. */
  function Checksum(data: seq<byte>): nat {
    Pack(AddBytes(Sums(1, 0), data))
  }

  /** Largest value the second sum can have after i bytes of a block that starts with 16-bit sums. */
  ghost function Bound(i: nat): nat {
    if i == 0 then 65535 else Bound(i - 1) + 65535 + 255 * i
  }

  lemma {:induction false} BoundIs(i: nat)
    ensures 2 * Bound(i) == 131070 * (i + 1) + 255 * (i * (i + 1))
  {
    if i > 0 {
      BoundIs(i - 1);
      assert i * (i + 1) == (i - 1) * i + 2 * i;
    }
  }

  lemma BoundFits(i: nat)
    requires i <= BLOCK
    ensures Bound(i) < WORD
  {
    BoundIs(i);
    Product(i, BLOCK);
  }

  lemma Product(i: nat, n: nat)
    requires i <= n
    ensures i * (i + 1) <= n * (n + 1)
  {
  }

  /** Deferred sums agree with reduced sums up to a multiple of the base. */
  ghost predicate Agree(s1: nat, s2: nat, spec: Sums) {
    s1 % BASE == spec.s1 % BASE && s2 % BASE == spec.s2 % BASE
  }

  lemma AgreeStep(s1: nat, s2: nat, spec: Sums, b: byte)
    requires Agree(s1, s2, spec)
    ensures Agree(s1 + b, s2 + s1 + b, AddByte(spec, b))
  {
    var t := AddByte(spec, b);
    SameMod(s1, spec.s1, b, BASE);
    ModTwice(spec.s1 + b, BASE);
    SameMod(s2, spec.s2, s1 + b, BASE);
    SameMod(s1 + b, t.s1, spec.s2, BASE);
    ModTwice(spec.s2 + t.s1, BASE);
    hide AddByte;
  }

  lemma ModTwice(a: nat, m: nat)
    requires m > 0
    ensures a % m % m == a % m
  {
    ModIs(a % m, m, 0, a % m);
  }

  /** Equal remainders stay equal when the same is added to both. */
  lemma SameMod(a: nat, b: nat, c: nat, m: nat)
    requires m > 0 && a % m == b % m
    ensures (a + c) % m == (b + c) % m
  {
    var t := a % m + c;
    ModShift(a / m, t, m);
    ModShift(b / m, t, m);
    assert a + c == m * (a / m) + t && b + c == m * (b / m) + t;
  }

  lemma ModShift(q: nat, t: nat, m: nat)
    requires m > 0
    ensures (m * q + t) % m == t % m
  {
    assert m * (q + t / m) == m * q + m * (t / m);
    ModIs(m * q + t, m, q + t / m, t % m);
  }

  /** One block: sums grow without reduction but stay below 2^32 and keep their remainders. */
  method AddBlock(start: Sums, block: seq<byte>) returns (end: Sums)
    requires start.s1 <= 65535 && start.s2 <= 65535 && 1 <= |block| <= BLOCK
    ensures end == AddBytes(start, block)
  {
    hide Bound, Agree, AddByte;
    var s1: nat, s2: nat := start.s1, start.s2;
    var i := 0;
    BlockStart(start, block);
    while i != |block|
      invariant 0 <= i <= |block|
      invariant s1 <= 65535 + 255 * i && s2 <= Bound(i)
      invariant Agree(s1, s2, AddBytes(start, block[..i]))
      decreases |block| - i
    {
      AgreeStep(s1, s2, AddBytes(start, block[..i]), block[i]);
      assert block[..i + 1][..i] == block[..i];
      s1 := s1 + block[i];
      BoundStep(i + 1);
      BoundFits(i + 1);
      assert s1 < WORD && s2 + s1 < WORD;
      s2 := s2 + s1;
      i := i + 1;
    }
    assert block[..i] == block;
    BlockEnd(s1, s2, start, block);
    end := Sums(s1 % BASE, s2 % BASE);
  }

  lemma BlockStart(start: Sums, block: seq<byte>)
    ensures Bound(0) == 65535 && Agree(start.s1, start.s2, AddBytes(start, block[..0]))
  {
  }

  lemma BlockEnd(s1: nat, s2: nat, start: Sums, block: seq<byte>)
    requires block != [] && Agree(s1, s2, AddBytes(start, block))
    ensures Sums(s1 % BASE, s2 % BASE) == AddBytes(start, block)
  {
  }

  lemma BoundStep(i: nat)
    requires i > 0
    ensures Bound(i) == Bound(i - 1) + 65535 + 255 * i
  {
  }

  lemma {:induction false} AddBytesConcat(s: Sums, a: seq<byte>, b: seq<byte>)
    ensures AddBytes(s, a + b) == AddBytes(AddBytes(s, a), b)
    decreases |b|
  {
    if b == [] {
      assert a + b == a;
    } else {
      AddBytesConcat(s, a, b[..|b| - 1]);
      assert (a + b)[..|a + b| - 1] == a + b[..|b| - 1];
    }
  }

  /** Every prior checksum, every data: equal to reducing at every byte, with no 32-bit overflow. */
  method UpdateAdler32(adler: nat, data: seq<byte>) returns (r: nat)
    requires adler < WORD
    ensures r == Pack(AddBytes(Sums(adler % 65536, adler / 65536), data)) && r < WORD
  {
    ghost var start := Sums(adler % 65536, adler / 65536);
    var sums := Sums(adler % 65536, adler / 65536);
    var pos := 0;
    while pos < |data|
      invariant 0 <= pos <= |data| && sums == AddBytes(start, data[..pos])
      invariant sums.s1 <= 65535 && sums.s2 <= 65535
    {
      var amount := if |data| - pos > BLOCK then BLOCK else |data| - pos;
      var block := data[pos..pos + amount];
      AddBytesConcat(start, data[..pos], block);
      assert data[..pos] + block == data[..pos + amount];
      sums := AddBlock(sums, block);
      assert sums.s1 < BASE && sums.s2 < BASE by {
        assert block != [];
      }
      pos := pos + amount;
    }
    assert data[..pos] == data;
    r := sums.s2 * 65536 + sums.s1;
  }

  // Section 8.2 of RFC 1950 in closed form.

  function ByteSum(data: seq<byte>): (s: nat) {
    if data == [] then 0 else ByteSum(data[..|data| - 1]) + data[|data| - 1]
  }

  /** Each byte counted once for itself and once for every byte behind it. */
  function WeightedSum(data: seq<byte>): (s: nat) {
    if data == [] then 0 else |data| * data[0] + WeightedSum(data[1..])
  }

  lemma {:induction false} WeightedSnoc(data: seq<byte>, b: byte)
    ensures WeightedSum(data + [b]) == WeightedSum(data) + ByteSum(data) + b
    decreases |data|
  {
    if data == [] {
      assert data + [b] == [b] && [b][1..] == [];
    } else {
      assert (data + [b])[1..] == data[1..] + [b];
      WeightedSnoc(data[1..], b);
      ByteSumCons(data);
      var n, x: nat := |data|, data[0];
      assert (n + 1) * x == n * x + x;
    }
  }

  lemma {:induction false} ByteSumCons(data: seq<byte>)
    requires data != []
    ensures ByteSum(data) == data[0] + ByteSum(data[1..])
    decreases |data|
  {
    var n := |data| - 1;
    if n > 0 {
      ByteSumCons(data[..n]);
      assert data[..n][1..] == data[1..][..n - 1];
    }
  }

  lemma {:induction false} SumsAgree(data: seq<byte>)
    ensures Agree(1 + ByteSum(data), |data| + WeightedSum(data), AddBytes(Sums(1, 0), data))
    decreases |data|
  {
    hide Agree, AddByte;
    if data == [] {
      StartAgrees();
    } else {
      var n := |data| - 1;
      SumsAgree(data[..n]);
      AgreeStep(1 + ByteSum(data[..n]), n + WeightedSum(data[..n]), AddBytes(Sums(1, 0), data[..n]), data[n]);
      WeightedSnoc(data[..n], data[n]);
      assert data[..n] + [data[n]] == data;
    }
  }

  lemma StartAgrees()
    ensures Agree(1, 0, Sums(1, 0))
  {
  }

  /** The checksum: both sums modulo 65521, the second in the upper half. */
  lemma ChecksumIs(data: seq<byte>)
    ensures Checksum(data) == 65536 * ((|data| + WeightedSum(data)) % 65521) + (1 + ByteSum(data)) % 65521
  {
    SumsAgree(data);
    var s := AddBytes(Sums(1, 0), data);
    assert s.s1 < 65521 && s.s2 < 65521;
    ModIs(s.s1, 65521, 0, s.s1);
    ModIs(s.s2, 65521, 0, s.s2);
  }
}
