/**
 Four-level page tables as words in memory: the tree that the table frames form, the
 translation it defines, and what adding a table or setting a leaf does to both.
 */
module PageTables {
  import opened BitSequence
  import opened Arithmetic
  import opened Wrappers

  const ENTRIES: nat := 512
  const LEVELS: nat := 4

  // Table words. Bit 0 says "present"; bits 12 to 51 are the frame number.

  function BitOr(a: nat, b: nat): (r: nat)
    decreases a + b
  {
    if a == 0 then b else if b == 0 then a
    else (if a % 2 == 1 || b % 2 == 1 then 1 else 0) + 2 * BitOr(a / 2, b / 2)
  }

  lemma BitOrHalves(a: nat, b: nat)
    ensures BitOr(a, b) / 2 == BitOr(a / 2, b / 2)
    ensures BitOr(a, b) % 2 == 1 <==> a % 2 == 1 || b % 2 == 1
  {
  }

  /** a >> k */
  function Shr(a: nat, k: nat): (r: nat) {
    if k == 0 then a else Shr(a / 2, k - 1)
  }

  /** The lowest k bits of a. */
  function Low(a: nat, k: nat): (r: nat)
    decreases k
  {
    if k == 0 then 0 else a % 2 + 2 * Low(a / 2, k - 1)
  }

  lemma {:induction false} ShrIs(a: nat, k: nat)
    ensures Shr(a, k) == a / Pow2(k)
  {
    if k > 0 {
      ShrIs(a / 2, k - 1);
      DivTwice(a, Pow2(k - 1));
    }
  }

  lemma {:induction false} LowIs(a: nat, k: nat)
    ensures Low(a, k) == a % Pow2(k)
    decreases k
  {
    if k > 0 {
      LowIs(a / 2, k - 1);
      HalfMod(a, Pow2(k - 1));
    }
  }

  lemma {:induction false} ShrOr(a: nat, b: nat, k: nat)
    ensures Shr(BitOr(a, b), k) == BitOr(Shr(a, k), Shr(b, k))
    decreases k
  {
    if k > 0 {
      BitOrHalves(a, b);
      ShrOr(a / 2, b / 2, k - 1);
    }
  }

  lemma {:induction false} LowOr(a: nat, b: nat, k: nat)
    ensures Low(BitOr(a, b), k) == BitOr(Low(a, k), Low(b, k))
    decreases k
  {
    if k > 0 {
      BitOrHalves(a, b);
      LowOr(a / 2, b / 2, k - 1);
      var x, y := Low(a, k), Low(b, k);
      assert x / 2 == Low(a / 2, k - 1) && y / 2 == Low(b / 2, k - 1);
      BitOrHalves(x, y);
    }
  }

  lemma {:induction false} LowOfSmall(a: nat, k: nat)
    requires a < Pow2(k)
    ensures Low(a, k) == a
    decreases k
  {
    if k > 0 {
      LowOfSmall(a / 2, k - 1);
    }
  }

  predicate Present(w: nat) {
    w % 2 == 1
  }

  function FrameOf(w: nat): (f: nat) {
    Low(Shr(w, 12), 40)
  }

  function TableWord(address: nat): (w: nat) {
    BitOr(BitOr(BitOr(address, 1), 2), 4)
  }

  function LeafWord(phys: nat, flags: nat): (w: nat) {
    BitOr(BitOr(phys - phys % 4096, 1), flags)
  }

  lemma FrameOfOr(a: nat, b: nat)
    ensures FrameOf(BitOr(a, b)) == BitOr(FrameOf(a), FrameOf(b))
    ensures Present(BitOr(a, b)) <==> Present(a) || Present(b)
  {
    hide BitOr, Shr, Low;
    ShrOr(a, b, 12);
    LowOr(Shr(a, 12), Shr(b, 12), 40);
    BitOrHalves(a, b);
  }

  /** The frame of an address; below the first page it is 0. */
  lemma FrameOfAddress(a: nat)
    ensures a < 4096 * Pow2(40) ==> FrameOf(a) == a / 4096
    ensures FrameOf(a) == Low(a / 4096, 40)
  {
    hide Low, Shr;
    SmallPowers();
    ShrIs(a, 12);
    hide Pow2;
    if a < 4096 * Pow2(40) {
      LowOfSmall(a / 4096, 40);
    }
  }

  /** A table word is present and names its frame. */
  lemma TableWordIs(f: nat)
    requires f < Pow2(40)
    ensures Present(TableWord(4096 * f)) && FrameOf(TableWord(4096 * f)) == f
  {
    hide FrameOf, BitOr, Pow2, Present;
    var a := 4096 * f;
    FrameOfAddress(a);
    assert a / 4096 == f;
    PresentOne();
    FrameOfOr(a, 1);
    FrameOfOr(BitOr(a, 1), 2);
    FrameOfOr(BitOr(BitOr(a, 1), 2), 4);
    SmallFrames();
    OrZero(f);
  }

  lemma PresentOne()
    ensures Present(1)
  {
  }

  lemma SmallFrames()
    ensures FrameOf(1) == 0 && FrameOf(2) == 0 && FrameOf(4) == 0
  {
    hide FrameOf;
    Pow2Monotone(0, 40);
    FrameOfAddress(1);
    FrameOfAddress(2);
    FrameOfAddress(4);
  }

  lemma OrZero(a: nat)
    ensures BitOr(a, 0) == a
  {
  }

  /** A leaf word is present and names the page's frame, with whatever address bits the flags add. */
  lemma LeafWordIs(phys: nat, flags: nat)
    ensures Present(LeafWord(phys, flags))
    ensures FrameOf(LeafWord(phys, flags)) == BitOr(phys / 4096 % Pow2(40), FrameOf(flags))
    ensures FrameOf(flags) == 0 && phys < 4096 * Pow2(40) ==> FrameOf(LeafWord(phys, flags)) == phys / 4096
  {
    hide FrameOf, BitOr, Pow2, Low, Present;
    PresentOne();
    var a := phys - phys % 4096;
    assert a / 4096 == phys / 4096;
    FrameOfAddress(a);
    LowIs(phys / 4096, 40);
    FrameOfOr(a, 1);
    FrameOfOr(BitOr(a, 1), flags);
    SmallFrames();
    OrZero(FrameOf(a));
  }

  // Every bit of the words.

  /** Bit k of a word. */
  predicate HasBit(w: nat, k: nat) {
    w / Pow2(k) % 2 == 1
  }

  lemma BitOfOr(a: nat, b: nat, k: nat)
    ensures HasBit(BitOr(a, b), k) <==> HasBit(a, k) || HasBit(b, k)
  {
    hide BitOr, Shr, Pow2;
    ShrOr(a, b, k);
    ShrIs(BitOr(a, b), k);
    ShrIs(a, k);
    ShrIs(b, k);
    BitOrHalves(Shr(a, k), Shr(b, k));
  }

  /** The bits of an address rounded down to its page. */
  lemma BitOfPage(a: nat, k: nat)
    ensures HasBit(a - a % 4096, k) <==> k >= 12 && HasBit(a, k)
  {
    hide Pow2;
    var q := a / 4096;
    SmallPowers();
    if k >= 12 {
      Pow2Adds(12, k - 12);
      DivDiv(a, 4096, Pow2(k - 12));
      DivDiv(4096 * q, 4096, Pow2(k - 12));
    } else {
      Pow2Adds(k, 12 - k);
      PowerNext(12 - k);
      LowBitsAreZero(q, Pow2(k), Pow2(11 - k));
    }
  }

  lemma DivDiv(a: nat, m: nat, n: nat)
    requires m > 0 && n > 0
    ensures m * n > 0 && a / (m * n) == a / m / n
  {
    var q := a / m;
    var r := q / n;
    MulAtLeast(m, n);
    assert a == m * q + a % m && q == n * r + q % n;
    assert m * q == (m * n) * r + m * (q % n) by {
      MulAssociates(m, n, r);
    }
    Remainder(m, n, q % n, a % m);
    ModIs(a, m * n, r, m * (q % n) + a % m);
  }

  lemma Remainder(m: nat, n: nat, x: nat, y: nat)
    requires x < n && y < m
    ensures 0 <= m * x + y < m * n
  {
    MulMonotone(x + 1, n, m);
    Distribute(x, 1, m);
  }

  lemma PowerNext(k: nat)
    requires k > 0
    ensures Pow2(k) == 2 * Pow2(k - 1)
  {
  }

  /** 2 * p * r * q divided by p is even. */
  lemma LowBitsAreZero(q: nat, p: nat, r: nat)
    requires p > 0 && p * (2 * r) == 4096
    ensures 4096 * q / p % 2 == 0
  {
    MulAssociates(p, 2 * r, q);
    ModIs(4096 * q, p, 2 * r * q, 0);
    assert 2 * r * q == 2 * (r * q);
  }

  lemma SmallBits(k: nat)
    ensures (HasBit(1, k) <==> k == 0) && (HasBit(2, k) <==> k == 1) && (HasBit(4, k) <==> k == 2)
  {
    SmallPowers();
    if k >= 3 {
      Pow2Monotone(3, k);
      ModIs(1, Pow2(k), 0, 1);
      ModIs(2, Pow2(k), 0, 2);
      ModIs(4, Pow2(k), 0, 4);
    }
  }

  /** The frame is bits 12 to 51 of a word, presence its lowest bit. */
  lemma FrameIsBits(w: nat)
    ensures FrameOf(w) == w / 4096 % Pow2(40) && (Present(w) <==> HasBit(w, 0))
  {
    hide Pow2, Low, Shr;
    SmallPowers();
    ShrIs(w, 12);
    LowIs(Shr(w, 12), 40);
  }

  /** A leaf word is present, has all bits of the flags, and from bit 12 on those of the address. */
  lemma LeafWordBits(phys: nat, flags: nat, k: nat)
    ensures HasBit(LeafWord(phys, flags), k) <==> k == 0 || HasBit(flags, k) || (k >= 12 && HasBit(phys, k))
  {
    hide BitOr, HasBit;
    var a := phys - phys % 4096;
    BitOfOr(a, 1, k);
    BitOfOr(BitOr(a, 1), flags, k);
    BitOfPage(phys, k);
    SmallBits(k);
  }

  /** The entry maps the page of an address with the given flags, and is present. */
  ghost predicate MapsWith(w: nat, phys: nat, flags: nat) {
    forall k: nat {:trigger HasBit(w, k)} ::
      HasBit(w, k) <==> k == 0 || HasBit(flags, k) || (k >= 12 && HasBit(phys, k))
  }

  lemma LeafWordMaps(phys: nat, flags: nat)
    ensures MapsWith(LeafWord(phys, flags), phys, flags)
  {
    hide LeafWord, HasBit;
    forall k: nat
      ensures HasBit(LeafWord(phys, flags), k) <==> k == 0 || HasBit(flags, k) || (k >= 12 && HasBit(phys, k))
    {
      LeafWordBits(phys, flags, k);
    }
  }

  /** A table word is present, writable and open to user mode, and from bit 12 on has the bits of the address. */
  lemma TableWordBits(address: nat, k: nat)
    requires address % 4096 == 0
    ensures HasBit(TableWord(address), k) <==> k < 3 || (k >= 12 && HasBit(address, k))
  {
    hide BitOr, HasBit;
    BitOfOr(address, 1, k);
    BitOfOr(BitOr(address, 1), 2, k);
    BitOfOr(BitOr(BitOr(address, 1), 2), 4, k);
    BitOfPage(address, k);
    SmallBits(k);
  }

  lemma {:induction false} OrAssociates(a: nat, b: nat, c: nat)
    ensures BitOr(BitOr(a, b), c) == BitOr(a, BitOr(b, c))
    decreases a + b + c
  {
    if a > 0 && b > 0 && c > 0 {
      OrAssociates(a / 2, b / 2, c / 2);
      BitOrHalves(a, b);
      BitOrHalves(b, c);
      BitOrHalves(BitOr(a, b), c);
      BitOrHalves(a, BitOr(b, c));
    }
  }

  lemma {:induction false} OrIsSum(a: nat, b: nat, n: nat)
    requires a % Pow2(n) == 0 && b < Pow2(n)
    ensures BitOr(a, b) == a + b
    decreases n
  {
    if n > 0 {
      EvenMultiple(a, Pow2(n - 1));
      OrIsSum(a / 2, b / 2, n - 1);
      BitOrHalves(a, b);
    }
  }

  lemma EvenMultiple(a: nat, p: nat)
    requires p > 0 && a % (2 * p) == 0
    ensures a % 2 == 0 && a / 2 % p == 0
  {
    var q := a / (2 * p);
    assert a == (2 * p) * q == 2 * (p * q);
    ModIs(p * q, p, q, 0);
  }

  /**
   So the words as numbers: a table word is its address plus 7, a leaf word its page plus the
   flags and the present bit.
   */
  lemma WordValues(phys: nat, flags: nat)
    requires flags < 4096
    ensures TableWord(phys - phys % 4096) == phys - phys % 4096 + 7
    ensures LeafWord(phys, flags) == phys - phys % 4096 + flags + if flags % 2 == 0 then 1 else 0
  {
    hide BitOr, Pow2;
    SmallPowers();
    var a := phys - phys % 4096;
    assert a % 4096 == 0 by {
      ModIs(a, 4096, phys / 4096, 0);
    }
    SmallOrs(flags);
    OrAssociates(a, 1, 2);
    OrAssociates(a, 3, 4);
    OrIsSum(a, 7, 12);
    OrAssociates(a, 1, flags);
    OrIsSum(a, BitOr(1, flags), 12);
  }

  lemma SmallOrs(flags: nat)
    ensures BitOr(1, 2) == 3 && BitOr(3, 4) == 7
    ensures BitOr(1, flags) == flags + if flags % 2 == 0 then 1 else 0
  {
    assert BitOr(0, flags / 2) == flags / 2;
    assert BitOr(1, 2) == 1 + 2 * BitOr(0, 1);
    assert BitOr(3, 4) == 1 + 2 * BitOr(1, 2);
  }

  // Pages and the index of a page at each level.

  /** The page of a 64-bit virtual address: sign-extension bits are stripped. */
  function PageOf(v: nat): (page: nat) {
    v % 0x1_0000_0000_0000 / 4096
  }

  function Index(page: nat, level: nat): (i: nat)
    requires 1 <= level <= LEVELS
    ensures i < ENTRIES
    decreases level
  {
    if level == 1 then page % 512 else Index(page / 512, level - 1)
  }

  /** The indices as shifts and masks of the address: nine bits each, above a twelve-bit offset. */
  lemma IndexIsShift(v: nat)
    ensures Index(PageOf(v), 1) == v / 0x1000 % 512
    ensures Index(PageOf(v), 2) == v / 0x20_0000 % 512
    ensures Index(PageOf(v), 3) == v / 0x4000_0000 % 512
    ensures Index(PageOf(v), 4) == v / 0x80_0000_0000 % 512
  {
    var r := v % 0x1_0000_0000_0000;
    var p := r / 4096;
    assert p / 512 == r / 0x20_0000;
    assert p / 512 / 512 == r / 0x4000_0000;
    assert p / 512 / 512 / 512 == r / 0x80_0000_0000;
    assert Index(p, 4) == Index(p / 512, 3) == Index(p / 512 / 512, 2);
    HighBitsFall(v, 0x1000, 0x1000_0000_00);
    HighBitsFall(v, 0x20_0000, 0x800_0000);
    HighBitsFall(v, 0x4000_0000, 0x4_0000);
    HighBitsFall(v, 0x80_0000_0000, 0x200);
  }

  /** Bits from 48 on do not show in a nine-bit field below them. */
  lemma HighBitsFall(v: nat, unit: nat, fields: nat)
    requires unit > 0 && fields % 512 == 0 && unit * fields == 0x1_0000_0000_0000
    ensures v % 0x1_0000_0000_0000 / unit % 512 == v / unit % 512
  {
    var q, r := v / 0x1_0000_0000_0000, v % 0x1_0000_0000_0000;
    MulAssociates(unit, fields, q);
    assert v == unit * (fields * q + r / unit) + r % unit;
    ModIs(v, unit, fields * q + r / unit, r % unit);
    var f := fields / 512;
    MulAssociates(512, f, q);
    ModIs(fields * q + r / unit, 512, f * q + r / unit / 512, r / unit % 512);
  }

  /** Two pages with the same indices are the same. */
  lemma {:induction false} SamePath(p: nat, q: nat, levels: nat)
    requires 1 <= levels <= LEVELS && p < Pow2(9 * levels) && q < Pow2(9 * levels)
    requires forall l :: 1 <= l <= levels ==> Index(p, l) == Index(q, l)
    ensures p == q
    decreases levels
  {
    SmallPowers();
    assert Index(p, 1) == Index(q, 1);
    if levels > 1 {
      Pow2Adds(9, 9 * (levels - 1));
      forall l | 1 <= l <= levels - 1
        ensures Index(p / 512, l) == Index(q / 512, l)
      {
        assert Index(p, l + 1) == Index(q, l + 1);
      }
      hide Pow2, Index;
      SamePath(p / 512, q / 512, levels - 1);
    }
  }

  lemma PageBound(v: nat)
    ensures PageOf(v) < Pow2(9 * LEVELS)
  {
    SmallPowers();
    Pow2Adds(9, 9);
    Pow2Adds(18, 18);
  }

  // Memory.

  type Ram = seq<seq<nat>>

  /** A word of a frame; 0 outside memory. */
  function Entry(ram: Ram, f: nat, i: nat): (w: nat) {
    if f < |ram| && i < |ram[f]| then ram[f][i] else 0
  }

  ghost predicate RamOk(ram: Ram) {
    forall f :: 0 <= f < |ram| ==> |ram[f]| == ENTRIES
  }

  function Written(ram: Ram, f: nat, i: nat, w: nat): (r: Ram)
    requires RamOk(ram) && f < |ram| && i < ENTRIES
    ensures |r| == |ram| && RamOk(r)
    ensures forall g: nat, j: nat :: Entry(r, g, j) == if g == f && j == i then w else Entry(ram, g, j)
  {
    var row: seq<nat> := ram[f][i := w];
    ram[f := row]
  }

  function Zeroed(ram: Ram, c: nat): (r: Ram)
    requires RamOk(ram) && c < |ram|
    ensures |r| == |ram| && RamOk(r)
    ensures forall g: nat, j: nat :: Entry(r, g, j) == if g == c then 0 else Entry(ram, g, j)
  {
    var row: seq<nat> := seq(ENTRIES, i => 0);
    ram[c := row]
  }

  // The tree of tables.

  /** Frame f holds a table above the leaves and its entry i points to a table below it. */
  ghost predicate ChildOk(ram: Ram, kind: map<nat, nat>, f: nat, i: nat)
    requires f in kind
  {
    var w := Entry(ram, f, i);
    i < ENTRIES && kind[f] >= 2 && Present(w) ==> FrameOf(w) in kind && kind[FrameOf(w)] == kind[f] - 1
  }

  ghost predicate SameSlot(ram: Ram, kind: map<nat, nat>, f: nat, i: nat, g: nat, j: nat)
    requires f in kind && g in kind
  {
    var v, w := Entry(ram, f, i), Entry(ram, g, j);
    i < ENTRIES && j < ENTRIES && kind[f] >= 2 && kind[g] >= 2 && Present(v) && Present(w) && FrameOf(v) == FrameOf(w)
    ==> f == g && i == j
  }

  /**
   `kind` gives the level of every table frame: 4 for the root alone, one less at each step down,
   each table entered from one slot only.
   */
  ghost predicate TreeOk(ram: Ram, root: nat, kind: map<nat, nat>) {
    && root in kind && kind[root] == LEVELS
    && (forall f {:trigger kind[f]} ::
          f in kind ==> f < |ram| && 1 <= kind[f] <= LEVELS && (kind[f] == LEVELS ==> f == root))
    && (forall f, i {:trigger ChildOk(ram, kind, f, i)} :: f in kind && 0 <= i ==> ChildOk(ram, kind, f, i))
    && (forall f, i, g, j {:trigger SameSlot(ram, kind, f, i, g, j)} ::
          f in kind && g in kind && 0 <= i && 0 <= j ==> SameSlot(ram, kind, f, i, g, j))
  }

  /** The table at a level on the way to a page. */
  function Reach(ram: Ram, root: nat, page: nat, level: nat): (f: Option<nat>)
    requires 1 <= level <= LEVELS
    decreases LEVELS - level
  {
    if level == LEVELS then Some(root)
    else
      var up := Reach(ram, root, page, level + 1);
      if up.None? then None
      else
        var w := Entry(ram, up.value, Index(page, level + 1));
        if Present(w) then Some(FrameOf(w)) else None
  }

  /** The leaf word of a page, if it is mapped. */
  function Leaf(ram: Ram, root: nat, page: nat): (w: Option<nat>) {
    var t := Reach(ram, root, page, 1);
    if t.None? then None
    else
      var w := Entry(ram, t.value, Index(page, 1));
      if Present(w) then Some(w) else None
  }

  lemma {:induction false} ReachIsTable(ram: Ram, root: nat, kind: map<nat, nat>, page: nat, level: nat)
    requires TreeOk(ram, root, kind) && 1 <= level <= LEVELS
    ensures var t := Reach(ram, root, page, level); t.Some? ==> t.value in kind && kind[t.value] == level
    decreases LEVELS - level
  {
    hide Entry, FrameOf, Present, Index;
    if level < LEVELS {
      ReachIsTable(ram, root, kind, page, level + 1);
      var up := Reach(ram, root, page, level + 1);
      if up.Some? {
        assert ChildOk(ram, kind, up.value, Index(page, level + 1));
      }
    }
  }

  lemma SlotOf(ram: Ram, root: nat, kind: map<nat, nat>, f: nat, i: nat, g: nat, j: nat)
    requires TreeOk(ram, root, kind) && f in kind && g in kind
    requires i < ENTRIES && j < ENTRIES && kind[f] >= 2 && kind[g] >= 2
    requires Present(Entry(ram, f, i)) && Present(Entry(ram, g, j))
    requires FrameOf(Entry(ram, f, i)) == FrameOf(Entry(ram, g, j))
    ensures f == g && i == j
  {
    assert SameSlot(ram, kind, f, i, g, j);
  }

  /** Two pages that meet in a table took the same way to it. */
  lemma {:induction false} ReachIsUnique(ram: Ram, root: nat, kind: map<nat, nat>, p: nat, q: nat, level: nat)
    requires TreeOk(ram, root, kind) && 1 <= level <= LEVELS
    requires Reach(ram, root, p, level).Some? && Reach(ram, root, p, level) == Reach(ram, root, q, level)
    ensures forall l :: level < l <= LEVELS ==> Index(p, l) == Index(q, l)
    decreases LEVELS - level
  {
    hide TreeOk, Entry, FrameOf, Present, Index;
    if level < LEVELS {
      var a, b := Reach(ram, root, p, level + 1), Reach(ram, root, q, level + 1);
      ReachIsTable(ram, root, kind, p, level + 1);
      ReachIsTable(ram, root, kind, q, level + 1);
      SlotOf(ram, root, kind, a.value, Index(p, level + 1), b.value, Index(q, level + 1));
      ReachIsUnique(ram, root, kind, p, q, level + 1);
    }
  }
}
