/**
 The bitmap of 4 KiB blocks that hands out page frames: a first-fit search sped up by
 a hint below which every block is in use.
 */
module Bitmap {
  import opened BitSequence
  import opened ByteBits

  const BLOCK: nat := 4096
  const WORD: nat := 0x1_0000_0000_0000_0000

  datatype Found = Block(start: nat) | Nowhere

  // Blocks as a list of "in use" flags.

  ghost predicate FreeRun(v: seq<bool>, start: nat, n: nat) {
    start + n <= |v| && forall i :: start <= i < start + n ==> !v[i]
  }

  /** The lowest run of n free blocks in the whole map, or nowhere if there is none. */
  ghost predicate IsFirstFit(v: seq<bool>, n: nat, found: Found) {
    match found
    case Block(s) => FreeRun(v, s, n) && forall t: nat :: t < s ==> !FreeRun(v, t, n)
    case Nowhere => forall t: nat :: !FreeRun(v, t, n)
  }

  ghost function Marked(v: seq<bool>, start: nat, n: nat, used: bool): (r: seq<bool>)
    ensures |r| == |v|
  {
    seq(|v|, i requires 0 <= i < |v| => if start <= i < start + n then used else v[i])
  }

  /** First fit has one answer. */
  lemma FirstFitIsUnique(v: seq<bool>, n: nat, a: Found, b: Found)
    requires IsFirstFit(v, n, a) && IsFirstFit(v, n, b)
    ensures a == b
  {
    if a.Block? && b.Block? {
      assert FreeRun(v, a.start, n) && FreeRun(v, b.start, n);
    }
  }

  /** Freeing what first fit just gave restores the map. */
  lemma AllocateFreeRestores(v: seq<bool>, n: nat, found: Found)
    requires IsFirstFit(v, n, found) && found.Block?
    ensures Marked(Marked(v, found.start, n, true), found.start, n, false) == v
  {
    var r := Marked(Marked(v, found.start, n, true), found.start, n, false);
    assert forall i :: 0 <= i < |v| ==> r[i] == v[i];
  }

  // Regions of bytes and the blocks marked for them.

  function CeilingDivision(a: nat, b: nat): (r: nat)
    requires b > 0
  {
    (a + b - 1) / b
  }

  /** The blocks that `mark_region` marks for bytes [offset, offset + size). */
  function RegionStart(offset: nat, used: bool): (r: nat) {
    if used then offset / BLOCK else CeilingDivision(offset, BLOCK)
  }

  function RegionBlocks(size: nat, used: bool): (r: nat) {
    if used then CeilingDivision(size, BLOCK) else size / BLOCK
  }

  ghost predicate Touches(block: nat, offset: nat, size: nat) {
    size > 0 && block * BLOCK < offset + size && offset < (block + 1) * BLOCK
  }

  ghost predicate Inside(block: nat, offset: nat, size: nat) {
    offset <= block * BLOCK && (block + 1) * BLOCK <= offset + size
  }

  /**
   Every block that a used region touches is marked exactly when the last partial block leaves
   room for the start offset.
   */
  lemma UsedRegionIsCovered(offset: nat, size: nat)
    ensures (forall b: nat ::
               Touches(b, offset, size) ==>
                 RegionStart(offset, true) <= b < RegionStart(offset, true) + RegionBlocks(size, true))
       <==> size == 0 || offset % BLOCK + size <= BLOCK * RegionBlocks(size, true)
  {
    var first, n := RegionStart(offset, true), RegionBlocks(size, true);
    if size > 0 && offset % BLOCK + size > BLOCK * n {
      assert Touches(first + n, offset, size);
    }
    if size == 0 || offset % BLOCK + size <= BLOCK * n {
      forall b: nat | Touches(b, offset, size)
        ensures first <= b < first + n
      {
      }
    }
  }

  /**
   Only blocks wholly inside a freed region are released exactly when the start is aligned or the
   round-up fits in the odd bytes.
   */
  lemma FreedRegionIsInside(offset: nat, size: nat)
    ensures (forall b: nat ::
               RegionStart(offset, false) <= b < RegionStart(offset, false) + RegionBlocks(size, false) ==>
                 Inside(b, offset, size))
       <==> size < BLOCK || BLOCK * RegionStart(offset, false) - offset <= size % BLOCK
  {
    var first, n := RegionStart(offset, false), RegionBlocks(size, false);
    if size >= BLOCK && BLOCK * first - offset > size % BLOCK {
      assert !Inside(first + n - 1, offset, size);
    }
  }

  /** A region that starts one byte into a block frees a block it only partly covers. */
  lemma UnalignedFreeReachesTooFar()
    ensures RegionStart(1, false) == 1 && RegionBlocks(BLOCK, false) == 1 && !Inside(1, 1, BLOCK)
  {
  }

  /** The byte of the bitmap that freeing a block writes. */
  function ByteOfFree(memStart: nat, addr: nat): (b: nat)
    requires memStart <= addr
  {
    RegionStart(addr - memStart, false) / 8
  }

  /** Freeing block b writes outside a bitmap of the given bytes if and only if it has no bit there. */
  lemma FreeLeavesBitmap(b: nat, bytes: nat)
    ensures ByteOfFree(0, BLOCK * b) == b / 8
    ensures ByteOfFree(0, BLOCK * b) >= bytes <==> b >= 8 * bytes
  {
    assert (BLOCK * b + BLOCK - 1) / BLOCK == b;
  }

  /** A search for zero blocks is a search for one. */
  function Wanted(n: nat): nat {
    if n == 0 then 1 else n
  }

  class Bitmap {
    const bits: array<bv8>
    const blocks: nat
    const memStart: nat
    var lastDeepFragmented: nat

    constructor (bits: array<bv8>, blocks: nat, memStart: nat)
      requires blocks <= 8 * bits.Length && 8 * bits.Length < WORD / BLOCK && memStart + BLOCK * blocks < WORD
      ensures Valid() && this.bits == bits && this.blocks == blocks
      ensures this.memStart == memStart && lastDeepFragmented == 0
    {
      this.bits, this.blocks, this.memStart, lastDeepFragmented := bits, blocks, memStart, 0;
    }

    ghost predicate Shape() {
      blocks <= 8 * bits.Length && 8 * bits.Length < WORD / BLOCK && memStart + BLOCK * blocks < WORD
    }

    function Get(block: nat): bool
      requires block < 8 * bits.Length
      reads bits
    {
      TestBit(bits[block / 8], block % 8)
    }

    ghost function View(): (v: seq<bool>)
      requires Shape()
      reads bits
      ensures |v| == blocks
    {
      seq(blocks, i requires 0 <= i < blocks reads bits => Get(i))
    }

    /** Every block below the hint is in use. */
    ghost predicate Valid()
      reads this, bits
    {
      Shape() && lastDeepFragmented <= blocks && forall i :: 0 <= i < lastDeepFragmented ==> View()[i]
    }

    method Set(block: nat, value: bool)
      requires block < 8 * bits.Length
      modifies bits
      ensures forall i :: 0 <= i < 8 * bits.Length ==> Get(i) == if i == block then value else old(Get(i))
    {
      hide TestBit, WithBit;
      var addr, offset := block / 8, block % 8;
      ghost var before := bits[addr];
      bits[addr] := WithBit(bits[addr], offset, value);
      forall k: nat | k < 8
        ensures TestBit(bits[addr], k) == if k == offset then value else TestBit(before, k)
      {
        TestWithBit(before, offset, k, value);
      }
    }

    method MarkBlocks(start: nat, size: nat, value: bool)
      requires Shape() && lastDeepFragmented <= blocks && start + size <= 8 * bits.Length
      modifies bits, this`lastDeepFragmented
      ensures View() == Marked(old(View()), start, size, value)
      ensures lastDeepFragmented == if !value && start < old(lastDeepFragmented) then start else old(lastDeepFragmented)
      ensures old(Valid()) ==> Valid()
    {
      if !value && start < lastDeepFragmented {
        lastDeepFragmented := start;
      }
      ghost var before := View();
      var i := start;
      while i < start + size
        invariant start <= i <= start + size
        invariant lastDeepFragmented ==
                    if !value && start < old(lastDeepFragmented) then start else old(lastDeepFragmented)
        invariant forall j :: 0 <= j < blocks ==> Get(j) == if start <= j < i then value else before[j]
      {
        Set(i, value);
        i := i + 1;
      }
      assert View() == Marked(before, start, size, value);
      assert old(Valid()) ==> forall j :: 0 <= j < lastDeepFragmented ==> before[j] && View()[j];
    }

    /** Used regions start at the block of their first byte, freed ones at the next block boundary. */
    method MarkRegion(base: nat, sizeBytes: nat, used: bool)
      requires Shape() && lastDeepFragmented <= blocks && memStart <= base
      requires RegionStart(base - memStart, used) + RegionBlocks(sizeBytes, used) <= 8 * bits.Length
      modifies bits, this`lastDeepFragmented
      ensures View() == Marked(old(View()), RegionStart(base - memStart, used), RegionBlocks(sizeBytes, used), used)
      ensures old(Valid()) ==> Valid()
    {
      var start, size;
      if used {
        start := (base - memStart) / BLOCK;
        size := (sizeBytes + BLOCK - 1) / BLOCK;
      } else {
        start := (base - memStart + BLOCK - 1) / BLOCK;
        size := sizeBytes / BLOCK;
      }
      MarkBlocks(start, size, used);
    }

    /**
     The hinted search finds what a search from block 0 would. A search for one block moves the
     hint past its find.
     */
    method FindFreeRegion(n: nat) returns (found: Found)
      requires Valid()
      modifies this`lastDeepFragmented
      ensures IsFirstFit(View(), Wanted(n), found)
      ensures lastDeepFragmented == if n == 1 && found.Block? then found.start + 1 else old(lastDeepFragmented)
      ensures forall i :: 0 <= i < lastDeepFragmented <= blocks && !(n == 1 && found == Block(i)) ==> View()[i]
    {
      forall t: nat | t < lastDeepFragmented
        ensures !FreeRun(View(), t, Wanted(n))
      {
        assert View()[t];
      }
      var start, size := lastDeepFragmented, 0;
      var i := start;
      while i < blocks
        invariant start + size == i <= blocks && size < Wanted(n)
        invariant lastDeepFragmented == old(lastDeepFragmented) <= start
        invariant forall j :: start <= j < i ==> !View()[j]
        invariant n == 1 ==> forall j :: 0 <= j < start ==> View()[j]
        invariant forall t: nat :: t < start ==> !FreeRun(View(), t, Wanted(n))
      {
        if Get(i) {
          forall t: nat | t < i + 1
            ensures !FreeRun(View(), t, Wanted(n))
          {
            assert t < start || t + Wanted(n) <= i || View()[i];
          }
          size := 0;
          start := i + 1;
        } else {
          if n == 1 {
            lastDeepFragmented := start + 1;
          }
          size := size + 1;
          if size >= n {
            return Block(start);
          }
        }
        i := i + 1;
      }
      return Nowhere;
    }

    method Allocate(n: nat) returns (ptr: nat, ghost found: Found)
      requires Valid()
      modifies bits, this`lastDeepFragmented
      ensures Valid()
      ensures n == 0 ==> ptr == 0 && View() == old(View())
      ensures n > 0 ==> IsFirstFit(old(View()), n, found)
      ensures n > 0 && found.Nowhere? ==> ptr == 0 && View() == old(View())
      ensures n > 0 && found.Block? ==>
                ptr == memStart + found.start * BLOCK && View() == Marked(old(View()), found.start, n, true)
    {
      found := Nowhere;
      if n == 0 {
        return 0, found;
      }
      var picked := FindFreeRegion(n);
      found := picked;
      if picked.Nowhere? {
        return 0, found;
      }
      MarkBlocks(picked.start, n, true);
      ptr := memStart + picked.start * BLOCK;
    }

    method Free(base: nat, n: nat)
      requires Valid() && memStart <= base && CeilingDivision(base - memStart, BLOCK) + n <= 8 * bits.Length
      modifies bits, this`lastDeepFragmented
      ensures Valid()
      ensures View() == Marked(old(View()), CeilingDivision(base - memStart, BLOCK), n, false)
    {
      assert BLOCK * n / BLOCK == n;
      MarkRegion(base, BLOCK * n, false);
    }

    /**
     One frame. When there is none, the unchecked "not found" becomes the address one block below
     the start, modulo 2^64.
     */
    method AllocatePageframe() returns (addr: nat, ghost found: Found)
      requires Valid()
      modifies bits, this`lastDeepFragmented
      ensures Valid() && IsFirstFit(old(View()), 1, found)
      ensures found.Block? ==>
                addr == memStart + found.start * BLOCK && View() == Marked(old(View()), found.start, 1, true)
      ensures found.Nowhere? ==> addr == (memStart + WORD - BLOCK) % WORD && View() == old(View())
    {
      var region := FindFreeRegion(1);
      found := region;
      var picked := if region.Block? then region.start else WORD - 1;
      FrameAddress(memStart, picked);
      if picked < (picked + 1) % WORD {
        MarkBlocks(picked, 1, true);
      }
      addr := (memStart + picked * BLOCK) % WORD;
    }
  }

  /** Block numbers and addresses modulo 2^64. */
  lemma FrameAddress(start: nat, block: nat)
    requires block < WORD
    ensures (block + 1) % WORD == if block == WORD - 1 then 0 else block + 1
    ensures start + block * BLOCK < WORD ==> (start + block * BLOCK) % WORD == start + block * BLOCK
    ensures block == WORD - 1 ==> (start + block * BLOCK) % WORD == (start + WORD - BLOCK) % WORD
  {
    if start + block * BLOCK < WORD {
      ModIs(start + block * BLOCK, WORD, 0, start + block * BLOCK);
    }
    if block == WORD - 1 {
      ModIs(block + 1, WORD, 1, 0);
      var low := start + WORD - BLOCK;
      assert start + block * BLOCK == low + WORD * (BLOCK - 1);
      ModIs(start + block * BLOCK, WORD, low / WORD + (BLOCK - 1), low % WORD);
    } else {
      ModIs(block + 1, WORD, 0, block + 1);
    }
  }
}
