/**
 Mapping and translating pages: the walk through four levels of tables, with new table
 frames taken from the frame bitmap and overwritten frames given back to it. The
 direct map makes every frame readable, so tables are words of physical memory.
 */
module Paging {
  import opened BitSequence
  import opened Wrappers
  import opened PageTables
  import opened PageSteps
  import B = Bitmap

  /** The translation of an address outside the direct map; 0 if its page is not mapped. */
  function Walked(ram: Ram, root: nat, v: nat): (p: nat) {
    var w := Leaf(ram, root, PageOf(v));
    if w.None? then 0 else 4096 * FrameOf(w.value) + v % 4096
  }

  /** An address of a page mapped to `phys` translates to `phys` plus its offset. */
  lemma MappedAddress(ram: Ram, root: nat, x: nat, phys: nat, flags: nat)
    requires Leaf(ram, root, PageOf(x)) == Some(LeafWord(phys, flags))
    requires FrameOf(flags) == 0 && phys < 4096 * Pow2(40)
    ensures Walked(ram, root, x) == phys - phys % 4096 + x % 4096
  {
    LeafWordIs(phys, flags);
  }

  /**
   Overwriting a mapping of `phys` writes outside a bitmap of the given bytes if and only if they
   do not cover `phys`.
   */
  lemma OverwriteLeavesBitmap(phys: nat, flags: nat, bytes: nat)
    requires FrameOf(flags) == 0 && phys < 4096 * Pow2(40)
    ensures B.ByteOfFree(0, 4096 * FrameOf(LeafWord(phys, flags))) >= bytes <==> phys >= 4096 * 8 * bytes
  {
    hide FrameOf, LeafWord, Pow2, B.ByteOfFree;
    LeafWordIs(phys, flags);
    B.FreeLeavesBitmap(phys / 4096, bytes);
    BlockBound(phys, 8 * bytes);
  }

  lemma BlockBound(phys: nat, blocks: nat)
    ensures phys / 4096 >= blocks <==> phys >= 4096 * blocks
  {
  }

  /**
   Remapping the page of the interrupt controller on a machine of 128 MiB writes far behind its
   4096 bytes of bitmap.
   */
  lemma DeviceRemapLeavesBitmap()
    ensures B.ByteOfFree(0, 4096 * FrameOf(LeafWord(0xFEE0_0000, 0))) == 130496 > 4096
    ensures 4096 * 8 * 4096 == 128 * 1024 * 1024
  {
    hide FrameOf, LeafWord, Pow2, B.ByteOfFree;
    NoAddressBits();
    LeafWordIs(0xFEE0_0000, 0);
    B.FreeLeavesBitmap(0xFEE00, 4096);
  }

  lemma NoAddressBits()
    ensures FrameOf(0) == 0 && 0xFEE0_0000 < 4096 * Pow2(40)
  {
    hide FrameOf, Pow2;
    SmallPowers();
    Pow2Adds(10, 30);
    Pow2Adds(10, 20);
    Pow2Adds(10, 10);
    FrameOfAddress(0);
  }

  class Pager {
    const frames: B.Bitmap
    const root: nat
    const hhdmOffset: nat
    const physExtent: nat
    var ram: Ram
    ghost var kind: map<nat, nat>

    ghost predicate Tree()
      reads this, frames, frames.bits
    {
      && frames.Valid() && frames.memStart == 0 && frames.blocks <= |ram| && frames.blocks <= Pow2(40)
      && RamOk(ram) && TreeOk(ram, root, kind)
    }

    ghost predicate Valid()
      reads this, frames, frames.bits
    {
      Tree() && TablesUsed(kind, frames.View())
    }

    ghost predicate Exclusive()
      requires Tree()
      reads this, frames, frames.bits
    {
      Owned(ram, kind, frames.View())
    }

    ghost predicate MayClaim(c: nat)
      requires Tree()
      reads this, frames, frames.bits
    {
      Claimable(ram, kind, frames.View(), c)
    }

    /** There are frames for all tables that are missing on the way to a page. */
    ghost predicate Reachable(page: nat)
      requires Tree()
      reads this, frames, frames.bits
    {
      Supply(frames.View(), Missing(ram, root, page))
    }

    constructor (frames: B.Bitmap, root: nat, hhdmOffset: nat, physExtent: nat, ram: Ram, ghost kind: map<nat, nat>)
      requires frames.Valid() && frames.memStart == 0 && frames.blocks <= |ram| && frames.blocks <= Pow2(40)
      requires RamOk(ram) && TreeOk(ram, root, kind) && TablesUsed(kind, frames.View())
      ensures Valid() && this.frames == frames && this.root == root && this.ram == ram && this.kind == kind
      ensures this.hhdmOffset == hhdmOffset && this.physExtent == physExtent
    {
      hide TreeOk, TablesUsed, RamOk, Pow2;
      this.frames, this.root, this.hhdmOffset, this.physExtent := frames, root, hhdmOffset, physExtent;
      this.ram, this.kind := ram, kind;
    }

    /** An empty frame; 0 if none is free or frame 0 comes first, where the kernel halts. */
    method AllocateFrame() returns (phys: nat, ghost c: nat)
      requires Valid()
      modifies this`ram, frames, frames.bits
      ensures phys != 0 <==> Supply(old(frames.View()), 1)
      ensures frames.Valid() && (phys == 0 ==> ram == old(ram) && StillUsed(old(frames.View()), frames.View()))
      ensures phys != 0 ==> phys == 4096 * c && c < frames.blocks && !old(frames.View())[c]
      ensures phys != 0 ==> frames.View() == old(frames.View())[c := true] && ram == Zeroed(old(ram), c)
    {
      ghost var v := frames.View();
      ghost var found;
      phys, found := frames.Allocate(1);
      SomeFree(v);
      FirstFrame(v, found);
      c := 0;
      if phys == 0 {
        return;
      }
      c := found.start;
      assert B.FreeRun(v, c, 1);
      assert frames.View() == v[c := true];
      var row: seq<nat> := seq(ENTRIES, i => 0);
      ram := ram[phys / 4096 := row];
    }

    /** Make sure that entry i of a table above the leaves leads to a table, and give that table. */
    method Descend(f: nat, i: nat) returns (ok: bool, child: nat)
      requires Valid() && f in kind && kind[f] >= 2 && i < ENTRIES
      modifies this`ram, this`kind, frames, frames.bits
      ensures Valid()
      ensures ok ==>
                Present(Entry(ram, f, i)) && FrameOf(Entry(ram, f, i)) == child && child in kind
                && kind[child] == old(kind[f]) - 1
      ensures forall q: nat :: Leaf(ram, root, q) == old(Leaf(ram, root, q))
      ensures forall q: nat, l: nat ::
                1 <= l <= LEVELS && old(Reach(ram, root, q, l)).Some? ==>
                  Reach(ram, root, q, l) == old(Reach(ram, root, q, l))
      ensures ok && old(Exclusive()) ==> Exclusive()
      ensures ok ==> forall x: nat :: MayClaim(x) <==> old(MayClaim(x))
      ensures old(Present(Entry(ram, f, i))) ==> ok && ram == old(ram) && frames.View() == old(frames.View())
      ensures !old(Present(Entry(ram, f, i))) && ok ==> Entry(ram, f, i) % 4096 == 7
      ensures forall g: nat, j: nat ::
                old(g in kind) && g != f ==> g in kind && Entry(ram, g, j) == old(Entry(ram, g, j))
      ensures !old(Present(Entry(ram, f, i))) ==> (ok <==> Supply(old(frames.View()), 1))
      ensures !old(Present(Entry(ram, f, i))) && ok ==> forall k: nat :: !Present(Entry(ram, child, k))
      ensures !old(Present(Entry(ram, f, i))) && ok ==>
                forall n: nat {:trigger Supply(old(frames.View()), n)} :: n > 0 ==>
                  (Supply(old(frames.View()), n) <==> Supply(frames.View(), n - 1))
    {
      hide TreeOk, FrameOf, TableWord, Pow2, Reach, Owned, Claimable, Leaf, Supply;
      TableInRange(ram, root, kind, f);
      ok, child := true, 0;
      if !Present(ram[f][i]) {
        ghost var before, levels, used := ram, kind, frames.View();
        var target, c := AllocateFrame();
        if target == 0 {
          return false, 0;
        }
        TablesAreUsed(levels, used, c);
        assert CanExtend(before, root, levels, f, i, c);
        ExtendKeepsAll(before, root, levels, used, f, i, c);
        ram := Written(ram, f, i, TableWord(target));
        kind := kind[c := kind[f] - 1];
        ExtendKeepsEntries(before, root, levels, f, i, c);
        SupplyNext(used, c);
      }
      ChildIsTable(ram, root, kind, f, i);
      child := FrameOf(ram[f][i]);
    }

    /** One level down on the way to a page. */
    method Enter(page: nat, ghost level: nat, f: nat, i: nat) returns (ok: bool, child: nat)
      requires Valid() && 1 <= level < LEVELS && Reach(ram, root, page, level + 1) == Some(f)
      requires i == Index(page, level + 1)
      requires f in kind && kind[f] == level + 1
      modifies this`ram, this`kind, frames, frames.bits
      ensures Valid()
      ensures ok ==> Reach(ram, root, page, level) == Some(child) && child in kind && kind[child] == level
      ensures forall q: nat :: Leaf(ram, root, q) == old(Leaf(ram, root, q))
      ensures ok && old(Exclusive()) ==> Exclusive()
      ensures ok ==> forall x: nat :: MayClaim(x) <==> old(MayClaim(x))
      ensures old(Reachable(page)) <==> ok && Reachable(page)
      ensures ok && old(Reach(ram, root, page, level)).None? ==> Opened(ram, root, page, level + 1)
      ensures ok ==>
                forall l: nat ::
                  level + 1 < l <= LEVELS && old(Opened(ram, root, page, l)) ==> Opened(ram, root, page, l)
      ensures ok ==>
                forall l: nat ::
                  1 <= l < level && old(Reach(ram, root, page, l)).None? ==> Reach(ram, root, page, l).None?
    {
      hide TreeOk, FrameOf, Pow2, Reach, Owned, Claimable, Leaf, TablesUsed, Index, Present, Entry, RamOk, Supply,
           Missing;
      forall l: nat | level + 1 < l <= LEVELS && Reach(ram, root, page, l).Some?
        ensures Reach(ram, root, page, l).value in kind && Reach(ram, root, page, l).value != f
      {
        ReachIsTable(ram, root, kind, page, l);
      }
      StepReach(ram, root, page, level, f);
      MissingBelow(ram, root, page, level);
      SupplyLess(frames.View(), level);
      ok, child := Descend(f, i);
      if ok {
        StepReach(ram, root, page, level, f);
        MissingBelow(ram, root, page, level);
        if level > 1 {
          StepReach(ram, root, page, level - 1, child);
          MissingBelow(ram, root, page, level - 1);
          if Reach(ram, root, page, level - 1).None? {
            forall l: nat | 1 <= l < level
              ensures Reach(ram, root, page, l).None?
            {
              NoneBelow(ram, root, page, level - 1, l);
            }
          }
        }
      }
    }

    /** The tables on the way to a page, made where they are missing. */
    method FindTable(page: nat) returns (ok: bool, pt: nat)
      requires Valid()
      modifies this`ram, this`kind, frames, frames.bits
      ensures Valid()
      ensures ok ==> Reach(ram, root, page, 1) == Some(pt) && pt in kind && kind[pt] == 1
      ensures forall q: nat :: Leaf(ram, root, q) == old(Leaf(ram, root, q))
      ensures ok && old(Exclusive()) ==> Exclusive()
      ensures ok ==> forall x: nat :: MayClaim(x) <==> old(MayClaim(x))
      ensures ok <==> old(Reachable(page))
      ensures ok ==> NewTablesOpened(old(ram), ram, root, page)
    {
      hide TreeOk, FrameOf, Pow2, Reach, Owned, Claimable, Leaf, TablesUsed, Index, Present, Entry, RamOk, Supply,
           Missing, Opened;
      RootIsTable(ram, root, kind, page);
      var pdp, pd;
      pt := 0;
      ok, pdp := Enter(page, 3, root, Index(page, 4));
      if !ok {
        return;
      }
      ok, pd := Enter(page, 2, pdp, Index(page, 3));
      if !ok {
        return;
      }
      ok, pt := Enter(page, 1, pd, Index(page, 2));
      if ok {
        NoneMissing(ram, root, page, frames.View());
      }
    }

    /** Free the frame that the leaf names, if any, and write the new leaf. */
    method SetLeaf(pt: nat, i: nat, w: nat)
      requires Valid() && pt in kind && kind[pt] == 1 && i < ENTRIES
      requires Present(Entry(ram, pt, i)) ==> FrameOf(Entry(ram, pt, i)) < 8 * frames.bits.Length
      modifies this`ram, frames, frames.bits
      ensures frames.Valid() && pt < |old(ram)| && ram == Written(old(ram), pt, i, w)
      ensures frames.View() == Freed(old(frames.View()), old(Entry(ram, pt, i)))
    {
      hide TreeOk, FrameOf, Pow2, TablesUsed;
      TableInRange(ram, root, kind, pt);
      if Present(ram[pt][i]) {
        ghost var v, o := frames.View(), FrameOf(ram[pt][i]);
        frames.MarkRegion(4096 * FrameOf(ram[pt][i]), 4096, false);
        assert frames.View() == if o < |v| then v[o := false] else v;
      }
      ram := Written(ram, pt, i, w);
    }

    /** Map a page. It fails, and the kernel halts, if the address is not aligned or memory runs out. */
    method MapPage(virt: nat, phys: nat, flags: nat) returns (ok: bool)
      requires Valid()
      requires var l := Leaf(ram, root, PageOf(virt)); l.Some? ==> FrameOf(l.value) < 8 * frames.bits.Length
      modifies this`ram, this`kind, frames, frames.bits
      ensures Tree()
      ensures ok <==> virt % 4096 == 0 && old(Reachable(PageOf(virt)))
      ensures virt % 4096 != 0 ==> ram == old(ram)
      ensures !ok ==> Valid() && forall q: nat :: Leaf(ram, root, q) == old(Leaf(ram, root, q))
      ensures ok ==> forall q: nat :: q < Pow2(9 * LEVELS) ==>
                       Leaf(ram, root, q) ==
                         if q == PageOf(virt) then Some(LeafWord(phys, flags)) else old(Leaf(ram, root, q))
      ensures ok ==> NewTablesOpened(old(ram), ram, root, PageOf(virt))
      ensures ok ==> Leaf(ram, root, PageOf(virt)).Some? && MapsWith(Leaf(ram, root, PageOf(virt)).value, phys, flags)
      ensures ok ==> var l := old(Leaf(ram, root, PageOf(virt))); Valid() <==> !(l.Some? && FrameOf(l.value) in kind)
      ensures ok && old(Exclusive()) ==> (Exclusive() <==> old(MayClaim(FrameOf(LeafWord(phys, flags)))))
    {
      hide TreeOk, FrameOf, Pow2, Reach, Owned, Claimable, Index, LeafWord, TablesUsed, Supply, Missing,
           NewTablesOpened, MapsWith, Entry;
      if virt % 4096 != 0 {
        return false;
      }
      var page, pt := PageOf(virt), 0;
      ok, pt := FindTable(page);
      if !ok {
        return;
      }
      var i, w := Index(page, 1), LeafWord(phys, flags);
      ghost var before, used, previous := ram, frames.View(), Entry(ram, pt, i);
      LeafWordIs(phys, flags);
      LeafWordMaps(phys, flags);
      TableInRange(ram, root, kind, pt);
      SetKeepsTree(ram, root, kind, pt, i, w);
      SetKeepsTablesUsed(kind, used, previous);
      PageBound(virt);
      forall q: nat | q < Pow2(9 * LEVELS)
        ensures Leaf(Written(before, pt, i, w), root, q) == if q == page then Some(w) else Leaf(before, root, q)
      {
        SetChangesOne(before, root, kind, page, w, q);
      }
      SetKeepsOpened(old(ram), ram, root, kind, pt, i, w, page);
      if Exclusive() {
        SetKeepsOwned(ram, root, kind, used, pt, i, w);
      }
      SetLeaf(pt, i, w);
    }

    method Translate(virt: nat) returns (phys: nat)
      requires Tree()
      ensures phys ==
                if hhdmOffset <= virt < hhdmOffset + physExtent then virt - hhdmOffset else Walked(ram, root, virt)
    {
      hide TreeOk, FrameOf, Pow2, Reach, Index, Entry, Present;
      if hhdmOffset <= virt < hhdmOffset + physExtent {
        return virt - hhdmOffset;
      }
      var page := PageOf(virt - virt % 4096);
      assert page == PageOf(virt);
      RootIsTable(ram, root, kind, page);
      StepReach(ram, root, page, 3, root);
      var w := ReadEntry(root, Index(page, 4));
      if !Present(w) {
        AbsentEnds(ram, root, page, 3);
        return 0;
      }
      ChildIsTable(ram, root, kind, root, Index(page, 4));
      var pdp := FrameOf(w);
      StepReach(ram, root, page, 2, pdp);
      w := ReadEntry(pdp, Index(page, 3));
      if !Present(w) {
        AbsentEnds(ram, root, page, 2);
        return 0;
      }
      ChildIsTable(ram, root, kind, pdp, Index(page, 3));
      var pd := FrameOf(w);
      StepReach(ram, root, page, 1, pd);
      w := ReadEntry(pd, Index(page, 2));
      if !Present(w) {
        return 0;
      }
      ChildIsTable(ram, root, kind, pd, Index(page, 2));
      var pt := FrameOf(w);
      w := ReadEntry(pt, Index(page, 1));
      if Present(w) {
        return 4096 * FrameOf(w) + virt % 4096;
      }
      return 0;
    }

    method ReadEntry(f: nat, i: nat) returns (w: nat)
      requires Tree() && f in kind && i < ENTRIES
      ensures w == Entry(ram, f, i)
    {
      w := ram[f][i];
    }
  }

  /** First fit finds frame 0, some other frame, or none. */
  lemma FirstFrame(used: seq<bool>, found: B.Found)
    requires B.IsFirstFit(used, 1, found)
    ensures found.Block? ==> found.start < |used| && !used[found.start] && (found.start == 0 <==> !used[0])
    ensures found.Nowhere? <==> forall i :: 0 <= i < |used| ==> used[i]
  {
    forall i: nat | i < |used|
      ensures B.FreeRun(used, i, 1) <==> !used[i]
    {
    }
    if found.Block? {
      assert B.FreeRun(used, found.start, 1);
      assert !used[0] ==> B.FreeRun(used, 0, 1);
    }
  }

  lemma NoneMissing(ram: Ram, root: nat, page: nat, used: seq<bool>)
    requires Reach(ram, root, page, 1).Some?
    ensures Supply(used, Missing(ram, root, page))
  {
    hide Entry, FrameOf, Present, Index;
  }

  lemma RootIsTable(ram: Ram, root: nat, kind: map<nat, nat>, page: nat)
    requires TreeOk(ram, root, kind)
    ensures Reach(ram, root, page, LEVELS) == Some(root) && root in kind && kind[root] == LEVELS
  {
  }

  /** Once a level is missing, so are the levels below it. */
  lemma {:induction false} AbsentEnds(ram: Ram, root: nat, page: nat, level: nat)
    requires 1 <= level < LEVELS && Reach(ram, root, page, level).None?
    ensures Reach(ram, root, page, 1).None?
  {
    hide Entry, Present, FrameOf, Index;
    if level > 1 {
      AbsentEnds(ram, root, page, level - 1);
    }
  }

  lemma StepReach(ram: Ram, root: nat, page: nat, level: nat, f: nat)
    requires 1 <= level < LEVELS && Reach(ram, root, page, level + 1) == Some(f)
    ensures var w := Entry(ram, f, Index(page, level + 1));
            Reach(ram, root, page, level) == if Present(w) then Some(FrameOf(w)) else None
  {
  }

  lemma TablesAreUsed(kind: map<nat, nat>, used: seq<bool>, c: nat)
    requires TablesUsed(kind, used) && c < |used| && !used[c]
    ensures c !in kind
  {
  }

  ghost predicate StillUsed(before: seq<bool>, after: seq<bool>) {
    |before| == |after| && forall i :: 0 <= i < |before| && before[i] ==> after[i]
  }
}
