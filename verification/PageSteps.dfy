/**
 The two writes that mapping a page makes, adding an empty table and setting a leaf:
 what they do to the translation of every page and to the ownership of frames.
 */
module PageSteps {
  import opened BitSequence
  import opened Wrappers
  import opened PageTables

  // Adding an empty table under an absent entry.

  function Extended(ram: Ram, f: nat, i: nat, c: nat): (r: Ram)
    requires RamOk(ram) && f < |ram| && i < ENTRIES && c < |ram|
    ensures |r| == |ram| && RamOk(r)
  {
    Written(Zeroed(ram, c), f, i, TableWord(4096 * c))
  }

  /** Entry i of table f is absent, c is a frame that no table uses. */
  ghost predicate CanExtend(ram: Ram, root: nat, kind: map<nat, nat>, f: nat, i: nat, c: nat) {
    && RamOk(ram) && TreeOk(ram, root, kind) && f in kind && kind[f] >= 2 && i < ENTRIES && !Present(Entry(ram, f, i))
    && c < |ram| && c !in kind && c < Pow2(40) && f < |ram|
  }

  lemma EntryOfExtended(ram: Ram, root: nat, kind: map<nat, nat>, f: nat, i: nat, c: nat, g: nat, j: nat)
    requires CanExtend(ram, root, kind, f, i, c)
    ensures Entry(Extended(ram, f, i, c), g, j) ==
            if g == f && j == i then TableWord(4096 * c) else if g == c then 0 else Entry(ram, g, j)
    ensures Present(TableWord(4096 * c)) && FrameOf(TableWord(4096 * c)) == c && !Present(0)
  {
    hide TreeOk, TableWord, FrameOf, Entry;
    TableWordIs(c);
  }

  /** The new table is a child of f and no old slot leads to it. */
  lemma ExtendKeepsTree(ram: Ram, root: nat, kind: map<nat, nat>, f: nat, i: nat, c: nat)
    requires CanExtend(ram, root, kind, f, i, c)
    ensures TreeOk(Extended(ram, f, i, c), root, kind[c := kind[f] - 1])
  {
    hide TableWord, FrameOf, Entry, Present, Extended, ChildOk, SameSlot, Pow2;
    var after, levels := Extended(ram, f, i, c), kind[c := kind[f] - 1];
    forall g, j | g in levels && 0 <= j
      ensures ChildOk(after, levels, g, j)
    {
      ExtendKeepsChild(ram, root, kind, f, i, c, g, j);
    }
    forall g, j, h, k | g in levels && h in levels && 0 <= j && 0 <= k
      ensures SameSlot(after, levels, g, j, h, k)
    {
      ExtendKeepsSlots(ram, root, kind, f, i, c, g, j, h, k);
    }
  }

  lemma ExtendKeepsChild(ram: Ram, root: nat, kind: map<nat, nat>, f: nat, i: nat, c: nat, g: nat, j: nat)
    requires CanExtend(ram, root, kind, f, i, c) && (g in kind || g == c)
    ensures ChildOk(Extended(ram, f, i, c), kind[c := kind[f] - 1], g, j)
  {
    hide TableWord, FrameOf, Entry, Present, Extended, Pow2, SameSlot;
    EntryOfExtended(ram, root, kind, f, i, c, g, j);
    if g != c {
      assert ChildOk(ram, kind, g, j);
    }
  }

  lemma ExtendKeepsSlots(ram: Ram, root: nat, kind: map<nat, nat>, f: nat, i: nat, c: nat, g: nat, j: nat, h: nat,
                         k: nat)
    requires CanExtend(ram, root, kind, f, i, c) && (g in kind || g == c) && (h in kind || h == c)
    ensures SameSlot(Extended(ram, f, i, c), kind[c := kind[f] - 1], g, j, h, k)
  {
    hide TableWord, FrameOf, Entry, Present, Extended, Pow2;
    EntryOfExtended(ram, root, kind, f, i, c, g, j);
    EntryOfExtended(ram, root, kind, f, i, c, h, k);
    if g != c && h != c {
      assert SameSlot(ram, kind, g, j, h, k);
      assert ChildOk(ram, kind, g, j) && ChildOk(ram, kind, h, k);
    }
  }

  /** Every table that was reached still is; beyond that at most the new one is reached. */
  lemma {:induction false} ExtendKeepsReach(ram: Ram, root: nat, kind: map<nat, nat>, f: nat, i: nat, c: nat, page: nat,
                                            level: nat)
    requires CanExtend(ram, root, kind, f, i, c) && 1 <= level <= LEVELS
    ensures var before, after := Reach(ram, root, page, level), Reach(Extended(ram, f, i, c), root, page, level);
            if before.Some? then after == before && before.value in kind && before.value != c
            else after.None? || after.value == c
    decreases LEVELS - level
  {
    hide TableWord, FrameOf, Entry, Present, Extended, Pow2, ChildOk, SameSlot, Index;
    ReachIsTable(ram, root, kind, page, level);
    if level < LEVELS {
      ExtendKeepsReach(ram, root, kind, f, i, c, page, level + 1);
      var up := Reach(Extended(ram, f, i, c), root, page, level + 1);
      if up.Some? {
        EntryOfExtended(ram, root, kind, f, i, c, up.value, Index(page, level + 1));
      }
    }
  }

  /** No translation changes. */
  lemma ExtendKeepsLeaf(ram: Ram, root: nat, kind: map<nat, nat>, f: nat, i: nat, c: nat, page: nat)
    requires CanExtend(ram, root, kind, f, i, c)
    ensures Leaf(Extended(ram, f, i, c), root, page) == Leaf(ram, root, page)
  {
    hide TableWord, FrameOf, Entry, Present, Extended, Pow2, ChildOk, SameSlot, Index, Reach;
    ExtendKeepsReach(ram, root, kind, f, i, c, page, 1);
    ReachIsTable(ram, root, kind, page, 1);
    var t := Reach(Extended(ram, f, i, c), root, page, 1);
    if t.Some? {
      EntryOfExtended(ram, root, kind, f, i, c, t.value, Index(page, 1));
    }
  }

  // Setting a leaf.

  ghost predicate CanSet(ram: Ram, root: nat, kind: map<nat, nat>, f: nat, i: nat) {
    RamOk(ram) && TreeOk(ram, root, kind) && f in kind && kind[f] == 1 && i < ENTRIES && f < |ram|
  }

  lemma SetKeepsTree(ram: Ram, root: nat, kind: map<nat, nat>, f: nat, i: nat, w: nat)
    requires CanSet(ram, root, kind, f, i)
    ensures TreeOk(Written(ram, f, i, w), root, kind)
  {
    hide FrameOf, Entry, Present;
    var after := Written(ram, f, i, w);
    forall g, j | g in kind && 0 <= j
      ensures ChildOk(after, kind, g, j)
    {
      assert ChildOk(ram, kind, g, j);
    }
    forall g, j, h, k | g in kind && h in kind && 0 <= j && 0 <= k
      ensures SameSlot(after, kind, g, j, h, k)
    {
      assert SameSlot(ram, kind, g, j, h, k);
    }
  }

  lemma {:induction false} SetKeepsReach(ram: Ram, root: nat, kind: map<nat, nat>, f: nat, i: nat, w: nat, page: nat,
                                         level: nat)
    requires CanSet(ram, root, kind, f, i) && 1 <= level <= LEVELS
    ensures Reach(Written(ram, f, i, w), root, page, level) == Reach(ram, root, page, level)
    decreases LEVELS - level
  {
    hide FrameOf, Entry, Present, ChildOk, SameSlot, Index;
    if level < LEVELS {
      SetKeepsReach(ram, root, kind, f, i, w, page, level + 1);
      ReachIsTable(ram, root, kind, page, level + 1);
    }
  }

  /** Setting a leaf keeps the way to it. */
  lemma SetKeepsOpened(before: Ram, ram: Ram, root: nat, kind: map<nat, nat>, f: nat, i: nat, w: nat, page: nat)
    requires CanSet(ram, root, kind, f, i) && NewTablesOpened(before, ram, root, page)
    ensures NewTablesOpened(before, Written(ram, f, i, w), root, page)
  {
    hide FrameOf, Entry, Present, ChildOk, SameSlot, Index, TreeOk, Reach;
    var after := Written(ram, f, i, w);
    forall l | 1 <= l < LEVELS && Reach(before, root, page, l).None?
      ensures Opened(after, root, page, l + 1)
    {
      assert Opened(ram, root, page, l + 1);
      SetKeepsReach(ram, root, kind, f, i, w, page, l + 1);
      ReachIsTable(ram, root, kind, page, l + 1);
      OtherEntry(ram, f, i, w, Reach(ram, root, page, l + 1).value, Index(page, l + 1));
    }
  }

  lemma OtherEntry(ram: Ram, f: nat, i: nat, w: nat, g: nat, j: nat)
    requires RamOk(ram) && f < |ram| && i < ENTRIES && g != f
    ensures Entry(Written(ram, f, i, w), g, j) == Entry(ram, g, j)
  {
  }

  /** The page whose leaf was set has the new translation, every other page the old one. */
  lemma SetChangesOne(ram: Ram, root: nat, kind: map<nat, nat>, page: nat, w: nat, q: nat)
    requires Reach(ram, root, page, 1).Some? && page < Pow2(9 * LEVELS) && q < Pow2(9 * LEVELS)
    requires CanSet(ram, root, kind, Reach(ram, root, page, 1).value, Index(page, 1)) && Present(w)
    ensures var after := Written(ram, Reach(ram, root, page, 1).value, Index(page, 1), w);
            Leaf(after, root, q) == if q == page then Some(w) else Leaf(ram, root, q)
  {
    hide FrameOf, Entry, Present, ChildOk, SameSlot, Index, TreeOk, Reach, Pow2;
    var f := Reach(ram, root, page, 1);
    SetKeepsReach(ram, root, kind, f.value, Index(page, 1), w, q, 1);
    var g := Reach(ram, root, q, 1);
    if g == f && Index(q, 1) == Index(page, 1) {
      ReachIsUnique(ram, root, kind, page, q, 1);
      forall l | 1 <= l <= LEVELS
        ensures Index(page, l) == Index(q, l)
      {
        assert l == 1 || 1 < l;
      }
      SamePath(page, q, LEVELS);
    }
  }

  // Who owns a frame. `used` is the frame bitmap; frames beyond it are device memory.

  ghost predicate TablesUsed(kind: map<nat, nat>, used: seq<bool>) {
    forall f {:trigger kind[f]} :: f in kind ==> f < |used| && used[f]
  }

  ghost predicate Maps(ram: Ram, kind: map<nat, nat>, f: nat, i: nat, c: nat) {
    f in kind && kind[f] == 1 && i < ENTRIES && Present(Entry(ram, f, i)) && FrameOf(Entry(ram, f, i)) == c
  }

  /** Table frames are used; a mapped frame of the bitmap is used, is no table, and is mapped once. */
  ghost predicate Owned(ram: Ram, kind: map<nat, nat>, used: seq<bool>) {
    && TablesUsed(kind, used)
    && (forall f: nat, i: nat, c: nat :: Maps(ram, kind, f, i, c) && c < |used| ==> used[c] && c !in kind)
    && (forall f: nat, i: nat, g: nat, j: nat, c: nat ::
          Maps(ram, kind, f, i, c) && Maps(ram, kind, g, j, c) && c < |used| ==> f == g && i == j)
  }

  /** The frame is device memory, or in use by nobody but the caller. */
  ghost predicate Claimable(ram: Ram, kind: map<nat, nat>, used: seq<bool>, c: nat) {
    c >= |used| || (used[c] && c !in kind && forall f: nat, i: nat :: !Maps(ram, kind, f, i, c))
  }

  lemma MapsOfExtended(ram: Ram, root: nat, kind: map<nat, nat>, f: nat, i: nat, c: nat, g: nat, j: nat, x: nat)
    requires CanExtend(ram, root, kind, f, i, c)
    ensures Maps(Extended(ram, f, i, c), kind[c := kind[f] - 1], g, j, x) <==> Maps(ram, kind, g, j, x)
  {
    hide TableWord, FrameOf, Entry, Present, Extended, Pow2, TreeOk;
    EntryOfExtended(ram, root, kind, f, i, c, g, j);
  }

  /** A table put into a free frame disturbs nobody and claims nothing. */
  lemma ExtendKeepsOwned(ram: Ram, root: nat, kind: map<nat, nat>, used: seq<bool>, f: nat, i: nat, c: nat)
    requires CanExtend(ram, root, kind, f, i, c) && c < |used| && !used[c] && TablesUsed(kind, used)
    ensures var after, levels, now := Extended(ram, f, i, c), kind[c := kind[f] - 1], used[c := true];
            && TablesUsed(levels, now)
            && (Owned(ram, kind, used) ==> Owned(after, levels, now))
            && (forall x: nat :: Claimable(after, levels, now, x) <==> Claimable(ram, kind, used, x))
  {
    hide TableWord, FrameOf, Entry, Present, Extended, Pow2, TreeOk, Maps;
    var after, levels, now := Extended(ram, f, i, c), kind[c := kind[f] - 1], used[c := true];
    forall g: nat, j: nat, x: nat
      ensures Maps(after, levels, g, j, x) <==> Maps(ram, kind, g, j, x)
    {
      MapsOfExtended(ram, root, kind, f, i, c, g, j, x);
    }
  }

  // How many frames there are to be had.

  ghost function FreeFrames(used: seq<bool>): (n: nat) {
    if used == [] then 0 else FreeFrames(used[..|used| - 1]) + if used[|used| - 1] then 0 else 1
  }

  /** A frame can be had n times: frames are free, and none of them is frame 0, whose address means failure. */
  ghost predicate Supply(used: seq<bool>, n: nat) {
    n == 0 || (used != [] && used[0] && FreeFrames(used) >= n)
  }

  lemma {:induction false} SomeFree(used: seq<bool>)
    ensures FreeFrames(used) > 0 <==> exists i :: 0 <= i < |used| && !used[i]
    decreases |used|
  {
    if used != [] {
      var n := |used| - 1;
      SomeFree(used[..n]);
      if FreeFrames(used[..n]) > 0 {
        var i :| 0 <= i < n && !used[..n][i];
        assert !used[i];
      } else if i :| 0 <= i < n && !used[i] {
        assert !used[..n][i];
      }
    }
  }

  lemma {:induction false} TakeOne(used: seq<bool>, c: nat)
    requires c < |used| && !used[c]
    ensures FreeFrames(used[c := true]) == FreeFrames(used) - 1
    decreases |used|
  {
    var n := |used| - 1;
    if c < n {
      TakeOne(used[..n], c);
      assert used[c := true][..n] == used[..n][c := true];
    } else {
      assert used[c := true][..n] == used[..n];
    }
  }

  /** A frame taken is one less to be had. */
  lemma SupplyNext(used: seq<bool>, c: nat)
    requires Supply(used, 1) && c < |used| && !used[c]
    ensures forall n: nat {:trigger Supply(used, n)} :: n > 0 ==> (Supply(used, n) <==> Supply(used[c := true], n - 1))
  {
    TakeOne(used, c);
  }

  lemma SupplyLess(used: seq<bool>, n: nat)
    ensures Supply(used, 0) && (n > 0 && Supply(used, n) ==> Supply(used, 1))
  {
  }

  /** How many tables are missing on the way to a page. */
  ghost function Missing(ram: Ram, root: nat, page: nat): (n: nat) {
    if Reach(ram, root, page, 3).None? then 3
    else if Reach(ram, root, page, 2).None? then 2
    else if Reach(ram, root, page, 1).None? then 1
    else 0
  }

  /** The entry on the way to a page in the table of the given level: present, writable, open to user mode, no more. */
  ghost predicate Opened(ram: Ram, root: nat, page: nat, level: nat)
    requires 1 <= level <= LEVELS
  {
    var f := Reach(ram, root, page, level);
    f.Some? && Entry(ram, f.value, Index(page, level)) % 4096 == 7
  }

  /** Every table that was missing on the way to a page is entered through such an entry. */
  ghost predicate NewTablesOpened(before: Ram, after: Ram, root: nat, page: nat) {
    forall l {:trigger Reach(before, root, page, l)} :: 1 <= l < LEVELS && Reach(before, root, page, l).None? ==>
      Opened(after, root, page, l + 1)
  }

  lemma {:induction false} NoneBelow(ram: Ram, root: nat, page: nat, level: nat, l: nat)
    requires 1 <= l <= level <= LEVELS && Reach(ram, root, page, level).None?
    ensures Reach(ram, root, page, l).None?
    decreases level - l
  {
    hide Entry, FrameOf, Present, Index;
    if l < level {
      NoneBelow(ram, root, page, level, l + 1);
    }
  }

  lemma MissingBelow(ram: Ram, root: nat, page: nat, level: nat)
    requires 1 <= level < LEVELS && Reach(ram, root, page, level + 1).Some?
    ensures Reach(ram, root, page, level).None? ==> Missing(ram, root, page) == level
    ensures level == 1 && Reach(ram, root, page, 1).Some? ==> Missing(ram, root, page) == 0
  {
    hide Entry, FrameOf, Present, Index;
  }

  /** The bitmap once the frame of an entry is freed. */
  function Freed(used: seq<bool>, w: nat): (r: seq<bool>)
    ensures |r| == |used|
  {
    if Present(w) && FrameOf(w) < |used| then used[FrameOf(w) := false] else used
  }

  lemma MapsOfSet(ram: Ram, kind: map<nat, nat>, f: nat, i: nat, w: nat, g: nat, j: nat, x: nat)
    requires RamOk(ram) && f in kind && kind[f] == 1 && i < ENTRIES && f < |ram| && Present(w)
    ensures Maps(Written(ram, f, i, w), kind, g, j, x)
            <==> if g == f && j == i then x == FrameOf(w) else Maps(ram, kind, g, j, x)
  {
    hide FrameOf, Entry;
  }

  /** Ownership survives an overwrite if and only if the caller may claim the new frame. */
  lemma SetKeepsOwned(ram: Ram, root: nat, kind: map<nat, nat>, used: seq<bool>, f: nat, i: nat, w: nat)
    requires CanSet(ram, root, kind, f, i) && Present(w) && Owned(ram, kind, used)
    ensures Owned(Written(ram, f, i, w), kind, Freed(used, Entry(ram, f, i)))
            <==> Claimable(ram, kind, used, FrameOf(w))
  {
    hide FrameOf, Entry, Present, TreeOk, Maps;
    var after, now, c, o := Written(ram, f, i, w), Freed(used, Entry(ram, f, i)), FrameOf(w), FrameOf(Entry(ram, f, i));
    forall g: nat, j: nat, x: nat
      ensures Maps(after, kind, g, j, x) <==> if g == f && j == i then x == c else Maps(ram, kind, g, j, x)
    {
      MapsOfSet(ram, kind, f, i, w, g, j, x);
    }
    if Present(Entry(ram, f, i)) {
      MapsIs(ram, kind, f, i);
    }
    assert Maps(after, kind, f, i, c);
    if Owned(after, kind, now) && c < |used| {
      forall g: nat, j: nat
        ensures !Maps(ram, kind, g, j, c)
      {
        MapsOne(ram, kind, g, j, c);
      }
    }
    if Claimable(ram, kind, used, c) {
      assert Owned(after, kind, now);
    }
  }

  lemma MapsIs(ram: Ram, kind: map<nat, nat>, f: nat, i: nat)
    requires f in kind && kind[f] == 1 && i < ENTRIES && Present(Entry(ram, f, i))
    ensures Maps(ram, kind, f, i, FrameOf(Entry(ram, f, i)))
  {
  }

  lemma MapsOne(ram: Ram, kind: map<nat, nat>, f: nat, i: nat, c: nat)
    ensures Maps(ram, kind, f, i, c) ==> Present(Entry(ram, f, i)) && c == FrameOf(Entry(ram, f, i))
  {
  }

  /** The tables stay marked as used if and only if the overwritten frame is not itself a table. */
  lemma SetKeepsTablesUsed(kind: map<nat, nat>, used: seq<bool>, w: nat)
    requires TablesUsed(kind, used)
    ensures TablesUsed(kind, Freed(used, w)) <==> !(Present(w) && FrameOf(w) in kind)
  {
    hide FrameOf, Present;
  }

  /** A frame mapped in two places is freed by the overwrite of one, and the other still maps it. */
  lemma SharedFrameIsFreed(ram: Ram, kind: map<nat, nat>, used: seq<bool>, f: nat, i: nat, g: nat, j: nat, c: nat,
                           w: nat)
    requires RamOk(ram) && f < |ram| && Present(w) && c < |used|
    requires Maps(ram, kind, f, i, c) && Maps(ram, kind, g, j, c) && (f, i) != (g, j)
    ensures !Freed(used, Entry(ram, f, i))[c] && Maps(Written(ram, f, i, w), kind, g, j, c)
  {
    hide FrameOf, Entry;
  }

  lemma TableInRange(ram: Ram, root: nat, kind: map<nat, nat>, f: nat)
    requires TreeOk(ram, root, kind) && f in kind
    ensures f < |ram| && 1 <= kind[f] <= LEVELS
  {
  }

  lemma ChildIsTable(ram: Ram, root: nat, kind: map<nat, nat>, f: nat, i: nat)
    requires TreeOk(ram, root, kind) && f in kind && kind[f] >= 2 && i < ENTRIES && Present(Entry(ram, f, i))
    ensures FrameOf(Entry(ram, f, i)) in kind && kind[FrameOf(Entry(ram, f, i))] == kind[f] - 1
  {
    assert ChildOk(ram, kind, f, i);
  }

  /** Adding a table writes one entry of the others: the one that leads to it. */
  lemma ExtendKeepsEntries(ram: Ram, root: nat, kind: map<nat, nat>, f: nat, i: nat, c: nat)
    requires CanExtend(ram, root, kind, f, i, c)
    ensures var after := Extended(ram, f, i, c);
            && Present(Entry(after, f, i)) && FrameOf(Entry(after, f, i)) == c && Entry(after, f, i) % 4096 == 7
            && (forall k: nat :: !Present(Entry(after, c, k)))
            && (forall g: nat, j: nat :: g in kind && g != f ==> Entry(after, g, j) == Entry(ram, g, j))
  {
    hide TreeOk, TableWord, FrameOf, Entry, Extended, Pow2;
    EntryOfExtended(ram, root, kind, f, i, c, f, i);
    WordValues(4096 * c, 0);
    assert 4096 * c % 4096 == 0 && (4096 * c + 7) % 4096 == 7;
    forall k: nat
      ensures !Present(Entry(Extended(ram, f, i, c), c, k))
    {
      EntryOfExtended(ram, root, kind, f, i, c, c, k);
    }
    forall g: nat, j: nat | g in kind && g != f
      ensures Entry(Extended(ram, f, i, c), g, j) == Entry(ram, g, j)
    {
      EntryOfExtended(ram, root, kind, f, i, c, g, j);
    }
  }

  /** Adding a table, all together. */
  lemma ExtendKeepsAll(ram: Ram, root: nat, kind: map<nat, nat>, used: seq<bool>, f: nat, i: nat, c: nat)
    requires CanExtend(ram, root, kind, f, i, c) && c < |used| && !used[c] && TablesUsed(kind, used)
    ensures TreeOk(Extended(ram, f, i, c), root, kind[c := kind[f] - 1])
    ensures TablesUsed(kind[c := kind[f] - 1], used[c := true])
    ensures forall q: nat :: Leaf(Extended(ram, f, i, c), root, q) == Leaf(ram, root, q)
    ensures forall q: nat, l: nat :: 1 <= l <= LEVELS && Reach(ram, root, q, l).Some? ==>
                                       Reach(Extended(ram, f, i, c), root, q, l) == Reach(ram, root, q, l)
    ensures Owned(ram, kind, used) ==> Owned(Extended(ram, f, i, c), kind[c := kind[f] - 1], used[c := true])
    ensures forall x: nat ::
              Claimable(Extended(ram, f, i, c), kind[c := kind[f] - 1], used[c := true], x)
              <==> Claimable(ram, kind, used, x)
  {
    hide TreeOk, FrameOf, TableWord, Pow2, Reach, Owned, Claimable, Leaf, Extended, TablesUsed, Entry;
    ExtendKeepsTree(ram, root, kind, f, i, c);
    ExtendKeepsOwned(ram, root, kind, used, f, i, c);
    forall q: nat
      ensures Leaf(Extended(ram, f, i, c), root, q) == Leaf(ram, root, q)
    {
      ExtendKeepsLeaf(ram, root, kind, f, i, c, q);
    }
    forall q: nat, l: nat | 1 <= l <= LEVELS && Reach(ram, root, q, l).Some?
      ensures Reach(Extended(ram, f, i, c), root, q, l) == Reach(ram, root, q, l)
    {
      ExtendKeepsReach(ram, root, kind, f, i, c, q, l);
    }
  }
}
