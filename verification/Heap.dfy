/**
 The kernel heap: size-class bins of free tags, split on allocation, coalesced on
 release. The page allocator is a parameter: a call that needs pages is told where they
 are, or 0 if there are none.
 */
module Heap {
  import opened BitSequence
  import opened HeapModel
  import opened HeapBins
  import opened HeapGeometry
  import opened HeapSteps

  method GetExp(size: nat) returns (e: int)
    requires size < LIMIT
    ensures size < Pow2(MIN_EXP) ==> e == -1
    ensures size >= Pow2(MIN_EXP) ==> MIN_EXP <= e < MAX_EXP && IsExp(size, e)
  {
    SmallPowers();
    if size < 256 {
      return -1;
    }
    var shift: nat := MIN_EXP;
    var power: nat := 256;
    while shift < MAX_EXP
      invariant MIN_EXP <= shift <= MAX_EXP && power == Pow2(shift)
      invariant shift == MIN_EXP || Pow2(shift - 1) <= size
    {
      if power > size {
        break;
      }
      shift := shift + 1;
      power := 2 * power;
    }
    if shift == MAX_EXP {
      LimitIsPower();
    }
    return shift - 1;
  }

  lemma LimitIsPower()
    ensures Pow2(MAX_EXP) == LIMIT
  {
    SmallPowers();
    Pow2Adds(8, 8);
    Pow2Adds(16, 16);
  }

  /** The bin of a tag: at least the smallest one. */
  method BinOf(realSize: nat) returns (bin: nat)
    requires HEADER <= realSize < LIMIT
    ensures IsBin(realSize, bin)
  {
    var e := GetExp(realSize - HEADER);
    bin := if e < MIN_EXP then MIN_EXP else e;
  }

  // Sizes, in the 32-bit arithmetic of the allocator.

  function PagesFor(size: nat): (pages: nat)
    ensures MIN_PAGES <= pages
  {
    var usage := (size + HEADER) % LIMIT;
    var pages := usage / PAGE + (if usage % PAGE != 0 then 1 else 0);
    if pages < MIN_PAGES then MIN_PAGES else pages
  }

  function ObtainedSize(size: nat): (bytes: nat) {
    PagesFor(size) * PAGE % LIMIT
  }

  /** A new chunk is large enough exactly when the request and its header fit in all but the last page below 4 GiB. */
  lemma ObtainedIsEnough(size: nat)
    ensures ObtainedSize(size) >= size + HEADER <==> size + HEADER <= LIMIT - PAGE
    ensures size + HEADER <= LIMIT - PAGE ==> ObtainedSize(size) == PAGE * PagesFor(size) < LIMIT
  {
  }

  /** The fewest pages of 4 KiB, sixteen at least, that hold the request and its 48 bytes of header. */
  lemma PagesAreLeast(size: nat, pages: nat)
    requires size + 48 < 0x1_0000_0000
    ensures PagesFor(size) >= 16 && 4096 * PagesFor(size) >= size + 48
    ensures pages >= 16 && 4096 * pages >= size + 48 ==> PagesFor(size) <= pages
  {
    ModIs(size + 48, LIMIT, 0, size + 48);
  }

  /** A request of 4 GiB is answered with the minimum chunk. */
  lemma HugeRequestGetsMinimum()
    ensures ObtainedSize(LIMIT) == MIN_PAGES * PAGE < LIMIT
  {
  }

  /** The bytes `realloc` copies: both sizes go through a signed 32-bit integer, and the result back to 64 bits. */
  function CopyCount(oldSize: nat, size: nat): (n: nat)
    requires oldSize < LIMIT
  {
    var kept := Signed32(oldSize);
    var wanted := Signed32(size % LIMIT);
    var n := if kept > wanted then wanted else kept;
    if n >= 0 then n else n + 0x1_0000_0000_0000_0000
  }

  function Signed32(v: nat): (i: int)
    requires v < LIMIT
  {
    if v < 0x8000_0000 then v else v - LIMIT
  }

  /** The copy keeps exactly the common prefix if and only if both sizes are below 2 GiB. */
  lemma CopyCountIsMinimum(oldSize: nat, size: nat)
    requires oldSize < LIMIT && size < LIMIT
    ensures CopyCount(oldSize, size) == (if oldSize < size then oldSize else size)
       <==> oldSize < 0x8000_0000 && size < 0x8000_0000
  {
  }

  class Heap {
    var tags: Memory
    var freePages: seq<nat>
    var completePages: seq<int>
    const bytes: array<byte>
    ghost var bins: seq<seq<nat>>
    ghost var chunks: map<nat, nat>
    ghost var home: map<nat, nat>
    ghost var live: map<nat, nat>

    ghost function Snap(): State
      reads this
    {
      State(tags, freePages, completePages, bins, chunks, home)
    }

    ghost predicate Valid()
      reads this
    {
      Consistent(Snap(), live, {}) && bytes.Length == LIMIT
    }

    constructor (memory: array<byte>)
      requires memory.Length == LIMIT
      ensures Valid() && bytes == memory && live == map[] && chunks == map[]
    {
      bytes := memory;
      tags := map[];
      freePages := seq(MAX_EXP, i => 0);
      completePages := seq(MAX_EXP, i => 0);
      bins := seq(MAX_EXP, i => []);
      chunks := map[];
      home := map[];
      live := map[];
    }

    method InsertTag(a: nat, index: int) returns (ghost bin: nat)
      requires BinsOk(tags, freePages, bins) && a in tags && a != 0 && tags[a].index == -1
      requires index < MAX_EXP && (index < 0 ==> HEADER <= tags[a].realSize < LIMIT)
      modifies this`tags, this`freePages, this`bins
      ensures bin < MAX_EXP && (if index < 0 then IsBin(old(tags[a].realSize), bin) else bin == index)
      ensures Snap() == Inserted(old(Snap()), a, bin)
    {
      hide BinsOk, IsExp;
      var realIndex: nat;
      if index < 0 {
        realIndex := BinOf(tags[a].realSize);
      } else {
        realIndex := index;
      }
      BinCount(Snap());
      InsertKeepsBins(tags, freePages, bins, a, realIndex);
      UsedIsUnlinked(Snap(), a);
      tags := tags[a := tags[a].(index := realIndex)];
      if freePages[realIndex] != 0 {
        tags := tags[freePages[realIndex] := tags[freePages[realIndex]].(prev := a)];
        tags := tags[a := tags[a].(next := freePages[realIndex])];
      }
      freePages := freePages[realIndex := a];
      bin := realIndex;
      bins := bins[bin := [a] + bins[bin]];
    }

    method RemoveTag(a: nat)
      requires BinsOk(tags, freePages, bins) && a in tags && tags[a].index >= 0
      modifies this`tags, this`freePages, this`bins
      ensures Snap() == Removed(old(Snap()), a)
    {
      hide BinsOk, Without;
      BinCount(Snap());
      RemoveKeepsBins(tags, freePages, bins, a);
      bins := bins[tags[a].index := Without(bins[tags[a].index], a)];
      if freePages[tags[a].index] == a {
        freePages := freePages[tags[a].index := tags[a].next];
      }
      if tags[a].prev != 0 {
        tags := tags[tags[a].prev := tags[tags[a].prev].(next := tags[a].next)];
      }
      if tags[a].next != 0 {
        tags := tags[tags[a].next := tags[tags[a].next].(prev := tags[a].prev)];
      }
      tags := tags[a := tags[a].(next := 0, prev := 0, index := -1)];
    }

    /** Tag a takes over its right neighbour, whose header stays in memory but no longer counts as a tag. */
    method Join(a: nat)
      requires Geometry(tags, chunks, home) && a in tags && tags[a].right != 0
      modifies this`tags
      ensures Snap() == Merged(old(Snap()), a)
    {
      hide Geometry;
      RightOf(tags, chunks, home, a);
      var right := tags[a].right;
      tags := tags[a := tags[a].(realSize := tags[a].realSize + tags[right].realSize)];
      tags := tags[a := tags[a].(right := tags[right].right)];
      if tags[right].right != 0 {
        tags := tags[tags[right].right := tags[tags[right].right].(left := a)];
      }
      tags := tags - {right};
    }

    method MeltLeft(a: nat) returns (left: nat)
      requires Geometry(tags, chunks, home) && a in tags && tags[a].left != 0
      modifies this`tags
      ensures left == old(tags[a].left) && left in old(tags) && old(tags[left].right) == a && a != 0
      ensures Snap() == Merged(old(Snap()), left)
    {
      hide Geometry;
      LeftOf(tags, chunks, home, a);
      left := tags[a].left;
      Join(left);
    }

    method AbsorbRight(a: nat)
      requires BinsOk(tags, freePages, bins) && Geometry(tags, chunks, home)
      requires a in tags && tags[a].right != 0 && tags[a].right in tags && tags[tags[a].right].index >= 0
      modifies this`tags, this`freePages, this`bins
      ensures var s := old(Snap()); var right := s.tags[a].right;
              && Geometry(Removed(s, right).tags, s.chunks, s.home)
              && a in Removed(s, right).tags && Removed(s, right).tags[a].right == right
              && Snap() == Merged(Removed(s, right), a)
    {
      hide BinsOk, Geometry, RemovedTags, MergedTags;
      var right := tags[a].right;
      RemoveKeepsShape(Snap(), right);
      PlacesKeepGeometry(tags, Removed(Snap(), right).tags, chunks, home);
      RemoveTag(right);
      Join(a);
    }

    /** Cut tag a after its payload. The size field of the new tag is whatever was in memory there. */
    method Carve(a: nat, leftover: nat) returns (b: nat)
      requires CanSplit(Snap(), a)
      modifies this`tags, this`home
      ensures b == a + HEADER + old(tags[a].size) && Snap() == Split(old(Snap()), a, leftover)
    {
      var remainder := tags[a].realSize - HEADER - tags[a].size;
      b := a + HEADER + tags[a].size;
      tags := tags[b := Tag(leftover, remainder, -1, a, tags[a].right, 0, 0)];
      if tags[b].right != 0 {
        tags := tags[tags[b].right := tags[tags[b].right].(left := b)];
      }
      tags := tags[a := tags[a].(right := b)];
      tags := tags[a := tags[a].(realSize := tags[a].realSize - remainder)];
      home := home[b := home[a]];
    }

    method SplitTag(a: nat, leftover: nat)
      requires Consistent(Snap(), live, {a}) && Settled(tags, a)
      requires HEADER + tags[a].size + HEADER <= tags[a].realSize
      modifies this`tags, this`freePages, this`bins, this`home
      ensures Consistent(Snap(), live, {a})
      ensures a in tags && tags[a].size == old(tags[a].size) && tags[a].realSize == HEADER + tags[a].size
    {
      hide BinsOk, Geometry, Counted, Sorted, NoFreeNeighbours, IsBin, SplitTags, InsertedTags, Settled;
      RoomToSplit(Snap(), a);
      SplitPrepares(Snap(), a, leftover);
      SplitKeeps(Snap(), live, {a}, a, leftover);
      var b := Carve(a, leftover);
      assert {a} + {b} == {a, b};
      ghost var s := Snap();
      ghost var bin := InsertTag(b, -1);
      InsertPart(s, live, a, b, bin);
    }

    /** A new chunk, all in one busy tag; 0 if there are no pages for it. */
    method AllocateNewTag(size: nat, region: nat) returns (a: nat, pages: nat)
      requires Consistent(Snap(), live, {}) && size + HEADER <= LIMIT - PAGE
      requires region != 0 ==> FreshRegion(chunks, region, PagesFor(size))
      modifies this`tags, this`chunks, this`home
      ensures a == region && pages == PagesFor(size)
      ensures if a == 0 then Snap() == old(Snap()) else
                Snap() == Added(old(Snap()), a, pages, size) && Consistent(Snap(), live, {a})
                && HEADER + size <= tags[a].realSize
    {
      hide BinsOk, Geometry, Counted, Sorted, NoFreeNeighbours, FreshRegion;
      var usage := (size + HEADER) % LIMIT;
      pages := usage / PAGE;
      if usage % PAGE != 0 {
        pages := pages + 1;
      }
      if pages < MIN_PAGES {
        pages := MIN_PAGES;
      }
      a := region;
      if a == 0 {
        return;
      }
      ObtainedIsEnough(size);
      AddKeeps(Snap(), live, {}, a, pages, size);
      tags := tags[a := Tag(size, pages * PAGE % LIMIT, -1, 0, 0, 0, 0)];
      chunks := chunks[a := pages];
      home := home[a := a];
      assert {} + {a} == {a};
    }

    /** The first tag of a bin with room for the request and one more header. */
    method FindTag(bin: nat, size: nat) returns (a: nat)
      requires BinsOk(tags, freePages, bins) && Geometry(tags, chunks, home) && bin < MAX_EXP
      ensures a == 0 ==> forall x :: x in bins[bin] ==> x in tags && !Roomy(tags[x], size)
      ensures a != 0 ==> TakesFirst(tags, bins[bin], size, a)
    {
      hide BinsOk, Geometry, TagOk;
      BinCount(Snap());
      BinIsList(tags, freePages, bins, bin);
      a := freePages[bin];
      ghost var k: nat := 0;
      while a != 0
        invariant k <= |bins[bin]| && a == (if k == |bins[bin]| then 0 else bins[bin][k])
        invariant forall j :: 0 <= j < k ==> bins[bin][j] in tags && !Roomy(tags[bins[bin][j]], size)
        decreases |bins[bin]| - k
      {
        assert k < |bins[bin]|;
        Links(tags, bins[bin], bin, freePages[bin], k);
        NotNull(tags, chunks, home, a);
        if tags[a].realSize - HEADER >= size + HEADER {
          assert FirstRoomy(tags, bins[bin], k, size);
          return;
        }
        a := tags[a].next;
        k := k + 1;
      }
      assert k == |bins[bin]| by {
        if k < |bins[bin]| {
          Links(tags, bins[bin], bin, freePages[bin], k);
        }
      }
    }

    /** A busy tag with room for the request: the first roomy one of its bin, else a new chunk. */
    method Obtain(size: nat, region: nat) returns (a: nat, asked: nat, ghost bin: nat)
      requires Consistent(Snap(), live, {}) && size + HEADER <= LIMIT - PAGE
      requires region != 0 ==> FreshRegion(chunks, region, PagesFor(size))
      modifies this`tags, this`freePages, this`completePages, this`bins, this`chunks, this`home
      ensures IsBin(size + HEADER, bin) && |old(bins)| == MAX_EXP
      ensures asked != 0 ==> forall x :: x in old(bins)[bin] ==> x in old(tags) && !Roomy(old(tags)[x], size)
      ensures asked == 0 ==> TakesFirst(old(tags), old(bins)[bin], size, a) && a != 0
      ensures asked != 0 ==> asked == PagesFor(size) && a == region
      ensures chunks == if asked != 0 && region != 0 then old(chunks)[region := asked] else old(chunks)
      ensures a == 0 ==> Snap() == old(Snap())
      ensures a != 0 ==> Consistent(Snap(), live, {a}) && Settled(tags, a) && HEADER + size <= tags[a].realSize
      ensures asked == 0 ==> a in old(tags) && tags[a].realSize == old(tags)[a].realSize
      ensures a != 0 && asked != 0 ==> tags[a].realSize == PAGE * asked
    {
      hide BinsOk, Geometry, Counted, Sorted, NoFreeNeighbours, LiveOk, RemovedTags, Without, FreshRegion, IsExp;
      var index := GetExp(size);
      if index < MIN_EXP {
        index := MIN_EXP;
      }
      bin := index;
      BinCount(Snap());
      CountsBounded(Snap());
      a := FindTag(index, size);
      asked := 0;
      if a == 0 {
        a, asked := AllocateNewTag(size, region);
      } else {
        ghost var s := Snap();
        assert a in bins[index] && Roomy(tags[a], size);
        InOneBin(tags, freePages, bins, index, a);
        RemovedIsSettled(s, a);
        RemoveKeeps(s, live, {}, a);
        assert {} + {a} == {a};
        RemoveTag(a);
        if tags[a].left == 0 && tags[a].right == 0 {
          completePages := completePages[index := completePages[index] - 1];
        }
        assert Snap() == Adjusted(Removed(s, a), index, if Complete(s.tags[a]) then -1 else 0);
      }
    }

    /** Record the request in a busy tag and give back the excess, if it is worth a tag. */
    method Trim(a: nat, size: nat)
      requires Consistent(Snap(), live, {a}) && Settled(tags, a) && HEADER + size <= tags[a].realSize
      modifies this`tags, this`freePages, this`bins, this`home
      ensures Consistent(Snap(), live, {a}) && a in tags && tags[a].size == size && HEADER + size <= tags[a].realSize
      ensures a in old(tags) && Trimmed(old(tags)[a].realSize, tags[a])
    {
      hide BinsOk, Geometry, Counted, Sorted, NoFreeNeighbours, IsExp;
      NotNull(tags, chunks, home, a);
      ResizeKeeps(Snap(), live, {a}, a, size);
      tags := tags[a := tags[a].(size := size)];
      SmallPowers();
      var remainder := Signed32((tags[a].realSize - size - 2 * HEADER) % LIMIT);
      if remainder > 0 {
        var childIndex := GetExp(remainder);
        if childIndex >= 0 {
          var leftover: nat := *;
          SplitTag(a, leftover);
        }
      }
    }

    method Malloc(size: nat, region: nat) returns (ptr: nat, asked: nat, ghost bin: nat)
      requires Valid() && size + HEADER <= LIMIT - PAGE
      requires region != 0 ==> FreshRegion(chunks, region, PagesFor(size))
      modifies this`tags, this`freePages, this`completePages, this`bins, this`chunks, this`home, this`live
      ensures Valid()
      ensures IsBin(size + HEADER, bin) && |old(bins)| == MAX_EXP
      ensures asked != 0 ==> forall x :: x in old(bins)[bin] ==> x in old(tags) && !Roomy(old(tags)[x], size)
      ensures asked == 0 ==> HEADER < ptr && TakesFirst(old(tags), old(bins)[bin], size, ptr - HEADER)
      ensures asked != 0 ==> asked == PagesFor(size)
      ensures ptr == 0 <==> asked != 0 && region == 0
      ensures ptr == 0 ==> Snap() == old(Snap()) && live == old(live)
      ensures ptr != 0 ==> HEADER < ptr && ptr - HEADER !in old(live) && live == old(live)[ptr - HEADER := size]
      ensures ptr != 0 && asked == 0 ==> ptr - HEADER in old(tags)
      ensures ptr != 0 ==> ptr - HEADER in tags
                           && Trimmed(if asked == 0 then old(tags)[ptr - HEADER].realSize else PAGE * asked,
                                      tags[ptr - HEADER])
      ensures chunks == if asked != 0 && region != 0 then old(chunks)[region := asked] else old(chunks)
    {
      hide BinsOk, Geometry, Counted, Sorted, NoFreeNeighbours, FreshRegion, IsBin, Settled, TakesFirst;
      var a: nat;
      a, asked, bin := Obtain(size, region);
      if a == 0 {
        return 0, asked, bin;
      }
      NotNull(tags, chunks, home, a);
      Trim(a, size);
      Adopt(Snap(), live, {a}, a);
      live := live[a := size];
      assert {a} - {a} == {};
      ptr := a + HEADER;
    }

    /** Merge a busy tag with its free neighbours. */
    method Coalesce(first: nat) returns (a: nat)
      requires Consistent(Snap(), live, {first}) && first in home
      modifies this`tags, this`freePages, this`bins
      ensures Consistent(Snap(), live, {a}) && Settled(tags, a) && a in home && home[a] == home[first]
    {
      hide BinsOk, Geometry, Counted, Sorted, NoFreeNeighbours, RemovedTags, MergedTags, Without;
      a := first;
      Surroundings(Snap(), a);
      while tags[a].left != 0 && tags[tags[a].left].index >= 0
        invariant Consistent(Snap(), live, {a}) && a in home && home[a] == home[first]
        invariant tags[a].left != 0 ==> tags[a].left in tags && tags[a].left < a
        decreases a
      {
        Surroundings(Snap(), a);
        MeltLeftKeeps(Snap(), live, tags[a].left);
        a := MeltLeft(a);
        RemoveTag(a);
        Surroundings(Snap(), a);
      }
      Surroundings(Snap(), a);
      while tags[a].right != 0 && tags[tags[a].right].index >= 0
        invariant Consistent(Snap(), live, {a}) && a in home && home[a] == home[first]
        invariant tags[a].right != 0 ==> tags[a].right in tags
        invariant tags[a].left != 0 ==> tags[a].left in tags && tags[tags[a].left].index < 0
        invariant tags[a].realSize <= LIMIT
        decreases LIMIT - tags[a].realSize
      {
        Surroundings(Snap(), a);
        MeltRightKeeps(Snap(), live, a);
        MeltRightLeavesLeft(Snap(), a);
        AbsorbRight(a);
        Surroundings(Snap(), a);
      }
    }

    /**
     Put a busy tag without free neighbours back: into its bin, or, if it is a whole chunk too
     many, to the page allocator.
     */
    method GiveBack(a: nat) returns (pages: nat, ghost bin: nat)
      requires Consistent(Snap(), live, {a}) && Settled(tags, a)
      modifies this`tags, this`freePages, this`completePages, this`bins, this`chunks
      ensures Consistent(Snap(), live, {})
      ensures IsBin(old(tags[a].realSize), bin) && |old(completePages)| == MAX_EXP
      ensures pages != 0 <==> Complete(old(tags[a])) && old(completePages)[bin] == MAX_COMPLETE
      ensures pages != 0 ==> a in old(chunks) && pages == old(chunks)[a] && chunks == old(chunks) - {a}
      ensures pages == 0 ==> chunks == old(chunks)
    {
      hide BinsOk, Geometry, Counted, Sorted, NoFreeNeighbours, InsertedTags, IsExp;
      Surroundings(Snap(), a);
      CountsBounded(Snap());
      assert {a} - {a} == {};
      var index := BinOf(tags[a].realSize);
      bin := index;
      if tags[a].left == 0 && tags[a].right == 0 {
        if completePages[index] == MAX_COMPLETE {
          WholeChunk(tags, chunks, home, a);
          ReleaseKeeps(Snap(), live, {a}, a);
          pages := tags[a].realSize / PAGE;
          if tags[a].realSize % PAGE != 0 {
            pages := pages + 1;
          }
          if pages < MIN_PAGES {
            pages := MIN_PAGES;
          }
          tags := tags - {a};
          chunks := chunks - {a};
          return;
        }
      }
      ghost var s := Snap();
      InsertKeeps(s, live, {a}, a, index);
      if tags[a].left == 0 && tags[a].right == 0 {
        completePages := completePages[index := completePages[index] + 1];
      }
      ghost var same := InsertTag(a, index);
      pages := 0;
      assert Snap() == Adjusted(Inserted(s, a, index), index, if Complete(s.tags[a]) then 1 else 0);
    }

    method Free(ptr: nat) returns (base: nat, pages: nat, ghost bin: nat)
      requires Valid() && (ptr != 0 ==> HEADER < ptr && ptr - HEADER in live)
      modifies this`tags, this`freePages, this`completePages, this`bins, this`chunks, this`live
      ensures Valid()
      ensures ptr == 0 ==> Snap() == old(Snap()) && live == old(live) && pages == 0
      ensures ptr != 0 ==> live == old(live) - {ptr - HEADER}
      ensures pages == 0 ==> chunks == old(chunks)
      ensures pages != 0 ==> base in old(chunks) && pages == old(chunks)[base] && chunks == old(chunks) - {base}
      ensures ptr != 0 ==> ptr - HEADER in old(home) && |old(completePages)| == MAX_EXP > bin
      ensures ptr != 0 ==>
                (pages != 0
                 <==> Vacant(live, old(home), old(home)[ptr - HEADER]) && old(completePages)[bin] == MAX_COMPLETE)
      ensures pages != 0 ==> base == old(home)[ptr - HEADER] && IsBin(PAGE * pages, bin)
    {
      hide BinsOk, Geometry, Counted, Sorted, NoFreeNeighbours, IsExp;
      base, pages, bin := 0, 0, 0;
      if ptr == 0 {
        return;
      }
      var tag := ptr - HEADER;
      Surroundings(Snap(), tag);
      CountsBounded(Snap());
      Drop(Snap(), live, {}, tag);
      assert {} + {tag} == {tag};
      live := live - {tag};
      base := Coalesce(tag);
      WholeIsVacant(Snap(), live, base);
      if tags[base].left == 0 && tags[base].right == 0 {
        WholeChunk(tags, chunks, home, base);
        BaseOf(Snap(), base);
      }
      pages, bin := GiveBack(base);
    }

    method CopyWord(to: nat, from: nat)
      requires to + 4 <= bytes.Length && from + 4 <= bytes.Length && (to + 4 <= from || from + 4 <= to)
      modifies bytes
      ensures forall i :: to <= i < to + 4 ==> bytes[i] == old(bytes[i - to + from])
      ensures forall i :: 0 <= i < bytes.Length && !(to <= i < to + 4) ==> bytes[i] == old(bytes[i])
    {
      bytes[to] := bytes[from];
      bytes[to + 1] := bytes[from + 1];
      bytes[to + 2] := bytes[from + 2];
      bytes[to + 3] := bytes[from + 3];
    }

    /** Copy between two ranges that do not overlap: words first, then the odd bytes. */
    method CopyBytes(to: nat, from: nat, count: nat)
      requires to + count <= bytes.Length && from + count <= bytes.Length && (to + count <= from || from + count <= to)
      modifies bytes
      ensures bytes[to..to + count] == old(bytes[from..from + count])
      ensures forall i :: 0 <= i < bytes.Length && !(to <= i < to + count) ==> bytes[i] == old(bytes[i])
    {
      var done: nat, n: nat := 0, count;
      while n >= 4
        invariant done + n == count
        invariant forall i :: to <= i < to + done ==> bytes[i] == old(bytes[i - to + from])
        invariant forall i :: 0 <= i < bytes.Length && !(to <= i < to + done) ==> bytes[i] == old(bytes[i])
      {
        CopyWord(to + done, from + done);
        done, n := done + 4, n - 4;
      }
      while n > 0
        invariant done + n == count
        invariant forall i :: to <= i < to + done ==> bytes[i] == old(bytes[i - to + from])
        invariant forall i :: 0 <= i < bytes.Length && !(to <= i < to + done) ==> bytes[i] == old(bytes[i])
      {
        bytes[to + done] := bytes[from + done];
        done, n := done + 1, n - 1;
      }
    }

    /** If no memory can be had, the block stays as it was; the kernel itself faults on the null copy there. */
    method Realloc(p: nat, size: nat, region: nat) returns (ptr: nat)
      requires Valid() && (p != 0 ==> HEADER < p && p - HEADER in live) && size + HEADER <= LIMIT - PAGE
      requires region != 0 ==> FreshRegion(chunks, region, PagesFor(size))
      requires p != 0 && size != 0 ==> size < 0x8000_0000 && live[p - HEADER] < 0x8000_0000
      modifies this`tags, this`freePages, this`completePages, this`bins, this`chunks, this`home, this`live, bytes
      ensures Valid()
      ensures size == 0 ==> ptr == 0 && live == (if p == 0 then old(live) else old(live) - {p - HEADER})
      ensures size != 0 && ptr == 0 ==> region == 0 && live == old(live) && Snap() == old(Snap())
      ensures ptr != 0 ==> HEADER < ptr && ptr - HEADER !in old(live)
      ensures ptr != 0 ==> live == (if p == 0 then old(live) else old(live) - {p - HEADER})[ptr - HEADER := size]
      ensures ptr != 0 && p != 0 ==> ptr + size <= bytes.Length && p + old(live)[p - HEADER] <= bytes.Length
      ensures ptr != 0 && p != 0 ==>
                var n := if old(live)[p - HEADER] < size then old(live)[p - HEADER] else size;
                bytes[ptr..ptr + n] == old(bytes[..])[p..p + n]
      ensures forall x :: 0 <= x < bytes.Length && !(ptr != 0 && ptr <= x < ptr + size) ==> bytes[x] == old(bytes[x])
    {
      hide Consistent, FreshRegion, IsBin, Vacant, TakesFirst, Trimmed, CopyCount, PagesFor;
      ghost var bin: nat;
      var asked: nat, base: nat, pages: nat;
      if size == 0 {
        base, pages, bin := Free(p);
        return 0;
      }
      if p == 0 {
        ptr, asked, bin := Malloc(size, region);
        return;
      }
      LiveTag(Snap(), live, p - HEADER);
      CopyCountIsMinimum(live[p - HEADER], size);
      var count := CopyCount(tags[p - HEADER].size, size);
      ptr, asked, bin := Malloc(size, region);
      if ptr == 0 {
        return;
      }
      PayloadRanges(Snap(), live, p - HEADER, ptr - HEADER);
      CopyBytes(ptr, p, count);
      base, pages, bin := Free(p);
    }
  }

  lemma LiveTag(s: State, live: map<nat, nat>, a: nat)
    requires Consistent(s, live, {}) && a in live
    ensures a in s.tags && s.tags[a].size == live[a] < LIMIT
  {
    NotNull(s.tags, s.chunks, s.home, a);
  }

  /** Two live payloads lie in memory and do not overlap. */
  lemma PayloadRanges(s: State, live: map<nat, nat>, a: nat, b: nat)
    requires Consistent(s, live, {}) && a in live && b in live && a != b
    ensures a + HEADER + live[a] <= b || b + HEADER + live[b] <= a
    ensures a + HEADER + live[a] <= LIMIT && b + HEADER + live[b] <= LIMIT
  {
    hide BinsOk, Counted, Sorted, NoFreeNeighbours, TagOk, ChunksOk;
    NotNull(s.tags, s.chunks, s.home, a);
    NotNull(s.tags, s.chunks, s.home, b);
    assert Apart(s.tags, a, b) && Apart(s.tags, b, a);
  }

  /**
   A tag cut from a room: to its payload if the excess holds 256 bytes behind a header of its own, not at all
   if it holds less. An excess of 2 GiB or more looks negative and is kept too.
   */
  predicate Trimmed(room: nat, t: Tag) {
    t.realSize == if 256 <= room - t.size - 2 * HEADER < 0x8000_0000 then HEADER + t.size else room
  }

  predicate Roomy(t: Tag, size: nat) {
    t.realSize >= size + 2 * HEADER
  }

  /**
   The numbers behind the size classes: room for a second header, an excess of 256 bytes and a header cut off,
   at most five whole chunks kept, bins from 2^8 on.
   */
  lemma Limits(t: Tag, size: nat, room: nat)
    ensures Roomy(t, size) <==> t.realSize >= size + 96
    ensures Trimmed(room, t) <==> t.realSize == if 352 <= room - t.size < 0x8000_0060 then t.size + 48 else room
    ensures MAX_COMPLETE == 5 && IsBin(48, 8) && IsBin(0x8000_0000 + 48, 31)
  {
    SmallPowers();
    Pow2Adds(15, 16);
    Pow2Adds(8, 8);
    Pow2Adds(16, 16);
  }

  ghost predicate FirstRoomy(m: Memory, list: seq<nat>, k: nat, size: nat)
    requires k < |list|
  {
    && list[k] in m && Roomy(m[list[k]], size)
    && forall j :: 0 <= j < k ==> list[j] in m && !Roomy(m[list[j]], size)
  }

  /** Tag a is the first roomy one of the list. */
  ghost predicate TakesFirst(m: Memory, list: seq<nat>, size: nat, a: nat) {
    exists k: nat :: k < |list| && FirstRoomy(m, list, k, size) && list[k] == a
  }

  lemma BinIsList(m: Memory, freePages: seq<nat>, bins: seq<seq<nat>>, bin: nat)
    requires BinsOk(m, freePages, bins) && bin < MAX_EXP
    ensures |freePages| == |bins| == MAX_EXP && ListOk(m, bins[bin], bin, freePages[bin])
  {
  }
}
