/**
 The steps of the boundary-tag heap: every step keeps the whole heap consistent.
 A tag between two steps, neither free nor handed out, is busy.
 */
module HeapSteps {
  import opened HeapModel
  import opened HeapBins
  import opened HeapGeometry

  /** Take free tag a out of its bin. */
  ghost function Removed(s: State, a: nat): State
    requires BinsOk(s.tags, s.freePages, s.bins) && a in s.tags && s.tags[a].index >= 0
  {
    RemoveKeepsBins(s.tags, s.freePages, s.bins, a);
    var bin := s.tags[a].index;
    s.(tags := RemovedTags(s.tags, a),
       freePages := s.freePages[bin := if s.freePages[bin] == a then s.tags[a].next else s.freePages[bin]],
       bins := s.bins[bin := Without(s.bins[bin], a)])
  }

  /** Put tag a at the head of a bin. */
  ghost function Inserted(s: State, a: nat, bin: nat): State
    requires BinsOk(s.tags, s.freePages, s.bins) && a in s.tags && a != 0 && s.tags[a].index == -1 && bin < MAX_EXP
  {
    InsertKeepsBins(s.tags, s.freePages, s.bins, a, bin);
    s.(tags := InsertedTags(s.tags, s.freePages[bin], a, bin),
       freePages := s.freePages[bin := a],
       bins := s.bins[bin := [a] + s.bins[bin]])
  }

  ghost function Adjusted(s: State, bin: nat, change: int): State
    requires bin < |s.completePages|
  {
    s.(completePages := s.completePages[bin := s.completePages[bin] + change])
  }

  // Removing and inserting.

  lemma BinCount(s: State)
    requires BinsOk(s.tags, s.freePages, s.bins)
    ensures |s.freePages| == |s.bins| == MAX_EXP
    ensures forall a :: a in s.tags ==> -1 <= s.tags[a].index < MAX_EXP
  {
  }

  lemma RemoveKeepsCounts(s: State, a: nat)
    requires BinsOk(s.tags, s.freePages, s.bins) && Counted(s.tags, s.bins, s.completePages)
    requires a in s.tags && s.tags[a].index >= 0
    ensures s.tags[a].index < |s.completePages|
    ensures var t := Adjusted(Removed(s, a), s.tags[a].index, if Complete(s.tags[a]) then -1 else 0);
            Counted(t.tags, t.bins, t.completePages)
  {
    hide RemovedTags, Without, CountComplete, BinsOk;
    BinCount(s);
    RemoveKeepsBins(s.tags, s.freePages, s.bins, a);
    RemoveShape(s.tags, a);
    var n := RemovedTags(s.tags, a);
    ShapeKeepsCounts(s.tags, n, s.bins, s.completePages);
    CountedWithout(n, s.bins, s.completePages, s.tags[a].index, a);
  }

  lemma RemoveKeeps(s: State, live: map<nat, nat>, busy: set<nat>, a: nat)
    requires Consistent(s, live, busy) && a in s.tags && s.tags[a].index >= 0
    ensures s.tags[a].index < |s.completePages|
    ensures Consistent(Adjusted(Removed(s, a), s.tags[a].index, if Complete(s.tags[a]) then -1 else 0),
                       live, busy + {a})
    ensures a !in busy && a !in live
  {
    hide BinsOk, Geometry, Counted, RemovedTags;
    RemoveKeepsBins(s.tags, s.freePages, s.bins, a);
    RemoveKeepsCounts(s, a);
    RemoveShape(s.tags, a);
    PlacesKeepGeometry(s.tags, RemovedTags(s.tags, a), s.chunks, s.home);
  }

  lemma InsertKeepsCounts(s: State, a: nat, bin: nat)
    requires BinsOk(s.tags, s.freePages, s.bins) && Counted(s.tags, s.bins, s.completePages)
    requires a in s.tags && a != 0 && s.tags[a].index == -1 && bin < MAX_EXP
    requires Complete(s.tags[a]) ==> s.completePages[bin] < MAX_COMPLETE
    ensures var t := Adjusted(Inserted(s, a, bin), bin, if Complete(s.tags[a]) then 1 else 0);
            Counted(t.tags, t.bins, t.completePages)
  {
    hide InsertedTags, CountComplete, BinsOk;
    BinCount(s);
    InsertKeepsBins(s.tags, s.freePages, s.bins, a, bin);
    InsertShape(s.tags, s.freePages[bin], a, bin);
    var n := InsertedTags(s.tags, s.freePages[bin], a, bin);
    ShapeKeepsCounts(s.tags, n, s.bins, s.completePages);
    CountedWith(n, s.bins, s.completePages, bin, a);
  }

  /** Neither neighbour of a is free. */
  ghost predicate Settled(m: Memory, a: nat)
    requires a in m
  {
    && (m[a].left != 0 ==> m[a].left in m && m[m[a].left].index < 0)
    && (m[a].right != 0 ==> m[a].right in m && m[m[a].right].index < 0)
  }

  lemma InsertKeepsNeighbours(s: State, a: nat, bin: nat)
    requires BinsOk(s.tags, s.freePages, s.bins) && Geometry(s.tags, s.chunks, s.home) && NoFreeNeighbours(s.tags)
    requires a in s.tags && a != 0 && s.tags[a].index == -1 && bin < MAX_EXP && Settled(s.tags, a)
    ensures NoFreeNeighbours(Inserted(s, a, bin).tags)
  {
    hide BinsOk, InsertedTags;
    BinCount(s);
    InsertKeepsBins(s.tags, s.freePages, s.bins, a, bin);
    InsertShape(s.tags, s.freePages[bin], a, bin);
    var n := Inserted(s, a, bin).tags;
    forall x | x in n && n[x].right != 0 && n[x].index >= 0
      ensures n[x].right in n && n[n[x].right].index < 0
    {
      assert x in s.tags && n[x].right == s.tags[x].right;
      RightOf(s.tags, s.chunks, s.home, x);
    }
  }

  lemma InsertKeeps(s: State, live: map<nat, nat>, busy: set<nat>, a: nat, bin: nat)
    requires Consistent(s, live, busy) && a in busy && bin < MAX_EXP
    requires IsBin(s.tags[a].realSize, bin) && Settled(s.tags, a)
    requires Complete(s.tags[a]) ==> s.completePages[bin] < MAX_COMPLETE
    ensures a != 0
    ensures Consistent(Adjusted(Inserted(s, a, bin), bin, if Complete(s.tags[a]) then 1 else 0), live, busy - {a})
  {
    hide BinsOk, Geometry, Counted, InsertedTags, IsBin, NoFreeNeighbours;
    NotNull(s.tags, s.chunks, s.home, a);
    BinCount(s);
    InsertKeepsBins(s.tags, s.freePages, s.bins, a, bin);
    InsertKeepsCounts(s, a, bin);
    InsertKeepsNeighbours(s, a, bin);
    InsertShape(s.tags, s.freePages[bin], a, bin);
    PlacesKeepGeometry(s.tags, InsertedTags(s.tags, s.freePages[bin], a, bin), s.chunks, s.home);
  }

  lemma InsertKeepsShape(s: State, a: nat, bin: nat)
    requires BinsOk(s.tags, s.freePages, s.bins) && a in s.tags && a != 0 && s.tags[a].index == -1 && bin < MAX_EXP
    ensures SameShape(s.tags, Inserted(s, a, bin).tags)
  {
    hide BinsOk, InsertedTags, SameShape;
    BinCount(s);
    InsertKeepsBins(s.tags, s.freePages, s.bins, a, bin);
    InsertShape(s.tags, s.freePages[bin], a, bin);
  }

  // Merging two busy neighbours.

  /** Tags that are not in a bin may change, come or go: bins only see the links of their own tags. */
  lemma BinsFrame(m: Memory, n: Memory, freePages: seq<nat>, bins: seq<seq<nat>>)
    requires BinsOk(m, freePages, bins)
    requires forall x ::
               x in m && m[x].index >= 0 ==>
                 x in n && n[x].index == m[x].index && n[x].next == m[x].next && n[x].prev == m[x].prev
    requires forall x :: x in n && (x !in m || m[x].index < 0) ==> n[x].index == -1 && n[x].next == 0 && n[x].prev == 0
    ensures BinsOk(n, freePages, bins)
  {
    forall i | 0 <= i < MAX_EXP
      ensures ListOk(n, bins[i], i, freePages[i])
    {
      forall x | x in bins[i]
        ensures x in m && m[x].index >= 0
      {
        InOneBin(m, freePages, bins, i, x);
      }
      ListFrame(m, n, bins[i], i, freePages[i]);
    }
  }

  lemma CountsFrame(m: Memory, n: Memory, freePages: seq<nat>, bins: seq<seq<nat>>, completePages: seq<int>)
    requires BinsOk(m, freePages, bins) && Counted(m, bins, completePages)
    requires forall x :: x in m && m[x].index >= 0 ==> x in n && (Complete(m[x]) <==> Complete(n[x]))
    ensures Counted(n, bins, completePages)
  {
    forall i | 0 <= i < |bins|
      ensures AllIn(n, bins[i]) && CountComplete(n, bins[i]) == CountComplete(m, bins[i])
    {
      forall k | 0 <= k < |bins[i]|
        ensures bins[i][k] in m && m[bins[i][k]].index >= 0
      {
        InOneBin(m, freePages, bins, i, bins[i][k]);
      }
      CountFrame(m, n, bins[i]);
    }
  }

  /** The links of a tag in use are empty. */
  lemma UsedIsUnlinked(s: State, a: nat)
    requires BinsOk(s.tags, s.freePages, s.bins) && a in s.tags && s.tags[a].index == -1
    ensures s.tags[a].next == 0 && s.tags[a].prev == 0
  {
  }

  ghost function Merged(s: State, l: nat): State
    requires Geometry(s.tags, s.chunks, s.home) && l in s.tags && s.tags[l].right != 0
  {
    RightOf(s.tags, s.chunks, s.home, l);
    s.(tags := MergedTags(s.tags, l))
  }

  /** What merging changes: l takes right's bytes and far neighbour, far points back at l, right is gone. */
  lemma MergeFacts(m: Memory, l: nat)
    requires l in m && m[l].right in m && (m[m[l].right].right != 0 ==> m[m[l].right].right in m)
    requires m[l].right != l && m[m[l].right].right != l && m[m[l].right].right != m[l].right
    ensures var right := m[l].right; var far := m[right].right; var n := MergedTags(m, l);
            && n.Keys == m.Keys - {right}
            && n[l] == m[l].(realSize := m[l].realSize + m[right].realSize, right := far)
            && (far != 0 ==> n[far] == m[far].(left := l))
            && (forall x :: x in n && x != l && (far == 0 || x != far) ==> n[x] == m[x])
  {
  }

  lemma MergeKeeps(s: State, live: map<nat, nat>, busy: set<nat>, l: nat)
    requires Consistent(s, live, busy) && l in busy && s.tags[l].right in busy
    ensures s.tags[l].right != 0 && s.tags[l].right != l
    ensures Consistent(Merged(s, l), live, busy - {s.tags[l].right})
  {
    hide BinsOk, Geometry, Counted, MergedTags, IsBin, NoFreeNeighbours, Sorted;
    var m := s.tags;
    var right := m[l].right;
    NotNull(m, s.chunks, s.home, right);
    RightOf(m, s.chunks, s.home, l);
    MergeKeepsGeometry(m, s.chunks, s.home, l);
    MergeKeepsLive(s, live, busy, l);
    var n := MergedTags(m, l);
    UsedAfterMerge(s, l);
    BinsFrame(m, n, s.freePages, s.bins);
    CountsFrame(m, n, s.freePages, s.bins, s.completePages);
    MergeKeepsNeighbours(s, l);
  }

  lemma MergeKeepsLive(s: State, live: map<nat, nat>, busy: set<nat>, l: nat)
    requires Geometry(s.tags, s.chunks, s.home) && LiveOk(s.tags, live, busy) && Sorted(s.tags)
    requires l in busy && s.tags[l].right in busy && s.tags[l].right != 0
    ensures LiveOk(Merged(s, l).tags, live, busy - {s.tags[l].right}) && Sorted(Merged(s, l).tags)
  {
    hide Geometry, MergedTags, IsBin;
    RightOf(s.tags, s.chunks, s.home, l);
    MergeFacts(s.tags, l);
  }

  lemma UsedAfterMerge(s: State, l: nat)
    requires BinsOk(s.tags, s.freePages, s.bins) && Geometry(s.tags, s.chunks, s.home)
    requires l in s.tags && s.tags[l].index == -1 && s.tags[l].right in s.tags && s.tags[s.tags[l].right].index == -1
    requires s.tags[l].right != 0 && (s.tags[s.tags[l].right].right != 0 ==> s.tags[s.tags[l].right].right in s.tags)
    ensures var m := s.tags; var n := MergedTags(m, l);
            forall x :: x in m && m[x].index >= 0 ==>
              && x in n && n[x].index == m[x].index && n[x].next == m[x].next
              && n[x].prev == m[x].prev && (Complete(m[x]) <==> Complete(n[x]))
    ensures var m := s.tags; var n := MergedTags(m, l);
            forall x :: x in n && (x !in m || m[x].index < 0) ==> n[x].index == -1 && n[x].next == 0 && n[x].prev == 0
  {
    hide BinsOk, Geometry, MergedTags;
    var m := s.tags;
    RightOf(m, s.chunks, s.home, l);
    NotNull(m, s.chunks, s.home, l);
    MergeFacts(m, l);
    BinCount(s);
    forall x | x in m && m[x].index < 0
      ensures m[x].index == -1 && m[x].next == 0 && m[x].prev == 0
    {
      UsedIsUnlinked(s, x);
    }
  }

  lemma MergeKeepsNeighbours(s: State, l: nat)
    requires Geometry(s.tags, s.chunks, s.home) && NoFreeNeighbours(s.tags)
    requires l in s.tags && s.tags[l].index == -1 && s.tags[l].right != 0
    ensures NoFreeNeighbours(Merged(s, l).tags)
  {
    hide Geometry, MergedTags;
    var m := s.tags;
    RightOf(m, s.chunks, s.home, l);
    MergeFacts(m, l);
    var n := MergedTags(m, l);
    forall x | x in n && n[x].right != 0 && n[x].index >= 0
      ensures n[x].right in n && n[n[x].right].index < 0
    {
      RightOf(m, s.chunks, s.home, x);
    }
  }

  // Splitting.

  ghost function Split(s: State, a: nat, leftover: nat): State
    requires a in s.tags && HEADER + s.tags[a].size <= s.tags[a].realSize && a in s.home
    requires s.tags[a].right != 0 ==> s.tags[a].right in s.tags
  {
    s.(tags := SplitTags(s.tags, a, leftover), home := s.home[a + HEADER + s.tags[a].size := s.home[a]])
  }

  lemma SplitKeeps(s: State, live: map<nat, nat>, busy: set<nat>, a: nat, leftover: nat)
    requires Consistent(s, live, busy) && a in busy && HEADER + s.tags[a].size + HEADER <= s.tags[a].realSize
    ensures a in s.home && (s.tags[a].right != 0 ==> s.tags[a].right in s.tags)
    ensures Consistent(Split(s, a, leftover), live, busy + {a + HEADER + s.tags[a].size})
  {
    hide BinsOk, Geometry, Counted, SplitTags, IsBin, NoFreeNeighbours, Sorted;
    SplitKeepsGeometry(s.tags, s.chunks, s.home, a, leftover);
    UsedAfterSplit(s, a, leftover);
    var n := SplitTags(s.tags, a, leftover);
    BinsFrame(s.tags, n, s.freePages, s.bins);
    CountsFrame(s.tags, n, s.freePages, s.bins, s.completePages);
    SplitKeepsNeighbours(s, a, leftover);
    SplitKeepsLive(s, live, busy, a, leftover);
  }

  lemma UsedAfterSplit(s: State, a: nat, leftover: nat)
    requires BinsOk(s.tags, s.freePages, s.bins) && Geometry(s.tags, s.chunks, s.home)
    requires a in s.tags && s.tags[a].index == -1 && HEADER + s.tags[a].size + HEADER <= s.tags[a].realSize
    requires s.tags[a].right != 0 ==> s.tags[a].right in s.tags
    ensures var m := s.tags; var n := SplitTags(m, a, leftover);
            forall x :: x in m && m[x].index >= 0 ==>
              && x in n && n[x].index == m[x].index && n[x].next == m[x].next
              && n[x].prev == m[x].prev && (Complete(m[x]) <==> Complete(n[x]))
    ensures var m := s.tags; var n := SplitTags(m, a, leftover);
            forall x :: x in n && (x !in m || m[x].index < 0) ==> n[x].index == -1 && n[x].next == 0 && n[x].prev == 0
  {
    hide BinsOk, Geometry, SplitTags;
    SplitIsNew(s.tags, s.chunks, s.home, a);
    if s.tags[a].right != 0 {
      RightOf(s.tags, s.chunks, s.home, a);
    }
    SplitFacts(s.tags, a, leftover);
    BinCount(s);
    forall x | x in s.tags && s.tags[x].index < 0
      ensures s.tags[x].index == -1 && s.tags[x].next == 0 && s.tags[x].prev == 0
    {
      UsedIsUnlinked(s, x);
    }
  }

  lemma SplitKeepsNeighbours(s: State, a: nat, leftover: nat)
    requires Geometry(s.tags, s.chunks, s.home) && NoFreeNeighbours(s.tags)
    requires a in s.tags && s.tags[a].index == -1 && HEADER + s.tags[a].size + HEADER <= s.tags[a].realSize
    requires a in s.home && (s.tags[a].right != 0 ==> s.tags[a].right in s.tags)
    ensures NoFreeNeighbours(Split(s, a, leftover).tags)
  {
    hide Geometry, SplitTags;
    SplitIsNew(s.tags, s.chunks, s.home, a);
    SplitFacts(s.tags, a, leftover);
    var n := SplitTags(s.tags, a, leftover);
    forall x | x in n && n[x].right != 0 && n[x].index >= 0
      ensures n[x].right in n && n[n[x].right].index < 0
    {
      RightOf(s.tags, s.chunks, s.home, x);
    }
  }

  lemma SplitKeepsLive(s: State, live: map<nat, nat>, busy: set<nat>, a: nat, leftover: nat)
    requires Geometry(s.tags, s.chunks, s.home) && LiveOk(s.tags, live, busy) && Sorted(s.tags)
    requires a in busy && HEADER + s.tags[a].size + HEADER <= s.tags[a].realSize
    requires a in s.home && (s.tags[a].right != 0 ==> s.tags[a].right in s.tags)
    ensures LiveOk(Split(s, a, leftover).tags, live, busy + {a + HEADER + s.tags[a].size})
    ensures Sorted(Split(s, a, leftover).tags)
  {
    hide Geometry, SplitTags, IsBin;
    SplitIsNew(s.tags, s.chunks, s.home, a);
    SplitFacts(s.tags, a, leftover);
  }

  lemma CountsBounded(s: State)
    requires BinsOk(s.tags, s.freePages, s.bins) && Counted(s.tags, s.bins, s.completePages)
    ensures |s.completePages| == MAX_EXP && forall i :: 0 <= i < MAX_EXP ==> s.completePages[i] <= MAX_COMPLETE
  {
  }

  /** A tag with room for a second header can be cut after its payload. */
  ghost predicate CanSplit(s: State, a: nat) {
    && a in s.tags && HEADER + s.tags[a].size + HEADER <= s.tags[a].realSize && a in s.home
    && (s.tags[a].right != 0 ==> s.tags[a].right in s.tags && s.tags[a].right != a)
    && a + HEADER + s.tags[a].size !in s.tags
  }

  lemma RoomToSplit(s: State, a: nat)
    requires Geometry(s.tags, s.chunks, s.home) && a in s.tags && HEADER + s.tags[a].size + HEADER <= s.tags[a].realSize
    ensures CanSplit(s, a)
  {
    hide Geometry;
    SplitIsNew(s.tags, s.chunks, s.home, a);
  }

  /** What is cut off has no free neighbour and is not a whole chunk; what is left holds its payload exactly. */
  lemma SplitPrepares(s: State, a: nat, leftover: nat)
    requires CanSplit(s, a) && Settled(s.tags, a) && s.tags[a].index == -1 && Geometry(s.tags, s.chunks, s.home)
    ensures a + HEADER + s.tags[a].size in Split(s, a, leftover).tags
    ensures var t := Split(s, a, leftover).tags; var b := a + HEADER + s.tags[a].size;
            && Settled(t, b) && !Complete(t[b]) && b != 0 && HEADER <= t[b].realSize < LIMIT && t[b].index == -1
            && a in t && t[a].size == s.tags[a].size && t[a].realSize == HEADER + t[a].size
  {
    hide Geometry, SplitTags;
    SplitFacts(s.tags, a, leftover);
    NotNull(s.tags, s.chunks, s.home, a);
  }

  lemma InsertPart(s: State, live: map<nat, nat>, a: nat, b: nat, bin: nat)
    requires Consistent(s, live, {a, b}) && a != b && b != 0 && b in s.tags
    requires s.tags[b].index == -1 && Settled(s.tags, b) && !Complete(s.tags[b])
    requires bin < MAX_EXP && IsBin(s.tags[b].realSize, bin)
    ensures Consistent(Inserted(s, b, bin), live, {a}) && SameShape(s.tags, Inserted(s, b, bin).tags)
  {
    hide BinsOk, Geometry, Counted, Sorted, NoFreeNeighbours, LiveOk, InsertedTags, IsBin;
    InsertKeeps(s, live, {a, b}, b, bin);
    CountsBounded(s);
    var t := Inserted(s, b, bin);
    assert Adjusted(t, bin, 0) == t;
    assert {a, b} - {b} == {a};
    InsertKeepsShape(s, b, bin);
  }

  // Obtaining and releasing chunks.

  /** Bins and counts survive when only tags in use change, come or go. */
  lemma UsedFrame(s: State, n: Memory)
    requires BinsOk(s.tags, s.freePages, s.bins) && Counted(s.tags, s.bins, s.completePages)
    requires forall x :: x in s.tags && s.tags[x].index >= 0 ==> x in n && n[x] == s.tags[x]
    requires forall x :: x in n && x in s.tags ==> n[x].(size := 0) == s.tags[x].(size := 0)
    requires forall x :: x in n && x !in s.tags ==> n[x].index == -1 && n[x].next == 0 && n[x].prev == 0
    ensures BinsOk(n, s.freePages, s.bins) && Counted(n, s.bins, s.completePages)
  {
    hide BinsOk, Counted;
    BinCount(s);
    forall x | x in s.tags && s.tags[x].index < 0
      ensures s.tags[x].index == -1 && s.tags[x].next == 0 && s.tags[x].prev == 0
    {
      UsedIsUnlinked(s, x);
    }
    BinsFrame(s.tags, n, s.freePages, s.bins);
    CountsFrame(s.tags, n, s.freePages, s.bins, s.completePages);
  }

  ghost function Added(s: State, a: nat, pages: nat, size: nat): State {
    s.(tags := s.tags[a := Tag(size, PAGE * pages, -1, 0, 0, 0, 0)],
       chunks := s.chunks[a := pages], home := s.home[a := a])
  }

  lemma AddKeeps(s: State, live: map<nat, nat>, busy: set<nat>, a: nat, pages: nat, size: nat)
    requires Consistent(s, live, busy) && FreshRegion(s.chunks, a, pages) && pages >= MIN_PAGES
    ensures a !in s.tags && Consistent(Added(s, a, pages, size), live, busy + {a})
  {
    hide BinsOk, Geometry, Counted, Sorted, NoFreeNeighbours, LiveOk, FreshRegion;
    var n := Added(s, a, pages, size).tags;
    AddKeepsGeometry(s.tags, s.chunks, s.home, a, pages, size);
    AddKeepsUses(s.tags, n, live, busy, a);
    UsedFrame(s, n);
  }

  lemma AddKeepsUses(m: Memory, n: Memory, live: map<nat, nat>, busy: set<nat>, a: nat)
    requires Sorted(m) && NoFreeNeighbours(m) && LiveOk(m, live, busy) && a !in m
    requires a in n && n == m[a := n[a]] && n[a].index == -1
    ensures Sorted(n) && NoFreeNeighbours(n) && LiveOk(n, live, busy + {a})
  {
    hide IsBin;
  }

  ghost function Released(s: State, a: nat): State {
    s.(tags := s.tags - {a}, chunks := s.chunks - {a})
  }

  lemma ReleaseKeeps(s: State, live: map<nat, nat>, busy: set<nat>, a: nat)
    requires Consistent(s, live, busy) && a in busy && Complete(s.tags[a])
    ensures Consistent(Released(s, a), live, busy - {a})
  {
    hide BinsOk, Geometry, Counted, IsBin;
    var n := Released(s, a).tags;
    ReleaseKeepsGeometry(s.tags, s.chunks, s.home, a);
    UsedFrame(s, n);
    forall x | x in n && n[x].right != 0 && n[x].index >= 0
      ensures n[x].right in n && n[n[x].right].index < 0
    {
      RightOf(s.tags, s.chunks, s.home, x);
    }
  }

  // Busy tags become live and live tags become busy.

  ghost function Resized(s: State, a: nat, size: nat): State
    requires a in s.tags
  {
    s.(tags := s.tags[a := s.tags[a].(size := size)])
  }

  lemma ResizeKeeps(s: State, live: map<nat, nat>, busy: set<nat>, a: nat, size: nat)
    requires Consistent(s, live, busy) && a in busy
    ensures Consistent(Resized(s, a, size), live, busy)
  {
    hide BinsOk, Geometry, Counted, IsBin;
    var n := Resized(s, a, size).tags;
    PlacesKeepGeometry(s.tags, n, s.chunks, s.home);
    UsedFrame(s, n);
  }

  lemma Adopt(s: State, live: map<nat, nat>, busy: set<nat>, a: nat)
    requires Consistent(s, live, busy) && a in busy && HEADER + s.tags[a].size <= s.tags[a].realSize
    ensures Consistent(s, live[a := s.tags[a].size], busy - {a}) && a !in live
  {
  }

  lemma Drop(s: State, live: map<nat, nat>, busy: set<nat>, a: nat)
    requires Consistent(s, live, busy) && a in live
    ensures Consistent(s, live - {a}, busy + {a})
  {
  }

  // The two melts of `free`.

  lemma RemoveFacts(m: Memory, a: nat)
    requires a in m && (m[a].prev != 0 ==> m[a].prev in m && m[a].prev != a)
    requires m[a].next != 0 ==> m[a].next in m && m[a].next != a
    requires m[a].prev != 0 && m[a].next != 0 ==> m[a].prev != m[a].next
    ensures var n := RemovedTags(m, a);
            && n[a] == m[a].(next := 0, prev := 0, index := -1)
            && (m[a].prev != 0 ==> n[m[a].prev] == m[m[a].prev].(next := m[a].next))
            && (m[a].next != 0 ==> n[m[a].next] == m[m[a].next].(prev := m[a].prev))
            && (forall x :: x in m && x != a && (m[a].prev == 0 || x != m[a].prev) && (m[a].next == 0 || x != m[a].next)
                            ==> n[x] == m[x])
  {
  }

  /** A free tag's list neighbours are other free tags. */
  lemma FreeLinks(s: State, a: nat)
    requires BinsOk(s.tags, s.freePages, s.bins) && a in s.tags && s.tags[a].index >= 0
    ensures var m := s.tags; var t := m[a];
            && (t.prev != 0 ==> t.prev in m && t.prev != a && m[t.prev].index == t.index)
            && (t.next != 0 ==> t.next in m && t.next != a && m[t.next].index == t.index)
            && (t.prev != 0 && t.next != 0 ==> t.prev != t.next)
  {
    var bin := s.tags[a].index;
    var k := Position(s.bins[bin], a);
    Links(s.tags, s.bins[bin], bin, s.freePages[bin], k);
    if k > 0 {
      Links(s.tags, s.bins[bin], bin, s.freePages[bin], k - 1);
    }
    if k + 1 < |s.bins[bin]| {
      Links(s.tags, s.bins[bin], bin, s.freePages[bin], k + 1);
    }
  }

  /** Taking the busy right neighbour in and leaving the bin, in either order, give the same tags. */
  lemma RemoveMergeCommute(m: Memory, l: nat)
    requires l in m && m[l].right in m && m[l].right != l
    requires var far := m[m[l].right].right; far != l && far != m[l].right && (far != 0 ==> far in m)
    requires m[l].prev != 0 ==> m[l].prev in m && m[l].prev != l
    requires m[l].next != 0 ==> m[l].next in m && m[l].next != l
    requires m[l].prev != 0 && m[l].next != 0 ==> m[l].prev != m[l].next
    requires m[l].prev != m[l].right && m[l].next != m[l].right && m[l].right != 0
    ensures m[l].prev != 0 ==> m[l].prev in MergedTags(m, l)
    ensures m[l].next != 0 ==> m[l].next in MergedTags(m, l)
    ensures RemovedTags(m, l)[l].right == m[l].right && RemovedTags(m, l)[m[l].right].right == m[m[l].right].right
    ensures RemovedTags(MergedTags(m, l), l) == MergedTags(RemovedTags(m, l), l)
  {
    hide RemovedTags, MergedTags;
    MergeFacts(m, l);
    RemoveFacts(m, l);
    RemoveShape(m, l);
    var p, q := MergedTags(m, l), RemovedTags(m, l);
    RemoveFacts(p, l);
    MergeFacts(q, l);
    var x, y := RemovedTags(p, l), MergedTags(q, l);
    assert x.Keys == y.Keys;
    forall k | k in x
      ensures x[k] == y[k]
    {
    }
  }

  /** A tag with a neighbour is not a whole chunk, so taking it out of its bin changes no count. */
  lemma RemoveNeighbour(s: State, live: map<nat, nat>, busy: set<nat>, a: nat)
    requires Consistent(s, live, busy) && a in s.tags && s.tags[a].index >= 0 && !Complete(s.tags[a])
    ensures Consistent(Removed(s, a), live, busy + {a}) && SameShape(s.tags, Removed(s, a).tags)
  {
    hide BinsOk, Geometry, Counted, Sorted, NoFreeNeighbours, LiveOk, RemovedTags;
    RemoveKeeps(s, live, busy, a);
    var r := Removed(s, a);
    assert Adjusted(r, s.tags[a].index, 0) == r;
    RemoveKeepsShape(s, a);
  }

  lemma RemoveKeepsShape(s: State, a: nat)
    requires BinsOk(s.tags, s.freePages, s.bins) && a in s.tags && s.tags[a].index >= 0
    ensures SameShape(s.tags, Removed(s, a).tags)
  {
    hide BinsOk, RemovedTags, SameShape;
    RemoveKeepsBins(s.tags, s.freePages, s.bins, a);
    RemoveShape(s.tags, a);
  }

  /** The free right neighbour leaves its bin and is taken in. */
  lemma MeltRightKeeps(s: State, live: map<nat, nat>, a: nat)
    requires Consistent(s, live, {a}) && s.tags[a].right != 0
    requires s.tags[a].right in s.tags && s.tags[s.tags[a].right].index >= 0
    ensures Geometry(Removed(s, s.tags[a].right).tags, s.chunks, s.home)
    ensures Removed(s, s.tags[a].right).tags[a].right == s.tags[a].right
    ensures Consistent(Merged(Removed(s, s.tags[a].right), a), live, {a})
  {
    hide BinsOk, Geometry, Counted, Sorted, NoFreeNeighbours, RemovedTags, MergedTags;
    var right := s.tags[a].right;
    RightOf(s.tags, s.chunks, s.home, a);
    RemoveNeighbour(s, live, {a}, right);
    MergeKeeps(Removed(s, right), live, {a} + {right}, a);
    assert {a} + {right} - {right} == {a};
  }

  /** The free left neighbour takes the busy tag in and then leaves its bin. */
  lemma MeltLeftKeeps(s: State, live: map<nat, nat>, l: nat)
    requires BinsOk(s.tags, s.freePages, s.bins) && Geometry(s.tags, s.chunks, s.home)
    requires l in s.tags && s.tags[l].index >= 0 && s.tags[l].right != 0 && Consistent(s, live, {s.tags[l].right})
    ensures BinsOk(Merged(s, l).tags, s.freePages, s.bins) && l in Merged(s, l).tags && Merged(s, l).tags[l].index >= 0
    ensures Consistent(Removed(Merged(s, l), l), live, {l})
  {
    hide BinsOk, Geometry, Counted, Sorted, NoFreeNeighbours, RemovedTags, MergedTags, Without;
    var m := s.tags;
    var right := m[l].right;
    RightOf(m, s.chunks, s.home, l);
    MergeFacts(m, l);
    FreeLinks(s, l);
    assert m[right].index == -1;
    RemoveMergeCommute(m, l);
    RemoveNeighbour(s, live, {right}, l);
    var r := Removed(s, l);
    MergeKeeps(r, live, {right} + {l}, l);
    assert {right} + {l} - {right} == {l};
    BusyMergeKeepsBins(s, l);
    BinCount(s);
    assert Removed(Merged(s, l), l) == Merged(r, l);
  }

  /** Bins do not notice that a free tag grows over a busy one. */
  lemma BusyMergeKeepsBins(s: State, l: nat)
    requires BinsOk(s.tags, s.freePages, s.bins) && Geometry(s.tags, s.chunks, s.home)
    requires l in s.tags && s.tags[l].right != 0 && s.tags[l].right in s.tags && s.tags[s.tags[l].right].index == -1
    ensures BinsOk(Merged(s, l).tags, s.freePages, s.bins)
  {
    hide BinsOk, Geometry, MergedTags;
    RightOf(s.tags, s.chunks, s.home, l);
    MergeFacts(s.tags, l);
    BinCount(s);
    forall x | x in s.tags && s.tags[x].index < 0
      ensures s.tags[x].index == -1 && s.tags[x].next == 0 && s.tags[x].prev == 0
    {
      UsedIsUnlinked(s, x);
    }
    BinsFrame(s.tags, MergedTags(s.tags, l), s.freePages, s.bins);
  }

  /** A tag taken out of its bin has no free neighbour. */
  lemma RemovedIsSettled(s: State, a: nat)
    requires BinsOk(s.tags, s.freePages, s.bins) && Geometry(s.tags, s.chunks, s.home) && NoFreeNeighbours(s.tags)
    requires a in s.tags && s.tags[a].index >= 0
    ensures Settled(Removed(s, a).tags, a) && SamePlace(s.tags[a], Removed(s, a).tags[a])
  {
    hide BinsOk, Geometry, RemovedTags;
    RemoveKeepsBins(s.tags, s.freePages, s.bins, a);
    RemoveShape(s.tags, a);
    if s.tags[a].left != 0 {
      LeftOf(s.tags, s.chunks, s.home, a);
    }
    if s.tags[a].right != 0 {
      RightOf(s.tags, s.chunks, s.home, a);
    }
  }

  // When a chunk is wholly free.

  /** No live block lies in the chunk. */
  ghost predicate Vacant(live: map<nat, nat>, home: map<nat, nat>, base: nat) {
    forall x :: x in live ==> x in home && home[x] != base
  }

  /** A busy tag without free neighbours is a whole chunk exactly when its chunk holds no live block. */
  lemma WholeIsVacant(s: State, live: map<nat, nat>, a: nat)
    requires Consistent(s, live, {a}) && Settled(s.tags, a)
    ensures a in s.home && (Complete(s.tags[a]) <==> Vacant(live, s.home, s.home[a]))
  {
    hide BinsOk, Counted, Sorted, NoFreeNeighbours;
    assert TagOk(s.tags, s.chunks, s.home, a);
    hide TagOk, ChunksOk;
    BinCount(s);
    if Complete(s.tags[a]) {
      forall x | x in live
        ensures x in s.home && s.home[x] != s.home[a]
      {
        AloneInChunk(s.tags, s.chunks, s.home, a, x);
        BaseOf(s, a);
      }
    } else if s.tags[a].left != 0 {
      NeighbourIsLive(s, live, a, s.tags[a].left);
    } else {
      NeighbourIsLive(s, live, a, s.tags[a].right);
    }
  }

  lemma BaseOf(s: State, a: nat)
    requires Geometry(s.tags, s.chunks, s.home) && a in s.tags && s.tags[a].left == 0
    ensures a in s.home && s.home[a] == a
  {
    assert TagOk(s.tags, s.chunks, s.home, a);
  }

  lemma NeighbourIsLive(s: State, live: map<nat, nat>, a: nat, b: nat)
    requires Consistent(s, live, {a}) && Settled(s.tags, a) && b != 0 && (b == s.tags[a].left || b == s.tags[a].right)
    ensures a in s.home && b in live && b in s.home && s.home[b] == s.home[a]
  {
    hide BinsOk, Counted, Sorted, NoFreeNeighbours;
    assert TagOk(s.tags, s.chunks, s.home, a);
    hide TagOk, ChunksOk;
    BinCount(s);
    Surroundings(s, a);
  }

  /** Coalescing is complete: a chunk without live blocks is one free tag. */
  lemma VacantChunkIsWhole(s: State, live: map<nat, nat>, base: nat)
    requires Consistent(s, live, {}) && base in s.chunks && Vacant(live, s.home, base)
    ensures base in s.tags && Complete(s.tags[base]) && s.tags[base].index >= 0
    ensures s.tags[base].realSize == PAGE * s.chunks[base]
  {
    hide BinsOk, Counted, Sorted;
    BinCount(s);
    assert base in s.tags && TagOk(s.tags, s.chunks, s.home, base);
    WholeChunkIfAlone(s, live, base);
  }

  lemma WholeChunkIfAlone(s: State, live: map<nat, nat>, base: nat)
    requires Consistent(s, live, {}) && base in s.chunks && Vacant(live, s.home, base)
    ensures base in s.tags && s.tags[base].right == 0 && s.tags[base].index >= 0
  {
    hide BinsOk, Counted, Sorted;
    BinCount(s);
    assert TagOk(s.tags, s.chunks, s.home, base);
  }

  /** The neighbours of a tag exist, lie on either side of it, and are in its chunk. */
  lemma Surroundings(s: State, a: nat)
    requires Geometry(s.tags, s.chunks, s.home) && a in s.tags
    ensures a in s.home && s.home[a] in s.chunks && 0 < a
    ensures HEADER <= s.tags[a].realSize && a + s.tags[a].realSize <= LIMIT
    ensures var l := s.tags[a].left;
            l != 0 ==> l in s.tags && l < a && s.tags[l].right == a && l in s.home && s.home[l] == s.home[a]
    ensures var r := s.tags[a].right;
            r != 0 ==>
              r in s.tags && a < r && s.tags[r].left == a && r in s.home && s.home[r] == s.home[a]
              && HEADER <= s.tags[r].realSize
  {
    assert TagOk(s.tags, s.chunks, s.home, a);
    hide TagOk;
    NotNull(s.tags, s.chunks, s.home, a);
    if s.tags[a].left != 0 {
      RightOf(s.tags, s.chunks, s.home, s.tags[a].left);
    }
    if s.tags[a].right != 0 {
      NotNull(s.tags, s.chunks, s.home, s.tags[a].right);
    }
  }

  /** Taking in the right neighbour leaves the left one alone and grows the tag. */
  lemma MeltRightLeavesLeft(s: State, a: nat)
    requires BinsOk(s.tags, s.freePages, s.bins) && Geometry(s.tags, s.chunks, s.home)
    requires a in s.tags && s.tags[a].right != 0 && s.tags[a].right in s.tags && s.tags[s.tags[a].right].index >= 0
    requires s.tags[a].left != 0 ==> s.tags[a].left in s.tags && s.tags[s.tags[a].left].index < 0
    requires Geometry(Removed(s, s.tags[a].right).tags, s.chunks, s.home)
    requires Removed(s, s.tags[a].right).tags[a].right == s.tags[a].right
    ensures var n := Merged(Removed(s, s.tags[a].right), a).tags;
            && a in n && n[a].realSize == s.tags[a].realSize + s.tags[s.tags[a].right].realSize
            && n[a].left == s.tags[a].left && (n[a].left != 0 ==> n[a].left in n && n[n[a].left].index < 0)
  {
    hide BinsOk, Geometry, RemovedTags, MergedTags;
    var right := s.tags[a].right;
    RemoveKeepsBins(s.tags, s.freePages, s.bins, right);
    RemoveShape(s.tags, right);
    var m := RemovedTags(s.tags, right);
    RightOf(m, s.chunks, s.home, a);
    MergeFacts(m, a);
    Surroundings(s, a);
  }
}
