/**
 Boundary-tag heap: what a consistent heap looks like. Memory is a map from
 addresses to the tags placed there; 0 is the null pointer. Addresses are physical
 offsets below 4 GiB.
 */
module HeapModel {
  import opened BitSequence

  const HEADER: nat := 48
  const PAGE: nat := 4096
  const MIN_PAGES: nat := 16
  const MIN_EXP: nat := 8
  const MAX_EXP: nat := 32
  const MAX_COMPLETE: nat := 5
  const LIMIT: nat := 0x1_0000_0000

  datatype Tag = Tag(size: nat, realSize: nat, index: int, left: nat, right: nat, next: nat, prev: nat)

  type Memory = map<nat, Tag>

  /** 2^e <= size < 2^(e+1). */
  ghost predicate IsExp(size: nat, e: nat) {
    Pow2(e) <= size < Pow2(e + 1)
  }

  /** The bin for a free tag: at least 8, else the exponent of its payload size. */
  ghost predicate IsBin(realSize: nat, bin: int) {
    && HEADER <= realSize < LIMIT && MIN_EXP <= bin < MAX_EXP
    && (if realSize - HEADER < Pow2(MIN_EXP) then bin == MIN_EXP else IsExp(realSize - HEADER, bin))
  }

  // Bins: doubly linked lists of free tags.

  /** The tag at position k of a list has the right links and the right bin number. */
  ghost predicate Linked(m: Memory, list: seq<nat>, k: nat, bin: nat)
    requires k < |list|
  {
    && list[k] in m && list[k] != 0 && m[list[k]].index == bin
    && m[list[k]].prev == (if k == 0 then 0 else list[k - 1])
    && m[list[k]].next == (if k + 1 == |list| then 0 else list[k + 1])
  }

  ghost predicate ListOk(m: Memory, list: seq<nat>, bin: nat, head: nat) {
    && head == (if list == [] then 0 else list[0])
    && (forall k :: 0 <= k < |list| ==> Linked(m, list, k, bin))
    && (forall i, j :: 0 <= i < j < |list| ==> list[i] != list[j])
  }

  /** Every tag is in the bin its index names, or in none and unlinked if the index is -1. */
  ghost predicate Binned(m: Memory, bins: seq<seq<nat>>) {
    forall a :: a in m ==>
      if m[a].index == -1 then m[a].next == 0 && m[a].prev == 0
      else 0 <= m[a].index < |bins| && a in bins[m[a].index]
  }

  ghost predicate BinsOk(m: Memory, freePages: seq<nat>, bins: seq<seq<nat>>) {
    && |freePages| == |bins| == MAX_EXP
    && (forall i :: 0 <= i < MAX_EXP ==> ListOk(m, bins[i], i, freePages[i]))
    && Binned(m, bins)
  }

  // Geometry: the tags of a chunk lie side by side and fill it.

  function End(chunks: map<nat, nat>, base: nat): nat
    requires base in chunks
  {
    base + PAGE * chunks[base]
  }

  ghost predicate TagOk(m: Memory, chunks: map<nat, nat>, home: map<nat, nat>, a: nat)
    requires a in m
  {
    var t := m[a];
    && a in home && home[a] in chunks && t.realSize >= HEADER
    && home[a] <= a && a + t.realSize <= End(chunks, home[a])
    && (t.left == 0 <==> a == home[a])
    && (t.right == 0 <==> a + t.realSize == End(chunks, home[a]))
    && (t.left != 0 ==> t.left in m && m[t.left].right == a && t.left in home && home[t.left] == home[a])
    && (t.right != 0 ==> t.right in m && t.right == a + t.realSize && m[t.right].left == a
                         && t.right in home && home[t.right] == home[a])
  }

  ghost predicate Apart(m: Memory, a: nat, b: nat)
    requires a in m
  {
    a < b ==> a + m[a].realSize <= b
  }

  ghost predicate Disjoint(m: Memory) {
    forall a, b {:trigger Apart(m, a, b)} :: a in m && b in m ==> Apart(m, a, b)
  }

  ghost predicate ChunksOk(m: Memory, chunks: map<nat, nat>, home: map<nat, nat>) {
    && (forall b :: b in chunks ==>
          0 < b && chunks[b] >= MIN_PAGES && End(chunks, b) <= LIMIT && b in m && b in home && home[b] == b)
    && (forall b, c :: b in chunks && c in chunks && b < c ==> End(chunks, b) <= c)
  }

  ghost predicate Geometry(m: Memory, chunks: map<nat, nat>, home: map<nat, nat>) {
    && ChunksOk(m, chunks, home) && Disjoint(m)
    && (forall a {:trigger TagOk(m, chunks, home, a)} :: a in m ==> TagOk(m, chunks, home, a))
  }

  // Free and live tags.

  predicate Complete(t: Tag) {
    t.left == 0 && t.right == 0
  }

  /** How many tags of a list are whole chunks. */
  ghost function CountComplete(m: Memory, list: seq<nat>): nat
    requires forall k :: 0 <= k < |list| ==> list[k] in m
  {
    if list == [] then 0
    else (if Complete(m[list[0]]) then 1 else 0) + CountComplete(m, list[1..])
  }

  ghost predicate Counted(m: Memory, bins: seq<seq<nat>>, completePages: seq<int>) {
    && |completePages| == |bins|
    && forall i :: 0 <= i < |bins| ==>
         && (forall k :: 0 <= k < |bins[i]| ==> bins[i][k] in m)
         && completePages[i] == CountComplete(m, bins[i]) <= MAX_COMPLETE
  }

  ghost predicate Sorted(m: Memory) {
    forall a :: a in m && m[a].index >= 0 ==> IsBin(m[a].realSize, m[a].index)
  }

  ghost predicate NoFreeNeighbours(m: Memory) {
    forall a :: a in m && m[a].right != 0 && m[a].index >= 0 ==> m[a].right in m && m[m[a].right].index < 0
  }

  /** Live tags are in use and large enough; busy tags are in use without being live. */
  ghost predicate LiveOk(m: Memory, live: map<nat, nat>, busy: set<nat>) {
    && (forall a :: a in live ==>
          a in m && m[a].index == -1 && m[a].size == live[a] && HEADER + live[a] <= m[a].realSize && a !in busy)
    && (forall a :: a in busy ==> a in m && m[a].index == -1)
    && (forall a :: a in m && m[a].index == -1 ==> a in live || a in busy)
  }

  /** The heap's variables, with the lists the links spell out and the chunks obtained so far (base -> pages). */
  datatype State = State(
    tags: Memory,
    freePages: seq<nat>,
    completePages: seq<int>,
    bins: seq<seq<nat>>,
    chunks: map<nat, nat>,
    home: map<nat, nat>
  )

  ghost predicate Consistent(s: State, live: map<nat, nat>, busy: set<nat>) {
    && BinsOk(s.tags, s.freePages, s.bins)
    && Geometry(s.tags, s.chunks, s.home)
    && Counted(s.tags, s.bins, s.completePages)
    && Sorted(s.tags)
    && NoFreeNeighbours(s.tags)
    && LiveOk(s.tags, live, busy)
  }
}
