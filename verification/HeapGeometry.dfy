/**
 The chunks of the boundary-tag heap: merging, splitting, adding and releasing keep the
 tags of every chunk side by side, and side-by-side tags partition the chunk.
 */
module HeapGeometry {
  import opened HeapModel
  import opened HeapBins

  /** Tag l takes over its right neighbour. */
  function MergedTags(m: Memory, l: nat): (r: Memory)
    requires l in m && m[l].right in m && (m[m[l].right].right != 0 ==> m[m[l].right].right in m)
  {
    var right := m[l].right;
    var far := m[right].right;
    var m1 := m[l := m[l].(realSize := m[l].realSize + m[right].realSize, right := far)];
    var m2 := if far != 0 then m1[far := m1[far].(left := l)] else m1;
    m2 - {right}
  }

  /** Tag a keeps its header and `size` bytes; the rest becomes a new tag whose size field is left over. */
  function SplitTags(m: Memory, a: nat, leftover: nat): (r: Memory)
    requires a in m && HEADER + m[a].size <= m[a].realSize && (m[a].right != 0 ==> m[a].right in m)
  {
    var t := m[a];
    var b := a + HEADER + t.size;
    var m1 := m[b := Tag(leftover, t.realSize - HEADER - t.size, -1, a, t.right, 0, 0)];
    var m2 := if t.right != 0 then m1[t.right := m1[t.right].(left := b)] else m1;
    m2[a := m2[a].(right := b, realSize := HEADER + t.size)]
  }

  /** Two home maps that agree on a tag and its neighbours. */
  ghost predicate SameHome(t: Tag, home: map<nat, nat>, after: map<nat, nat>, a: nat) {
    && a in home && a in after && home[a] == after[a]
    && (t.left != 0 && t.left in home ==> t.left in after && home[t.left] == after[t.left])
    && (t.right != 0 && t.right in home ==> t.right in after && home[t.right] == after[t.right])
  }

  /** A tag is fine as long as it keeps its place and its neighbours still point back at it. */
  lemma TagFrame(m: Memory, n: Memory, chunks: map<nat, nat>, chunks': map<nat, nat>, home: map<nat, nat>,
                 home': map<nat, nat>, a: nat)
    requires a in m && a in n && TagOk(m, chunks, home, a) && SamePlace(m[a], n[a])
    requires m[a].left != 0 ==> m[a].left in n && n[m[a].left].right == m[m[a].left].right
    requires m[a].right != 0 ==> m[a].right in n && n[m[a].right].left == m[m[a].right].left
    requires SameHome(m[a], home, home', a) && home[a] in chunks' && chunks'[home[a]] == chunks[home[a]]
    ensures TagOk(n, chunks', home', a)
  {
  }

  lemma PlacesKeepGeometry(m: Memory, n: Memory, chunks: map<nat, nat>, home: map<nat, nat>)
    requires Geometry(m, chunks, home) && m.Keys == n.Keys && forall a :: a in m ==> SamePlace(m[a], n[a])
    ensures Geometry(n, chunks, home)
  {
    hide TagOk;
    forall x, y | x in n && y in n
      ensures Apart(n, x, y)
    {
      assert Apart(m, x, y);
    }
    forall x | x in n
      ensures TagOk(n, chunks, home, x)
    {
      assert TagOk(m, chunks, home, x);
      Neighbours(m, chunks, home, x);
      TagFrame(m, n, chunks, chunks, home, home, x);
    }
  }

  lemma Neighbours(m: Memory, chunks: map<nat, nat>, home: map<nat, nat>, a: nat)
    requires a in m && TagOk(m, chunks, home, a)
    ensures a in home && home[a] in chunks && a >= home[a]
    ensures m[a].left != 0 ==>
              m[a].left in m && m[m[a].left].right == a && m[a].left in home && home[m[a].left] == home[a]
    ensures m[a].right != 0 ==>
              m[a].right in m && m[m[a].right].left == a && m[a].right in home && home[m[a].right] == home[a]
  {
  }

  /** The right neighbour of a tag, and the one after it, exist where the tag says. */
  lemma RightOf(m: Memory, chunks: map<nat, nat>, home: map<nat, nat>, a: nat)
    requires Geometry(m, chunks, home) && a in m && m[a].right != 0
    ensures var r := m[a].right;
            && r in m && r == a + m[a].realSize && r > a && m[r].left == a && r !in chunks && 0 < a
            && (m[r].right != 0 ==> m[r].right in m && m[r].right > r && m[m[r].right].left == r)
  {
    assert TagOk(m, chunks, home, a);
    var r := m[a].right;
    assert TagOk(m, chunks, home, r);
    if m[r].right != 0 {
      assert TagOk(m, chunks, home, m[r].right);
    }
  }

  lemma LeftOf(m: Memory, chunks: map<nat, nat>, home: map<nat, nat>, a: nat)
    requires Geometry(m, chunks, home) && a in m && m[a].left != 0
    ensures m[a].left in m && m[m[a].left].right == a && 0 < a
  {
    assert TagOk(m, chunks, home, a);
  }

  lemma NotNull(m: Memory, chunks: map<nat, nat>, home: map<nat, nat>, a: nat)
    requires Geometry(m, chunks, home) && a in m
    ensures 0 < a && HEADER <= m[a].realSize && a + m[a].realSize <= LIMIT
  {
    assert TagOk(m, chunks, home, a);
  }

  lemma MergeKeepsGeometry(m: Memory, chunks: map<nat, nat>, home: map<nat, nat>, l: nat)
    requires Geometry(m, chunks, home) && l in m && m[l].right != 0
    ensures m[l].right in m && (m[m[l].right].right != 0 ==> m[m[l].right].right in m)
    ensures Geometry(MergedTags(m, l), chunks, home)
  {
    RightOf(m, chunks, home, l);
    var n := MergedTags(m, l);
    var right := m[l].right;
    assert Disjoint(n) by {
      forall x, y | x in n && y in n
        ensures Apart(n, x, y)
      {
        assert Apart(m, x, y) && Apart(m, right, y);
      }
    }
    forall x | x in n
      ensures TagOk(n, chunks, home, x)
    {
      MergeKeepsTag(m, chunks, home, l, x);
    }
  }

  lemma MergeKeepsTag(m: Memory, chunks: map<nat, nat>, home: map<nat, nat>, l: nat, x: nat)
    requires Geometry(m, chunks, home) && l in m && m[l].right != 0 && x in m && x != m[l].right
    requires m[l].right in m && (m[m[l].right].right != 0 ==> m[m[l].right].right in m)
    ensures TagOk(MergedTags(m, l), chunks, home, x)
  {
    hide Apart, ChunksOk;
    var right := m[l].right;
    var far := m[right].right;
    assert TagOk(m, chunks, home, l) && TagOk(m, chunks, home, right);
    if far != 0 {
      assert TagOk(m, chunks, home, far);
      Neighbours(m, chunks, home, far);
    }
    if x != l && x != far {
      hide TagOk;
      assert TagOk(m, chunks, home, x);
      Neighbours(m, chunks, home, x);
      Neighbours(m, chunks, home, l);
      Neighbours(m, chunks, home, right);
      TagFrame(m, MergedTags(m, l), chunks, chunks, home, home, x);
    }
  }

  /** The place of a split is not the place of another tag. */
  lemma SplitIsNew(m: Memory, chunks: map<nat, nat>, home: map<nat, nat>, a: nat)
    requires Geometry(m, chunks, home) && a in m && HEADER + m[a].size + HEADER <= m[a].realSize
    ensures a + HEADER + m[a].size !in m && (m[a].right != 0 ==> m[a].right in m && m[a].right != a)
    ensures a in home && home[a] in chunks && 0 < a
  {
    assert TagOk(m, chunks, home, a);
    var b := a + HEADER + m[a].size;
    assert b in m ==> Apart(m, a, b);
  }

  lemma SplitKeepsGeometry(m: Memory, chunks: map<nat, nat>, home: map<nat, nat>, a: nat, leftover: nat)
    requires Geometry(m, chunks, home) && a in m && HEADER + m[a].size + HEADER <= m[a].realSize
    ensures a in home && (m[a].right != 0 ==> m[a].right in m)
    ensures Geometry(SplitTags(m, a, leftover), chunks, home[a + HEADER + m[a].size := home[a]])
  {
    hide TagOk, Apart;
    SplitIsNew(m, chunks, home, a);
    var n := SplitTags(m, a, leftover);
    forall x, y | x in n && y in n
      ensures Apart(n, x, y)
    {
      SplitKeepsApart(m, a, leftover, x, y);
    }
    forall x | x in n
      ensures TagOk(n, chunks, home[a + HEADER + m[a].size := home[a]], x)
    {
      SplitKeepsTag(m, chunks, home, a, leftover, x);
    }
  }

  lemma SplitKeepsApart(m: Memory, a: nat, leftover: nat, x: nat, y: nat)
    requires Disjoint(m) && a in m && HEADER + m[a].size + HEADER <= m[a].realSize
    requires (m[a].right != 0 ==> m[a].right in m) && a + HEADER + m[a].size !in m
    requires x in SplitTags(m, a, leftover) && y in SplitTags(m, a, leftover)
    ensures Apart(SplitTags(m, a, leftover), x, y)
  {
    assert x in m && y in m ==> Apart(m, x, y);
    assert y in m ==> Apart(m, a, y);
    assert x in m ==> Apart(m, x, a) && Apart(m, a, x);
  }

  lemma SplitKeepsTag(m: Memory, chunks: map<nat, nat>, home: map<nat, nat>, a: nat, leftover: nat, x: nat)
    requires Geometry(m, chunks, home) && a in m && HEADER + m[a].size + HEADER <= m[a].realSize
    requires a in home && (m[a].right != 0 ==> m[a].right in m)
    requires a + HEADER + m[a].size !in m && (x in m || x == a + HEADER + m[a].size)
    ensures x in SplitTags(m, a, leftover)
    ensures TagOk(SplitTags(m, a, leftover), chunks, home[a + HEADER + m[a].size := home[a]], x)
  {
    hide Apart, ChunksOk, TagOk, SplitTags;
    if m[a].right != 0 {
      RightOf(m, chunks, home, a);
      assert TagOk(m, chunks, home, m[a].right);
      Neighbours(m, chunks, home, m[a].right);
    }
    SplitFacts(m, a, leftover);
    assert TagOk(m, chunks, home, a);
    NotNull(m, chunks, home, a);
    Neighbours(m, chunks, home, a);
    var b, right := a + HEADER + m[a].size, m[a].right;
    if x == a || x == b {
      SplitParts(m, chunks, home, a, leftover);
    } else if right != 0 && x == right {
      assert TagOk(m, chunks, home, right);
      SplitRight(m, chunks, home, a, leftover);
    } else {
      assert TagOk(m, chunks, home, x);
      NotNull(m, chunks, home, x);
      Neighbours(m, chunks, home, x);
      TagFrame(m, SplitTags(m, a, leftover), chunks, chunks, home, home[b := home[a]], x);
    }
  }

  /** What a split changes. */
  lemma SplitFacts(m: Memory, a: nat, leftover: nat)
    requires a in m && HEADER + m[a].size <= m[a].realSize && (m[a].right != 0 ==> m[a].right in m && m[a].right != a)
    requires a + HEADER + m[a].size !in m
    ensures var b := a + HEADER + m[a].size; var right := m[a].right; var n := SplitTags(m, a, leftover);
            && n.Keys == m.Keys + {b}
            && n[a] == m[a].(realSize := HEADER + m[a].size, right := b)
            && n[b] == Tag(leftover, m[a].realSize - HEADER - m[a].size, -1, a, right, 0, 0)
            && (right != 0 ==> n[right] == m[right].(left := b))
            && (forall x :: x in m && x != a && (right == 0 || x != right) ==> n[x] == m[x])
  {
  }

  /** The two parts of a split tag. */
  lemma SplitParts(m: Memory, chunks: map<nat, nat>, home: map<nat, nat>, a: nat, leftover: nat)
    requires a in m && TagOk(m, chunks, home, a) && HEADER + m[a].size + HEADER <= m[a].realSize && 0 < a
    requires (m[a].right != 0 ==> m[a].right in m && m[a].right != a) && a + HEADER + m[a].size !in m
    ensures var b := a + HEADER + m[a].size; var n := SplitTags(m, a, leftover);
            a in n && b in n && TagOk(n, chunks, home[b := home[a]], a) && TagOk(n, chunks, home[b := home[a]], b)
  {
    hide SplitTags;
    SplitFacts(m, a, leftover);
  }

  lemma SplitRight(m: Memory, chunks: map<nat, nat>, home: map<nat, nat>, a: nat, leftover: nat)
    requires a in m && TagOk(m, chunks, home, a) && HEADER + m[a].size + HEADER <= m[a].realSize && 0 < a
    requires m[a].right != 0 && m[a].right != a && m[a].right in m
    requires TagOk(m, chunks, home, m[a].right) && a + HEADER + m[a].size !in m
    ensures var b := a + HEADER + m[a].size; var n := SplitTags(m, a, leftover);
            m[a].right in n && TagOk(n, chunks, home[b := home[a]], m[a].right)
  {
    hide SplitTags;
    SplitFacts(m, a, leftover);
  }

  /** A run of pages that no chunk uses. */
  ghost predicate FreshRegion(chunks: map<nat, nat>, a: nat, pages: nat) {
    && 0 < a && a + PAGE * pages <= LIMIT
    && forall b :: b in chunks ==> End(chunks, b) <= a || a + PAGE * pages <= b
  }

  lemma AddKeepsGeometry(m: Memory, chunks: map<nat, nat>, home: map<nat, nat>, a: nat, pages: nat, size: nat)
    requires Geometry(m, chunks, home) && FreshRegion(chunks, a, pages) && pages >= MIN_PAGES
    ensures a !in m
    ensures Geometry(m[a := Tag(size, PAGE * pages, -1, 0, 0, 0, 0)], chunks[a := pages], home[a := a])
  {
    hide Apart, TagOk;
    var n := m[a := Tag(size, PAGE * pages, -1, 0, 0, 0, 0)];
    if a in m {
      OutsideFresh(m, chunks, home, a, pages, a);
    }
    forall x, y | x in n && y in n
      ensures Apart(n, x, y)
    {
      AddKeepsApart(m, chunks, home, n, a, pages, x, y);
    }
    forall x | x in n
      ensures TagOk(n, chunks[a := pages], home[a := a], x)
    {
      if x == a {
        NewTagOk(n, chunks[a := pages], home[a := a], a);
      } else {
        assert TagOk(m, chunks, home, x);
        Neighbours(m, chunks, home, x);
        TagFrame(m, n, chunks, chunks[a := pages], home, home[a := a], x);
      }
    }
  }

  lemma NewTagOk(m: Memory, chunks: map<nat, nat>, home: map<nat, nat>, a: nat)
    requires a in m && a in home && home[a] == a && a in chunks && chunks[a] >= 1
    requires Complete(m[a]) && m[a].realSize == PAGE * chunks[a]
    ensures TagOk(m, chunks, home, a)
  {
  }

  lemma OutsideFresh(m: Memory, chunks: map<nat, nat>, home: map<nat, nat>, a: nat, pages: nat, x: nat)
    requires Geometry(m, chunks, home) && FreshRegion(chunks, a, pages) && pages >= 1 && x in m
    ensures x + m[x].realSize <= a || a + PAGE * pages <= x
    ensures x != a
  {
    assert TagOk(m, chunks, home, x);
  }

  lemma AddKeepsApart(m: Memory, chunks: map<nat, nat>, home: map<nat, nat>, n: Memory, a: nat, pages: nat, x: nat,
                      y: nat)
    requires Geometry(m, chunks, home) && FreshRegion(chunks, a, pages) && pages >= 1
    requires n.Keys == m.Keys + {a} && n[a].realSize == PAGE * pages && x in n && y in n
    requires forall z :: z in m && z != a ==> n[z] == m[z]
    ensures Apart(n, x, y)
  {
    hide TagOk;
    assert x in m && y in m ==> Apart(m, x, y);
    if x in m {
      OutsideFresh(m, chunks, home, a, pages, x);
    }
    if y in m {
      OutsideFresh(m, chunks, home, a, pages, y);
    }
  }

  /** A whole chunk has the size it was obtained with. */
  lemma WholeChunk(m: Memory, chunks: map<nat, nat>, home: map<nat, nat>, a: nat)
    requires Geometry(m, chunks, home) && a in m && Complete(m[a])
    ensures a in chunks && m[a].realSize == PAGE * chunks[a] && chunks[a] >= MIN_PAGES
  {
    assert TagOk(m, chunks, home, a);
  }

  lemma ReleaseKeepsGeometry(m: Memory, chunks: map<nat, nat>, home: map<nat, nat>, a: nat)
    requires Geometry(m, chunks, home) && a in m && Complete(m[a])
    ensures Geometry(m - {a}, chunks - {a}, home)
  {
    hide Apart, TagOk;
    WholeChunk(m, chunks, home, a);
    var n := m - {a};
    forall x, y | x in n && y in n
      ensures Apart(n, x, y)
    {
      ReleaseKeepsApart(m, a, x, y);
    }
    forall x | x in n
      ensures TagOk(n, chunks - {a}, home, x)
    {
      assert TagOk(m, chunks, home, x);
      Neighbours(m, chunks, home, x);
      AloneInChunk(m, chunks, home, a, x);
      TagFrame(m, n, chunks, chunks - {a}, home, home, x);
    }
  }

  lemma ReleaseKeepsApart(m: Memory, a: nat, x: nat, y: nat)
    requires Disjoint(m) && x in m && y in m && x != a
    ensures Apart(m - {a}, x, y)
  {
    assert Apart(m, x, y);
  }

  lemma AloneInChunk(m: Memory, chunks: map<nat, nat>, home: map<nat, nat>, a: nat, x: nat)
    requires Geometry(m, chunks, home) && a in m && Complete(m[a]) && x in m && x != a
    ensures x in home && home[x] != a
  {
    assert TagOk(m, chunks, home, a) && TagOk(m, chunks, home, x);
    assert Apart(m, a, x);
  }

  // What the geometry means.

  /** The tags from a to the end of its chunk, in order. */
  ghost function Walk(m: Memory, chunks: map<nat, nat>, home: map<nat, nat>, a: nat): (r: seq<nat>)
    requires Geometry(m, chunks, home) && a in m
    decreases LIMIT - a
  {
    NotNull(m, chunks, home, a);
    if m[a].right == 0 then [a]
    else
      RightOf(m, chunks, home, a);
      NotNull(m, chunks, home, m[a].right);
      [a] + Walk(m, chunks, home, m[a].right)
  }

  ghost function TotalSize(m: Memory, list: seq<nat>): (r: nat)
    requires AllIn(m, list)
  {
    if list == [] then 0 else m[list[0]].realSize + TotalSize(m, list[1..])
  }

  /** The real sizes of the tags from a on sum to the rest of the chunk. */
  lemma {:induction false} WalkFills(m: Memory, chunks: map<nat, nat>, home: map<nat, nat>, a: nat)
    requires Geometry(m, chunks, home) && a in m
    ensures a in home && home[a] in chunks && AllIn(m, Walk(m, chunks, home, a))
    ensures TotalSize(m, Walk(m, chunks, home, a)) == End(chunks, home[a]) - a
    decreases LIMIT - a
  {
    assert TagOk(m, chunks, home, a);
    NotNull(m, chunks, home, a);
    var w := Walk(m, chunks, home, a);
    if m[a].right != 0 {
      RightOf(m, chunks, home, a);
      NotNull(m, chunks, home, m[a].right);
      WalkFills(m, chunks, home, m[a].right);
      assert w[1..] == Walk(m, chunks, home, m[a].right);
    }
  }

  /** Every address from a to the end of a's chunk lies in a tag reached by walking right. */
  lemma {:induction false} WalkReaches(m: Memory, chunks: map<nat, nat>, home: map<nat, nat>, a: nat, x: nat)
    returns (t: nat)
    requires Geometry(m, chunks, home) && a in m && a in home && home[a] in chunks && a <= x < End(chunks, home[a])
    ensures t in Walk(m, chunks, home, a) && t in m && t <= x < t + m[t].realSize
    decreases LIMIT - a
  {
    assert TagOk(m, chunks, home, a);
    if x < a + m[a].realSize {
      t := a;
    } else {
      RightOf(m, chunks, home, a);
      NotNull(m, chunks, home, m[a].right);
      t := WalkReaches(m, chunks, home, m[a].right, x);
    }
  }

  /** The real sizes of a chunk's tags sum to its size. */
  lemma ChunkSum(m: Memory, chunks: map<nat, nat>, home: map<nat, nat>, base: nat)
    requires Geometry(m, chunks, home) && base in chunks
    ensures base in m && AllIn(m, Walk(m, chunks, home, base))
    ensures TotalSize(m, Walk(m, chunks, home, base)) == PAGE * chunks[base]
  {
    WalkFills(m, chunks, home, base);
  }

  /** No gap and no overlap: every address of a chunk lies in exactly one tag, and it is one of the walk. */
  lemma ChunkPartition(m: Memory, chunks: map<nat, nat>, home: map<nat, nat>, base: nat, x: nat) returns (t: nat)
    requires Geometry(m, chunks, home) && base in chunks && base <= x < End(chunks, base)
    ensures base in m && t in Walk(m, chunks, home, base)
    ensures t in m && t <= x < t + m[t].realSize
    ensures forall u :: u in m && u <= x < u + m[u].realSize ==> u == t
  {
    t := WalkReaches(m, chunks, home, base, x);
    forall u | u in m && u <= x < u + m[u].realSize
      ensures u == t
    {
      assert Apart(m, u, t) && Apart(m, t, u);
    }
  }

  /** The walk from a chunk's base meets every tag of the chunk. */
  lemma WalkMeetsAll(m: Memory, chunks: map<nat, nat>, home: map<nat, nat>, base: nat, u: nat)
    requires Geometry(m, chunks, home) && base in chunks && u in m && u in home && home[u] == base
    ensures base in m && u in Walk(m, chunks, home, base)
  {
    NotNull(m, chunks, home, u);
    assert TagOk(m, chunks, home, u);
    var t := ChunkPartition(m, chunks, home, base, u);
  }

  ghost predicate InPayload(live: map<nat, nat>, a: nat, x: nat)
  {
    a in live && a + HEADER <= x < a + HEADER + live[a]
  }

  /** A payload byte belongs to one live block only, lies inside one chunk, and is in no tag's header. */
  lemma PayloadsApart(m: Memory, chunks: map<nat, nat>, home: map<nat, nat>, live: map<nat, nat>, busy: set<nat>,
                      a: nat, x: nat)
    requires Geometry(m, chunks, home) && LiveOk(m, live, busy) && InPayload(live, a, x)
    ensures forall b :: InPayload(live, b, x) ==> b == a
    ensures a in home && home[a] in chunks && home[a] <= x < End(chunks, home[a])
    ensures forall b :: b in m ==> !(b <= x < b + HEADER)
  {
    assert TagOk(m, chunks, home, a);
    forall b | b in m && b != a
      ensures b + m[b].realSize <= x || x < b
    {
      assert Apart(m, a, b) && Apart(m, b, a);
    }
    forall b | b in m
      ensures m[b].realSize >= HEADER
    {
      NotNull(m, chunks, home, b);
    }
  }
}
