/**
 The bins of the boundary-tag heap: what `insert_tag` and `remove_tag` do to the tags,
 and why the bins stay well-formed doubly linked lists with the right counts.
 */
module HeapBins {
  import opened HeapModel

  // What the two operations do to the tags.

  function InsertedTags(m: Memory, head: nat, a: nat, bin: nat): (r: Memory)
    requires a in m && (head != 0 ==> head in m)
    ensures r.Keys == m.Keys
  {
    if head == 0 then m[a := m[a].(index := bin)]
    else m[head := m[head].(prev := a)][a := m[a].(index := bin, next := head)]
  }

  function RemovedTags(m: Memory, a: nat): (r: Memory)
    requires a in m && (m[a].prev != 0 ==> m[a].prev in m) && (m[a].next != 0 ==> m[a].next in m)
    ensures r.Keys == m.Keys
  {
    var t := m[a];
    var m1 := if t.prev != 0 then m[t.prev := m[t.prev].(next := t.next)] else m;
    var m2 := if t.next != 0 then m1[t.next := m1[t.next].(prev := t.prev)] else m1;
    m2[a := m2[a].(next := 0, prev := 0, index := -1)]
  }

  /** Two tags that cover the same bytes between the same neighbours. */
  predicate SamePlace(s: Tag, t: Tag) {
    s.left == t.left && s.right == t.right && s.realSize == t.realSize
  }

  /** Two memories that differ in list links and bin numbers only. */
  ghost predicate SameShape(m: Memory, n: Memory) {
    && m.Keys == n.Keys
    && forall a :: a in m ==> SamePlace(m[a], n[a]) && m[a].size == n[a].size
  }

  lemma InsertShape(m: Memory, head: nat, a: nat, bin: nat)
    requires a in m && (head != 0 ==> head in m && head != a)
    ensures SameShape(m, InsertedTags(m, head, a, bin))
    ensures forall x :: x in m && x != a ==> InsertedTags(m, head, a, bin)[x].index == m[x].index
    ensures InsertedTags(m, head, a, bin)[a].index == bin
  {
  }

  lemma RemoveShape(m: Memory, a: nat)
    requires a in m && (m[a].prev != 0 ==> m[a].prev in m) && (m[a].next != 0 ==> m[a].next in m)
    ensures SameShape(m, RemovedTags(m, a))
    ensures forall x :: x in m && x != a ==> RemovedTags(m, a)[x].index == m[x].index
    ensures RemovedTags(m, a)[a].index == -1 && RemovedTags(m, a)[a].next == 0 && RemovedTags(m, a)[a].prev == 0
  {
  }

  // Lists.

  /** A bin holds only tags that name it. */
  lemma InOneBin(m: Memory, freePages: seq<nat>, bins: seq<seq<nat>>, i: nat, x: nat)
    requires BinsOk(m, freePages, bins) && i < MAX_EXP && x in bins[i]
    ensures x in m && x != 0 && m[x].index == i
  {
    var k :| 0 <= k < |bins[i]| && bins[i][k] == x;
    assert Linked(m, bins[i], k, i);
  }

  /** A list is untouched by changes to tags outside it that leave its own tags alone. */
  lemma ListFrame(m: Memory, n: Memory, list: seq<nat>, bin: nat, head: nat)
    requires ListOk(m, list, bin, head)
    requires forall x ::
               x in list ==>
                 x in n && x in m && n[x].index == m[x].index && n[x].next == m[x].next && n[x].prev == m[x].prev
    ensures ListOk(n, list, bin, head)
  {
    forall k | 0 <= k < |list|
      ensures Linked(n, list, k, bin)
    {
      assert Linked(m, list, k, bin);
      assert list[k] in list;
    }
  }

  lemma ListInsert(m: Memory, list: seq<nat>, bin: nat, head: nat, a: nat)
    requires ListOk(m, list, bin, head) && a in m && a != 0 && a !in list
    requires m[a].next == 0 && m[a].prev == 0
    ensures head != 0 ==> head in m && head != a
    ensures ListOk(InsertedTags(m, head, a, bin), [a] + list, bin, a)
  {
    if list != [] {
      assert Linked(m, list, 0, bin);
      assert list[0] in list;
    }
    var n := InsertedTags(m, head, a, bin);
    var l := [a] + list;
    forall k | 0 <= k < |l|
      ensures Linked(n, l, k, bin)
    {
      if k > 0 {
        assert Linked(m, list, k - 1, bin);
        assert l[k] == list[k - 1];
        assert list[k - 1] in list;
      }
    }
  }

  /** The links of the k-th tag of a list are its neighbours in the list. */
  lemma Links(m: Memory, list: seq<nat>, bin: nat, head: nat, k: nat)
    requires ListOk(m, list, bin, head) && k < |list|
    ensures list[k] in m && list[k] != 0 && m[list[k]].index == bin && (head == list[k] <==> k == 0)
    ensures m[list[k]].prev == (if k == 0 then 0 else list[k - 1]) && (k > 0 ==> list[k - 1] in m && list[k - 1] != 0)
    ensures m[list[k]].next == (if k + 1 == |list| then 0 else list[k + 1])
    ensures k + 1 < |list| ==> list[k + 1] in m && list[k + 1] != 0
  {
    assert Linked(m, list, k, bin);
    assert k > 0 ==> Linked(m, list, k - 1, bin);
    assert k + 1 < |list| ==> Linked(m, list, k + 1, bin);
  }

  lemma ListRemove(m: Memory, list: seq<nat>, bin: nat, head: nat, k: nat)
    requires ListOk(m, list, bin, head) && k < |list|
    ensures list[k] in m && (m[list[k]].prev != 0 ==> m[list[k]].prev in m)
    ensures m[list[k]].next != 0 ==> m[list[k]].next in m
    ensures ListOk(RemovedTags(m, list[k]), list[..k] + list[k + 1..], bin,
                   if head == list[k] then m[list[k]].next else head)
  {
    Links(m, list, bin, head, k);
    var n := RemovedTags(m, list[k]);
    var l := list[..k] + list[k + 1..];
    forall j | 0 <= j < |l|
      ensures Linked(n, l, j, bin)
    {
      Links(m, list, bin, head, if j < k then j else j + 1);
    }
  }

  // All bins together.

  lemma InsertKeepsBins(m: Memory, freePages: seq<nat>, bins: seq<seq<nat>>, a: nat, bin: nat)
    requires BinsOk(m, freePages, bins) && a in m && a != 0 && m[a].index == -1 && bin < MAX_EXP
    ensures freePages[bin] != 0 ==> freePages[bin] in m && freePages[bin] != a
    ensures BinsOk(InsertedTags(m, freePages[bin], a, bin), freePages[bin := a], bins[bin := [a] + bins[bin]])
  {
    if a in bins[bin] {
      InOneBin(m, freePages, bins, bin, a);
    }
    ListInsert(m, bins[bin], bin, freePages[bin], a);
    var n := InsertedTags(m, freePages[bin], a, bin);
    forall i | 0 <= i < MAX_EXP && i != bin
      ensures ListOk(n, bins[i], i, freePages[i])
    {
      InsertMissesBin(m, freePages, bins, a, bin, i);
      ListFrame(m, n, bins[i], i, freePages[i]);
    }
    InsertBinned(m, freePages, bins, a, bin);
  }

  lemma InsertBinned(m: Memory, freePages: seq<nat>, bins: seq<seq<nat>>, a: nat, bin: nat)
    requires BinsOk(m, freePages, bins) && a in m && bin < MAX_EXP
    requires freePages[bin] != 0 ==> freePages[bin] in m && freePages[bin] != a
    ensures Binned(InsertedTags(m, freePages[bin], a, bin), bins[bin := [a] + bins[bin]])
  {
    var head := freePages[bin];
    if head != 0 {
      assert head in bins[bin];
      InOneBin(m, freePages, bins, bin, head);
    }
    InsertShape(m, head, a, bin);
  }

  lemma InsertMissesBin(m: Memory, freePages: seq<nat>, bins: seq<seq<nat>>, a: nat, bin: nat, i: nat)
    requires BinsOk(m, freePages, bins) && a in m && a != 0 && m[a].index == -1 && bin < MAX_EXP
    requires freePages[bin] != 0 ==> freePages[bin] in m && freePages[bin] != a
    requires i < MAX_EXP && i != bin
    ensures forall x :: x in bins[i] ==> x in m && InsertedTags(m, freePages[bin], a, bin)[x] == m[x]
  {
    forall x | x in bins[i]
      ensures x in m && InsertedTags(m, freePages[bin], a, bin)[x] == m[x]
    {
      InOneBin(m, freePages, bins, i, x);
      if bins[bin] != [] {
        InOneBin(m, freePages, bins, bin, bins[bin][0]);
      }
    }
  }

  /** Position of a tag in its bin. */
  ghost function Position(list: seq<nat>, a: nat): (k: nat)
    requires a in list
    ensures k < |list| && list[k] == a
  {
    if list[0] == a then 0 else 1 + Position(list[1..], a)
  }

  ghost function Without(list: seq<nat>, a: nat): (r: seq<nat>)
    requires a in list
  {
    list[..Position(list, a)] + list[Position(list, a) + 1..]
  }

  lemma WithoutDropsOnly(list: seq<nat>, a: nat)
    requires a in list && forall i, j :: 0 <= i < j < |list| ==> list[i] != list[j]
    ensures forall x :: x in Without(list, a) <==> x in list && x != a
  {
    var k := Position(list, a);
    forall x | x in list && x != a
      ensures x in Without(list, a)
    {
      var j :| 0 <= j < |list| && list[j] == x;
      assert Without(list, a)[if j < k then j else j - 1] == x;
    }
  }

  lemma RemoveKeepsBins(m: Memory, freePages: seq<nat>, bins: seq<seq<nat>>, a: nat)
    requires BinsOk(m, freePages, bins) && a in m && m[a].index >= 0
    ensures m[a].index < MAX_EXP && a in bins[m[a].index] && a != 0
    ensures (m[a].prev != 0 ==> m[a].prev in m) && (m[a].next != 0 ==> m[a].next in m)
    ensures var bin := m[a].index;
            BinsOk(RemovedTags(m, a), freePages[bin := if freePages[bin] == a then m[a].next else freePages[bin]],
                   bins[bin := Without(bins[bin], a)])
  {
    var bin := m[a].index;
    var k := Position(bins[bin], a);
    InOneBin(m, freePages, bins, bin, a);
    ListRemove(m, bins[bin], bin, freePages[bin], k);
    var n := RemovedTags(m, a);
    var heads := freePages[bin := if freePages[bin] == a then m[a].next else freePages[bin]];
    var after := bins[bin := Without(bins[bin], a)];
    forall i | 0 <= i < MAX_EXP && i != bin
      ensures ListOk(n, bins[i], i, heads[i])
    {
      RemoveMissesBin(m, freePages, bins, a, i);
      ListFrame(m, n, bins[i], i, freePages[i]);
    }
    assert Binned(n, after) by {
      RemoveShape(m, a);
      WithoutDropsOnly(bins[bin], a);
      forall x | x in n
        ensures if n[x].index == -1 then n[x].next == 0 && n[x].prev == 0
                else 0 <= n[x].index < |after| && x in after[n[x].index]
      {
        if x != a && m[x].index == -1 {
          Links(m, bins[bin], bin, freePages[bin], k);
          assert k > 0 ==> bins[bin][k - 1] in bins[bin];
          assert k + 1 < |bins[bin]| ==> bins[bin][k + 1] in bins[bin];
          UnbinnedElsewhere(m, freePages, bins, bin, x);
        }
      }
    }
  }

  lemma UnbinnedElsewhere(m: Memory, freePages: seq<nat>, bins: seq<seq<nat>>, bin: nat, x: nat)
    requires BinsOk(m, freePages, bins) && bin < MAX_EXP && x in m && m[x].index != bin
    ensures x !in bins[bin]
  {
    if x in bins[bin] {
      InOneBin(m, freePages, bins, bin, x);
    }
  }

  lemma RemoveMissesBin(m: Memory, freePages: seq<nat>, bins: seq<seq<nat>>, a: nat, i: nat)
    requires BinsOk(m, freePages, bins) && a in m && m[a].index >= 0 && i < MAX_EXP && i != m[a].index
    requires (m[a].prev != 0 ==> m[a].prev in m) && (m[a].next != 0 ==> m[a].next in m)
    ensures forall x :: x in bins[i] ==> x in m && RemovedTags(m, a)[x] == m[x]
  {
    var bin := m[a].index;
    var k := Position(bins[bin], a);
    Links(m, bins[bin], bin, freePages[bin], k);
    forall x | x in bins[i]
      ensures x in m && RemovedTags(m, a)[x] == m[x]
    {
      InOneBin(m, freePages, bins, i, x);
      if k > 0 {
        InOneBin(m, freePages, bins, bin, bins[bin][k - 1]);
      }
      if k + 1 < |bins[bin]| {
        InOneBin(m, freePages, bins, bin, bins[bin][k + 1]);
      }
    }
  }

  // Counts of whole chunks.

  ghost predicate AllIn(m: Memory, list: seq<nat>) {
    forall k :: 0 <= k < |list| ==> list[k] in m
  }

  lemma {:induction false} CountFrame(m: Memory, n: Memory, list: seq<nat>)
    requires AllIn(m, list) && AllIn(n, list)
    requires forall k :: 0 <= k < |list| ==> (Complete(m[list[k]]) <==> Complete(n[list[k]]))
    ensures CountComplete(m, list) == CountComplete(n, list)
  {
    if list != [] {
      CountFrame(m, n, list[1..]);
    }
  }

  lemma {:induction false} CountWithout(m: Memory, list: seq<nat>, a: nat)
    requires AllIn(m, list) && a in list
    ensures AllIn(m, Without(list, a))
    ensures CountComplete(m, list) == CountComplete(m, Without(list, a)) + (if Complete(m[a]) then 1 else 0)
  {
    if list[0] == a {
      assert Without(list, a) == list[1..];
    } else {
      CountWithout(m, list[1..], a);
      assert Without(list, a) == [list[0]] + Without(list[1..], a);
      assert Without(list, a)[1..] == Without(list[1..], a);
    }
  }

  /** Counts do not depend on links and bin numbers. */
  lemma ShapeKeepsCounts(m: Memory, n: Memory, bins: seq<seq<nat>>, completePages: seq<int>)
    requires Counted(m, bins, completePages) && SameShape(m, n)
    ensures Counted(n, bins, completePages)
  {
    forall i | 0 <= i < |bins|
      ensures AllIn(n, bins[i]) && CountComplete(n, bins[i]) == CountComplete(m, bins[i])
    {
      CountFrame(m, n, bins[i]);
    }
  }

  lemma CountedWithout(m: Memory, bins: seq<seq<nat>>, completePages: seq<int>, bin: nat, a: nat)
    requires Counted(m, bins, completePages) && bin < |bins| && a in bins[bin]
    ensures a in m
    ensures Counted(m, bins[bin := Without(bins[bin], a)],
                    completePages[bin := completePages[bin] - (if Complete(m[a]) then 1 else 0)])
  {
    hide Without, CountComplete;
    CountWithout(m, bins[bin], a);
  }

  lemma CountedWith(m: Memory, bins: seq<seq<nat>>, completePages: seq<int>, bin: nat, a: nat)
    requires Counted(m, bins, completePages) && bin < |bins| && a in m
    requires Complete(m[a]) ==> completePages[bin] < MAX_COMPLETE
    ensures Counted(m, bins[bin := [a] + bins[bin]],
                    completePages[bin := completePages[bin] + (if Complete(m[a]) then 1 else 0)])
  {
    hide CountComplete;
    CountWith(m, bins[bin], a);
  }

  lemma CountWith(m: Memory, list: seq<nat>, a: nat)
    requires AllIn(m, list) && a in m
    ensures AllIn(m, [a] + list)
    ensures CountComplete(m, [a] + list) == CountComplete(m, list) + (if Complete(m[a]) then 1 else 0)
  {
    assert ([a] + list)[1..] == list;
  }
}
