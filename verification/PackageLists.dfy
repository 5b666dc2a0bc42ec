/**
 The lists that package-merge draws from, as values: each merges the leaves with the
 packages made of pairs of items of the list below. However many leaves are taken at
 each level, a prefix of the merged list costs no more.
 */
module PackageLists {
  import opened Arithmetic

  ghost predicate Sorted(xs: seq<nat>) {
    forall i, j :: 0 <= i <= j < |xs| ==> xs[i] <= xs[j]
  }

  function Prefix(xs: seq<nat>, k: nat): (s: nat)
    requires k <= |xs|
  {
    if k == 0 then 0 else Prefix(xs, k - 1) + xs[k - 1]
  }

  lemma {:induction false} PrefixGrows(xs: seq<nat>, j: nat, k: nat)
    requires j <= k <= |xs|
    ensures Prefix(xs, j) <= Prefix(xs, k)
    decreases k
  {
    if j < k {
      PrefixGrows(xs, j, k - 1);
    }
  }

  /**
   In a sorted list the elements from position j to k are at least as heavy as that at j, and no
   heavier than the last.
   */
  lemma {:induction false} PrefixBounds(xs: seq<nat>, j: nat, k: nat)
    requires Sorted(xs) && j < k <= |xs|
    ensures Prefix(xs, j) + Product(k - j, xs[j]) <= Prefix(xs, k) <= Prefix(xs, j) + Product(k - j, xs[k - 1])
    decreases k
  {
    hide Product;
    ProductNext(k - 1 - j, xs[j]);
    ProductNext(k - 1 - j, xs[k - 1]);
    if j < k - 1 {
      PrefixBounds(xs, j, k - 1);
      ProductGrows(k - 1 - j, xs[k - 2], xs[k - 1]);
    } else {
      ProductNext(0, xs[j]);
    }
  }

  // Merging two sorted lists, one item at a time; on a tie the second list goes first.

  predicate FromFirst(xs: seq<nat>, ys: seq<nat>, i: nat, j: nat) {
    i < |xs| && (j >= |ys| || xs[i] < ys[j])
  }

  /** How many of the first k items come from the first list. */
  function Taken(xs: seq<nat>, ys: seq<nat>, k: nat): (i: nat)
    requires k <= |xs| + |ys|
    ensures i <= k && i <= |xs| && k - i <= |ys|
  {
    if k == 0 then 0
    else
      var i := Taken(xs, ys, k - 1);
      if FromFirst(xs, ys, i, k - 1 - i) then i + 1 else i
  }

  function ItemAt(xs: seq<nat>, ys: seq<nat>, k: nat): (w: nat)
    requires k < |xs| + |ys|
  {
    var i := Taken(xs, ys, k);
    if FromFirst(xs, ys, i, k - i) then xs[i] else ys[k - i]
  }

  function Merged(xs: seq<nat>, ys: seq<nat>): (zs: seq<nat>)
    ensures |zs| == |xs| + |ys|
  {
    seq(|xs| + |ys|, k requires 0 <= k < |xs| + |ys| => ItemAt(xs, ys, k))
  }

  lemma MergedAt(xs: seq<nat>, ys: seq<nat>, k: nat)
    requires k < |xs| + |ys|
    ensures Merged(xs, ys)[k] == ItemAt(xs, ys, k)
  {
  }

  lemma {:induction false} PrefixMerged(xs: seq<nat>, ys: seq<nat>, k: nat)
    requires k <= |xs| + |ys|
    ensures var i := Taken(xs, ys, k); Prefix(Merged(xs, ys), k) == Prefix(xs, i) + Prefix(ys, k - i)
  {
    hide Merged, FromFirst;
    if k > 0 {
      PrefixMerged(xs, ys, k - 1);
      MergedAt(xs, ys, k - 1);
    }
  }

  /** What was taken is no heavier than what was left. */
  lemma {:induction false} TakenIsLight(xs: seq<nat>, ys: seq<nat>, k: nat)
    requires Sorted(xs) && Sorted(ys) && k <= |xs| + |ys|
    ensures var i := Taken(xs, ys, k); var j := k - i;
            && (0 < j && i < |xs| ==> ys[j - 1] <= xs[i])
            && (0 < i && j < |ys| ==> xs[i - 1] <= ys[j])
  {
    if k > 0 {
      TakenIsLight(xs, ys, k - 1);
    }
  }

  lemma SortedMerged(xs: seq<nat>, ys: seq<nat>)
    requires Sorted(xs) && Sorted(ys)
    ensures Sorted(Merged(xs, ys))
  {
    var zs := Merged(xs, ys);
    forall k | 0 < k < |zs|
      ensures zs[k - 1] <= zs[k]
    {
      TakenIsLight(xs, ys, k - 1);
    }
    StepsSorted(zs);
  }

  lemma StepsSorted(zs: seq<nat>)
    requires forall k :: 0 < k < |zs| ==> zs[k - 1] <= zs[k]
    ensures Sorted(zs)
  {
    forall i, j | 0 <= i <= j < |zs|
      ensures zs[i] <= zs[j]
    {
      StepsBetween(zs, i, j);
    }
  }

  lemma {:induction false} StepsBetween(zs: seq<nat>, i: nat, j: nat)
    requires i <= j < |zs| && forall k :: 0 < k < |zs| ==> zs[k - 1] <= zs[k]
    ensures zs[i] <= zs[j]
    decreases j
  {
    if i < j {
      StepsBetween(zs, i, j - 1);
    }
  }

  /** Any a items of one list and p of the other cost at least as much as the first a + p of both. */
  lemma MergeBound(xs: seq<nat>, ys: seq<nat>, a: nat, p: nat)
    requires Sorted(xs) && Sorted(ys) && a <= |xs| && p <= |ys|
    ensures Prefix(Merged(xs, ys), a + p) <= Prefix(xs, a) + Prefix(ys, p)
  {
    hide Sorted, Merged, Taken, Prefix;
    var i := Taken(xs, ys, a + p);
    var j := a + p - i;
    PrefixMerged(xs, ys, a + p);
    TakenIsLight(xs, ys, a + p);
    if i < a {
      Exchange(xs, ys, i, a, p, j);
    } else if a < i {
      Exchange(ys, xs, j, p, a, i);
    }
  }

  /** If x(i) is no lighter than y(j - 1), then x(i..a) weighs no less than as many items y(p..j). */
  lemma Exchange(xs: seq<nat>, ys: seq<nat>, i: nat, a: nat, p: nat, j: nat)
    requires Sorted(xs) && Sorted(ys) && i < a <= |xs| && p < j <= |ys| && a - i == j - p && ys[j - 1] <= xs[i]
    ensures Prefix(xs, i) + Prefix(ys, j) <= Prefix(xs, a) + Prefix(ys, p)
  {
    hide Sorted, Prefix, Product;
    PrefixBounds(xs, i, a);
    PrefixBounds(ys, p, j);
    ProductGrows(a - i, ys[j - 1], xs[i]);
  }

  // The lists.

  function Pairs(xs: seq<nat>): (ps: seq<nat>)
    ensures |ps| == |xs| / 2
  {
    seq(|xs| / 2, k requires 0 <= k < |xs| / 2 => xs[2 * k] + xs[2 * k + 1])
  }

  lemma {:induction false} PrefixPairs(xs: seq<nat>, k: nat)
    requires k <= |xs| / 2
    ensures Prefix(Pairs(xs), k) == Prefix(xs, 2 * k)
  {
    if k > 0 {
      PrefixPairs(xs, k - 1);
      assert Prefix(xs, 2 * k) == Prefix(xs, 2 * k - 1) + xs[2 * k - 1];
    }
  }

  lemma SortedPairs(xs: seq<nat>)
    requires Sorted(xs)
    ensures Sorted(Pairs(xs))
  {
  }

  /** The items of list c over leaves of the given weights. */
  function List(ws: seq<nat>, c: nat): (items: seq<nat>) {
    if c == 0 then ws else Merged(ws, Pairs(List(ws, c - 1)))
  }

  lemma {:induction false} SortedList(ws: seq<nat>, c: nat)
    requires Sorted(ws)
    ensures Sorted(List(ws, c))
  {
    hide Sorted, Merged, Pairs;
    if c > 0 {
      SortedList(ws, c - 1);
      SortedPairs(List(ws, c - 1));
      SortedMerged(ws, Pairs(List(ws, c - 1)));
    }
  }

  // Any numbers of leaves at the levels.

  /** How many items the leaves counted at levels 0 to c make. */
  function ItemsOf(counts: seq<nat>, c: nat): (n: nat)
    requires c < |counts|
  {
    counts[c] + if c == 0 then 0 else ItemsOf(counts, c - 1) / 2
  }

  /** The weight of all those leaves, the lightest at each level. */
  function CostOf(ws: seq<nat>, counts: seq<nat>, c: nat): (w: nat)
    requires c < |counts| && forall d :: 0 <= d < |counts| ==> counts[d] <= |ws|
  {
    Prefix(ws, counts[c]) + if c == 0 then 0 else CostOf(ws, counts, c - 1)
  }

  /** No choice of leaves that makes k items is cheaper than the first k items of the list. */
  lemma {:induction false} ListIsCheapest(ws: seq<nat>, counts: seq<nat>, c: nat, k: nat)
    requires Sorted(ws) && c < |counts| && (forall d :: 0 <= d < |counts| ==> counts[d] <= |ws|)
    requires k <= ItemsOf(counts, c)
    ensures ItemsOf(counts, c) <= |List(ws, c)| && Prefix(List(ws, c), k) <= CostOf(ws, counts, c)
  {
    hide Sorted, Merged, Pairs, Prefix;
    var a := counts[c];
    if c == 0 {
      PrefixGrows(ws, k, a);
    } else {
      var below := List(ws, c - 1);
      var p := ItemsOf(counts, c - 1) / 2;
      ListIsCheapest(ws, counts, c - 1, 2 * p);
      PrefixPairs(below, p);
      SortedList(ws, c - 1);
      SortedPairs(below);
      MergeBound(ws, Pairs(below), a, p);
      PrefixGrows(List(ws, c), k, a + p);
    }
  }
}
