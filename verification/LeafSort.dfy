/**
 Sorting the leaves of the package-merge by weight: a bottom-up merge sort that merges
 neighbouring runs of doubling width from one buffer into the other.
 */
module LeafSort {
  import opened Arithmetic

  datatype Leaf = Leaf(weight: nat, symbol: nat)

  ghost predicate SortedRange(s: seq<Leaf>, lo: nat, hi: nat) {
    forall i, j :: lo <= i <= j < hi && j < |s| ==> s[i].weight <= s[j].weight
  }

  lemma RunNext(a: nat, b: nat)
    ensures Product(a + 1, b) == Product(a, b) + b && Product(0, b) == 0 && Product(a, 2 * b) == Product(2 * a, b)
  {
  }

  /** Run k of the given width is sorted. */
  ghost predicate SortedRun(s: seq<Leaf>, k: nat, width: nat) {
    SortedRange(s, Product(k, width), Product(k, width) + width)
  }

  /** The first m runs are sorted. */
  ghost predicate SortedRuns(s: seq<Leaf>, m: nat, width: nat) {
    forall k: nat {:trigger SortedRun(s, k, width)} :: k < m ==> SortedRun(s, k, width)
  }

  /** Every element of `left` is no heavier than x. */
  ghost predicate Below(left: seq<Leaf>, x: Leaf) {
    forall i :: 0 <= i < |left| ==> left[i].weight <= x.weight
  }

  /** m is the sorted merge of a[p..i] and a[q..j], and nothing left over is lighter. */
  ghost predicate Merging(a: seq<Leaf>, p: nat, q: nat, r: nat, i: nat, j: nat, m: seq<Leaf>) {
    && p <= i <= q <= j <= r <= |a| && |m| == (i - p) + (j - q)
    && SortedRange(m, 0, |m|) && (i < q ==> Below(m, a[i])) && (j < r ==> Below(m, a[j]))
    && multiset(m) == multiset(a[p..i]) + multiset(a[q..j])
  }

  lemma TakeLeft(a: seq<Leaf>, p: nat, q: nat, r: nat, i: nat, j: nat, m: seq<Leaf>)
    requires Merging(a, p, q, r, i, j, m) && SortedRange(a, p, q) && i < q && (j < r ==> a[i].weight <= a[j].weight)
    ensures Merging(a, p, q, r, i + 1, j, m + [a[i]])
  {
    assert a[p..i + 1] == a[p..i] + [a[i]];
    SortedSnoc(m, a[i]);
  }

  lemma TakeRight(a: seq<Leaf>, p: nat, q: nat, r: nat, i: nat, j: nat, m: seq<Leaf>)
    requires Merging(a, p, q, r, i, j, m) && SortedRange(a, q, r) && j < r && (i < q ==> a[j].weight <= a[i].weight)
    ensures Merging(a, p, q, r, i, j + 1, m + [a[j]])
  {
    assert a[q..j + 1] == a[q..j] + [a[j]];
    SortedSnoc(m, a[j]);
  }

  lemma SortedSnoc(m: seq<Leaf>, x: Leaf)
    requires SortedRange(m, 0, |m|) && Below(m, x)
    ensures SortedRange(m + [x], 0, |m| + 1)
    ensures forall y: Leaf :: x.weight <= y.weight ==> Below(m + [x], y)
  {
  }

  /** Merge a[p..q] and a[q..r], taking the left one on a tie. */
  method Merge(a: seq<Leaf>, p: nat, q: nat, r: nat) returns (m: seq<Leaf>)
    requires p <= q <= r <= |a| && SortedRange(a, p, q) && SortedRange(a, q, r)
    ensures |m| == r - p && SortedRange(m, 0, |m|) && multiset(m) == multiset(a[p..r])
  {
    hide SortedRange, Below, Merging;
    m := [];
    var i: nat, j: nat := p, q;
    MergeStart(a, p, q, r);
    while |m| < r - p
      invariant Merging(a, p, q, r, i, j, m)
      decreases r - p - |m|
    {
      MergeBounds(a, p, q, r, i, j, m);
      if i < q && (j >= r || a[i].weight <= a[j].weight) {
        TakeLeft(a, p, q, r, i, j, m);
        m := m + [a[i]];
        i := i + 1;
      } else {
        TakeRight(a, p, q, r, i, j, m);
        m := m + [a[j]];
        j := j + 1;
      }
    }
    MergeEnd(a, p, q, r, i, j, m);
  }

  lemma MergeBounds(a: seq<Leaf>, p: nat, q: nat, r: nat, i: nat, j: nat, m: seq<Leaf>)
    requires Merging(a, p, q, r, i, j, m)
    ensures p <= i <= q <= j <= r <= |a| && |m| == (i - p) + (j - q) && SortedRange(m, 0, |m|)
  {
  }

  lemma MergeEnd(a: seq<Leaf>, p: nat, q: nat, r: nat, i: nat, j: nat, m: seq<Leaf>)
    requires Merging(a, p, q, r, i, j, m) && |m| >= r - p
    ensures |m| == r - p && multiset(m) == multiset(a[p..r]) && SortedRange(m, 0, |m|)
  {
    assert a[p..r] == a[p..i] + a[q..j];
  }

  lemma MergeStart(a: seq<Leaf>, p: nat, q: nat, r: nat)
    requires p <= q <= r <= |a|
    ensures Merging(a, p, q, r, p, q, [])
  {
  }

  /** Merge all pairs of neighbouring runs. */
  method MergePass(a: seq<Leaf>, width: nat) returns (b: seq<Leaf>)
    requires width > 0 && SortedRuns(a, |a|, width)
    ensures |b| == |a| && multiset(b) == multiset(a) && SortedRuns(b, |b|, 2 * width)
  {
    hide SortedRange, Product;
    b := [];
    var p := 0;
    ghost var m: nat := 0;
    RunNext(0, width);
    while p < |a|
      invariant p == Product(2 * m, width) && |b| == if p < |a| then p else |a|
      invariant multiset(b) == multiset(a[..|b|]) && SortedRuns(b, m, 2 * width)
      decreases |a| - p
    {
      var q := if p + width > |a| then |a| else p + width;
      var r := if p + 2 * width > |a| then |a| else p + 2 * width;
      TwoRuns(a, m, width, p, q, r);
      RunNext(m, width);
      var merged := Merge(a, p, q, r);
      AppendRun(b, merged, m, 2 * width);
      assert a[..r] == a[..p] + a[p..r];
      b := b + merged;
      RunNext(2 * m, width);
      RunNext(2 * m + 1, width);
      m := m + 1;
      p := p + 2 * width;
    }
    assert a[..|a|] == a;
    RunNext(m, width);
    AllRuns(b, m, 2 * width);
  }

  /** Runs 2m and 2m + 1, cut off at the end. */
  lemma TwoRuns(a: seq<Leaf>, m: nat, width: nat, p: nat, q: nat, r: nat)
    requires width > 0 && SortedRuns(a, |a|, width) && p == Product(2 * m, width) < |a|
    requires q == (if p + width > |a| then |a| else p + width)
    requires r == (if p + 2 * width > |a| then |a| else p + 2 * width)
    ensures SortedRange(a, p, q) && SortedRange(a, q, r)
  {
    RunIsInside(2 * m, width);
    assert SortedRun(a, 2 * m, width);
    RunNext(2 * m, width);
    if q < |a| {
      RunIsInside(2 * m + 1, width);
      assert SortedRun(a, 2 * m + 1, width);
    }
  }

  /** Run k does not start before position k. */
  lemma {:induction false} RunIsInside(k: nat, width: nat)
    requires width > 0
    ensures k <= Product(k, width)
  {
    if k > 0 {
      RunIsInside(k - 1, width);
      RunNext(k - 1, width);
    }
  }

  lemma AppendRun(b: seq<Leaf>, run: seq<Leaf>, m: nat, width: nat)
    requires width > 0 && SortedRuns(b, m, width) && |b| == Product(m, width)
    requires |run| <= width && SortedRange(run, 0, |run|)
    ensures SortedRuns(b + run, m + 1, width)
  {
    hide Product;
    forall k: nat | k < m + 1
      ensures SortedRun(b + run, k, width)
    {
      if k < m {
        assert SortedRun(b, k, width);
        RunsInOrder(k, m, width);
      } else {
        var c := b + run;
        forall i, j | Product(k, width) <= i <= j < Product(k, width) + width && j < |c|
          ensures c[i].weight <= c[j].weight
        {
          assert c[i] == run[i - |b|] && c[j] == run[j - |b|];
        }
      }
    }
  }

  lemma {:induction false} RunsInOrder(k: nat, m: nat, width: nat)
    requires k < m
    ensures Product(k, width) + width <= Product(m, width)
    decreases m
  {
    RunNext(m - 1, width);
    if k < m - 1 {
      RunsInOrder(k, m - 1, width);
    }
  }

  /** Runs behind the end are empty. */
  lemma AllRuns(b: seq<Leaf>, m: nat, width: nat)
    requires width > 0 && SortedRuns(b, m, width) && Product(m, width) >= |b|
    ensures SortedRuns(b, |b|, width)
  {
    hide Product;
    forall k: nat | k < |b|
      ensures SortedRun(b, k, width)
    {
      if k >= m {
        if k > m {
          RunsInOrder(m, k, width);
        }
      } else {
        assert SortedRun(b, k, width);
      }
    }
  }

  /** Sort by weight. */
  method SortLeaves(leaves: seq<Leaf>) returns (sorted: seq<Leaf>)
    ensures |sorted| == |leaves| && multiset(sorted) == multiset(leaves) && SortedRange(sorted, 0, |sorted|)
  {
    sorted := leaves;
    var width: nat := 1;
    SingleRuns(leaves);
    while width < |leaves|
      invariant width >= 1 && |sorted| == |leaves| && multiset(sorted) == multiset(leaves)
      invariant SortedRuns(sorted, |sorted|, width)
      decreases |leaves| - width
    {
      sorted := MergePass(sorted, width);
      width := width * 2;
    }
    if |sorted| > 0 {
      assert SortedRun(sorted, 0, width);
    }
  }

  lemma SingleRuns(s: seq<Leaf>)
    ensures SortedRuns(s, |s|, 1)
  {
  }
}
