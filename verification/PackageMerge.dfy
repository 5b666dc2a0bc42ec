/**
 Code lengths from symbol frequencies by boundary package-merge. Whatever the
 frequencies, the lengths are at most the given maximum, meet Kraft equality, and give
 every symbol that occurs a code. Chain nodes are values, so the node pool and its
 collector are not part of the model.
 */
module PackageMerge {
  import opened BitSequence
  import opened Arithmetic
  import opened Huffman
  import opened LeafSort
  import opened PackageLists
  import opened CodeCost

  /** The leaves and packages taken from one list: the number of leaves, and the same for the list below. */
  datatype Chain = NoChain | Node(weight: nat, index: nat, tail: Chain)

  /** How many items a chain stands for: its leaves, and one package for every two items below. */
  function Items(ch: Chain): (n: nat) {
    if ch.NoChain? then 0 else ch.index + Items(ch.tail) / 2
  }

  /** A chain of list `level` over n leaves: packages are made of pairs, and lower lists use no more leaves. */
  ghost predicate Good(ch: Chain, n: nat, level: nat) {
    && ch.Node? && 1 <= ch.index <= n
    && (ch.tail.Node? ==>
          level >= 1 && Good(ch.tail, n, level - 1) && Items(ch.tail) % 2 == 0 && ch.tail.index <= ch.index)
  }

  /** The weight of the k lightest leaves. */
  function Lightest(ws: seq<nat>, k: nat): (w: nat) {
    if k <= |ws| then Prefix(ws, k) else 0
  }

  /** The weight of all leaves of a chain. */
  function ChainCost(ws: seq<nat>, ch: Chain): (w: nat) {
    if ch.NoChain? then 0 else Lightest(ws, ch.index) + ChainCost(ws, ch.tail)
  }

  /** How many of the first k items of list c are leaves. */
  function LeavesIn(ws: seq<nat>, c: nat, k: nat): (i: nat)
    requires k <= |List(ws, c)|
  {
    if c == 0 then k else Taken(ws, Pairs(List(ws, c - 1)), k)
  }

  /** How many items a list has. */
  function Available(n: nat, level: nat): (a: nat)
    ensures a >= n
  {
    if level == 0 then n else n + Available(n, level - 1) / 2
  }

  lemma {:induction false} GoodItems(ch: Chain, n: nat, level: nat)
    requires Good(ch, n, level)
    ensures Items(ch) <= Available(n, level)
    ensures Items(ch) == Available(n, level) ==> ch.index == n
    decreases ch
  {
    if ch.tail.Node? {
      GoodItems(ch.tail, n, level - 1);
    }
  }

  lemma {:induction false} AvailableBound(n: nat, level: nat, max: nat)
    requires level <= max && n <= Pow2(max)
    ensures Available(n, level) + Pow2(max - level) >= 2 * n
  {
    if level > 0 {
      AvailableBound(n, level - 1, max);
    }
  }

  // The lookahead chains. `asked` counts how often each list was asked for an item.

  ghost predicate SortedLeaves(leaves: seq<Leaf>) {
    && (forall i :: 0 <= i < |leaves| ==> leaves[i].weight > 0)
    && (forall i, j :: 0 <= i <= j < |leaves| ==> leaves[i].weight <= leaves[j].weight)
  }

  /** As long as a list has not been asked for more items than it has, its chain stands for all of them. */
  ghost predicate Accurate(n: nat, ch: Chain, asked: nat, level: nat) {
    && (asked <= Available(n, level) ==> Good(ch, n, level) && Items(ch) == asked)
    && (asked >= Available(n, level) ==> ch.Node? && ch.index == n)
  }

  /** The last item taken is no lighter than the leaves taken and no heavier than the next. */
  ghost predicate Ordered(leaves: seq<Leaf>, ch0: Chain, ch1: Chain) {
    && ch0.Node? && ch1.Node? && 1 <= ch1.index <= |leaves| && 1 <= ch0.weight <= ch1.weight
    && leaves[ch1.index - 1].weight <= ch1.weight
    && (ch1.index < |leaves| ==> ch1.weight <= leaves[ch1.index].weight)
  }

  /** As long as the list has them, the chains stand for its first items, at their cost. */
  ghost predicate Cheapest(ws: seq<nat>, ch0: Chain, ch1: Chain, asked: nat, c: nat) {
    ch0.Node? && ch1.Node? &&
    (asked <= |List(ws, c)| ==>
       && 2 <= asked && ch1.index == LeavesIn(ws, c, asked) && ChainCost(ws, ch1) == Prefix(List(ws, c), asked)
       && ch1.weight == List(ws, c)[asked - 1] && ch0.weight == List(ws, c)[asked - 2])
  }

  ghost predicate LevelOk(leaves: seq<Leaf>, chains0: seq<Chain>, chains1: seq<Chain>, asked: seq<nat>, c: nat)
    requires c < |chains0| == |chains1| == |asked|
  {
    && Ordered(leaves, chains0[c], chains1[c]) && Accurate(|leaves|, chains1[c], asked[c], c)
    && asked[c] >= chains1[c].index && Cheapest(Weights(leaves), chains0[c], chains1[c], asked[c], c)
  }

  /** The two lists fit together: the list below is two items ahead of the packages taken from it. */
  ghost predicate LinkOk(chains0: seq<Chain>, chains1: seq<Chain>, asked: seq<nat>, c: nat)
    requires 1 <= c < |chains0| == |chains1| == |asked|
  {
    && chains0[c - 1].Node? && chains1[c - 1].Node? && chains1[c].Node?
    && chains0[c - 1].weight + chains1[c - 1].weight >= chains1[c].weight
    && asked[c - 1] == 2 * (asked[c] - chains1[c].index + 1)
  }

  ghost predicate OkUpTo(leaves: seq<Leaf>, chains0: seq<Chain>, chains1: seq<Chain>, asked: seq<nat>, c: nat)
    requires |chains0| == |chains1| == |asked|
  {
    && c < |chains0|
    && (forall d {:trigger LevelOk(leaves, chains0, chains1, asked, d)} ::
          0 <= d <= c ==> LevelOk(leaves, chains0, chains1, asked, d))
    && (forall d {:trigger LinkOk(chains0, chains1, asked, d)} :: 1 <= d <= c ==> LinkOk(chains0, chains1, asked, d))
  }

  /** Levels that did not change are still fine. */
  lemma OkFrame(leaves: seq<Leaf>, chains0: seq<Chain>, chains1: seq<Chain>, asked: seq<nat>,
                chains0': seq<Chain>, chains1': seq<Chain>, asked': seq<nat>, c: nat)
    requires |chains0| == |chains1| == |asked| == |chains0'| == |chains1'| == |asked'|
    requires OkUpTo(leaves, chains0, chains1, asked, c)
    requires forall d :: 0 <= d <= c ==> chains0'[d] == chains0[d] && chains1'[d] == chains1[d] && asked'[d] == asked[d]
    ensures OkUpTo(leaves, chains0', chains1', asked', c)
  {
    hide Ordered, Accurate, Cheapest;
    forall d | 0 <= d <= c
      ensures LevelOk(leaves, chains0', chains1', asked', d)
    {
      assert LevelOk(leaves, chains0, chains1, asked, d);
    }
    forall d | 1 <= d <= c
      ensures LinkOk(chains0', chains1', asked', d)
    {
      assert LinkOk(chains0, chains1, asked, d);
    }
  }

  // One more item for a list.

  /** Another leaf. */
  lemma TakeLeaf(leaves: seq<Leaf>, ch0: Chain, ch1: Chain, asked: nat, c: nat)
    requires SortedLeaves(leaves) && Ordered(leaves, ch0, ch1)
    requires Accurate(|leaves|, ch1, asked, c) && ch1.index < |leaves|
    ensures var ch := Node(leaves[ch1.index].weight, ch1.index + 1, ch1.tail);
            Ordered(leaves, ch1, ch) && Accurate(|leaves|, ch, asked + 1, c) && ch.weight >= ch1.weight
  {
    var ch := Node(leaves[ch1.index].weight, ch1.index + 1, ch1.tail);
    if asked + 1 <= Available(|leaves|, c) {
      GoodItems(ch, |leaves|, c);
    }
  }

  /** Another package: the two items below exist, and use no more leaves. */
  lemma TakePackage(leaves: seq<Leaf>, ch0: Chain, ch1: Chain, asked: nat, low0: Chain, low1: Chain, lowAsked: nat,
                    c: nat)
    requires SortedLeaves(leaves) && c >= 1 && Ordered(leaves, ch0, ch1)
    requires Accurate(|leaves|, ch1, asked, c) && asked >= ch1.index
    requires Ordered(leaves, low0, low1) && Accurate(|leaves|, low1, lowAsked, c - 1)
    requires low0.weight + low1.weight >= ch1.weight && lowAsked == 2 * (asked - ch1.index + 1)
    requires ch1.index < |leaves| ==> low0.weight + low1.weight <= leaves[ch1.index].weight
    ensures var ch := Node(low0.weight + low1.weight, ch1.index, low1);
            Ordered(leaves, ch1, ch) && Accurate(|leaves|, ch, asked + 1, c)
  {
    hide Good, Items, Available, SortedLeaves;
    if asked + 1 <= Available(|leaves|, c) {
      LowerIsAccurate(leaves, ch1, asked, low0, low1, lowAsked, c);
      PackageIsGood(ch1.index, |leaves|, low0.weight + low1.weight, low1, c);
    }
  }

  lemma PackageIsGood(index: nat, n: nat, weight: nat, low: Chain, c: nat)
    requires c >= 1 && 1 <= index <= n && Good(low, n, c - 1) && Items(low) % 2 == 0 && low.index <= index
    ensures var ch := Node(weight, index, low);
            && Good(ch, n, c) && Items(ch) == index + Items(low) / 2
            && (Items(ch) == Available(n, c) ==> index == n)
  {
    GoodItems(Node(weight, index, low), n, c);
  }

  lemma LowerIsAccurate(leaves: seq<Leaf>, ch1: Chain, asked: nat, low0: Chain, low1: Chain, lowAsked: nat, c: nat)
    requires SortedLeaves(leaves) && c >= 1 && ch1.Node? && 1 <= ch1.index <= |leaves| && asked >= ch1.index
    requires Ordered(leaves, low0, low1) && Accurate(|leaves|, low1, lowAsked, c - 1)
    requires lowAsked == 2 * (asked - ch1.index + 1) && asked + 1 <= Available(|leaves|, c)
    requires ch1.index < |leaves| ==> low0.weight + low1.weight <= leaves[ch1.index].weight
    ensures lowAsked <= Available(|leaves|, c - 1) && Good(low1, |leaves|, c - 1) && Items(low1) == lowAsked
    ensures low1.index <= ch1.index
  {
  }

  // The same for the cost.

  lemma {:induction false} ListSize(ws: seq<nat>, c: nat)
    ensures |List(ws, c)| == Available(|ws|, c)
  {
    if c > 0 {
      ListSize(ws, c - 1);
    }
  }

  lemma ListIs(ws: seq<nat>, c: nat)
    requires c >= 1
    ensures List(ws, c) == Merged(ws, Pairs(List(ws, c - 1)))
  {
  }

  /** The first two items of every list are the two lightest leaves. */
  lemma {:induction false} FirstItems(ws: seq<nat>, c: nat)
    requires |ws| >= 2 && ws[0] > 0 && ws[1] > 0
    ensures |List(ws, c)| >= 2 && List(ws, c)[0] == ws[0] && List(ws, c)[1] == ws[1] && LeavesIn(ws, c, 2) == 2
  {
    hide Merged, Pairs, Taken;
    if c > 0 {
      FirstItems(ws, c - 1);
      FirstPair(List(ws, c - 1));
      FirstMerged(ws, Pairs(List(ws, c - 1)));
    }
  }

  lemma FirstPair(xs: seq<nat>)
    requires |xs| >= 2
    ensures |Pairs(xs)| >= 1 && Pairs(xs)[0] == xs[0] + xs[1]
  {
  }

  lemma FirstMerged(ws: seq<nat>, ys: seq<nat>)
    requires |ws| >= 2 && |ys| >= 1 && ws[0] < ys[0] && ws[1] < ys[0]
    ensures Merged(ws, ys)[0] == ws[0] && Merged(ws, ys)[1] == ws[1] && Taken(ws, ys, 2) == 2
  {
    assert Taken(ws, ys, 0) == 0;
    assert Taken(ws, ys, 1) == 1;
  }

  /** The next package of a list, if the list below has the items for it. */
  lemma NextPackage(ws: seq<nat>, low0: Chain, low1: Chain, j: nat, c: nat)
    requires c >= 1 && Cheapest(ws, low0, low1, 2 * (j + 1), c - 1) && j < |Pairs(List(ws, c - 1))|
    ensures Pairs(List(ws, c - 1))[j] == low0.weight + low1.weight
    ensures ChainCost(ws, low1) == Prefix(Pairs(List(ws, c - 1)), j + 1)
  {
    PrefixPairs(List(ws, c - 1), j + 1);
  }

  lemma CheapLeaf(ws: seq<nat>, ch0: Chain, ch1: Chain, asked: nat, low0: Chain, low1: Chain, c: nat)
    requires Cheapest(ws, ch0, ch1, asked, c) && ch1.index < |ws| && asked >= ch1.index
    requires c >= 1 ==> Cheapest(ws, low0, low1, 2 * (asked - ch1.index + 1), c - 1)
    requires c >= 1 ==> low0.weight + low1.weight > ws[ch1.index]
    ensures Cheapest(ws, ch1, Node(ws[ch1.index], ch1.index + 1, ch1.tail), asked + 1, c)
  {
    hide List, Pairs;
    var i := ch1.index;
    if asked + 1 <= |List(ws, c)| {
      if c == 0 {
        FirstList(ws);
      } else {
        var ys, j := Pairs(List(ws, c - 1)), asked - i;
        ListIs(ws, c);
        if j < |ys| {
          NextPackage(ws, low0, low1, j, c);
        }
        assert FromFirst(ws, ys, i, j);
        MergedAt(ws, ys, asked);
      }
    }
  }

  lemma FirstList(ws: seq<nat>)
    ensures List(ws, 0) == ws
  {
  }

  lemma CheapPackage(ws: seq<nat>, ch0: Chain, ch1: Chain, asked: nat, low0: Chain, low1: Chain, c: nat)
    requires c >= 1 && Cheapest(ws, ch0, ch1, asked, c) && ch1.index <= |ws| && asked >= ch1.index
    requires Cheapest(ws, low0, low1, 2 * (asked - ch1.index + 1), c - 1)
    requires asked + 1 <= |List(ws, c)| ==> 2 * (asked - ch1.index + 1) <= |List(ws, c - 1)|
    requires ch1.index < |ws| ==> low0.weight + low1.weight <= ws[ch1.index]
    ensures Cheapest(ws, ch1, Node(low0.weight + low1.weight, ch1.index, low1), asked + 1, c)
  {
    hide List, Pairs;
    var i := ch1.index;
    if asked + 1 <= |List(ws, c)| {
      var ys, j := Pairs(List(ws, c - 1)), asked - i;
      ListIs(ws, c);
      NextPackage(ws, low0, low1, j, c);
      assert !FromFirst(ws, ys, i, j);
      MergedAt(ws, ys, asked);
      PrefixMerged(ws, ys, asked + 1);
    }
  }

  // The same on the chains of all lists.

  /** A list and its link to the list below complete the lists below. */
  lemma Extend(leaves: seq<Leaf>, chains0: seq<Chain>, chains1: seq<Chain>, asked: seq<nat>, c: nat)
    requires 1 <= c < |chains0| == |chains1| == |asked| && OkUpTo(leaves, chains0, chains1, asked, c - 1)
    requires LevelOk(leaves, chains0, chains1, asked, c) && LinkOk(chains0, chains1, asked, c)
    ensures OkUpTo(leaves, chains0, chains1, asked, c)
  {
    hide LevelOk, LinkOk;
  }

  lemma LeafStep(leaves: seq<Leaf>, chains0: seq<Chain>, chains1: seq<Chain>, asked: seq<nat>, c: nat)
    requires |chains0| == |chains1| == |asked| && OkUpTo(leaves, chains0, chains1, asked, c) && SortedLeaves(leaves)
    requires chains1[c].Node? && chains1[c].index < |leaves|
    requires c >= 1 ==> chains0[c - 1].Node? && chains1[c - 1].Node?
                        && chains0[c - 1].weight + chains1[c - 1].weight > leaves[chains1[c].index].weight
    ensures var i := chains1[c].index; var ch := Node(leaves[i].weight, i + 1, chains1[c].tail);
            && OkUpTo(leaves, chains0[c := chains1[c]], chains1[c := ch], asked[c := asked[c] + 1], c)
            && ch.weight >= chains1[c].weight
            && Accurate(|leaves|, ch, asked[c] + 1, c) && Cheapest(Weights(leaves), chains1[c], ch, asked[c] + 1, c)
  {
    hide Ordered, Accurate, Cheapest;
    assert LevelOk(leaves, chains0, chains1, asked, c);
    TakeLeaf(leaves, chains0[c], chains1[c], asked[c], c);
    if c >= 1 {
      Below(leaves, chains0, chains1, asked, c);
      CheapLeaf(Weights(leaves), chains0[c], chains1[c], asked[c], chains0[c - 1], chains1[c - 1], c);
    } else {
      CheapLeaf(Weights(leaves), chains0[c], chains1[c], asked[c], NoChain, NoChain, c);
    }
    var i := chains1[c].index;
    var ch := Node(leaves[i].weight, i + 1, chains1[c].tail);
    var s0, s1, a := chains0[c := chains1[c]], chains1[c := ch], asked[c := asked[c] + 1];
    if c >= 1 {
      assert LinkOk(chains0, chains1, asked, c);
      Below(leaves, chains0, chains1, asked, c);
      OkFrame(leaves, chains0, chains1, asked, s0, s1, a, c - 1);
      Extend(leaves, s0, s1, a, c);
    }
  }

  lemma Below(leaves: seq<Leaf>, chains0: seq<Chain>, chains1: seq<Chain>, asked: seq<nat>, c: nat)
    requires |chains0| == |chains1| == |asked| && c >= 1 && OkUpTo(leaves, chains0, chains1, asked, c)
    ensures c < |chains0| && OkUpTo(leaves, chains0, chains1, asked, c - 1)
    ensures LevelOk(leaves, chains0, chains1, asked, c) && LevelOk(leaves, chains0, chains1, asked, c - 1)
    ensures LinkOk(chains0, chains1, asked, c)
  {
    hide LevelOk, LinkOk;
  }

  lemma LevelIndex(leaves: seq<Leaf>, chains0: seq<Chain>, chains1: seq<Chain>, asked: seq<nat>, c: nat)
    requires c < |chains0| == |chains1| == |asked| && LevelOk(leaves, chains0, chains1, asked, c)
    ensures chains1[c].Node? && 1 <= chains1[c].index <= |leaves|
  {
  }

  lemma PackageStep(leaves: seq<Leaf>, chains0: seq<Chain>, chains1: seq<Chain>, asked: seq<nat>, c: nat)
    requires |chains0| == |chains1| == |asked| && c >= 1
    requires OkUpTo(leaves, chains0, chains1, asked, c) && SortedLeaves(leaves)
    requires chains1[c].Node? && chains0[c - 1].Node? && chains1[c - 1].Node?
    requires var sum := chains0[c - 1].weight + chains1[c - 1].weight;
             chains1[c].index < |leaves| ==> sum <= leaves[chains1[c].index].weight
    ensures var sum := chains0[c - 1].weight + chains1[c - 1].weight;
            var ch := Node(sum, chains1[c].index, chains1[c - 1]);
            var s0, s1, a := chains0[c := chains1[c]], chains1[c := ch], asked[c := asked[c] + 1];
            && OkUpTo(leaves, s0, s1, a, c - 1) && LevelOk(leaves, s0, s1, a, c)
            && sum >= chains1[c].weight && a[c - 1] + 2 == 2 * (a[c] - ch.index + 1)
            && Accurate(|leaves|, ch, asked[c] + 1, c) && Cheapest(Weights(leaves), chains1[c], ch, asked[c] + 1, c)
  {
    hide Ordered, Accurate, Cheapest, OkUpTo, List, Available;
    Below(leaves, chains0, chains1, asked, c);
    LevelIndex(leaves, chains0, chains1, asked, c);
    ListSize(Weights(leaves), c);
    ListSize(Weights(leaves), c - 1);
    if asked[c] + 1 <= Available(|leaves|, c) {
      LowerIsAccurate(leaves, chains1[c], asked[c], chains0[c - 1], chains1[c - 1], asked[c - 1], c);
    }
    CheapPackage(Weights(leaves), chains0[c], chains1[c], asked[c], chains0[c - 1], chains1[c - 1], c);
    TakePackage(leaves, chains0[c], chains1[c], asked[c], chains0[c - 1], chains1[c - 1], asked[c - 1], c);
    var ch := Node(chains0[c - 1].weight + chains1[c - 1].weight, chains1[c].index, chains1[c - 1]);
    OkBelow(leaves, chains0, chains1, asked, chains0[c := chains1[c]], chains1[c := ch], asked[c := asked[c] + 1], c);
  }

  lemma OkBelow(leaves: seq<Leaf>, chains0: seq<Chain>, chains1: seq<Chain>, asked: seq<nat>,
                chains0': seq<Chain>, chains1': seq<Chain>, asked': seq<nat>, c: nat)
    requires |chains0| == |chains1| == |asked| == |chains0'| == |chains1'| == |asked'|
    requires 1 <= c && OkUpTo(leaves, chains0, chains1, asked, c - 1)
    requires forall d :: 0 <= d < c ==> chains0'[d] == chains0[d] && chains1'[d] == chains1[d] && asked'[d] == asked[d]
    ensures OkUpTo(leaves, chains0', chains1', asked', c - 1)
  {
    hide LevelOk, LinkOk;
    OkFrame(leaves, chains0, chains1, asked, chains0', chains1', asked', c - 1);
  }

  /** Once the list below has moved on by two items, the link holds again. */
  lemma Relink(leaves: seq<Leaf>, chains0: seq<Chain>, chains1: seq<Chain>, asked: seq<nat>,
               chains0': seq<Chain>, chains1': seq<Chain>, asked': seq<nat>, c: nat)
    requires |chains0| == |chains1| == |asked| == |chains0'| == |chains1'| == |asked'| && 1 <= c < |asked|
    requires LevelOk(leaves, chains0, chains1, asked, c) && OkUpTo(leaves, chains0', chains1', asked', c - 1)
    requires chains0'[c] == chains0[c] && chains1'[c] == chains1[c] && asked'[c] == asked[c]
    requires chains0'[c - 1].Node? && chains1'[c - 1].Node? && chains1[c].Node?
    requires chains0'[c - 1].weight + chains1'[c - 1].weight >= chains1[c].weight
    requires asked'[c - 1] == 2 * (asked[c] - chains1[c].index + 1)
    ensures OkUpTo(leaves, chains0', chains1', asked', c)
  {
    hide Ordered, Accurate, Cheapest, OkUpTo;
    Extend(leaves, chains0', chains1', asked', c);
  }

  /** The lookahead chains of every list. */
  class Lists {
    var chains0: seq<Chain>
    var chains1: seq<Chain>
    ghost var asked: seq<nat>

    ghost predicate Shape()
      reads this
    {
      |chains0| == |chains1| == |asked|
    }

    ghost predicate Ok(leaves: seq<Leaf>, c: nat)
      reads this
    {
      Shape() && c < |chains1| && OkUpTo(leaves, chains0, chains1, asked, c)
    }

    constructor (leaves: seq<Leaf>, listsize: nat)
      requires SortedLeaves(leaves) && |leaves| >= 2 && listsize >= 1
      ensures Ok(leaves, listsize - 1) && |chains1| == listsize && asked[listsize - 1] == 2
    {
      var first, second := Node(leaves[0].weight, 1, NoChain), Node(leaves[1].weight, 2, NoChain);
      chains0 := seq(listsize, _ => first);
      chains1 := seq(listsize, _ => second);
      asked := seq(listsize, _ => 2);
      new;
      hide List, Cheapest, Ordered, Accurate;
      forall d | 0 <= d < listsize
        ensures LevelOk(leaves, chains0, chains1, asked, d)
      {
        StartLevel(leaves, d);
      }
    }

    /** Ask list c for one more item; the last of all requests need not prepare further ones. */
    method BoundaryPM(leaves: seq<Leaf>, c: nat, last: bool)
      requires Ok(leaves, c) && SortedLeaves(leaves)
      modifies this
      ensures Shape() && |chains1| == old(|chains1|) && asked[c] == old(asked[c]) + 1
      ensures Accurate(|leaves|, chains1[c], asked[c], c) && (!last ==> Ok(leaves, c))
      ensures Cheapest(Weights(leaves), chains0[c], chains1[c], asked[c], c)
      ensures forall d :: c < d < |chains1| ==>
                chains0[d] == old(chains0[d]) && chains1[d] == old(chains1[d]) && asked[d] == old(asked[d])
      ensures chains0[c].Node? && chains1[c].Node? && old(chains0[c]).Node? && old(chains1[c]).Node?
      ensures chains0[c].weight >= old(chains0[c]).weight && chains1[c].weight >= old(chains1[c]).weight
      decreases c
    {
      hide Accurate, Ordered, Cheapest, OkUpTo, LevelOk, LinkOk;
      LevelFacts(leaves, chains0, chains1, asked, c);
      var ch0, ch1 := chains0[c], chains1[c];
      var lastindex := ch1.index;
      ghost var before0, before1, askedBefore := chains0, chains1, asked;
      asked := asked[c := asked[c] + 1];
      if c == 0 {
        if lastindex >= |leaves| {
          ExhaustedStep(leaves, chains0, chains1, askedBefore);
          return;
        }
        LeafStep(leaves, chains0, chains1, askedBefore, c);
        FirstHasNoTail(leaves, ch1, askedBefore[0]);
        chains0 := chains0[c := ch1];
        chains1 := chains1[c := Node(leaves[lastindex].weight, lastindex + 1, NoChain)];
      } else {
        LevelFacts(leaves, before0, before1, askedBefore, c - 1);
        var sum := chains0[c - 1].weight + chains1[c - 1].weight;
        chains0 := chains0[c := ch1];
        if lastindex < |leaves| && sum > leaves[lastindex].weight {
          LeafStep(leaves, before0, before1, askedBefore, c);
          chains1 := chains1[c := Node(leaves[lastindex].weight, lastindex + 1, ch1.tail)];
          return;
        }
        PackageStep(leaves, before0, before1, askedBefore, c);
        chains1 := chains1[c := Node(sum, lastindex, chains1[c - 1])];
        if !last {
          ghost var mid0, mid1, askedMid := chains0, chains1, asked;
          BoundaryPM(leaves, c - 1, last);
          BoundaryPM(leaves, c - 1, last);
          Relink(leaves, mid0, mid1, askedMid, chains0, chains1, asked, c);
        }
      }
    }
  }

  lemma StartLevel(leaves: seq<Leaf>, c: nat)
    requires SortedLeaves(leaves) && |leaves| >= 2
    ensures var first, second := Node(leaves[0].weight, 1, NoChain), Node(leaves[1].weight, 2, NoChain);
            && Ordered(leaves, first, second) && Accurate(|leaves|, second, 2, c)
            && Cheapest(Weights(leaves), first, second, 2, c)
  {
    hide List, LeavesIn, Prefix;
    var ws := Weights(leaves);
    var second := Node(leaves[1].weight, 2, NoChain);
    assert Items(second) == 2 + Items(NoChain) / 2 == 2;
    assert Available(|leaves|, c) >= 2;
    FirstItems(ws, c);
    FirstPrefix(List(ws, c));
    FirstPrefix(ws);
    assert ChainCost(ws, second) == Lightest(ws, 2) + ChainCost(ws, NoChain);
  }

  lemma FirstPrefix(xs: seq<nat>)
    requires |xs| >= 2
    ensures Prefix(xs, 2) == xs[0] + xs[1]
  {
    assert Prefix(xs, 1) == Prefix(xs, 0) + xs[0];
  }

  lemma LevelFacts(leaves: seq<Leaf>, chains0: seq<Chain>, chains1: seq<Chain>, asked: seq<nat>, c: nat)
    requires |chains0| == |chains1| == |asked| && c < |asked|
    requires exists top: nat :: c <= top && OkUpTo(leaves, chains0, chains1, asked, top)
    ensures chains0[c].Node? && chains1[c].Node? && 1 <= chains1[c].index <= |leaves| && asked[c] >= chains1[c].index
    ensures 1 <= chains0[c].weight <= chains1[c].weight && Accurate(|leaves|, chains1[c], asked[c], c)
  {
    var top: nat :| c <= top && OkUpTo(leaves, chains0, chains1, asked, top);
    assert LevelOk(leaves, chains0, chains1, asked, c);
  }

  lemma ExhaustedStep(leaves: seq<Leaf>, chains0: seq<Chain>, chains1: seq<Chain>, asked: seq<nat>)
    requires |chains0| == |chains1| == |asked| && OkUpTo(leaves, chains0, chains1, asked, 0)
    requires chains1[0].Node? && chains1[0].index >= |leaves|
    ensures OkUpTo(leaves, chains0, chains1, asked[0 := asked[0] + 1], 0)
    ensures Accurate(|leaves|, chains1[0], asked[0] + 1, 0)
    ensures Cheapest(Weights(leaves), chains0[0], chains1[0], asked[0] + 1, 0)
  {
    hide Accurate, Ordered;
    assert LevelOk(leaves, chains0, chains1, asked, 0);
    Exhausted(leaves, chains1[0], asked[0]);
  }

  lemma FirstHasNoTail(leaves: seq<Leaf>, ch: Chain, asked: nat)
    requires Accurate(|leaves|, ch, asked, 0) && ch.Node? && ch.index < |leaves|
    ensures ch.tail == NoChain
  {
  }

  /** A list of leaves that has no more is asked in vain. */
  lemma Exhausted(leaves: seq<Leaf>, ch: Chain, asked: nat)
    requires Accurate(|leaves|, ch, asked, 0) && ch.Node? && ch.index >= |leaves| && asked >= ch.index
    ensures Accurate(|leaves|, ch, asked + 1, 0)
  {
  }

  // Lengths from the final chain.

  /** How many nodes of the chain include leaf i. */
  function LengthOfLeaf(ch: Chain, i: nat): (l: nat) {
    if ch.NoChain? then 0 else (if i < ch.index then 1 else 0) + LengthOfLeaf(ch.tail, i)
  }

  lemma {:induction false} LeafLengths(ch: Chain, n: nat, level: nat, i: nat)
    requires Good(ch, n, level)
    ensures LengthOfLeaf(ch, i) <= level + 1 && (i >= ch.index ==> LengthOfLeaf(ch, i) == 0)
    decreases ch
  {
    if ch.tail.Node? {
      LeafLengths(ch.tail, n, level - 1, i);
    }
  }

  lemma {:induction false} ItemsBound(ch: Chain, n: nat, level: nat)
    requires Good(ch, n, level)
    ensures Items(ch) < 2 * ch.index
    decreases ch
  {
    if ch.tail.Node? {
      ItemsBound(ch.tail, n, level - 1);
    }
  }

  ghost predicate ShortEnough(ch: Chain, m: nat, max: nat) {
    forall i: nat {:trigger LengthOfLeaf(ch, i)} :: i < m ==> LengthOfLeaf(ch, i) <= max
  }

  /** The share of the code space that the first m leaves take. */
  function ShareSum(ch: Chain, m: nat, max: nat): (t: nat)
    requires ShortEnough(ch, m, max)
  {
    if m == 0 then 0 else ShareSum(ch, m - 1, max) + Pow2(max - LengthOfLeaf(ch, m - 1))
  }

  lemma {:induction false} ShareOfNothing(m: nat, max: nat)
    ensures ShortEnough(NoChain, m, max) && ShareSum(NoChain, m, max) == m * Pow2(max)
  {
    if m > 0 {
      ShareOfNothing(m - 1, max);
      Distribute(m - 1, 1, Pow2(max));
    }
  }

  lemma GoodIsShort(ch: Chain, n: nat, level: nat, m: nat, max: nat)
    requires (ch.Node? ==> Good(ch, n, level) && level + 1 <= max)
    ensures ShortEnough(ch, m, max)
  {
    forall i: nat | i < m
      ensures LengthOfLeaf(ch, i) <= max
    {
      if ch.Node? {
        LeafLengths(ch, n, level, i);
      }
    }
  }

  lemma NodeFacts(ch: Chain, n: nat, level: nat)
    requires Good(ch, n, level)
    ensures ch.Node? && 1 <= ch.index <= n
    ensures ch.tail.Node? ==>
              level >= 1 && Good(ch.tail, n, level - 1) && Items(ch.tail) % 2 == 0 && ch.tail.index <= ch.index
  {
  }

  /** A node halves the share of its leaves and leaves the others whole. */
  lemma {:induction false} ShareOfNode(ch: Chain, n: nat, level: nat, m: nat, max: nat)
    requires Good(ch, n, level) && level + 1 <= max
    ensures ShortEnough(ch, m, max) && ShortEnough(ch.tail, m, max - 1)
    ensures ShareSum(ch, m, max)
            == ShareSum(ch.tail, m, max - 1) + if m > ch.index then (m - ch.index) * Pow2(max - 1) else 0
  {
    hide Good;
    NodeFacts(ch, n, level);
    GoodIsShort(ch, n, level, m, max);
    GoodIsShort(ch.tail, n, level - (if ch.tail.Node? then 1 else 0), m, max - 1);
    if m > 0 {
      ShareOfNode(ch, n, level, m - 1, max);
      var i := m - 1;
      if i >= ch.index {
        LeafLengths(ch, n, level, i);
        Distribute(i - ch.index, 1, Pow2(max - 1));
      }
    }
  }

  /** The shares of all leaves fall short of n whole ones by half the items of the chain. */
  lemma {:induction false} ShareOfChain(ch: Chain, n: nat, level: nat, max: nat)
    requires Good(ch, n, level) && level + 1 <= max
    ensures ShortEnough(ch, n, max) && Items(ch) <= 2 * n
    ensures 2 * ShareSum(ch, n, max) == Pow2(max) * (2 * n - Items(ch))
    decreases ch
  {
    ShareOfNode(ch, n, level, n, max);
    ItemsBound(ch, n, level);
    var p := Pow2(max - 1);
    if ch.tail.Node? {
      ShareOfChain(ch.tail, n, level - 1, max - 1);
    } else {
      ShareOfNothing(n, max - 1);
    }
    hide Pow2, ShareSum, Items;
    HalfShares(p, n, ch.index, Items(ch.tail) / 2);
  }

  lemma HalfShares(p: nat, n: nat, index: nat, half: nat)
    requires index <= n && half <= n
    ensures p * (2 * n - 2 * half) + 2 * ((n - index) * p) == 2 * p * (2 * n - (index + half))
    ensures 2 * (n * p) == p * (2 * n)
  {
    var a, b := 2 * n - 2 * half, 2 * (n - index);
    assert p * (a + b) == p * a + p * b;
    assert 2 * p * (2 * n - (index + half)) == p * (2 * (2 * n - (index + half)));
  }

  /** The final chain gives every leaf a code and uses up the code space. */
  lemma FinalChain(ch: Chain, n: nat, max: nat)
    requires n >= 2 && max >= 1 && Good(ch, n, max - 1) && Items(ch) == 2 * n - 2
    ensures ch.index == n && ShortEnough(ch, n, max) && ShareSum(ch, n, max) == Pow2(max)
    ensures forall i: nat {:trigger LengthOfLeaf(ch, i)} :: i < n ==> LengthOfLeaf(ch, i) >= 1
  {
    hide Pow2, ShareSum;
    ItemsBound(ch, n, max - 1);
    ShareOfChain(ch, n, max - 1, max);
  }

  // From frequencies to lengths.

  method CollectLeaves(freqs: seq<nat>) returns (leaves: seq<Leaf>)
    ensures LeavesOf(freqs, |freqs|, leaves) && |leaves| <= |freqs|
  {
    leaves := [];
    for i := 0 to |freqs|
      invariant LeavesOf(freqs, i, leaves) && |leaves| <= i
    {
      if freqs[i] > 0 {
        ghost var before := leaves;
        leaves := leaves + [Leaf(freqs[i], i)];
        assert forall x :: x in before ==> x in leaves;
      }
    }
  }

  /** Sorting keeps the leaves. */
  lemma LeavesOfPermutation(freqs: seq<nat>, n: nat, a: seq<Leaf>, b: seq<Leaf>)
    requires LeavesOf(freqs, n, a) && multiset(a) == multiset(b)
    ensures LeavesOf(freqs, n, b)
  {
    assert forall x :: x in b <==> x in multiset(b);
    assert forall x :: x in a <==> x in multiset(a);
    forall i | 0 <= i < |b|
      ensures b[i].symbol < n && b[i].weight == freqs[b[i].symbol] > 0
    {
      assert b[i] in a;
    }
    forall i, j | 0 <= i < j < |b|
      ensures b[i].symbol != b[j].symbol
    {
      if b[i].symbol == b[j].symbol {
        CountTwice(b, i, j);
        CountOnce(a, b[i]);
      }
    }
  }

  lemma CountTwice(b: seq<Leaf>, i: nat, j: nat)
    requires i < j < |b| && b[i] == b[j]
    ensures multiset(b)[b[i]] >= 2
  {
    assert b == b[..j] + b[j..];
    assert b[i] in b[..j] && b[j] in b[j..];
  }

  lemma {:induction false} CountOnce(a: seq<Leaf>, x: Leaf)
    requires forall i, j :: 0 <= i < j < |a| ==> a[i].symbol != a[j].symbol
    ensures multiset(a)[x] <= 1
    decreases |a|
  {
    if a != [] {
      var n := |a| - 1;
      assert a == a[..n] + [a[n]];
      CountOnce(a[..n], x);
      if x == a[n] {
        forall i | 0 <= i < n
          ensures a[..n][i] != x
        {
        }
      }
    }
  }

  /** Lengths in which exactly the first m leaves have their final code. */
  ghost predicate Assigned(lengths: seq<nat>, leaves: seq<Leaf>, ch: Chain, m: nat) {
    && m <= |leaves|
    && (forall i :: 0 <= i < |leaves| ==> leaves[i].symbol < |lengths|)
    && (forall i :: 0 <= i < m ==> lengths[leaves[i].symbol] == LengthOfLeaf(ch, i))
    && (forall s :: 0 <= s < |lengths| && (forall i :: 0 <= i < m ==> leaves[i].symbol != s) ==> lengths[s] == 0)
  }

  /** The Kraft sum of the assigned lengths is the share of the leaves. */
  lemma {:induction false} KraftOfAssigned(lengths: seq<nat>, leaves: seq<Leaf>, ch: Chain, m: nat, max: nat)
    requires Assigned(lengths, leaves, ch, m) && ShortEnough(ch, m, max)
    requires forall i, j :: 0 <= i < j < |leaves| ==> leaves[i].symbol != leaves[j].symbol
    requires forall i: nat {:trigger LengthOfLeaf(ch, i)} :: i < m ==> LengthOfLeaf(ch, i) >= 1
    ensures Bounded(lengths, max) && KraftSum(lengths, max) == ShareSum(ch, m, max)
    decreases m
  {
    hide KraftSum, Share, LengthOfLeaf, Pow2;
    if m == 0 {
      KraftOfZeros(lengths, max);
    } else {
      ShareIsPower(LengthOfLeaf(ch, m - 1), max);
      var s := leaves[m - 1].symbol;
      var before := lengths[s := 0];
      Unassign(lengths, leaves, ch, m);
      KraftOfAssigned(before, leaves, ch, m - 1, max);
      KraftUpdate(before, max, s, LengthOfLeaf(ch, m - 1));
      assert before[s := lengths[s]] == lengths;
    }
  }

  lemma ShareIsPower(l: nat, max: nat)
    requires 1 <= l <= max
    ensures Share(l, max) == Pow2(max - l)
  {
  }

  lemma Unassign(lengths: seq<nat>, leaves: seq<Leaf>, ch: Chain, m: nat)
    requires m >= 1 && Assigned(lengths, leaves, ch, m)
    requires forall i, j :: 0 <= i < j < |leaves| ==> leaves[i].symbol != leaves[j].symbol
    ensures Assigned(lengths[leaves[m - 1].symbol := 0], leaves, ch, m - 1)
  {
    var t := leaves[m - 1].symbol;
    var before := lengths[t := 0];
    forall s | 0 <= s < |before| && (forall i :: 0 <= i < m - 1 ==> leaves[i].symbol != s)
      ensures before[s] == 0
    {
      if s != t {
        assert forall i :: 0 <= i < m ==> leaves[i].symbol != s;
      }
    }
  }

  /** Lengths to which the nodes of a chain still have to be added, k leaves of the next node being counted already. */
  ghost predicate Remaining(lengths: seq<nat>, leaves: seq<Leaf>, node: Chain, top: Chain, k: nat) {
    && (forall i :: 0 <= i < |leaves| ==> leaves[i].symbol < |lengths|)
    && (forall i :: 0 <= i < |leaves| ==>
          lengths[leaves[i].symbol] + LengthOfLeaf(node, i) == LengthOfLeaf(top, i) + if i < k then 1 else 0)
    && (forall s :: 0 <= s < |lengths| && (forall i :: 0 <= i < |leaves| ==> leaves[i].symbol != s) ==> lengths[s] == 0)
  }

  lemma CountLeaf(lengths: seq<nat>, leaves: seq<Leaf>, node: Chain, top: Chain, k: nat)
    requires Remaining(lengths, leaves, node, top, k) && k < |leaves|
    requires forall i, j :: 0 <= i < j < |leaves| ==> leaves[i].symbol != leaves[j].symbol
    ensures var s := leaves[k].symbol; Remaining(lengths[s := lengths[s] + 1], leaves, node, top, k + 1)
  {
    hide LengthOfLeaf;
  }

  lemma NextNode(lengths: seq<nat>, leaves: seq<Leaf>, node: Chain, top: Chain)
    requires node.Node? && Remaining(lengths, leaves, node, top, node.index)
    ensures Remaining(lengths, leaves, node.tail, top, 0)
  {
  }

  /** Count, for every leaf, the nodes of the chain that include it. */
  method AssignLengths(size: nat, leaves: seq<Leaf>, top: Chain, ghost level: nat) returns (lengths: seq<nat>)
    requires Good(top, |leaves|, level)
    requires forall i :: 0 <= i < |leaves| ==> leaves[i].symbol < size
    requires forall i, j :: 0 <= i < j < |leaves| ==> leaves[i].symbol != leaves[j].symbol
    ensures |lengths| == size && Assigned(lengths, leaves, top, |leaves|)
  {
    lengths := seq(size, _ => 0);
    var node := top;
    ghost var below := level;
    while node.Node?
      invariant node.Node? ==> Good(node, |leaves|, below)
      invariant |lengths| == size && Remaining(lengths, leaves, node, top, 0)
      decreases node
    {
      for k := 0 to node.index
        invariant |lengths| == size && Remaining(lengths, leaves, node, top, k)
      {
        CountLeaf(lengths, leaves, node, top, k);
        var s := leaves[k].symbol;
        lengths := lengths[s := lengths[s] + 1];
      }
      NextNode(lengths, leaves, node, top);
      node := node.tail;
      below := if below > 0 then below - 1 else 0;
    }
  }

  // The cost of the assigned lengths is that of the chain.

  function LengthsAlong(ch: Chain, n: nat): (r: seq<nat>)
    ensures |r| == n
  {
    seq(n, i requires 0 <= i < n => LengthOfLeaf(ch, i))
  }

  /** A node adds one bit to each of its leaves. */
  lemma {:induction false} BitsOfNode(ws: seq<nat>, ch: Chain, m: nat)
    requires ch.Node? && ch.index <= |ws| && m <= |ws|
    ensures TotalBits(ws[..m], LengthsAlong(ch, m))
            == TotalBits(ws[..m], LengthsAlong(ch.tail, m)) + Prefix(ws, if m < ch.index then m else ch.index)
  {
    if m > 0 {
      hide Product, TotalBits, Prefix;
      BitsOfNode(ws, ch, m - 1);
      BitsOfLast(ws[..m], LengthsAlong(ch, m));
      BitsOfLast(ws[..m], LengthsAlong(ch.tail, m));
      assert ws[..m][..m - 1] == ws[..m - 1];
      assert LengthsAlong(ch, m)[..m - 1] == LengthsAlong(ch, m - 1);
      assert LengthsAlong(ch.tail, m)[..m - 1] == LengthsAlong(ch.tail, m - 1);
      ProductSum(ws[m - 1], LengthOfLeaf(ch.tail, m - 1), if m - 1 < ch.index then 1 else 0);
      if m <= ch.index {
        NextPrefix(ws, m);
      }
    }
  }

  lemma NextPrefix(ws: seq<nat>, m: nat)
    requires 0 < m <= |ws|
    ensures Prefix(ws, m) == Prefix(ws, m - 1) + ws[m - 1]
  {
  }

  lemma {:induction false} BitsOfChain(ws: seq<nat>, ch: Chain, level: nat)
    requires ch.Node? ==> Good(ch, |ws|, level)
    ensures TotalBits(ws, LengthsAlong(ch, |ws|)) == ChainCost(ws, ch)
    decreases ch
  {
    assert ws[..|ws|] == ws;
    if ch.Node? {
      BitsOfChain(ws, ch.tail, if level > 0 then level - 1 else 0);
      BitsOfNode(ws, ch, |ws|);
    } else {
      BitsOfNothing(ws, LengthsAlong(ch, |ws|));
    }
  }

  // The whole computation.

  /** A complete code within the maximum in which every symbol that occurs has a codeword. */
  ghost predicate CodeFor(freqs: seq<nat>, max: nat, lengths: seq<nat>) {
    && |lengths| == |freqs| && CompleteCode(lengths, max)
    && forall s :: 0 <= s < |freqs| && freqs[s] > 0 ==> lengths[s] > 0
  }

  /** Two codewords of one bit. */
  lemma TwoSymbols(size: nat, max: nat, a: nat, b: nat)
    requires a < size && b < size && a != b && max >= 1
    ensures CompleteCode(seq(size, _ => 0)[a := 1][b := 1], max)
  {
    var zeros: seq<nat> := seq(size, _ => 0);
    KraftOfZeros(zeros, max);
    KraftUpdate(zeros, max, a, 1);
    KraftUpdate(zeros[a := 1], max, b, 1);
  }

  /** The lengths for two leaves or more. */
  method MergePackages(freqs: seq<nat>, unsorted: seq<Leaf>, max: nat) returns (lengths: seq<nat>)
    requires LeavesOf(freqs, |freqs|, unsorted) && 2 <= |unsorted| <= Pow2(max) && max >= 1
    ensures CodeFor(freqs, max, lengths) && Optimal(freqs, max, lengths)
  {
    hide Pow2, Good, Items, Accurate, Cheapest, Available, OkUpTo, Assigned, LengthOfLeaf, ShareSum, KraftSum, Optimal;
    var leaves := SortLeaves(unsorted);
    LeavesOfPermutation(freqs, |freqs|, unsorted, leaves);
    var n := |leaves|;
    var lists := new Lists(leaves, max);
    ItemsLeft(lists.chains0, lists.chains1, lists.asked, leaves, max);
    for i := 2 to 2 * n - 2
      invariant lists.Shape() && |lists.chains1| == max && lists.asked[max - 1] == i
      invariant i < 2 * n - 2 ==> lists.Ok(leaves, max - 1)
      invariant Accurate(n, lists.chains1[max - 1], i, max - 1)
      invariant Cheapest(Weights(leaves), lists.chains0[max - 1], lists.chains1[max - 1], i, max - 1)
    {
      lists.BoundaryPM(leaves, max - 1, i + 1 >= 2 * n - 2);
    }
    var top := lists.chains1[max - 1];
    EnoughItems(top, n, max);
    FinalChain(top, n, max);
    lengths := AssignLengths(|freqs|, leaves, top, max - 1);
    KraftOfAssigned(lengths, leaves, top, n, max);
    AssignedAll(freqs, leaves, top, lengths);
    NoneCheaper(freqs, leaves, lists.chains0[max - 1], top, lengths, max);
  }

  /** The lengths along the final chain are optimal. */
  lemma NoneCheaper(freqs: seq<nat>, leaves: seq<Leaf>, ch0: Chain, top: Chain, lengths: seq<nat>, max: nat)
    requires LeavesOf(freqs, |freqs|, leaves) && SortedLeaves(leaves) && |leaves| >= 2 && max >= 1
    requires Good(top, |leaves|, max - 1) && Cheapest(Weights(leaves), ch0, top, 2 * |leaves| - 2, max - 1)
    requires |lengths| == |freqs| && Assigned(lengths, leaves, top, |leaves|)
    ensures Optimal(freqs, max, lengths)
  {
    hide LeavesOf, Good, LengthOfLeaf, TotalBits, List, Prefix, KraftSum, Pow2, LeavesIn, ChainCost;
    var ws := Weights(leaves);
    LeavesAre(freqs, leaves);
    BitsByLeaves(freqs, lengths, leaves);
    assert LengthsAt(leaves, lengths) == LengthsAlong(top, |leaves|);
    BitsOfChain(ws, top, max - 1);
    forall other | CodeWithin(freqs, max, other)
      ensures TotalBits(freqs, lengths) <= TotalBits(freqs, other)
    {
      BitsAtLeast(freqs, leaves, max, other);
    }
  }

  /** One leaf or none: no code of fewer bits than one for the leaf. */
  lemma FewLeaves(freqs: seq<nat>, leaves: seq<Leaf>, lengths: seq<nat>, max: nat)
    requires LeavesOf(freqs, |freqs|, leaves) && |leaves| <= 1 && |lengths| == |freqs|
    requires leaves != [] ==> leaves[0].symbol < |lengths| && lengths[leaves[0].symbol] == 1
    ensures Optimal(freqs, max, lengths)
  {
    hide LeavesOf, TotalBits, Product;
    LeavesAre(freqs, leaves);
    BitsByLeaves(freqs, lengths, leaves);
    forall other | CodeWithin(freqs, max, other)
      ensures TotalBits(freqs, lengths) <= TotalBits(freqs, other)
    {
      BitsByLeaves(freqs, other, leaves);
      if leaves != [] {
        LeafIsPresent(freqs, leaves);
        var s := leaves[0].symbol;
        BitsOfLast(Weights(leaves), LengthsAt(leaves, lengths));
        BitsOfLast(Weights(leaves), LengthsAt(leaves, other));
        ProductGrows(leaves[0].weight, 1, other[s]);
      } else {
        assert LengthsAt(leaves, other) == LengthsAt(leaves, lengths);
      }
    }
  }

  lemma LeafIsPresent(freqs: seq<nat>, leaves: seq<Leaf>)
    requires LeavesOf(freqs, |freqs|, leaves)
    ensures forall i :: 0 <= i < |leaves| ==> freqs[leaves[i].symbol] > 0
  {
  }

  lemma ItemsLeft(chains0: seq<Chain>, chains1: seq<Chain>, asked: seq<nat>, leaves: seq<Leaf>, max: nat)
    requires |chains0| == |chains1| == |asked| == max && max >= 1 && OkUpTo(leaves, chains0, chains1, asked, max - 1)
    ensures Accurate(|leaves|, chains1[max - 1], asked[max - 1], max - 1)
    ensures Cheapest(Weights(leaves), chains0[max - 1], chains1[max - 1], asked[max - 1], max - 1)
  {
    hide Cheapest;
    assert LevelOk(leaves, chains0, chains1, asked, max - 1);
  }

  /** The last list has the items it is asked for. */
  lemma EnoughItems(top: Chain, n: nat, max: nat)
    requires 2 <= n <= Pow2(max) && max >= 1 && Accurate(n, top, 2 * n - 2, max - 1)
    ensures Good(top, n, max - 1) && Items(top) == 2 * n - 2
  {
    AvailableBound(n, max - 1, max);
    assert Pow2(1) == 2;
  }

  lemma AssignedAll(freqs: seq<nat>, leaves: seq<Leaf>, top: Chain, lengths: seq<nat>)
    requires LeavesOf(freqs, |freqs|, leaves) && |lengths| == |freqs| && Assigned(lengths, leaves, top, |leaves|)
    requires forall i: nat {:trigger LengthOfLeaf(top, i)} :: i < |leaves| ==> LengthOfLeaf(top, i) >= 1
    ensures forall s :: 0 <= s < |freqs| && freqs[s] > 0 ==> lengths[s] > 0
  {
    forall s | 0 <= s < |freqs| && freqs[s] > 0
      ensures lengths[s] > 0
    {
      var i :| 0 <= i < |leaves| && leaves[i] == Leaf(freqs[s], s);
      assert LengthOfLeaf(top, i) >= 1;
    }
  }

  /**
   Code lengths for the given frequencies. With fewer than two symbols that occur, codewords
   are given to two, so an alphabet of a single symbol would be written behind its end.
   */
  method HuffmanCodeLengths(freqs: seq<nat>, max: nat) returns (error: nat, lengths: seq<nat>)
    requires |freqs| != 1
    ensures error == (if |freqs| == 0 || Pow2(max) < |freqs| then 80 else 0)
    ensures error == 0 ==> CodeFor(freqs, max, lengths) && Optimal(freqs, max, lengths)
  {
    hide Pow2, KraftSum, LeavesOf, Optimal;
    if |freqs| == 0 || Pow2(max) < |freqs| {
      return 80, [];
    }
    ManyBits(|freqs|, max);
    var leaves := CollectLeaves(freqs);
    OnlyLeaves(freqs, leaves);
    lengths := seq(|freqs|, _ => 0);
    if |leaves| == 0 {
      TwoSymbols(|freqs|, max, 0, 1);
      lengths := lengths[0 := 1][1 := 1];
      FewLeaves(freqs, leaves, lengths, max);
    } else if |leaves| == 1 {
      var first := leaves[0].symbol;
      var second := if first == 0 then 1 else 0;
      TwoSymbols(|freqs|, max, first, second);
      lengths := lengths[first := 1][second := 1];
      FewLeaves(freqs, leaves, lengths, max);
    } else {
      lengths := MergePackages(freqs, leaves, max);
    }
    error := 0;
  }

  lemma ManyBits(n: nat, max: nat)
    requires 2 <= n <= Pow2(max)
    ensures max >= 1
  {
  }

  lemma OnlyLeaves(freqs: seq<nat>, leaves: seq<Leaf>)
    requires LeavesOf(freqs, |freqs|, leaves)
    ensures forall i :: 0 <= i < |leaves| ==> leaves[i].symbol < |freqs|
    ensures forall s :: 0 <= s < |freqs| && freqs[s] > 0 ==> exists i :: 0 <= i < |leaves| && leaves[i].symbol == s
  {
    forall s | 0 <= s < |freqs| && freqs[s] > 0
      ensures exists i :: 0 <= i < |leaves| && leaves[i].symbol == s
    {
      var i :| 0 <= i < |leaves| && leaves[i] == Leaf(freqs[s], s);
    }
  }
}
