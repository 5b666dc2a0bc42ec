/**
 What a code costs: the bits that symbols of given frequencies take under given code
 lengths, and a bound that no code within a maximum length and Kraft's inequality beats.
 */
module CodeCost {
  import opened Arithmetic
  import opened BitSequence
  import opened Huffman
  import opened LeafSort
  import opened PackageLists

  /** The bits of all symbols together. */
  function TotalBits(freqs: seq<nat>, lengths: seq<nat>): (bits: nat)
    requires |freqs| == |lengths|
  {
    if freqs == [] then 0
    else
      var n := |freqs| - 1;
      TotalBits(freqs[..n], lengths[..n]) + Product(freqs[n], lengths[n])
  }

  // Bit by bit: the symbols whose codewords have a t-th bit.

  function CountFrom(lengths: seq<nat>, t: nat): (n: nat)
    ensures n <= |lengths|
  {
    if lengths == [] then 0
    else
      var n := |lengths| - 1;
      CountFrom(lengths[..n], t) + if lengths[n] >= t then 1 else 0
  }

  function WeightFrom(ws: seq<nat>, lengths: seq<nat>, t: nat): (w: nat)
    requires |ws| == |lengths|
  {
    if ws == [] then 0
    else
      var n := |ws| - 1;
      WeightFrom(ws[..n], lengths[..n], t) + if lengths[n] >= t then ws[n] else 0
  }

  /** They weigh at least as much as equally many of the lightest. */
  lemma {:induction false} LightestFrom(ws: seq<nat>, lengths: seq<nat>, t: nat)
    requires Sorted(ws) && |ws| == |lengths|
    ensures Prefix(ws, CountFrom(lengths, t)) <= WeightFrom(ws, lengths, t)
    decreases |ws|
  {
    if ws != [] {
      var n := |ws| - 1;
      var k := CountFrom(lengths[..n], t);
      LightestFrom(ws[..n], lengths[..n], t);
      PrefixOfInit(ws, n, k);
    }
  }

  lemma {:induction false} PrefixOfInit(ws: seq<nat>, n: nat, k: nat)
    requires k <= n <= |ws|
    ensures Prefix(ws[..n], k) == Prefix(ws, k)
  {
    if k > 0 {
      PrefixOfInit(ws, n, k - 1);
    }
  }

  /** How many bits a codeword of the given length has among its last c + 1 of `max` places. */
  function BitsAmong(length: nat, max: nat, c: nat): (n: nat) {
    if length + c + 1 >= max then length + c + 1 - max else 0
  }

  function BitsOfAll(lengths: seq<nat>, max: nat, c: nat): (r: seq<nat>)
    ensures |r| == |lengths|
  {
    seq(|lengths|, i requires 0 <= i < |lengths| => BitsAmong(lengths[i], max, c))
  }

  /** One more place adds the weight of the symbols that have a bit there. */
  lemma {:induction false} OneMorePlace(ws: seq<nat>, lengths: seq<nat>, max: nat, c: nat)
    requires |ws| == |lengths| && 0 < c < max
    ensures TotalBits(ws, BitsOfAll(lengths, max, c))
            == TotalBits(ws, BitsOfAll(lengths, max, c - 1)) + WeightFrom(ws, lengths, max - c)
    decreases |ws|
  {
    if ws != [] {
      var n := |ws| - 1;
      OneMorePlace(ws[..n], lengths[..n], max, c);
      assert BitsOfAll(lengths, max, c)[..n] == BitsOfAll(lengths[..n], max, c);
      assert BitsOfAll(lengths, max, c - 1)[..n] == BitsOfAll(lengths[..n], max, c - 1);
      ProductSum(ws[n], BitsAmong(lengths[n], max, c - 1), if lengths[n] >= max - c then 1 else 0);
    }
  }

  lemma ProductSum(a: nat, b: nat, c: nat)
    requires c <= 1
    ensures Product(a, b + c) == Product(a, b) + if c == 1 then a else 0
  {
  }

  lemma {:induction false} FirstPlace(ws: seq<nat>, lengths: seq<nat>, max: nat)
    requires |ws| == |lengths| && max > 0 && forall i :: 0 <= i < |lengths| ==> lengths[i] <= max
    ensures TotalBits(ws, BitsOfAll(lengths, max, 0)) == WeightFrom(ws, lengths, max)
    decreases |ws|
  {
    if ws != [] {
      var n := |ws| - 1;
      FirstPlace(ws[..n], lengths[..n], max);
      assert BitsOfAll(lengths, max, 0)[..n] == BitsOfAll(lengths[..n], max, 0);
      ProductSum(ws[n], 0, if lengths[n] >= max then 1 else 0);
    }
  }

  /** The counts of a code: how many symbols have a bit at each place from the last. */
  function Counts(lengths: seq<nat>, max: nat): (counts: seq<nat>)
    ensures |counts| == max && forall c :: 0 <= c < max ==> counts[c] <= |lengths|
  {
    seq(max, c requires 0 <= c < max => CountFrom(lengths, max - c))
  }

  /** The bits of the last c + 1 places cost at least what their counts do. */
  lemma {:induction false} CountsCost(ws: seq<nat>, lengths: seq<nat>, max: nat, c: nat)
    requires Sorted(ws) && |ws| == |lengths| && c < max && forall i :: 0 <= i < |lengths| ==> lengths[i] <= max
    ensures CostOf(ws, Counts(lengths, max), c) <= TotalBits(ws, BitsOfAll(lengths, max, c))
  {
    hide Sorted, TotalBits, BitsOfAll, WeightFrom, CountFrom, Prefix;
    LightestFrom(ws, lengths, max - c);
    if c == 0 {
      FirstPlace(ws, lengths, max);
    } else {
      CountsCost(ws, lengths, max, c - 1);
      OneMorePlace(ws, lengths, max, c);
    }
  }

  lemma AllPlaces(lengths: seq<nat>, max: nat)
    requires max > 0 && forall i :: 0 <= i < |lengths| ==> lengths[i] <= max
    ensures BitsOfAll(lengths, max, max - 1) == lengths
  {
  }

  // The counts make enough items.

  function Value(counts: seq<nat>, c: nat): (v: nat)
    requires c < |counts|
  {
    Product(counts[c], Pow2(c)) + if c == 0 then 0 else Value(counts, c - 1)
  }

  lemma {:induction false} ItemsValue(counts: seq<nat>, c: nat)
    requires c < |counts|
    ensures Value(counts, c) < Product(ItemsOf(counts, c) + 1, Pow2(c))
  {
    hide Product, Pow2;
    PowerNext(c);
    if c == 0 {
      ProductNext(counts[0], Pow2(0));
    } else {
      ItemsValue(counts, c - 1);
      HalfProduct(counts[c], ItemsOf(counts, c - 1), Value(counts, c - 1), Pow2(c - 1));
    }
  }

  lemma PowerNext(c: nat)
    ensures Pow2(0) == 1 && (c > 0 ==> Pow2(c) == 2 * Pow2(c - 1))
  {
  }

  lemma HalfProduct(a: nat, items: nat, v: nat, p: nat)
    requires v < Product(items + 1, p) && p > 0
    ensures Product(a, 2 * p) + v < Product(a + items / 2 + 1, 2 * p)
  {
    var h := items / 2;
    MulMonotone(items + 1, 2 * (h + 1), p);
    Distribute(a, h + 1, 2 * p);
    assert 2 * (h + 1) * p == (h + 1) * (2 * p);
  }

  /** The code space that a codeword leaves over, as far as the last c + 1 places show it. */
  function Gain(length: nat, max: nat, c: nat): (g: nat)
    requires length <= max
  {
    if length + c >= max then
      Pow2Monotone(max - length, c + 1);
      Pow2(c + 1) - Pow2(max - length)
    else 0
  }

  function GainOfAll(lengths: seq<nat>, max: nat, c: nat): (g: nat)
    requires Bounded(lengths, max)
  {
    if lengths == [] then 0
    else
      var n := |lengths| - 1;
      GainOfAll(lengths[..n], max, c) + Gain(lengths[n], max, c)
  }

  lemma GainNext(length: nat, max: nat, c: nat)
    requires length <= max
    ensures Gain(length, max, 0) == if length >= max then 1 else 0
    ensures c > 0 ==> Gain(length, max, c) == Gain(length, max, c - 1) + if length >= max - c then Pow2(c) else 0
  {
    assert Pow2(1) == 2 * Pow2(0);
    if c > 0 && length + c == max {
      assert Pow2(c + 1) == 2 * Pow2(c);
    }
  }

  lemma {:induction false} OneMoreGain(lengths: seq<nat>, max: nat, c: nat)
    requires Bounded(lengths, max) && c < max
    ensures GainOfAll(lengths, max, c)
            == (if c == 0 then 0 else GainOfAll(lengths, max, c - 1)) + Product(CountFrom(lengths, max - c), Pow2(c))
    decreases |lengths|
  {
    hide Gain, Pow2, Product;
    if lengths == [] {
      ProductNext(0, Pow2(c));
    } else {
      var n := |lengths| - 1;
      OneMoreGain(lengths[..n], max, c);
      GainNext(lengths[n], max, c);
      PowerNext(c);
      ProductNext(CountFrom(lengths[..n], max - c), Pow2(c));
    }
  }

  lemma {:induction false} CountsValue(lengths: seq<nat>, max: nat, c: nat)
    requires Bounded(lengths, max) && c < max
    ensures Value(Counts(lengths, max), c) == GainOfAll(lengths, max, c)
  {
    hide GainOfAll, CountFrom, Product, Pow2;
    OneMoreGain(lengths, max, c);
    if c > 0 {
      CountsValue(lengths, max, c - 1);
    }
  }

  /** What the codewords leave over and what they take is the whole space, once for each. */
  lemma {:induction false} GainAndShare(lengths: seq<nat>, max: nat)
    requires Bounded(lengths, max) && max > 0 && forall i :: 0 <= i < |lengths| ==> lengths[i] > 0
    ensures GainOfAll(lengths, max, max - 1) + KraftSum(lengths, max) == Product(|lengths|, Pow2(max))
    decreases |lengths|
  {
    hide Product, Pow2;
    if lengths == [] {
      ProductNext(0, Pow2(max));
    } else {
      var n := |lengths| - 1;
      GainAndShare(lengths[..n], max);
      ProductNext(n, Pow2(max));
    }
  }

  /** A code within Kraft's inequality makes as many items as the final chain stands for. */
  lemma CodeMakesItems(lengths: seq<nat>, max: nat)
    requires Bounded(lengths, max) && max > 0 && |lengths| > 0 && forall i :: 0 <= i < |lengths| ==> lengths[i] > 0
    requires KraftSum(lengths, max) <= Pow2(max)
    ensures ItemsOf(Counts(lengths, max), max - 1) >= 2 * |lengths| - 2
  {
    hide Counts, Value, ItemsOf, GainOfAll, KraftSum, Product, Pow2;
    var n, counts, p := |lengths|, Counts(lengths, max), Pow2(max - 1);
    CountsValue(lengths, max, max - 1);
    GainAndShare(lengths, max);
    ItemsValue(counts, max - 1);
    PowerNext(max);
    ProductNext(n - 1, Pow2(max));
    Cancel(n, ItemsOf(counts, max - 1), p);
  }

  lemma Cancel(n: nat, items: nat, p: nat)
    requires n > 0 && p > 0
    ensures Product(n - 1, 2 * p) < Product(items + 1, p) ==> items >= 2 * n - 2
  {
    if items < 2 * n - 2 {
      MulMonotone(items + 1, 2 * (n - 1), p);
      assert 2 * (n - 1) * p == (n - 1) * (2 * p);
    }
  }

  /** No code within the maximum and Kraft's inequality beats the first items of the last list. */
  lemma NoCodeIsCheaper(ws: seq<nat>, lengths: seq<nat>, max: nat)
    requires Sorted(ws) && |ws| == |lengths| > 0 && max > 0 && Bounded(lengths, max)
    requires (forall i :: 0 <= i < |lengths| ==> lengths[i] > 0) && KraftSum(lengths, max) <= Pow2(max)
    ensures 2 * |ws| - 2 <= |List(ws, max - 1)|
    ensures Prefix(List(ws, max - 1), 2 * |ws| - 2) <= TotalBits(ws, lengths)
  {
    hide Sorted, List, Prefix, TotalBits, KraftSum, Pow2, ItemsOf, CostOf, BitsOfAll;
    var counts := Counts(lengths, max);
    CodeMakesItems(lengths, max);
    ListIsCheapest(ws, counts, max - 1, 2 * |ws| - 2);
    CountsCost(ws, lengths, max, max - 1);
    AllPlaces(lengths, max);
  }

  // Symbols and leaves.

  /** The leaves are the symbols below n that occur, each once, with their frequencies. */
  ghost predicate LeavesOf(freqs: seq<nat>, n: nat, leaves: seq<Leaf>) {
    && n <= |freqs|
    && (forall i :: 0 <= i < |leaves| ==> leaves[i].symbol < n && leaves[i].weight == freqs[leaves[i].symbol] > 0)
    && (forall i, j :: 0 <= i < j < |leaves| ==> leaves[i].symbol != leaves[j].symbol)
    && (forall s :: 0 <= s < n && freqs[s] > 0 ==> Leaf(freqs[s], s) in leaves)
  }

  function Weights(leaves: seq<Leaf>): (ws: seq<nat>)
    ensures |ws| == |leaves|
  {
    seq(|leaves|, i requires 0 <= i < |leaves| => leaves[i].weight)
  }

  lemma {:induction false} KraftUpdate(lengths: seq<nat>, max: nat, s: nat, l: nat)
    requires Bounded(lengths, max) && s < |lengths| && lengths[s] == 0 && l <= max
    ensures Bounded(lengths[s := l], max)
    ensures KraftSum(lengths[s := l], max) == KraftSum(lengths, max) + Share(l, max)
    decreases |lengths|
  {
    var n := |lengths| - 1;
    if s < n {
      KraftUpdate(lengths[..n], max, s, l);
      assert lengths[s := l][..n] == lengths[..n][s := l];
    } else {
      assert lengths[s := l][..n] == lengths[..n];
    }
  }

  /** The code lengths of the leaves. */
  function LengthsAt(leaves: seq<Leaf>, lengths: seq<nat>): (r: seq<nat>)
    requires forall i :: 0 <= i < |leaves| ==> leaves[i].symbol < |lengths|
    ensures |r| == |leaves|
  {
    seq(|leaves|, i requires 0 <= i < |leaves| => lengths[leaves[i].symbol])
  }

  lemma {:induction false} BitsOfNothing(freqs: seq<nat>, lengths: seq<nat>)
    requires |freqs| == |lengths| && forall s :: 0 <= s < |freqs| ==> freqs[s] == 0 || lengths[s] == 0
    ensures TotalBits(freqs, lengths) == 0
    decreases |freqs|
  {
    if freqs != [] {
      BitsOfNothing(freqs[..|freqs| - 1], lengths[..|freqs| - 1]);
    }
  }

  lemma {:induction false} BitsOfRest(freqs: seq<nat>, lengths: seq<nat>, s: nat)
    requires s < |freqs| == |lengths|
    ensures TotalBits(freqs, lengths) == TotalBits(freqs[s := 0], lengths) + Product(freqs[s], lengths[s])
    decreases |freqs|
  {
    hide Product;
    var n := |freqs| - 1;
    if s < n {
      BitsOfRest(freqs[..n], lengths[..n], s);
      assert freqs[s := 0][..n] == freqs[..n][s := 0];
    } else {
      assert freqs[s := 0][..n] == freqs[..n];
      ProductNext(0, lengths[s]);
    }
  }

  /** The bits of all symbols are the bits of the leaves. */
  lemma {:induction false} BitsByLeaves(freqs: seq<nat>, lengths: seq<nat>, leaves: seq<Leaf>)
    requires LeavesOf(freqs, |freqs|, leaves) && |lengths| == |freqs|
    ensures TotalBits(freqs, lengths) == TotalBits(Weights(leaves), LengthsAt(leaves, lengths))
    decreases |leaves|
  {
    hide LeavesOf, TotalBits, Product;
    LeavesAre(freqs, leaves);
    if leaves == [] {
      BitsOfNothing(freqs, lengths);
      BitsOfNothing([], []);
    } else {
      var m := |leaves| - 1;
      var s := leaves[m].symbol;
      WithoutLast(freqs, leaves);
      BitsByLeaves(freqs[s := 0], lengths, leaves[..m]);
      BitsOfRest(freqs, lengths, s);
      BitsOfLast(Weights(leaves), LengthsAt(leaves, lengths));
      assert Weights(leaves)[..m] == Weights(leaves[..m]);
      assert LengthsAt(leaves, lengths)[..m] == LengthsAt(leaves[..m], lengths);
    }
  }

  lemma LeavesAre(freqs: seq<nat>, leaves: seq<Leaf>)
    requires LeavesOf(freqs, |freqs|, leaves)
    ensures forall i :: 0 <= i < |leaves| ==> leaves[i].symbol < |freqs| && leaves[i].weight == freqs[leaves[i].symbol]
    ensures leaves == [] ==> forall s :: 0 <= s < |freqs| ==> freqs[s] == 0
  {
  }

  lemma BitsOfLast(ws: seq<nat>, lengths: seq<nat>)
    requires |ws| == |lengths| > 0
    ensures var n := |ws| - 1; TotalBits(ws, lengths) == TotalBits(ws[..n], lengths[..n]) + Product(ws[n], lengths[n])
  {
  }

  lemma WithoutLast(freqs: seq<nat>, leaves: seq<Leaf>)
    requires LeavesOf(freqs, |freqs|, leaves) && leaves != []
    ensures var m := |leaves| - 1; LeavesOf(freqs[leaves[m].symbol := 0], |freqs|, leaves[..m])
  {
    var m := |leaves| - 1;
    var rest := freqs[leaves[m].symbol := 0];
    forall s | 0 <= s < |rest| && rest[s] > 0
      ensures Leaf(rest[s], s) in leaves[..m]
    {
      var i :| 0 <= i < |leaves| && leaves[i] == Leaf(freqs[s], s);
      assert leaves[..m][i] == leaves[i];
    }
  }

  /** The leaves take no more of the code space than all symbols. */
  lemma {:induction false} KraftByLeaves(leaves: seq<Leaf>, lengths: seq<nat>, max: nat)
    requires Bounded(lengths, max) && forall i :: 0 <= i < |leaves| ==> leaves[i].symbol < |lengths|
    requires forall i, j :: 0 <= i < j < |leaves| ==> leaves[i].symbol != leaves[j].symbol
    ensures Bounded(LengthsAt(leaves, lengths), max)
    ensures KraftSum(LengthsAt(leaves, lengths), max) <= KraftSum(lengths, max)
    decreases |leaves|
  {
    if leaves != [] {
      var m := |leaves| - 1;
      var s := leaves[m].symbol;
      var rest := lengths[s := 0];
      KraftByLeaves(leaves[..m], rest, max);
      KraftUpdate(rest, max, s, lengths[s]);
      assert rest[s := lengths[s]] == lengths;
      assert LengthsAt(leaves, lengths)[..m] == LengthsAt(leaves[..m], rest);
    }
  }

  /** A code that gives every symbol that occurs a codeword. */
  ghost predicate CodeWithin(freqs: seq<nat>, max: nat, lengths: seq<nat>) {
    && |lengths| == |freqs| && Bounded(lengths, max) && KraftSum(lengths, max) <= Pow2(max)
    && forall s :: 0 <= s < |freqs| && freqs[s] > 0 ==> lengths[s] > 0
  }

  /** No such code needs fewer bits. */
  ghost predicate Optimal(freqs: seq<nat>, max: nat, lengths: seq<nat>)
    requires |lengths| == |freqs|
  {
    forall other {:trigger CodeWithin(freqs, max, other)} ::
      CodeWithin(freqs, max, other) ==> TotalBits(freqs, lengths) <= TotalBits(freqs, other)
  }

  /** The bound for a code of all symbols. */
  lemma BitsAtLeast(freqs: seq<nat>, leaves: seq<Leaf>, max: nat, other: seq<nat>)
    requires LeavesOf(freqs, |freqs|, leaves) && Sorted(Weights(leaves)) && leaves != [] && max > 0
    requires CodeWithin(freqs, max, other)
    ensures 2 * |leaves| - 2 <= |List(Weights(leaves), max - 1)|
    ensures Prefix(List(Weights(leaves), max - 1), 2 * |leaves| - 2) <= TotalBits(freqs, other)
  {
    hide Sorted, List, Prefix, TotalBits, KraftSum, Pow2, Weights;
    BitsByLeaves(freqs, other, leaves);
    KraftByLeaves(leaves, other, max);
    NoCodeIsCheaper(Weights(leaves), LengthsAt(leaves, other), max);
  }
}
