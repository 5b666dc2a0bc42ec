/**
 Run-length coding of code lengths in a dynamic block (RFC 1951 section 3.2.7):
 symbols 0-15 are lengths, 16 repeats the previous length 3-6 times, 17 and 18 stand
 for 3-10 and 11-138 zeros.
 */
module CodeLengths {
  import opened Wrappers
  import opened HuffmanTree
  import opened Lz77

  const MAX_CODE_LENGTH: nat := 15

  /** A symbol of the code-length alphabet with its extra bits. */
  datatype Item =
    | Length(length: nat)
    | Again(extra: nat)
    | FewZeros(extra: nat)
    | ManyZeros(extra: nat)
  {
    predicate Valid() {
      match this
      case Length(l) => l <= MAX_CODE_LENGTH
      case Again(e) => e < 4
      case FewZeros(e) => e < 8
      case ManyZeros(e) => e < 128
    }

    function Symbol(): (s: nat) {
      match this
      case Length(l) => l
      case Again(_) => 16
      case FewZeros(_) => 17
      case ManyZeros(_) => 18
    }

    function ExtraBits(): nat {
      match this
      case Length(_) => 0
      case Again(_) => 2
      case FewZeros(_) => 3
      case ManyZeros(_) => 7
    }

    /** The entries of the encoder's vector that represent this item. */
    function Entries(): seq<nat> {
      if Length? then [length] else [Symbol(), extra]
    }
  }

  ghost predicate ValidItems(items: seq<Item>) {
    forall i :: 0 <= i < |items| ==> items[i].Valid()
  }

  function ItemEntries(items: seq<Item>): seq<nat> {
    if items == [] then [] else ItemEntries(items[..|items| - 1]) + items[|items| - 1].Entries()
  }

  /** What the inflater appends for one item; nothing can be repeated at the very start. */
  function Unfold(out: seq<nat>, item: Item): (r: Option<seq<nat>>)
    ensures r.Some? ==> |r.value| > |out|
  {
    match item
    case Length(l) => Some(out + [l])
    case Again(e) => if out == [] then None else Some(out + Repeat(out[|out| - 1], 3 + e))
    case FewZeros(e) => Some(out + Repeat(0, 3 + e))
    case ManyZeros(e) => Some(out + Repeat(0, 11 + e))
  }

  ghost function UnfoldAll(items: seq<Item>): Option<seq<nat>> {
    if items == [] then Some([])
    else
      var before := UnfoldAll(items[..|items| - 1]);
      if before.None? then None else Unfold(before.value, items[|items| - 1])
  }

  /** The items stand for the given lengths, are the given entries, and are no longer than they are. */
  ghost predicate Coded(lengths: seq<nat>, items: seq<Item>, entries: seq<nat>) {
    && ValidItems(items) && entries == ItemEntries(items)
    && UnfoldAll(items) == Some(lengths) && |entries| <= |lengths|
  }

  lemma AppendItem(items: seq<Item>, item: Item)
    requires ValidItems(items) && item.Valid() && UnfoldAll(items).Some?
    ensures ValidItems(items + [item])
    ensures UnfoldAll(items + [item]) == Unfold(UnfoldAll(items).value, item)
    ensures ItemEntries(items + [item]) == ItemEntries(items) + item.Entries()
  {
    assert (items + [item])[..|items|] == items;
  }

  /** The remaining items, unfolded after what is already known. */
  ghost function UnfoldFrom(out: seq<nat>, items: seq<Item>): (r: Option<seq<nat>>)
    ensures r.Some? ==> |r.value| >= |out| + |items|
    decreases |items|
  {
    if items == [] then Some(out)
    else
      var next := Unfold(out, items[0]);
      if next.None? then None else UnfoldFrom(next.value, items[1..])
  }

  lemma {:induction false} UnfoldFromSnoc(out: seq<nat>, items: seq<Item>, item: Item)
    ensures UnfoldFrom(out, items + [item])
         == var r := UnfoldFrom(out, items); if r.None? then None else Unfold(r.value, item)
    decreases |items|
  {
    if items == [] {
      assert (items + [item])[1..] == [];
    } else {
      assert (items + [item])[1..] == items[1..] + [item];
      if Unfold(out, items[0]).Some? {
        UnfoldFromSnoc(Unfold(out, items[0]).value, items[1..], item);
      }
    }
  }

  lemma {:induction false} UnfoldAllIsFrom(items: seq<Item>)
    ensures UnfoldAll(items) == UnfoldFrom([], items)
    decreases |items|
  {
    if items != [] {
      var n := |items| - 1;
      UnfoldAllIsFrom(items[..n]);
      UnfoldFromSnoc([], items[..n], items[n]);
      assert items == items[..n] + [items[n]];
    }
  }

  // Reading the coded form back.

  function ItemOf(symbol: nat, extra: nat): (item: Item) {
    if symbol <= MAX_CODE_LENGTH then Length(symbol)
    else if symbol == 16 then Again(extra)
    else if symbol == 17 then FewZeros(extra)
    else ManyZeros(extra)
  }

  /** The lengths that a vector of symbols and extra values stands for, read from the front as the inflater does. */
  function Expanded(entries: seq<nat>, out: seq<nat>): (r: Option<seq<nat>>)
    decreases |entries|
  {
    if entries == [] then Some(out)
    else if entries[0] <= MAX_CODE_LENGTH then Expanded(entries[1..], out + [entries[0]])
    else if |entries| == 1 then None
    else
      var next := Unfold(out, ItemOf(entries[0], entries[1]));
      if next.None? then None else Expanded(entries[2..], next.value)
  }

  lemma {:induction false} EntriesFront(items: seq<Item>)
    requires items != []
    ensures ItemEntries(items) == items[0].Entries() + ItemEntries(items[1..])
    decreases |items|
  {
    hide ItemEntries, Item.Entries;
    var n := |items| - 1;
    EntriesBack(items);
    if n == 0 {
      assert items[..0] == [] && items[1..] == [];
      NothingCoded();
    } else {
      EntriesFront(items[..n]);
      EntriesBack(items[1..]);
      assert items[..n][1..] == items[1..][..n - 1];
    }
  }

  lemma EntriesBack(items: seq<Item>)
    requires items != []
    ensures ItemEntries(items) == ItemEntries(items[..|items| - 1]) + items[|items| - 1].Entries()
  {
  }

  lemma {:induction false} ExpandedIsUnfolded(items: seq<Item>, out: seq<nat>)
    requires ValidItems(items)
    ensures Expanded(ItemEntries(items), out) == UnfoldFrom(out, items)
    decreases |items|
  {
    hide ItemEntries;
    if items == [] {
      NothingCoded();
    } else {
      var item, rest := items[0], ItemEntries(items[1..]);
      EntriesFront(items);
      var next := Unfold(out, item);
      if item.Length? {
        assert ([item.length] + rest)[1..] == rest;
      } else {
        assert ([item.Symbol(), item.extra] + rest)[2..] == rest;
      }
      if next.Some? {
        ExpandedIsUnfolded(items[1..], next.value);
      }
    }
  }

  /** Positions i to k all hold the same value. */
  ghost predicate Run(lengths: seq<nat>, i: nat, k: nat) {
    i < k <= |lengths| && forall m :: i <= m < k ==> lengths[m] == lengths[i]
  }

  lemma RunIsRepeat(lengths: seq<nat>, i: nat, from: nat, to: nat, k: nat)
    requires Run(lengths, i, k) && i <= from <= to <= k
    ensures lengths[..from] + Repeat(lengths[i], to - from) == lengths[..to]
  {
  }

  method RunLength(lengths: seq<nat>, i: nat) returns (j: nat)
    requires i < |lengths|
    ensures Run(lengths, i, i + j + 1)
    ensures i + j + 1 < |lengths| ==> lengths[i + j + 1] != lengths[i]
  {
    j := 0;
    while i + j + 1 < |lengths| && lengths[i + j + 1] == lengths[i]
      invariant Run(lengths, i, i + j + 1)
    {
      j := j + 1;
    }
  }

  /** Add one item that continues the run from `from` to `to`. */
  method Push(lengths: seq<nat>, ghost i: nat, ghost from: nat, ghost to: nat, ghost k: nat, item: Item,
              entries: seq<nat>, ghost items: seq<Item>)
    returns (entries': seq<nat>, ghost items': seq<Item>)
    requires Run(lengths, i, k) && i <= from < to <= k && item.Valid()
    requires Coded(lengths[..from], items, entries) && |entries| + |item.Entries()| <= to
    requires match item
             case Length(l) => to == from + 1 && l == lengths[i]
             case Again(e) => i < from && to == from + 3 + e
             case FewZeros(e) => lengths[i] == 0 && to == from + 3 + e
             case ManyZeros(e) => lengths[i] == 0 && to == from + 11 + e
    ensures Coded(lengths[..to], items', entries') && |entries'| == |entries| + |item.Entries()|
  {
    hide UnfoldAll, ItemEntries;
    entries' := entries + item.Entries();
    items' := items + [item];
    AppendItem(items, item);
    RunIsRepeat(lengths, i, from, to, k);
    assert lengths[..from + 1] == lengths[..from] + [lengths[from]];
  }

  /** Code a run of j further copies of a length: the length itself, groups of six, and a rest of at least three. */
  method PushRepeats(lengths: seq<nat>, i: nat, j: nat, entries: seq<nat>, ghost items: seq<Item>)
    returns (covered: nat, entries': seq<nat>, ghost items': seq<Item>)
    requires Run(lengths, i, i + j + 1) && j >= 3 && lengths[i] <= MAX_CODE_LENGTH
    requires Coded(lengths[..i], items, entries) && |entries| <= i
    ensures i < covered <= i + j + 1
    ensures Coded(lengths[..covered], items', entries')
  {
    hide Coded;
    var num, rest := j / 6, j % 6;
    entries', items' := Push(lengths, i, i, i + 1, i + j + 1, Length(lengths[i]), entries, items);
    for k := 0 to num
      invariant Coded(lengths[..i + 1 + 6 * k], items', entries') && |entries'| <= i + 1 + 2 * k
    {
      entries', items' := Push(lengths, i, i + 1 + 6 * k, i + 7 + 6 * k, i + j + 1, Again(3), entries', items');
    }
    covered := i + 1 + 6 * num;
    if rest >= 3 {
      entries', items' := Push(lengths, i, covered, covered + rest, i + j + 1, Again(rest - 3), entries', items');
      covered := covered + rest;
    }
  }

  /**
   Run-length code a list of code lengths. The coded form unfolds to the list, also where a run
   crosses from one alphabet to the other, and is never longer than it.
   */
  method EncodeLengths(lengths: seq<nat>) returns (entries: seq<nat>, ghost items: seq<Item>)
    requires forall i :: 0 <= i < |lengths| ==> lengths[i] <= MAX_CODE_LENGTH
    ensures Expanded(entries, []) == Some(lengths) && |entries| <= |lengths|
    ensures Coded(lengths, items, entries)
  {
    hide Coded, Expanded;
    entries, items := [], [];
    var i := 0;
    NothingCoded();
    assert lengths[..0] == [];
    while i < |lengths|
      invariant 0 <= i <= |lengths| && Coded(lengths[..i], items, entries) && |entries| <= i
    {
      var j := RunLength(lengths, i);
      if lengths[i] == 0 && j >= 2 {
        var zeros := j + 1;
        if zeros <= 10 {
          entries, items := Push(lengths, i, i, i + zeros, i + j + 1, FewZeros(zeros - 3), entries, items);
        } else {
          zeros := if zeros > 138 then 138 else zeros;
          entries, items := Push(lengths, i, i, i + zeros, i + j + 1, ManyZeros(zeros - 11), entries, items);
        }
        i := i + zeros;
      } else if j >= 3 {
        i, entries, items := PushRepeats(lengths, i, j, entries, items);
      } else {
        entries, items := Push(lengths, i, i, i + 1, i + j + 1, Length(lengths[i]), entries, items);
        i := i + 1;
      }
      CodedIsShort(lengths[..i], items, entries);
    }
    assert lengths[..i] == lengths;
    CodedExpands(lengths, items, entries);
  }

  lemma CodedExpands(lengths: seq<nat>, items: seq<Item>, entries: seq<nat>)
    requires Coded(lengths, items, entries)
    ensures Expanded(entries, []) == Some(lengths)
  {
    hide Expanded, ItemEntries;
    UnfoldAllIsFrom(items);
    ExpandedIsUnfolded(items, []);
  }

  lemma NothingCoded()
    ensures Coded([], [], []) && ItemEntries([]) == []
  {
  }

  lemma CodedIsShort(lengths: seq<nat>, items: seq<Item>, entries: seq<nat>)
    requires Coded(lengths, items, entries)
    ensures |entries| <= |lengths|
  {
  }
}
