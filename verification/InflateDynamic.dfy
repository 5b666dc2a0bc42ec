/** Reading the header of a dynamic block and building its two trees. */
module InflateDynamic {
  import opened BitSequence
  import opened Wrappers
  import opened BitIo
  import opened Huffman
  import opened HuffmanTable
  import opened HuffmanTree
  import opened HuffmanBlock
  import opened CodeLengths
  import opened DynamicHeader

  /** The lengths known so far: literal/length alphabet first, then distances. */
  ghost function Known(ll: seq<nat>, d: seq<nat>, hlit: nat, i: nat): (s: seq<nat>)
    requires hlit <= |ll| && i <= hlit + |d|
    ensures |s| == i
  {
    if i <= hlit then ll[..i] else ll[..hlit] + d[..i - hlit]
  }

  /** Entries not yet known are zero. */
  ghost predicate Blank(ll: seq<nat>, d: seq<nat>, hlit: nat, i: nat) {
    && (forall k :: i <= k < |ll| ==> ll[k] == 0)
    && (forall k :: 0 <= k < |d| && i - hlit <= k ==> d[k] == 0)
    && (forall k :: hlit <= k < |ll| ==> ll[k] == 0)
  }

  method SetLength(ll: array<nat>, d: array<nat>, hlit: nat, i: nat, value: nat)
    requires hlit <= ll.Length && i < hlit + d.Length && ll != d && Blank(ll[..], d[..], hlit, i)
    modifies ll, d
    ensures Known(ll[..], d[..], hlit, i + 1) == old(Known(ll[..], d[..], hlit, i)) + [value]
    ensures Blank(ll[..], d[..], hlit, i + 1)
  {
    if i < hlit {
      ll[i] := value;
    } else {
      d[i - hlit] := value;
    }
  }

  /** Write `count` copies of a value; more than fit in `total` is an error. */
  method RepeatLength(ll: array<nat>, d: array<nat>, hlit: nat, total: nat, start: nat, value: nat, count: nat)
    returns (i: nat, ok: bool)
    requires hlit <= ll.Length && start <= total <= hlit + d.Length && ll != d && Blank(ll[..], d[..], hlit, start)
    modifies ll, d
    ensures start <= i <= total && ok == (start + count <= total)
    ensures ok ==> i == start + count && Blank(ll[..], d[..], hlit, i)
    ensures ok ==> Known(ll[..], d[..], hlit, i) == old(Known(ll[..], d[..], hlit, start)) + Repeat(value, count)
  {
    hide Known, Blank;
    i, ok := start, true;
    var n := 0;
    assert Known(ll[..], d[..], hlit, start) + Repeat(value, 0) == Known(ll[..], d[..], hlit, start);
    while n < count
      invariant 0 <= n <= count && i == start + n <= total && Blank(ll[..], d[..], hlit, i)
      invariant Known(ll[..], d[..], hlit, i) == old(Known(ll[..], d[..], hlit, start)) + Repeat(value, n)
    {
      if i >= total {
        ok := false;
        return;
      }
      SetLength(ll, d, hlit, i, value);
      assert Repeat(value, n) + [value] == Repeat(value, n + 1);
      i := i + 1;
      n := n + 1;
    }
  }

  /** One step of the loop over code-length symbols. */
  lemma ReadLengthsStep(cl: seq<nat>, data: seq<byte>, p: nat, out: seq<nat>, total: nat)
    requires |out| < total
    ensures var s := SymbolAt(cl, data, p);
            var p1 := p + LengthOf(cl, s);
            var p2 := p1 + ExtraBitsOf(s);
            var next := Unfold(out, ItemOf(s, LsbValue(Ahead(data, p1, ExtraBitsOf(s)))));
            ReadLengths(cl, data, p, out, total)
            == if s > 18 || next.None? || |next.value| > total || p2 > 8 * |data| then None
               else ReadLengths(cl, data, p2, next.value, total)
  {
    hide SymbolAt, Ahead, LsbValue, ItemOf, Unfold;
  }

  /** The lengths an item adds, written into the two arrays. */
  method WriteItem(ll: array<nat>, d: array<nat>, hlit: nat, total: nat, i: nat, code: nat, extra: nat)
    returns (error: nat, i': nat)
    requires hlit <= ll.Length && i < total <= hlit + d.Length && ll != d && Blank(ll[..], d[..], hlit, i) && code <= 18
    modifies ll, d
    ensures i <= i' <= total
    ensures var next := Unfold(old(Known(ll[..], d[..], hlit, i)), ItemOf(code, extra));
            && (error != 0 <==> next.None? || |next.value| > total)
            && (error == 0 ==> i' > i && Known(ll[..], d[..], hlit, i') == next.value && Blank(ll[..], d[..], hlit, i'))
  {
    hide Blank, Known;
    error, i' := 0, i;
    LastKnown(ll[..], d[..], hlit, i);
    if code <= 15 {
      SetLength(ll, d, hlit, i, code);
      i' := i + 1;
    } else if code == 16 && i == 0 {
      error := 54;
    } else {
      var value := 0;
      if code == 16 {
        value := if i < hlit + 1 then ll[i - 1] else d[i - hlit - 1];
      }
      var ok;
      i', ok := RepeatLength(ll, d, hlit, total, i, value, (if code == 18 then 11 else 3) + extra);
      if !ok {
        error := if code == 16 then 13 else if code == 17 then 14 else 15;
      }
    }
  }

  /** Read one symbol, and its extra bits if it is a symbol of the alphabet. */
  method ReadItem(reader: BitReader, tree: Tree) returns (code: nat, extra: nat)
    requires reader.Valid() && tree.Valid() && |tree.lengths| == NUM_CL_SYMBOLS
    modifies reader
    ensures reader.Valid() && code == SymbolAt(tree.lengths, reader.data, old(reader.bp))
    ensures code <= 18 ==>
              var p1 := old(reader.bp) + LengthOf(tree.lengths, code);
              && reader.bp == p1 + ExtraBitsOf(code)
              && extra == LsbValue(Ahead(reader.data, p1, ExtraBitsOf(code)))
  {
    hide Tree.Valid, SymbolAt, LengthOf, Ahead, LsbValue, BitReader.Valid;
    reader.EnsureBytes(4);
    code := DecodeSymbol(reader, tree);
    extra := 0;
    if code <= 18 {
      extra := reader.ReadBits(if code <= 15 then 0 else if code == 16 then 2 else if code == 17 then 3 else 7);
    }
  }

  /** Read code-length symbols until all lengths are known. */
  method ReadAllLengths(reader: BitReader, tree: Tree, ll: array<nat>, d: array<nat>, hlit: nat, total: nat)
    returns (error: nat)
    requires reader.Valid() && tree.Valid() && |tree.lengths| == NUM_CL_SYMBOLS && ll != d
    requires hlit <= ll.Length && total <= hlit + d.Length && Blank(ll[..], d[..], hlit, 0)
    modifies reader, ll, d
    ensures reader.Valid()
    ensures var r := ReadLengths(tree.lengths, reader.data, old(reader.bp), [], total);
            && (error == 0 <==> r.Some?)
            && (error == 0 ==> Known(ll[..], d[..], hlit, total) == r.value.0 && reader.bp == r.value.1
                               && Blank(ll[..], d[..], hlit, total))
  {
    hide Tree.Valid, SymbolAt, LengthOf, Ahead, LsbValue, BitReader.Valid, Blank, Known, ReadLengths,
         ItemOf, Unfold, ExtraBitsOf;
    ghost var cl, data, r := tree.lengths, reader.data, ReadLengths(tree.lengths, reader.data, reader.bp, [], total);
    error := 0;
    var i := 0;
    assert Known(ll[..], d[..], hlit, 0) == [];
    while i < total
      invariant 0 <= i <= total && reader.Valid() && Blank(ll[..], d[..], hlit, i)
      invariant r == ReadLengths(cl, data, reader.bp, Known(ll[..], d[..], hlit, i), total)
    {
      ReadLengthsStep(cl, data, reader.bp, Known(ll[..], d[..], hlit, i), total);
      var code, extra := ReadItem(reader, tree);
      if code > 18 {
        return 16;
      }
      error, i := WriteItem(ll, d, hlit, total, i, code, extra);
      if error != 0 {
        return;
      }
      if reader.bp > 8 * |reader.data| {
        return 50;
      }
    }
    ReadLengthsDone(cl, data, reader.bp, Known(ll[..], d[..], hlit, i), total);
  }

  lemma ReadLengthsDone(cl: seq<nat>, data: seq<byte>, p: nat, out: seq<nat>, total: nat)
    requires |out| == total
    ensures ReadLengths(cl, data, p, out, total) == Some((out, p))
  {
  }

  lemma LastKnown(ll: seq<nat>, d: seq<nat>, hlit: nat, i: nat)
    requires hlit <= |ll| && i <= hlit + |d|
    ensures i > 0 ==> Known(ll, d, hlit, i)[i - 1] == if i < hlit + 1 then ll[i - 1] else d[i - hlit - 1]
  {
  }

  method ReadClCode(reader: BitReader, hclen: nat) returns (cl: seq<nat>)
    requires reader.Valid() && hclen <= NUM_CL_SYMBOLS
    modifies reader
    ensures reader.Valid() && reader.bp == old(reader.bp) + 3 * hclen
    ensures cl == ReadClLengths(reader.data, old(reader.bp), hclen)
  {
    hide Ahead, LsbValue, BitReader.Valid, Order, Position;
    var bitlen := new nat[NUM_CL_SYMBOLS](_ => 0);
    ghost var p := reader.bp;
    for i := 0 to hclen
      invariant reader.Valid() && reader.bp == p + 3 * i
      invariant forall s :: 0 <= s < NUM_CL_SYMBOLS ==>
        bitlen[s] == if Position(s) < i then LsbValue(Ahead(reader.data, p + 3 * Position(s), 3)) else 0
    {
      PositionOfOrder(i);
      reader.EnsureBytes(2);
      bitlen[Order(i)] := reader.ReadBits(3);
      assert forall s :: 0 <= s < NUM_CL_SYMBOLS ==> Order(Position(s)) == s;
    }
    cl := bitlen[..];
  }

  /** Three bits hold at most 7. */
  lemma ClLengthsBounded(data: seq<byte>, p: nat, n: nat)
    ensures Bounded(ReadClLengths(data, p, n), CL_MAX_BITS)
  {
    hide Ahead, LsbValue, Position;
    SmallPowers();
    forall s | 0 <= s < NUM_CL_SYMBOLS
      ensures ReadClLengths(data, p, n)[s] <= CL_MAX_BITS
    {
      LsbValueBound(Ahead(data, p + 3 * Position(s), 3));
    }
  }

  /** The coded lengths are at most 15. */
  lemma {:induction false} LengthsBounded(cl: seq<nat>, data: seq<byte>, p: nat, out: seq<nat>, total: nat)
    requires Bounded(out, MAX_BITS)
    ensures var r := ReadLengths(cl, data, p, out, total); r.Some? ==> Bounded(r.value.0, MAX_BITS)
    decreases total - |out|
  {
    hide SymbolAt, LengthOf, Ahead, LsbValue, ReadLengths, ItemOf, Unfold, ExtraBitsOf;
    if |out| == total {
      ReadLengthsDone(cl, data, p, out, total);
    } else if |out| < total {
      ReadLengthsStep(cl, data, p, out, total);
      var s := SymbolAt(cl, data, p);
      var p1 := p + LengthOf(cl, s);
      var next := Unfold(out, ItemOf(s, LsbValue(Ahead(data, p1, ExtraBitsOf(s)))));
      if s <= 18 && next.Some? && |next.value| <= total {
        UnfoldBounded(out, s, LsbValue(Ahead(data, p1, ExtraBitsOf(s))));
        LengthsBounded(cl, data, p1 + ExtraBitsOf(s), next.value, total);
      }
    } else {
      NoLengths(cl, data, p, out, total);
    }
  }

  lemma NoLengths(cl: seq<nat>, data: seq<byte>, p: nat, out: seq<nat>, total: nat)
    requires |out| > total
    ensures ReadLengths(cl, data, p, out, total).None?
  {
  }

  lemma UnfoldBounded(out: seq<nat>, s: nat, extra: nat)
    requires Bounded(out, MAX_BITS) && s <= 18
    ensures var next := Unfold(out, ItemOf(s, extra)); next.Some? ==> Bounded(next.value, MAX_BITS)
  {
  }

  lemma SplitBounded(lengths: seq<nat>, hlit: nat, hdist: nat)
    requires |lengths| == hlit + hdist && hlit <= NUM_LITLEN_SYMBOLS
    requires hdist <= NUM_DISTANCE_SYMBOLS && Bounded(lengths, MAX_BITS)
    ensures var c := SplitLengths(lengths, hlit, hdist); Bounded(c.ll, MAX_BITS) && Bounded(c.d, MAX_BITS)
  {
  }

  lemma SplitKnown(ll: seq<nat>, d: seq<nat>, hlit: nat, hdist: nat)
    requires |ll| == NUM_LITLEN_SYMBOLS && |d| == NUM_DISTANCE_SYMBOLS && hlit <= |ll| && 1 <= hdist <= |d|
    requires Blank(ll, d, hlit, hlit + hdist)
    ensures SplitLengths(Known(ll, d, hlit, hlit + hdist), hlit, hdist) == Codes(ll, d)
  {
    var lengths := Known(ll, d, hlit, hlit + hdist);
    assert lengths[..hlit] == ll[..hlit] && lengths[hlit..] == d[..hdist];
    assert Pad(ll[..hlit], NUM_LITLEN_SYMBOLS) == ll;
    assert Pad(d[..hdist], NUM_DISTANCE_SYMBOLS) == d;
  }

  /** Read a dynamic header from any stream: the trees the format defines, or an error. */
  method GetTreeInflateDynamic(reader: BitReader) returns (error: nat, treeLl: Tree, treeD: Tree)
    requires reader.Valid()
    modifies reader
    ensures reader.Valid()
    ensures var r := ReadHeader(reader.data, old(reader.bp));
            && (error == 0 <==> r.Some?)
            && (error == 0 ==> treeLl.Valid() && treeD.Valid() && reader.bp == r.value.1
                               && r.value.0 == Codes(treeLl.lengths, treeD.lengths))
  {
    hide Ahead, LsbValue, BitReader.Valid, UsableCode, Tree.Valid, ReadHeaderBody;
    treeLl, treeD := Tree([], [], [], []), Tree([], [], [], []);
    if reader.bp + 14 > 8 * |reader.data| {
      return 49, treeLl, treeD;
    }
    ghost var p, data := reader.bp, reader.data;
    reader.EnsureBytes(3);
    var hlit := reader.ReadBits(5);
    var hdist := reader.ReadBits(5);
    var hclen := reader.ReadBits(4);
    LsbValueBound(Ahead(data, p, 5));
    LsbValueBound(Ahead(data, p + 5, 5));
    LsbValueBound(Ahead(data, p + 10, 4));
    SmallPowers();
    error, treeLl, treeD := ReadTrees(reader, hlit + 257, hdist + 1, hclen + 4);
  }

  method ReadTrees(reader: BitReader, hlit: nat, hdist: nat, hclen: nat) returns (error: nat, treeLl: Tree, treeD: Tree)
    requires reader.Valid() && 257 <= hlit <= NUM_LITLEN_SYMBOLS
    requires 1 <= hdist <= NUM_DISTANCE_SYMBOLS && hclen <= NUM_CL_SYMBOLS
    modifies reader
    ensures reader.Valid()
    ensures var r := ReadHeaderBody(reader.data, old(reader.bp), hlit, hdist, hclen);
            && (error == 0 <==> r.Some?)
            && (error == 0 ==> treeLl.Valid() && treeD.Valid() && reader.bp == r.value.1
                               && r.value.0 == Codes(treeLl.lengths, treeD.lengths))
  {
    hide Ahead, LsbValue, BitReader.Valid, UsableCode, Tree.Valid, ReadLengths, ReadClLengths, Known, Blank,
         SplitLengths;
    treeLl, treeD := Tree([], [], [], []), Tree([], [], [], []);
    if reader.bp + 3 * hclen > 8 * |reader.data| {
      return 50, treeLl, treeD;
    }
    var cl := ReadClCode(reader, hclen);
    var treeCl;
    ghost var p := reader.bp;
    ClLengthsBounded(reader.data, old(reader.bp), hclen);
    error, treeCl := MakeFromLengths(cl, CL_MAX_BITS);
    if error != 0 {
      return;
    }
    var ll := new nat[NUM_LITLEN_SYMBOLS](_ => 0);
    var d := new nat[NUM_DISTANCE_SYMBOLS](_ => 0);
    AllBlank(ll[..], d[..], hlit);
    error := ReadAllLengths(reader, treeCl, ll, d, hlit, hlit + hdist);
    if error != 0 {
      return;
    }
    SplitKnown(ll[..], d[..], hlit, hdist);
    LengthsBounded(cl, reader.data, p, [], hlit + hdist);
    SplitBounded(Known(ll[..], d[..], hlit, hlit + hdist), hlit, hdist);
    if ll[256] == 0 {
      return 64, treeLl, treeD;
    }
    error, treeLl := MakeFromLengths(ll[..], MAX_BITS);
    if error != 0 {
      return;
    }
    error, treeD := MakeFromLengths(d[..], MAX_BITS);
  }

  lemma AllBlank(ll: seq<nat>, d: seq<nat>, hlit: nat)
    requires forall k :: 0 <= k < |ll| ==> ll[k] == 0
    requires forall k :: 0 <= k < |d| ==> d[k] == 0
    ensures Blank(ll, d, hlit, 0)
  {
  }
}
