/**
 The header of a dynamic block (RFC 1951 section 3.2.7): three counts, the code
 lengths of the code-length alphabet, and the run-length coded lengths of the two
 main alphabets. What a header looks like in bits, what a decoder makes of any bit
 stream, and the proof that reading undoes writing.
 */
module DynamicHeader {
  import opened BitSequence
  import opened Wrappers
  import opened BitIo
  import opened Huffman
  import opened HuffmanTable
  import opened HuffmanTree
  import opened HuffmanBlock
  import opened Lz77
  import opened CodeLengths

  const NUM_LITLEN_SYMBOLS: nat := 288
  const NUM_DISTANCE_SYMBOLS: nat := 32
  const NUM_CL_SYMBOLS: nat := 19
  const CL_MAX_BITS: nat := 7

  const CLCL_ORDER: seq<nat> := [16, 17, 18, 0, 8, 7, 9, 6, 10, 5, 11, 4, 12, 3, 13, 2, 14, 1, 15]

  /** Where each symbol stands in that order. */
  const CLCL_POSITION: seq<nat> := [3, 17, 15, 13, 11, 9, 7, 5, 4, 6, 8, 10, 12, 14, 16, 18, 0, 1, 2]

  function Order(i: nat): (s: nat)
    requires i < NUM_CL_SYMBOLS
    ensures s < NUM_CL_SYMBOLS
  {
    CLCL_ORDER[i]
  }

  function Position(s: nat): (i: nat)
    requires s < NUM_CL_SYMBOLS
    ensures i < NUM_CL_SYMBOLS && Order(i) == s
  {
    CLCL_POSITION[s]
  }

  lemma PositionOfOrder(i: nat)
    requires i < NUM_CL_SYMBOLS
    ensures Position(Order(i)) == i
  {
  }

  // Items in the stream.

  ghost predicate ItemsEncodable(cl: seq<nat>, items: seq<CodeLengths.Item>) {
    forall i :: 0 <= i < |items| ==> items[i].Valid() && Present(cl, items[i].Symbol())
  }

  function ExtraOf(item: CodeLengths.Item): nat {
    if item.Length? then 0 else item.extra
  }

  function ItemBits(cl: seq<nat>, item: CodeLengths.Item): seq<bool>
    requires Present(cl, item.Symbol())
  {
    Codeword(cl, item.Symbol()) + LsbBits(ExtraOf(item), item.ExtraBits())
  }

  ghost function ItemStream(cl: seq<nat>, items: seq<CodeLengths.Item>): seq<bool>
    requires ItemsEncodable(cl, items)
  {
    if items == [] then [] else ItemBits(cl, items[0]) + ItemStream(cl, items[1..])
  }

  function ExtraBitsOf(symbol: nat): nat {
    if symbol <= 15 then 0 else if symbol == 16 then 2 else if symbol == 17 then 3 else 7
  }

  /** Read items until `total` lengths are known; None if they overshoot, repeat nothing, or run past the data. */
  ghost function ReadLengths(cl: seq<nat>, data: seq<byte>, p: nat, out: seq<nat>, total: nat)
    : (r: Option<(seq<nat>, nat)>)
    ensures r.Some? ==> |r.value.0| == total && p <= r.value.1 && (p <= 8 * |data| ==> r.value.1 <= 8 * |data|)
    decreases total - |out|
  {
    if |out| > total then None
    else if |out| == total then Some((out, p))
    else
      var s := SymbolAt(cl, data, p);
      if s > 18 then None
      else
        var p1 := p + LengthOf(cl, s);
        var p2 := p1 + ExtraBitsOf(s);
        var next := Unfold(out, ItemOf(s, LsbValue(Ahead(data, p1, ExtraBitsOf(s)))));
        if next.None? || |next.value| > total || p2 > 8 * |data| then None
        else ReadLengths(cl, data, p2, next.value, total)
  }

  lemma ReadOneItem(cl: seq<nat>, data: seq<byte>, p: nat, item: CodeLengths.Item)
    requires UsableCode(cl, MAX_BITS) && item.Valid() && Present(cl, item.Symbol())
    requires Ahead(data, p, |ItemBits(cl, item)|) == ItemBits(cl, item)
    ensures var s, n := item.Symbol(), item.ExtraBits();
            && SymbolAt(cl, data, p) == s <= 18 && ExtraBitsOf(s) == n
            && ItemOf(s, LsbValue(Ahead(data, p + cl[s], n))) == item
            && |ItemBits(cl, item)| == cl[s] + n
  {
    hide Codeword, LsbBits, Ahead, LsbValue, UsableCode;
    var s, n := item.Symbol(), item.ExtraBits();
    SmallPowers();
    ReadSymbol(cl, data, p, s, LsbBits(ExtraOf(item), n));
    assert LsbBits(ExtraOf(item), n) == LsbBits(ExtraOf(item), n) + [];
    ReadNumber(data, p + cl[s], ExtraOf(item), n, []);
  }

  lemma {:induction false} ReadItems(cl: seq<nat>, data: seq<byte>, p: nat, out: seq<nat>, total: nat,
                                     items: seq<CodeLengths.Item>)
    requires UsableCode(cl, MAX_BITS) && ItemsEncodable(cl, items)
    requires var bits := ItemStream(cl, items); p + |bits| <= 8 * |data| && Ahead(data, p, |bits|) == bits
    requires UnfoldFrom(out, items).Some? && |UnfoldFrom(out, items).value| == total
    ensures ReadLengths(cl, data, p, out, total) == Some((UnfoldFrom(out, items).value, p + |ItemStream(cl, items)|))
    decreases |items|
  {
    hide Codeword, Ahead, UsableCode, LsbBits, LsbValue, SymbolAt, Unfold, ItemOf;
    if items != [] {
      var first, rest := ItemBits(cl, items[0]), ItemStream(cl, items[1..]);
      AheadSplit(data, p, |first|, |first| + |rest|);
      ReadOneItem(cl, data, p, items[0]);
      ReadItems(cl, data, p + |first|, Unfold(out, items[0]).value, total, items[1..]);
    }
  }

  // The code lengths of the code-length alphabet, three bits each in a special order.

  function OrderBits(cl: seq<nat>, n: nat): (s: seq<bool>)
    requires |cl| == NUM_CL_SYMBOLS && n <= NUM_CL_SYMBOLS
    ensures |s| == 3 * n
  {
    if n == 0 then [] else OrderBits(cl, n - 1) + LsbBits(cl[Order(n - 1)], 3)
  }

  ghost function ReadClLengths(data: seq<byte>, p: nat, n: nat): (cl: seq<nat>)
    ensures |cl| == NUM_CL_SYMBOLS
  {
    seq(NUM_CL_SYMBOLS, s requires 0 <= s < NUM_CL_SYMBOLS =>
      if Position(s) < n then LsbValue(Ahead(data, p + 3 * Position(s), 3)) else 0)
  }

  lemma {:induction false} ReadOrderBits(cl: seq<nat>, data: seq<byte>, p: nat, n: nat, i: nat)
    requires |cl| == NUM_CL_SYMBOLS && i < n <= NUM_CL_SYMBOLS && cl[Order(i)] < 8
    requires Ahead(data, p, 3 * n) == OrderBits(cl, n)
    ensures LsbValue(Ahead(data, p + 3 * i, 3)) == cl[Order(i)]
    decreases n
  {
    hide Ahead, LsbBits, LsbValue, Order;
    var last := LsbBits(cl[Order(n - 1)], 3);
    AheadSplit(data, p, 3 * (n - 1), 3 * n);
    if i == n - 1 {
      SmallPowers();
      assert last == last + [];
      ReadNumber(data, p + 3 * i, cl[Order(i)], 3, []);
    } else {
      ReadOrderBits(cl, data, p, n - 1, i);
    }
  }

  lemma ReadClLengthsIs(cl: seq<nat>, data: seq<byte>, p: nat, n: nat)
    requires |cl| == NUM_CL_SYMBOLS && n <= NUM_CL_SYMBOLS && Bounded(cl, CL_MAX_BITS)
    requires forall i :: n <= i < NUM_CL_SYMBOLS ==> cl[Order(i)] == 0
    requires Ahead(data, p, 3 * n) == OrderBits(cl, n)
    ensures ReadClLengths(data, p, n) == cl
  {
    hide Ahead, OrderBits, LsbValue, Order, Position;
    forall s | 0 <= s < NUM_CL_SYMBOLS
      ensures ReadClLengths(data, p, n)[s] == cl[s]
    {
      assert Order(Position(s)) == s;
      if Position(s) < n {
        ReadOrderBits(cl, data, p, n, Position(s));
      }
    }
  }

  // The whole header.

  function Pad(lengths: seq<nat>, n: nat): (r: seq<nat>)
    requires |lengths| <= n
    ensures |r| == n
  {
    lengths + Repeat(0, n - |lengths|)
  }

  /** The three counts, the code-length code, and the coded lengths. */
  ghost function HeaderBits(ll: seq<nat>, d: seq<nat>, n: nat, cl: seq<nat>, items: seq<CodeLengths.Item>): seq<bool>
    requires |cl| == NUM_CL_SYMBOLS && 4 <= n <= NUM_CL_SYMBOLS && |ll| >= 257 && |d| >= 1 && ItemsEncodable(cl, items)
  {
    LsbBits(|ll| - 257, 5) + LsbBits(|d| - 1, 5) + LsbBits(n - 4, 4) + OrderBits(cl, n) + ItemStream(cl, items)
  }

  /** The code lengths of both alphabets and the position after the header. */
  ghost function ReadHeader(data: seq<byte>, p: nat): (r: Option<(Codes, nat)>)
    ensures r.Some? ==> r.value.0.Valid() && Present(r.value.0.ll, END_CODE) && p <= r.value.1 <= 8 * |data|
  {
    if p + 14 > 8 * |data| then None
    else
      LsbValueBound(Ahead(data, p, 5));
      LsbValueBound(Ahead(data, p + 5, 5));
      LsbValueBound(Ahead(data, p + 10, 4));
      SmallPowers();
      ReadHeaderBody(data, p + 14, LsbValue(Ahead(data, p, 5)) + 257, LsbValue(Ahead(data, p + 5, 5)) + 1,
                     LsbValue(Ahead(data, p + 10, 4)) + 4)
  }

  ghost function ReadHeaderBody(data: seq<byte>, p: nat, hlit: nat, hdist: nat, hclen: nat): (r: Option<(Codes, nat)>)
    requires 257 <= hlit <= NUM_LITLEN_SYMBOLS && 1 <= hdist <= NUM_DISTANCE_SYMBOLS
    ensures r.Some? ==> r.value.0.Valid() && Present(r.value.0.ll, END_CODE) && p <= r.value.1 <= 8 * |data|
  {
    if p + 3 * hclen > 8 * |data| then None
    else
      var cl := ReadClLengths(data, p, hclen);
      if !UsableCode(cl, CL_MAX_BITS) then None
      else
        var lengths := ReadLengths(cl, data, p + 3 * hclen, [], hlit + hdist);
        if lengths.None? then None
        else
          var codes := SplitLengths(lengths.value.0, hlit, hdist);
          if codes.ll[END_CODE] == 0 || !UsableCode(codes.ll, MAX_BITS) || !UsableCode(codes.d, MAX_BITS) then None
          else Some((codes, lengths.value.1))
  }

  function SplitLengths(lengths: seq<nat>, hlit: nat, hdist: nat): (c: Codes)
    requires |lengths| == hlit + hdist && hlit <= NUM_LITLEN_SYMBOLS && hdist <= NUM_DISTANCE_SYMBOLS
    ensures |c.ll| == NUM_LITLEN_SYMBOLS && |c.d| == NUM_DISTANCE_SYMBOLS
  {
    Codes(Pad(lengths[..hlit], NUM_LITLEN_SYMBOLS), Pad(lengths[hlit..], NUM_DISTANCE_SYMBOLS))
  }

  /** Reading a written header gives the lengths it was written for, padded to the full alphabets. */
  lemma ReadWrittenHeader(data: seq<byte>, p: nat, ll: seq<nat>, d: seq<nat>, n: nat, cl: seq<nat>,
                          items: seq<CodeLengths.Item>)
    requires |cl| == NUM_CL_SYMBOLS && 4 <= n <= NUM_CL_SYMBOLS && UsableCode(cl, CL_MAX_BITS)
    requires forall i :: n <= i < NUM_CL_SYMBOLS ==> cl[Order(i)] == 0
    requires 257 <= |ll| <= NUM_LITLEN_SYMBOLS && 1 <= |d| <= NUM_DISTANCE_SYMBOLS
    requires ItemsEncodable(cl, items) && UnfoldAll(items) == Some(ll + d)
    requires var bits := HeaderBits(ll, d, n, cl, items); p + |bits| <= 8 * |data| && Ahead(data, p, |bits|) == bits
    requires var codes := Codes(Pad(ll, NUM_LITLEN_SYMBOLS), Pad(d, NUM_DISTANCE_SYMBOLS));
             codes.Valid() && Present(codes.ll, END_CODE)
    ensures ReadHeader(data, p)
         == Some((Codes(Pad(ll, NUM_LITLEN_SYMBOLS), Pad(d, NUM_DISTANCE_SYMBOLS)),
                  p + |HeaderBits(ll, d, n, cl, items)|))
  {
    hide Ahead, LsbBits, LsbValue, UsableCode, OrderBits, ItemStream, ReadHeaderBody, Pad;
    var a, b, c := LsbBits(|ll| - 257, 5), LsbBits(|d| - 1, 5), LsbBits(n - 4, 4);
    var body := OrderBits(cl, n) + ItemStream(cl, items);
    SmallPowers();
    assert HeaderBits(ll, d, n, cl, items) == a + (b + (c + body));
    ReadNumber(data, p, |ll| - 257, 5, b + (c + body));
    ReadNumber(data, p + 5, |d| - 1, 5, c + body);
    ReadNumber(data, p + 10, n - 4, 4, body);
    ReadWrittenBody(data, p + 14, ll, d, n, cl, items);
  }

  lemma ReadWrittenBody(data: seq<byte>, p: nat, ll: seq<nat>, d: seq<nat>, n: nat, cl: seq<nat>,
                        items: seq<CodeLengths.Item>)
    requires |cl| == NUM_CL_SYMBOLS && n <= NUM_CL_SYMBOLS && UsableCode(cl, CL_MAX_BITS)
    requires forall i :: n <= i < NUM_CL_SYMBOLS ==> cl[Order(i)] == 0
    requires 257 <= |ll| <= NUM_LITLEN_SYMBOLS && 1 <= |d| <= NUM_DISTANCE_SYMBOLS
    requires ItemsEncodable(cl, items) && UnfoldAll(items) == Some(ll + d)
    requires var bits := OrderBits(cl, n) + ItemStream(cl, items);
             p + |bits| <= 8 * |data| && Ahead(data, p, |bits|) == bits
    requires var codes := Codes(Pad(ll, NUM_LITLEN_SYMBOLS), Pad(d, NUM_DISTANCE_SYMBOLS));
             codes.Valid() && Present(codes.ll, END_CODE)
    ensures ReadHeaderBody(data, p, |ll|, |d|, n)
         == Some((Codes(Pad(ll, NUM_LITLEN_SYMBOLS), Pad(d, NUM_DISTANCE_SYMBOLS)),
                  p + 3 * n + |ItemStream(cl, items)|))
  {
    hide Ahead, OrderBits, ItemStream, UsableCode, ReadClLengths, ReadLengths, UnfoldAll, UnfoldFrom, ItemsEncodable;
    var stream := ItemStream(cl, items);
    AheadSplit(data, p, 3 * n, 3 * n + |stream|);
    UsableIsBounded(cl, CL_MAX_BITS);
    ReadClLengthsIs(cl, data, p, n);
    UsableWithSlack(cl, CL_MAX_BITS, MAX_BITS);
    UnfoldAllIsFrom(items);
    ReadItems(cl, data, p + 3 * n, [], |ll| + |d|, items);
    assert (ll + d)[..|ll|] == ll && (ll + d)[|ll|..] == d;
  }
}
