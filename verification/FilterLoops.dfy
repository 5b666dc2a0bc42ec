/**
 The loops of the codec that filter and reconstruct scanlines in byte buffers.
 Reconstruction may write over the scanline it reads, as the decoder does; loops
 unrolled for wide pixels work on as many bytes at once as the pixel has.
 */
module FilterLoops {
  import opened BitSequence
  import opened Wrappers
  import opened Filters

  /** Buffer `out` is `was` with the first i bytes of row t written at o. */
  ghost predicate Patched(out: seq<byte>, was: seq<byte>, o: nat, t: seq<byte>, i: nat) {
    && |out| == |was| && o + i <= |was| && i <= |t|
    && forall x :: 0 <= x < |was| ==> out[x] == if o <= x < o + i then t[x - o] else was[x]
  }

  /** The previous row lies at p in the buffer; p < 0 means there is none. */
  ghost function RowAt(buffer: seq<byte>, p: int, n: nat): (r: seq<byte>)
    requires p >= 0 ==> p + n <= |buffer|
  {
    if p < 0 then [] else buffer[p..p + n]
  }

  /**
   The previous row lies before the new one, and a scanline in the same buffer does not lie
   before the row it becomes.
   */
  ghost predicate Layout(out: array<byte>, o: nat, inp: array<byte>, s: nat, p: int, n: nat) {
    o + n <= out.Length && s + n <= inp.Length && (out == inp ==> o <= s) && (p >= 0 ==> p + n <= o)
  }

  /** What reconstruction writes for byte i. */
  lemma NextByte(filter: nat, bw: nat, prev: seq<byte>, scanline: seq<byte>, i: nat)
    requires filter <= 4 && 0 < bw && i < |scanline|
    ensures var t := Restored(filter, bw, prev, scanline);
            t[i] == Plus(scanline[i], if i < bw then Predict(filter, 0, Above(prev, i), 0)
                                      else Predict(filter, t[i - bw], Above(prev, i), Above(prev, i - bw)))
  {
    RestoredAt(filter, bw, prev, scanline, i);
  }

  lemma PlusZero(x: byte)
    ensures Plus(x, 0) == x
  {
  }

  method StoreBytes(out: array<byte>, at: nat, d: seq<byte>)
    requires at + |d| <= out.Length
    modifies out
    ensures forall x :: 0 <= x < out.Length ==> out[x] == if at <= x < at + |d| then d[x - at] else old(out[x])
  {
    var k := 0;
    while k < |d|
      invariant k <= |d|
      invariant forall x :: 0 <= x < out.Length ==> out[x] == if at <= x < at + k then d[x - at] else old(out[x])
    {
      out[at + k] := d[k];
      k := k + 1;
    }
  }

  /** None, and Up without a previous row. */
  method RestoreCopy(out: array<byte>, o: nat, inp: array<byte>, s: nat, bw: nat, n: nat, ghost filter: nat,
                     ghost prev: seq<byte>)
    requires Layout(out, o, inp, s, -1, n) && 0 < bw && (filter == 0 || (filter == 2 && prev == []))
    modifies out
    ensures Patched(out[..], old(out[..]), o, Restored(filter, bw, prev, old(inp[s..s + n])), n)
  {
    ghost var t := Restored(filter, bw, prev, inp[s..s + n]);
    var i := 0;
    while i < n
      invariant i <= n && Patched(out[..], old(out[..]), o, t, i) && (out != inp ==> inp[..] == old(inp[..]))
    {
      NextByte(filter, bw, prev, old(inp[s..s + n]), i);
      PlusZero(inp[s + i]);
      out[o + i] := inp[s + i];
      i := i + 1;
    }
  }

  lemma PaethOfLeft(a: byte)
    ensures Paeth(a, 0, 0) == a
  {
  }

  lemma PaethOfAbove(b: byte)
    ensures Paeth(0, b, 0) == b
  {
  }

  /** The first pixel of a row that is predicted from the left alone. */
  method RestoreFirst(out: array<byte>, o: nat, inp: array<byte>, s: nat, bw: nat, n: nat, ghost filter: nat,
                      ghost prev: seq<byte>)
    requires Layout(out, o, inp, s, -1, n) && 0 < bw <= n
    requires filter == 1 || ((filter == 3 || filter == 4) && prev == [])
    modifies out
    ensures Patched(out[..], old(out[..]), o, Restored(filter, bw, prev, old(inp[s..s + n])), bw)
  {
    hide Restored, Paeth, Plus;
    ghost var t := Restored(filter, bw, prev, inp[s..s + n]);
    PaethOfAbove(0);
    var i := 0;
    while i < bw
      invariant i <= bw && Patched(out[..], old(out[..]), o, t, i) && (out != inp ==> inp[..] == old(inp[..]))
    {
      NextByte(filter, bw, prev, old(inp[s..s + n]), i);
      PlusZero(inp[s + i]);
      out[o + i] := inp[s + i];
      i := i + 1;
    }
  }

  /** Sub, and Paeth without a previous row. */
  method RestoreSub(out: array<byte>, o: nat, inp: array<byte>, s: nat, bw: nat, n: nat, ghost filter: nat,
                    ghost prev: seq<byte>)
    requires Layout(out, o, inp, s, -1, n) && 0 < bw <= n && (filter == 1 || (filter == 4 && prev == []))
    modifies out
    ensures Patched(out[..], old(out[..]), o, Restored(filter, bw, prev, old(inp[s..s + n])), n)
  {
    hide Restored, Paeth, Plus;
    ghost var t := Restored(filter, bw, prev, inp[s..s + n]);
    RestoreFirst(out, o, inp, s, bw, n, filter, prev);
    var i, j := bw, 0;
    while i < n
      invariant i == j + bw && i <= n && Patched(out[..], old(out[..]), o, t, i)
      invariant out != inp ==> inp[..] == old(inp[..])
    {
      NextByte(filter, bw, prev, old(inp[s..s + n]), i);
      PaethOfLeft(t[j]);
      out[o + i] := Plus(inp[s + i], out[o + j]);
      i, j := i + 1, j + 1;
    }
  }

  method RestoreUp(out: array<byte>, o: nat, inp: array<byte>, s: nat, p: nat, bw: nat, n: nat)
    requires Layout(out, o, inp, s, p, n) && 0 < bw
    modifies out
    ensures Patched(out[..], old(out[..]), o, Restored(2, bw, old(out[p..p + n]), old(inp[s..s + n])), n)
  {
    hide Restored, Paeth, Plus;
    ghost var prev := out[p..p + n];
    ghost var t := Restored(2, bw, prev, inp[s..s + n]);
    var i := 0;
    while i < n
      invariant i <= n && Patched(out[..], old(out[..]), o, t, i) && (out != inp ==> inp[..] == old(inp[..]))
    {
      NextByte(2, bw, prev, old(inp[s..s + n]), i);
      out[o + i] := Plus(inp[s + i], out[p + i]);
      i := i + 1;
    }
  }

  /** Average without a previous row. */
  method RestoreHalfLeft(out: array<byte>, o: nat, inp: array<byte>, s: nat, bw: nat, n: nat)
    requires Layout(out, o, inp, s, -1, n) && 0 < bw <= n
    modifies out
    ensures Patched(out[..], old(out[..]), o, Restored(3, bw, [], old(inp[s..s + n])), n)
  {
    hide Restored, Paeth, Plus;
    ghost var t := Restored(3, bw, [], inp[s..s + n]);
    RestoreFirst(out, o, inp, s, bw, n, 3, []);
    var i, j := bw, 0;
    while i < n
      invariant i == j + bw && i <= n && Patched(out[..], old(out[..]), o, t, i)
      invariant out != inp ==> inp[..] == old(inp[..])
    {
      NextByte(3, bw, [], old(inp[s..s + n]), i);
      out[o + i] := Plus(inp[s + i], out[o + j] / 2);
      i, j := i + 1, j + 1;
    }
  }

  /** Groups of bytes predicted at once. */
  function AverageGroup(sc: seq<byte>, re: seq<byte>, pr: seq<byte>): (d: seq<byte>)
    requires |sc| == |re| == |pr|
    ensures |d| == |sc| && forall k :: 0 <= k < |sc| ==> d[k] == Plus(sc[k], Predict(3, re[k], pr[k], 0))
  {
    seq(|sc|, k requires 0 <= k < |sc| => Plus(sc[k], (re[k] as int + pr[k]) / 2))
  }

  function PaethGroup(sc: seq<byte>, a: seq<byte>, b: seq<byte>, c: seq<byte>): (d: seq<byte>)
    requires |sc| == |a| == |b| == |c|
    ensures |d| == |sc| && forall k :: 0 <= k < |sc| ==> d[k] == Plus(sc[k], Predict(4, a[k], b[k], c[k]))
  {
    seq(|sc|, k requires 0 <= k < |sc| => Plus(sc[k], PaethPredictor(a[k], b[k], c[k])))
  }

  /** A group no wider than a pixel, computed from the bytes before it, is the next piece of the row. */
  lemma GroupIsNext(filter: nat, bw: nat, prev: seq<byte>, scanline: seq<byte>, i: nat, d: seq<byte>)
    requires filter <= 4 && 0 < |d| <= bw <= i && i + |d| <= |scanline| == |prev|
    requires var t := Restored(filter, bw, prev, scanline);
             forall k ::
               0 <= k < |d| ==>
                 d[k] == Plus(scanline[i + k], Predict(filter, t[i - bw + k], prev[i + k], prev[i - bw + k]))
    ensures d == Restored(filter, bw, prev, scanline)[i..i + |d|]
  {
    hide Restored, Predict, Plus;
    forall k | 0 <= k < |d|
      ensures d[k] == Restored(filter, bw, prev, scanline)[i + k]
    {
      NextByte(filter, bw, prev, scanline, i + k);
    }
  }

  lemma PatchedMore(before: seq<byte>, after: seq<byte>, was: seq<byte>, o: nat, t: seq<byte>, i: nat, d: seq<byte>)
    requires Patched(before, was, o, t, i) && i + |d| <= |t|
    requires o + i + |d| <= |was| && d == t[i..i + |d|] && |after| == |was|
    requires forall x :: 0 <= x < |after| ==> after[x] == if o + i <= x < o + i + |d| then d[x - (o + i)] else before[x]
    ensures Patched(after, was, o, t, i + |d|)
  {
  }

  /** The buffers while row t is being written: i bytes are done, and the scanline is still there from byte i on. */
  ghost predicate Writing(out: seq<byte>, inp: seq<byte>, same: bool, was: seq<byte>, o: nat, s: nat, p: nat,
                          t: seq<byte>, prev: seq<byte>, scanline: seq<byte>, i: nat) {
    && Patched(out, was, o, t, i) && |out| == |was| && |t| == |prev| == |scanline| && s + |t| <= |inp|
    && p + |t| <= o && o + |t| <= |was|
    && prev == was[p..p + |t|] && (same ==> out == inp && o <= s)
    && scanline == (if same then was[s..s + |t|] else inp[s..s + |t|])
  }

  /** What a group reads while the row is being written. */
  lemma GroupReads(out: seq<byte>, inp: seq<byte>, same: bool, was: seq<byte>, o: nat, s: nat, p: nat, t: seq<byte>,
                   prev: seq<byte>, scanline: seq<byte>, i: nat, bw: nat, lanes: nat)
    requires Writing(out, inp, same, was, o, s, p, t, prev, scanline, i) && i + lanes <= |t|
    ensures |out| == |was| && |prev| == |scanline| == |t| && o + |t| <= |out| && s + |t| <= |inp|
    ensures inp[s + i..s + i + lanes] == scanline[i..i + lanes] && out[p + i..p + i + lanes] == prev[i..i + lanes]
    ensures lanes <= bw <= i ==> out[o + i - bw..o + i - bw + lanes] == t[i - bw..i - bw + lanes]
  {
    var x, y := inp[s + i..s + i + lanes], out[p + i..p + i + lanes];
    forall k | 0 <= k < lanes
      ensures x[k] == scanline[i..i + lanes][k]
    {
      assert same ==> scanline[i + k] == was[s + i + k];
    }
    forall k | 0 <= k < lanes
      ensures y[k] == prev[i..i + lanes][k]
    {
      assert was[p + i + k] == prev[i + k];
    }
    if lanes <= bw <= i {
      var z := out[o + i - bw..o + i - bw + lanes];
      assert forall k :: 0 <= k < lanes ==> z[k] == t[i - bw..i - bw + lanes][k];
    }
  }

  /** Write the next piece of the row. */
  method StoreGroup(out: array<byte>, o: nat, inp: array<byte>, ghost s: nat, ghost p: nat, ghost t: seq<byte>,
                    ghost prev: seq<byte>, ghost scanline: seq<byte>, ghost was: seq<byte>, i: nat, d: seq<byte>)
    requires Writing(out[..], inp[..], out == inp, was, o, s, p, t, prev, scanline, i)
    requires i + |d| <= |t| && d == t[i..i + |d|]
    modifies out
    ensures Writing(out[..], inp[..], out == inp, was, o, s, p, t, prev, scanline, i + |d|)
  {
    hide Patched;
    ghost var before := out[..];
    StoreBytes(out, o + i, d);
    PatchedMore(before, out[..], was, o, t, i, d);
  }

  /**
   Several bytes at a time: all are read before any is written, which is fine because no byte
   needs another of its group.
   */
  method AverageLanes(out: array<byte>, o: nat, inp: array<byte>, s: nat, p: nat, bw: nat, n: nat, lanes: nat,
                      ghost prev: seq<byte>, ghost scanline: seq<byte>, ghost was: seq<byte>) returns (i: nat)
    requires Layout(out, o, inp, s, p, n) && 2 <= lanes <= bw <= n && |scanline| == n
    requires Writing(out[..], inp[..], out == inp, was, o, s, p, Restored(3, bw, prev, scanline), prev, scanline, bw)
    modifies out
    ensures bw <= i <= n
    ensures Writing(out[..], inp[..], out == inp, was, o, s, p, Restored(3, bw, prev, scanline), prev, scanline, i)
  {
    hide Restored, Predict, Plus, AverageGroup, Patched, Writing;
    ghost var t := Restored(3, bw, prev, scanline);
    i := bw;
    var j := 0;
    while i + (lanes - 1) < n
      invariant i == j + bw && i <= n
      invariant Writing(out[..], inp[..], out == inp, was, o, s, p, t, prev, scanline, i)
    {
      GroupReads(out[..], inp[..], out == inp, was, o, s, p, t, prev, scanline, i, bw, lanes);
      var d := AverageGroup(inp[s + i..s + i + lanes], out[o + j..o + j + lanes], out[p + i..p + i + lanes]);
      AverageGroupIs(bw, prev, scanline, i, d);
      StoreGroup(out, o, inp, s, p, t, prev, scanline, was, i, d);
      i, j := i + lanes, j + lanes;
    }
  }

  lemma AverageGroupIs(bw: nat, prev: seq<byte>, scanline: seq<byte>, i: nat, d: seq<byte>)
    requires 0 < |d| <= bw <= i && i + |d| <= |scanline| == |prev|
    requires var t := Restored(3, bw, prev, scanline); var n := |d|;
             d == AverageGroup(scanline[i..i + n], t[i - bw..i - bw + n], prev[i..i + n])
    ensures d == Restored(3, bw, prev, scanline)[i..i + |d|]
  {
    hide Restored, Plus;
    GroupIsNext(3, bw, prev, scanline, i, d);
  }

  /** The first pixel of an Average row: half the byte above. */
  method AverageFirst(out: array<byte>, o: nat, inp: array<byte>, s: nat, p: nat, bw: nat, n: nat)
    requires Layout(out, o, inp, s, p, n) && 0 < bw <= n
    modifies out
    ensures Patched(out[..], old(out[..]), o, Restored(3, bw, old(out[p..p + n]), old(inp[s..s + n])), bw)
  {
    hide Restored, Paeth, Plus;
    ghost var prev := out[p..p + n];
    ghost var t := Restored(3, bw, prev, inp[s..s + n]);
    var i := 0;
    while i < bw
      invariant i <= bw && Patched(out[..], old(out[..]), o, t, i) && (out != inp ==> inp[..] == old(inp[..]))
    {
      NextByte(3, bw, prev, old(inp[s..s + n]), i);
      out[o + i] := Plus(inp[s + i], out[p + i] / 2);
      i := i + 1;
    }
  }

  /** Average with a previous row: the first pixel, then groups of up to four bytes, then what is left. */
  method RestoreAverage(out: array<byte>, o: nat, inp: array<byte>, s: nat, p: nat, bw: nat, n: nat)
    requires Layout(out, o, inp, s, p, n) && 0 < bw <= n
    modifies out
    ensures Patched(out[..], old(out[..]), o, Restored(3, bw, old(out[p..p + n]), old(inp[s..s + n])), n)
  {
    hide Restored, Predict, Plus, Patched;
    ghost var was, prev, scanline := out[..], out[p..p + n], inp[s..s + n];
    ghost var t := Restored(3, bw, prev, scanline);
    AverageFirst(out, o, inp, s, p, bw, n);
    PatchedLength(out[..], was, o, t, bw);
    var i := bw;
    var lanes := if bw >= 4 then 4 else bw;
    if lanes >= 2 {
      i := AverageLanes(out, o, inp, s, p, bw, n, lanes, prev, scanline, was);
    }
    AverageRest(out, o, inp, s, p, bw, n, i, prev, scanline, was);
    WritingIsPatched(out[..], inp[..], out == inp, was, o, s, p, t, prev, scanline, n);
  }

  method AverageRest(out: array<byte>, o: nat, inp: array<byte>, s: nat, p: nat, bw: nat, n: nat, from: nat,
                     ghost prev: seq<byte>, ghost scanline: seq<byte>, ghost was: seq<byte>)
    requires Layout(out, o, inp, s, p, n) && 0 < bw <= from <= n && |scanline| == n
    requires Writing(out[..], inp[..], out == inp, was, o, s, p, Restored(3, bw, prev, scanline), prev, scanline, from)
    modifies out
    ensures Writing(out[..], inp[..], out == inp, was, o, s, p, Restored(3, bw, prev, scanline), prev, scanline, n)
  {
    hide Restored, Predict, Plus, Patched, Writing, AverageGroup;
    ghost var t := Restored(3, bw, prev, scanline);
    var i, j := from, from - bw;
    while i < n
      invariant 0 <= j && i == j + bw && i <= n
      invariant Writing(out[..], inp[..], out == inp, was, o, s, p, t, prev, scanline, i)
    {
      AboveLeft(out[..], inp[..], out == inp, was, o, s, p, t, prev, scanline, i, bw);
      var d := Plus(inp[s + i], (out[o + j] as int + out[p + i]) / 2);
      OneAverageByte(bw, prev, scanline, i, d);
      StoreGroup(out, o, inp, s, p, t, prev, scanline, was, i, [d]);
      i, j := i + 1, j + 1;
    }
  }

  lemma OneAverageByte(bw: nat, prev: seq<byte>, scanline: seq<byte>, i: nat, d: byte)
    requires 0 < bw <= i < |scanline| == |prev|
    requires d == Plus(scanline[i], (Restored(3, bw, prev, scanline)[i - bw] as int + prev[i]) / 2)
    ensures [d] == Restored(3, bw, prev, scanline)[i..i + 1]
  {
    hide Restored, Plus;
    NextByte(3, bw, prev, scanline, i);
  }

  lemma PatchedLength(out: seq<byte>, was: seq<byte>, o: nat, t: seq<byte>, i: nat)
    requires Patched(out, was, o, t, i)
    ensures |out| == |was|
  {
  }

  lemma WritingIsPatched(out: seq<byte>, inp: seq<byte>, same: bool, was: seq<byte>, o: nat, s: nat, p: nat,
                         t: seq<byte>, prev: seq<byte>, scanline: seq<byte>, i: nat)
    requires Writing(out, inp, same, was, o, s, p, t, prev, scanline, i)
    ensures Patched(out, was, o, t, i)
  {
  }

  // Paeth with a previous row.

  /** A pixel wide, or zero at the left edge. */
  ghost predicate LeftGroup(row: seq<byte>, i: nat, bw: nat, g: seq<byte>) {
    && |g| == bw && (i == 0 || bw <= i <= |row|)
    && forall k :: 0 <= k < bw ==> g[k] == if i == 0 then 0 else row[i - bw + k]
  }

  lemma PaethGroupIs(bw: nat, prev: seq<byte>, scanline: seq<byte>, i: nat, a: seq<byte>, c: seq<byte>, d: seq<byte>)
    requires 0 < bw && i + bw <= |scanline| == |prev|
    requires LeftGroup(Restored(4, bw, prev, scanline), i, bw, a) && LeftGroup(prev, i, bw, c)
    requires d == PaethGroup(scanline[i..i + bw], a, prev[i..i + bw], c)
    ensures d == Restored(4, bw, prev, scanline)[i..i + bw]
    ensures LeftGroup(Restored(4, bw, prev, scanline), i + bw, bw, d) && LeftGroup(prev, i + bw, bw, prev[i..i + bw])
  {
    hide Restored, Plus, Paeth, PaethGroup;
    forall k | 0 <= k < bw
      ensures d[k] == Restored(4, bw, prev, scanline)[i + k]
    {
      NextByte(4, bw, prev, scanline, i + k);
    }
  }

  /** Whole pixels at a time, with the left and upper left pixels carried along. */
  method PaethLanes(out: array<byte>, o: nat, inp: array<byte>, s: nat, p: nat, bw: nat, n: nat,
                    ghost prev: seq<byte>, ghost scanline: seq<byte>, ghost was: seq<byte>) returns (i: nat)
    requires Layout(out, o, inp, s, p, n) && 0 < bw <= n && |scanline| == n
    requires Writing(out[..], inp[..], out == inp, was, o, s, p, Restored(4, bw, prev, scanline), prev, scanline, 0)
    modifies out
    ensures bw <= i <= n
    ensures Writing(out[..], inp[..], out == inp, was, o, s, p, Restored(4, bw, prev, scanline), prev, scanline, i)
  {
    hide Restored, Predict, Plus, PaethGroup, Patched, Writing;
    ghost var t := Restored(4, bw, prev, scanline);
    i := 0;
    var b: seq<byte> := seq(bw, k => ZERO);
    var d: seq<byte> := seq(bw, k => ZERO);
    while i + (bw - 1) < n
      invariant i == 0 || bw <= i <= n
      invariant LeftGroup(t, i, bw, d) && LeftGroup(prev, i, bw, b)
      invariant Writing(out[..], inp[..], out == inp, was, o, s, p, t, prev, scanline, i)
    {
      GroupReads(out[..], inp[..], out == inp, was, o, s, p, t, prev, scanline, i, bw, bw);
      var c := b;
      b := out[p + i..p + i + bw];
      var a := d;
      d := PaethGroup(inp[s + i..s + i + bw], a, b, c);
      PaethGroupIs(bw, prev, scanline, i, a, c, d);
      StoreGroup(out, o, inp, s, p, t, prev, scanline, was, i, d);
      i := i + bw;
    }
  }

  /** The first pixel of a Paeth row of unusual width: the byte above. */
  method PaethFirst(out: array<byte>, o: nat, inp: array<byte>, s: nat, p: nat, bw: nat, n: nat)
    requires Layout(out, o, inp, s, p, n) && 0 < bw <= n
    modifies out
    ensures Patched(out[..], old(out[..]), o, Restored(4, bw, old(out[p..p + n]), old(inp[s..s + n])), bw)
  {
    hide Restored, Paeth, Plus;
    ghost var prev := out[p..p + n];
    ghost var t := Restored(4, bw, prev, inp[s..s + n]);
    var i := 0;
    while i < bw
      invariant i <= bw && Patched(out[..], old(out[..]), o, t, i) && (out != inp ==> inp[..] == old(inp[..]))
    {
      NextByte(4, bw, prev, old(inp[s..s + n]), i);
      PaethOfAbove(out[p + i]);
      out[o + i] := Plus(inp[s + i], out[p + i]);
      i := i + 1;
    }
  }

  lemma OnePaethByte(bw: nat, prev: seq<byte>, scanline: seq<byte>, i: nat, d: byte)
    requires 0 < bw <= i < |scanline| == |prev|
    requires d == Plus(scanline[i], PaethPredictor(Restored(4, bw, prev, scanline)[i - bw], prev[i], prev[i - bw]))
    ensures [d] == Restored(4, bw, prev, scanline)[i..i + 1]
  {
    hide Restored, Plus, Paeth;
    NextByte(4, bw, prev, scanline, i);
  }

  method RestorePaeth(out: array<byte>, o: nat, inp: array<byte>, s: nat, p: nat, bw: nat, n: nat)
    requires Layout(out, o, inp, s, p, n) && 0 < bw <= n
    modifies out
    ensures Patched(out[..], old(out[..]), o, Restored(4, bw, old(out[p..p + n]), old(inp[s..s + n])), n)
  {
    hide Restored, Predict, Plus, Patched, PaethPredictor;
    ghost var was, prev, scanline := out[..], out[p..p + n], inp[s..s + n];
    ghost var t := Restored(4, bw, prev, scanline);
    var i := bw;
    if bw == 8 || bw == 6 || bw == 4 || bw == 3 || bw == 2 || bw == 1 {
      PatchedNone(was, o, t);
      i := PaethLanes(out, o, inp, s, p, bw, n, prev, scanline, was);
    } else {
      PaethFirst(out, o, inp, s, p, bw, n);
      PatchedLength(out[..], was, o, t, bw);
    }
    PaethRest(out, o, inp, s, p, bw, n, i, prev, scanline, was);
    WritingIsPatched(out[..], inp[..], out == inp, was, o, s, p, t, prev, scanline, n);
  }

  method PaethRest(out: array<byte>, o: nat, inp: array<byte>, s: nat, p: nat, bw: nat, n: nat, from: nat,
                   ghost prev: seq<byte>, ghost scanline: seq<byte>, ghost was: seq<byte>)
    requires Layout(out, o, inp, s, p, n) && 0 < bw <= from <= n && |scanline| == n
    requires Writing(out[..], inp[..], out == inp, was, o, s, p, Restored(4, bw, prev, scanline), prev, scanline, from)
    modifies out
    ensures Writing(out[..], inp[..], out == inp, was, o, s, p, Restored(4, bw, prev, scanline), prev, scanline, n)
  {
    hide Restored, Predict, Plus, Patched, Writing, PaethPredictor;
    ghost var t := Restored(4, bw, prev, scanline);
    var i := from;
    while i < n
      invariant bw <= i <= n && Writing(out[..], inp[..], out == inp, was, o, s, p, t, prev, scanline, i)
    {
      AboveLeft(out[..], inp[..], out == inp, was, o, s, p, t, prev, scanline, i, bw);
      var d := Plus(inp[s + i], PaethPredictor(out[o + i - bw], out[p + i], out[p + i - bw]));
      OnePaethByte(bw, prev, scanline, i, d);
      StoreGroup(out, o, inp, s, p, t, prev, scanline, was, i, [d]);
      i := i + 1;
    }
  }

  lemma PatchedNone(was: seq<byte>, o: nat, t: seq<byte>)
    requires o <= |was|
    ensures Patched(was, was, o, t, 0)
  {
  }

  lemma AboveLeft(out: seq<byte>, inp: seq<byte>, same: bool, was: seq<byte>, o: nat, s: nat, p: nat, t: seq<byte>,
                  prev: seq<byte>, scanline: seq<byte>, i: nat, bw: nat)
    requires Writing(out, inp, same, was, o, s, p, t, prev, scanline, i) && 0 < bw <= i < |t|
    ensures |out| == |was| && |prev| == |scanline| == |t| && o + |t| <= |was|
    ensures s + |t| <= |inp| && inp[s + i] == scanline[i] && out[o + i - bw] == t[i - bw]
    ensures out[p + i] == prev[i] && out[p + i - bw] == prev[i - bw]
  {
    assert was[p + i] == prev[i] && was[p + i - bw] == prev[i - bw];
    assert same ==> scanline[i] == was[s + i];
  }

  /** Reconstruct one scanline; a type above 4 is error 36 and writes nothing. */
  method UnfilterScanline(out: array<byte>, o: nat, inp: array<byte>, s: nat, p: int, bw: nat, filter: byte, n: nat)
    returns (error: nat)
    requires Layout(out, o, inp, s, p, n) && 0 < bw <= n
    modifies out
    ensures error == if filter <= 4 then 0 else 36
    ensures filter <= 4 ==>
              Patched(out[..], old(out[..]), o, Restored(filter, bw, RowAt(old(out[..]), p, n), old(inp[s..s + n])), n)
    ensures filter > 4 ==> out[..] == old(out[..])
  {
    hide Restored, Patched;
    error := 0;
    ghost var prev := RowAt(out[..], p, n);
    match filter {
      case 0 => RestoreCopy(out, o, inp, s, bw, n, 0, prev);
      case 1 => RestoreSub(out, o, inp, s, bw, n, 1, prev);
      case 2 =>
        if p >= 0 {
          RestoreUp(out, o, inp, s, p, bw, n);
        } else {
          RestoreCopy(out, o, inp, s, bw, n, 2, prev);
        }
      case 3 =>
        if p >= 0 {
          RestoreAverage(out, o, inp, s, p, bw, n);
        } else {
          RestoreHalfLeft(out, o, inp, s, bw, n);
        }
      case 4 =>
        if p >= 0 {
          RestorePaeth(out, o, inp, s, p, bw, n);
        } else {
          RestoreSub(out, o, inp, s, bw, n, 4, prev);
        }
      case _ => error := 36;
    }
  }

  /** What the encoder writes for byte i, branch by branch. */
  function FilterByte(filter: nat, bw: nat, prev: seq<byte>, row: seq<byte>, i: nat): (r: byte)
    requires filter <= 4 && 0 < bw && i < |row| && (prev == [] || |prev| == |row|)
    ensures r == Minus(row[i], Prediction(filter, bw, prev, row, i))
  {
    match filter
    case 0 => row[i]
    case 1 => if i < bw then row[i] else Minus(row[i], row[i - bw])
    case 2 => if prev != [] then Minus(row[i], prev[i]) else row[i]
    case 3 =>
      if prev != [] then
        if i < bw then Minus(row[i], prev[i] / 2) else Minus(row[i], (row[i - bw] as int + prev[i]) / 2)
      else if i < bw then row[i] else Minus(row[i], row[i - bw] / 2)
    case _ =>
      if prev != [] then
        if i < bw then PaethOfAbove(prev[i]); Minus(row[i], prev[i])
        else Minus(row[i], PaethPredictor(row[i - bw], prev[i], prev[i - bw]))
      else if i < bw then row[i] else PaethOfLeft(row[i - bw]); Minus(row[i], row[i - bw])
  }

  /** Filter one scanline into another buffer; a type above 4 writes nothing. */
  method FilterScanline(out: array<byte>, o: nat, inp: array<byte>, s: nat, p: int, n: nat, bw: nat, filter: byte)
    requires out != inp && o + n <= out.Length && s + n <= inp.Length && (p >= 0 ==> p + n <= inp.Length) && 0 < bw <= n
    modifies out
    ensures filter <= 4 ==>
              Patched(out[..], old(out[..]), o, Filtered(filter, bw, RowAt(inp[..], p, n), inp[s..s + n]), n)
    ensures filter > 4 ==> out[..] == old(out[..])
  {
    hide Minus, Prediction, FilterByte;
    if filter > 4 {
      return;
    }
    var row: seq<byte> := inp[s..s + n];
    var prev: seq<byte> := if p >= 0 then inp[p..p + n] else [];
    assert RowAt(inp[..], p, n) == prev;
    var i := 0;
    while i < n
      invariant i <= n && Patched(out[..], old(out[..]), o, Filtered(filter, bw, prev, row), i)
    {
      out[o + i] := FilterByte(filter, bw, prev, row, i);
      i := i + 1;
    }
  }
}
