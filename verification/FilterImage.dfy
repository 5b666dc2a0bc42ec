/**
 Whole images of filtered scanlines, each after its filter-type byte: reconstructing
 what was filtered gives the image back whatever types were chosen, and the decoder
 does it in place.
 */
module FilterImage {
  import opened BitSequence
  import opened Arithmetic
  import opened Filters
  import opened FilterLoops

  datatype Rows = Rows(bytes: seq<byte>) | BadType

  /** The image of a run of scanlines of n bytes, each after its type. */
  function RestoredRows(bw: nat, n: nat, data: seq<byte>, prev: seq<byte>): (r: Rows)
    requires 0 < bw
  {
    if |data| < 1 + n then Rows([])
    else if data[0] > 4 then BadType
    else
      var row := Restored(data[0], bw, prev, data[1..1 + n]);
      var rest := RestoredRows(bw, n, data[1 + n..], row);
      if rest.BadType? then BadType else Rows(row + rest.bytes)
  }

  /** Filter every row with the type chosen for it. */
  function FilteredRows(bw: nat, types: seq<byte>, rows: seq<seq<byte>>, prev: seq<byte>): (data: seq<byte>)
    requires 0 < bw && |types| == |rows| && forall i :: 0 <= i < |types| ==> types[i] <= 4
  {
    if rows == [] then []
    else [types[0]] + Filtered(types[0], bw, prev, rows[0]) + FilteredRows(bw, types[1..], rows[1..], rows[0])
  }

  function Flatten(rows: seq<seq<byte>>): (image: seq<byte>) {
    if rows == [] then [] else rows[0] + Flatten(rows[1..])
  }

  /** Any image, any choice of filter types: reconstruction gives the image back. */
  lemma {:induction false} RestoreFilteredRows(bw: nat, n: nat, types: seq<byte>, rows: seq<seq<byte>>, prev: seq<byte>)
    requires 0 < bw && |types| == |rows| && forall i :: 0 <= i < |types| ==> types[i] <= 4
    requires forall i :: 0 <= i < |rows| ==> |rows[i]| == n
    ensures RestoredRows(bw, n, FilteredRows(bw, types, rows, prev), prev) == Rows(Flatten(rows))
    decreases |rows|
  {
    hide Filtered, Restored;
    if rows != [] {
      var data := FilteredRows(bw, types, rows, prev);
      assert data[1..1 + n] == Filtered(types[0], bw, prev, rows[0]);
      assert data[1 + n..] == FilteredRows(bw, types[1..], rows[1..], rows[0]);
      RestoreFiltered(types[0], bw, prev, rows[0]);
      RestoreFilteredRows(bw, n, types[1..], rows[1..], rows[0]);
    }
  }

  /** Rows already restored, then the result for the rest. */
  function Then(done: seq<byte>, rest: Rows): (r: Rows) {
    if rest.BadType? then BadType else Rows(done + rest.bytes)
  }

  lemma ThenRow(bw: nat, n: nat, data: seq<byte>, prev: seq<byte>, done: seq<byte>)
    requires 0 < bw && |data| >= 1 + n
    ensures data[0] > 4 ==> Then(done, RestoredRows(bw, n, data, prev)) == BadType
    ensures data[0] <= 4 ==>
              var row := Restored(data[0], bw, prev, data[1..1 + n]);
              Then(done, RestoredRows(bw, n, data, prev)) == Then(done + row, RestoredRows(bw, n, data[1 + n..], row))
  {
    hide Restored;
    if data[0] <= 4 {
      var row := Restored(data[0], bw, prev, data[1..1 + n]);
      var rest := RestoredRows(bw, n, data[1 + n..], row);
      if rest.Rows? {
        assert done + (row + rest.bytes) == (done + row) + rest.bytes;
      }
    }
  }

  /** One more row of the buffer is done, and nothing behind it has changed. */
  lemma PatchedRow(out: seq<byte>, mid: seq<byte>, was: seq<byte>, ob: nat, done: seq<byte>, row: seq<byte>)
    requires |mid| == |was| && ob + |done| + |row| <= |was|
    requires mid == was[..ob] + done + was[ob + |done|..]
    requires Patched(out, mid, ob + |done|, row, |row|)
    ensures out == was[..ob] + (done + row) + was[ob + |done| + |row|..]
  {
    assert out[..ob] == was[..ob] && out[ob..ob + |done|] == done;
    assert out[ob + |done|..ob + |done| + |row|] == row;
    assert out[ob + |done| + |row|..] == was[ob + |done| + |row|..];
  }

  /**
   The buffers after some rows: `done` is written at ob, the scanlines from ii on are intact, and
   p is the last row.
   */
  ghost predicate Progress(out: seq<byte>, inp: seq<byte>, same: bool, was: seq<byte>, wasIn: seq<byte>, ob: nat,
                           ib: nat, n: nat, data: seq<byte>, done: seq<byte>, ii: nat, p: int, prev: seq<byte>) {
    && ob + |done| <= |was| && out == was[..ob] + done + was[ob + |done|..] && |done| <= ii <= |data|
    && (if same then out == inp && was == wasIn && ob <= ib else inp == wasIn)
    && ib + |data| <= |wasIn| && data == wasIn[ib..ib + |data|]
    && (if done == [] then p == -1 && prev == [] else p >= 0 && p + n == ob + |done| && prev == out[p..p + n])
  }

  method UnfilterRow(out: array<byte>, ghost ob: nat, inp: array<byte>, ghost ib: nat, o: nat, s: nat, p: int, bw: nat,
                     n: nat, ghost was: seq<byte>, ghost wasIn: seq<byte>, ghost data: seq<byte>,
                     ghost done: seq<byte>, ghost ii: nat, ghost prev: seq<byte>)
    returns (error: nat, ghost row: seq<byte>)
    requires Progress(out[..], inp[..], out == inp, was, wasIn, ob, ib, n, data, done, ii, p, prev)
    requires 0 < bw <= n && ii + 1 + n <= |data| && o == ob + |done| && o + n <= |was| && s == ib + ii
    modifies out
    ensures error == if data[ii] <= 4 then 0 else 36
    ensures error == 0 ==>
              && row == Restored(data[ii], bw, prev, data[ii..][1..1 + n])
              && Progress(out[..], inp[..], out == inp, was, wasIn, ob, ib, n, data, done + row, ii + 1 + n, o, row)
  {
    hide Restored, Patched, Progress;
    ghost var mid := out[..];
    ProgressReads(mid, inp[..], out == inp, was, wasIn, ob, ib, n, data, done, ii, p, prev);
    var filter := inp[s];
    error := UnfilterScanline(out, o, inp, s + 1, p, bw, filter, n);
    row := [];
    if error == 0 {
      row := Restored(filter, bw, prev, data[ii..][1..1 + n]);
      ProgressNext(out[..], mid, inp[..], out == inp, was, wasIn, ob, ib, n, data, done, ii, p, prev, row);
    }
  }

  /** What the next row is made of. */
  lemma ProgressReads(out: seq<byte>, inp: seq<byte>, same: bool, was: seq<byte>, wasIn: seq<byte>, ob: nat, ib: nat,
                      n: nat, data: seq<byte>, done: seq<byte>, ii: nat, p: int, prev: seq<byte>)
    requires Progress(out, inp, same, was, wasIn, ob, ib, n, data, done, ii, p, prev) && ii + 1 + n <= |data|
    ensures |out| == |was| && |inp| == |wasIn| && ib + ii + 1 + n <= |inp| && inp[ib + ii] == data[ii]
    ensures inp[ib + ii + 1..ib + ii + 1 + n] == data[ii..][1..1 + n]
    ensures (p >= 0 ==> p + n <= ob + |done| <= |out|) && RowAt(out, p, n) == prev && (same ==> ob + |done| <= ib + ii)
  {
    ScanlineIntact(out, inp, was, wasIn, same, ob, ib, done, data, ii, 1 + n);
    var line := inp[ib + ii..ib + ii + 1 + n];
    var piece := data[ii..ii + 1 + n];
    assert line == piece;
    SliceOfSlice(data, ii, n);
    assert line[0] == data[ii] && line[1..] == inp[ib + ii + 1..ib + ii + 1 + n];
  }

  lemma SliceOfSlice(s: seq<byte>, i: nat, n: nat)
    requires i + 1 + n <= |s|
    ensures s[i..i + 1 + n][1..] == s[i..][1..1 + n] == s[i + 1..i + 1 + n]
  {
  }

  lemma ProgressNext(out: seq<byte>, mid: seq<byte>, inp: seq<byte>, same: bool, was: seq<byte>, wasIn: seq<byte>,
                     ob: nat, ib: nat, n: nat, data: seq<byte>, done: seq<byte>, ii: nat, p: int, prev: seq<byte>,
                     row: seq<byte>)
    requires Progress(mid, if same then mid else inp, same, was, wasIn, ob, ib, n, data, done, ii, p, prev)
    requires ii + 1 + n <= |data| && |row| == n > 0 && (same ==> inp == out)
    requires ob + |done| + n <= |was| && Patched(out, mid, ob + |done|, row, n)
    ensures Progress(out, inp, same, was, wasIn, ob, ib, n, data, done + row, ii + 1 + n, ob + |done|, row)
  {
    hide Patched;
    PatchedRow(out, mid, was, ob, done, row);
    assert out[ob + |done|..ob + |done| + n] == row;
  }

  /** Reconstruct h rows of n bytes at ib into rows at ob, which may be the same buffer if ob is not behind ib. */
  method Unfilter(out: array<byte>, ob: nat, inp: array<byte>, ib: nat, bw: nat, n: nat, h: nat) returns (error: nat)
    requires 0 < bw <= n && ob + n * h <= out.Length && ib + (1 + n) * h <= inp.Length && (out == inp ==> ob <= ib)
    modifies out
    ensures var r := RestoredRows(bw, n, old(inp[ib..ib + (1 + n) * h]), []);
            if r.BadType? then error == 36
            else error == 0 && ob + |r.bytes| <= out.Length
                 && out[..] == old(out[..ob]) + r.bytes + old(out[..])[ob + |r.bytes|..]
  {
    hide RestoredRows, Restored, Progress;
    ghost var was, wasIn := out[..], inp[..];
    ghost var data := inp[ib..ib + (1 + n) * h];
    ghost var done: seq<byte>, prev: seq<byte> := [], [];
    var y, oi, ii, p := 0, 0, 0, -1;
    ProgressStart(was, wasIn, out == inp, ob, ib, n, data);
    assert data[0..] == data;
    while y < h
      invariant y <= h && oi == n * y && ii == (1 + n) * y && |done| == oi && ii <= |data|
      invariant |data| - ii == (1 + n) * (h - y)
      invariant Progress(out[..], inp[..], out == inp, was, wasIn, ob, ib, n, data, done, ii, p, prev)
      invariant Then(done, RestoredRows(bw, n, data[ii..], prev)) == RestoredRows(bw, n, data, [])
    {
      RowFits(n, y, h);
      ThenRow(bw, n, data[ii..], prev, done);
      ghost var row;
      error, row := UnfilterRow(out, ob, inp, ib, ob + oi, ib + ii, p, bw, n, was, wasIn, data, done, ii, prev);
      if error != 0 {
        return;
      }
      assert data[ii..][1 + n..] == data[ii + 1 + n..];
      p := ob + oi;
      done, prev := done + row, row;
      y, oi, ii := y + 1, oi + n, ii + 1 + n;
    }
    assert data[ii..] == [];
    NoRows(bw, n, prev, done);
    ProgressEnd(out[..], inp[..], out == inp, was, wasIn, ob, ib, n, data, done, ii, p, prev);
    error := 0;
  }

  lemma ProgressStart(was: seq<byte>, wasIn: seq<byte>, same: bool, ob: nat, ib: nat, n: nat, data: seq<byte>)
    requires ob <= |was| && (same ==> was == wasIn && ob <= ib)
    requires ib + |data| <= |wasIn| && data == wasIn[ib..ib + |data|]
    ensures Progress(was, wasIn, same, was, wasIn, ob, ib, n, data, [], 0, -1, [])
  {
  }

  lemma ProgressEnd(out: seq<byte>, inp: seq<byte>, same: bool, was: seq<byte>, wasIn: seq<byte>, ob: nat, ib: nat,
                    n: nat, data: seq<byte>, done: seq<byte>, ii: nat, p: int, prev: seq<byte>)
    requires Progress(out, inp, same, was, wasIn, ob, ib, n, data, done, ii, p, prev)
    ensures ob + |done| <= |was| == |out| && out == was[..ob] + done + was[ob + |done|..]
  {
  }

  lemma NoRows(bw: nat, n: nat, prev: seq<byte>, done: seq<byte>)
    requires 0 < bw
    ensures Then(done, RestoredRows(bw, n, [], prev)) == Rows(done)
  {
  }

  lemma RowFits(n: nat, y: nat, h: nat)
    requires y < h
    ensures n * (y + 1) == n * y + n && (1 + n) * (y + 1) == (1 + n) * y + 1 + n
    ensures n * (y + 1) <= n * h && (1 + n) * (h - y) == (1 + n) * (h - (y + 1)) + 1 + n
    ensures (1 + n) * (h - (y + 1)) >= 0
  {
    Distribute(y, 1, n);
    Distribute(y, 1, 1 + n);
    Distribute(h - (y + 1), 1, 1 + n);
    MulMonotone(y + 1, h, n);
  }

  /** The rows still to come are as they were. */
  lemma ScanlineIntact(out: seq<byte>, inp: seq<byte>, was: seq<byte>, wasIn: seq<byte>, same: bool, ob: nat, ib: nat,
                       done: seq<byte>, data: seq<byte>, ii: nat, k: nat)
    requires ob + |done| <= |was| && out == was[..ob] + done + was[ob + |done|..]
    requires if same then out == inp && was == wasIn && ob <= ib && |done| <= ii else inp == wasIn
    requires ib + |data| <= |wasIn| && data == wasIn[ib..ib + |data|] && ii + k <= |data|
    ensures ib + ii + k <= |inp| && inp[ib + ii..ib + ii + k] == data[ii..ii + k]
  {
    var x := inp[ib + ii..ib + ii + k];
    forall j | 0 <= j < k
      ensures x[j] == data[ii..ii + k][j]
    {
      assert data[ii + j] == wasIn[ib + ii + j];
    }
  }

  /** Row y of the filtered image: its type, then the row filtered against the one above it. */
  lemma {:induction false} ScanlineLayout(bw: nat, n: nat, types: seq<byte>, rows: seq<seq<byte>>, prev: seq<byte>,
                                          y: nat)
    requires 0 < bw && |types| == |rows| && y < |rows| && forall i :: 0 <= i < |types| ==> types[i] <= 4
    requires forall i :: 0 <= i < |rows| ==> |rows[i]| == n
    ensures var data, at := FilteredRows(bw, types, rows, prev), Product(y, 1 + n);
            && at + 1 + n <= |data| && data[at] == types[y]
            && data[at + 1..at + 1 + n] == Filtered(types[y], bw, if y == 0 then prev else rows[y - 1], rows[y])
    decreases |rows|
  {
    hide Filtered, Product;
    var head := [types[0]] + Filtered(types[0], bw, prev, rows[0]);
    var rest := FilteredRows(bw, types[1..], rows[1..], rows[0]);
    assert FilteredRows(bw, types, rows, prev) == head + rest;
    ProductNext(0, 1 + n);
    if y > 0 {
      ScanlineLayout(bw, n, types[1..], rows[1..], rows[0], y - 1);
      ProductNext(y - 1, 1 + n);
      Behind(head, rest, Product(y - 1, 1 + n), n);
    }
  }

  lemma Behind(head: seq<byte>, rest: seq<byte>, at: nat, n: nat)
    requires at + 1 + n <= |rest|
    ensures var all, k := head + rest, |head| + at;
            all[k] == rest[at] && all[k + 1..k + 1 + n] == rest[at + 1..at + 1 + n]
  {
  }
}
