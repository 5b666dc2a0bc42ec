/**
 Scanline filters of section 6 of RFC 2083: their definition one byte at a time, the
 fact that reconstruction undoes filtering, and the decoder's and encoder's loops.
 */
module Filters {
  import opened BitSequence
  import opened Arithmetic

  // Predictors.

  /** The neighbour nearest to left + above - upper left, in that order of preference. */
  function Paeth(a: byte, b: byte, c: byte): (r: byte) {
    var p := a as int + b - c;
    if Abs(p - a) <= Abs(p - b) && Abs(p - a) <= Abs(p - c) then a
    else if Abs(p - b) <= Abs(p - c) then b
    else c
  }

  /** The decoder's form: the distances without the estimate itself, the minimum taken in two steps. */
  function PaethPredictor(a: byte, b: byte, c: byte): (r: byte)
    ensures r == Paeth(a, b, c)
  {
    var pa := Abs(b as int - c);
    var pb := Abs(a as int - c);
    var pc := Abs(a as int + b - c - c);
    var x, px := if pb < pa then b else a, if pb < pa then pb else pa;
    if pc < px then c else x
  }

  const ZERO: byte := 0

  function Predict(filter: nat, a: byte, b: byte, c: byte): (r: byte)
    requires filter <= 4
  {
    match filter
    case 0 => ZERO
    case 1 => a
    case 2 => b
    case 3 => (a as int + b) / 2
    case _ => Paeth(a, b, c)
  }

  function Plus(x: byte, y: byte): (r: byte) {
    (x as int + y) % 256
  }

  function Minus(x: byte, y: byte): (r: byte) {
    (x as int - y) % 256
  }

  lemma PlusMinus(x: byte, y: byte)
    ensures Plus(Minus(x, y), y) == x && Minus(Plus(x, y), y) == x
  {
    PlusIs(x, y);
    MinusIs(x, y);
    PlusIs(Minus(x, y), y);
    MinusIs(Plus(x, y), y);
    hide Plus, Minus;
  }

  lemma PlusIs(x: byte, y: byte)
    ensures Plus(x, y) == if x as int + y < 256 then x as int + y else x as int + y - 256
  {
    ModIs(x as int + y, 256, if x as int + y < 256 then 0 else 1,
          if x as int + y < 256 then x as int + y else x as int + y - 256);
  }

  lemma MinusIs(x: byte, y: byte)
    ensures Minus(x, y) == if x >= y then x as int - y else x as int - y + 256
  {
    ModIs(x as int - y, 256, if x >= y then 0 else -1, if x >= y then x as int - y else x as int - y + 256);
  }

  // Rows. A missing previous row is the empty list, and bytes outside the rows are 0.

  function Above(prev: seq<byte>, i: nat): (b: byte) {
    if i < |prev| then prev[i] else ZERO
  }

  /** The prediction for byte i from the bytes before it and the row above. */
  function Prediction(filter: nat, bw: nat, prev: seq<byte>, row: seq<byte>, i: nat): (b: byte)
    requires filter <= 4 && 0 < bw && i <= |row|
  {
    if i < bw then Predict(filter, ZERO, Above(prev, i), ZERO)
    else Predict(filter, row[i - bw], Above(prev, i), Above(prev, i - bw))
  }

  function Filtered(filter: nat, bw: nat, prev: seq<byte>, row: seq<byte>): (r: seq<byte>)
    requires filter <= 4 && 0 < bw
    ensures |r| == |row|
  {
    seq(|row|, i requires 0 <= i < |row| => Minus(row[i], Prediction(filter, bw, prev, row, i)))
  }

  function Restored(filter: nat, bw: nat, prev: seq<byte>, scanline: seq<byte>): (r: seq<byte>)
    requires filter <= 4 && 0 < bw
    ensures |r| == |scanline|
  {
    if scanline == [] then []
    else
      var n := |scanline| - 1;
      var before := Restored(filter, bw, prev, scanline[..n]);
      before + [Plus(scanline[n], Prediction(filter, bw, prev, before, n))]
  }

  /** A prediction only looks at the bytes before it. */
  lemma PredictionFrame(filter: nat, bw: nat, prev: seq<byte>, row: seq<byte>, longer: seq<byte>, i: nat)
    requires filter <= 4 && 0 < bw && i <= |row| && row <= longer
    ensures Prediction(filter, bw, prev, row, i) == Prediction(filter, bw, prev, longer, i)
  {
    if i >= bw {
      assert row[i - bw] == longer[i - bw];
    }
  }

  lemma {:induction false} RestoredPrefix(filter: nat, bw: nat, prev: seq<byte>, scanline: seq<byte>, n: nat)
    requires filter <= 4 && 0 < bw && n <= |scanline|
    ensures Restored(filter, bw, prev, scanline[..n]) == Restored(filter, bw, prev, scanline)[..n]
    decreases |scanline|
  {
    if n == |scanline| {
      assert scanline[..n] == scanline;
    } else {
      var k := |scanline| - 1;
      RestoredPrefix(filter, bw, prev, scanline[..k], n);
      assert scanline[..k][..n] == scanline[..n];
    }
  }

  /** Reconstruction, byte by byte. */
  lemma RestoredAt(filter: nat, bw: nat, prev: seq<byte>, scanline: seq<byte>, i: nat)
    requires filter <= 4 && 0 < bw && i < |scanline|
    ensures var r := Restored(filter, bw, prev, scanline); r[i] == Plus(scanline[i], Prediction(filter, bw, prev, r, i))
  {
    hide Predict, Plus, Prediction;
    var r := Restored(filter, bw, prev, scanline);
    RestoredPrefix(filter, bw, prev, scanline, i + 1);
    RestoredPrefix(filter, bw, prev, scanline, i);
    assert scanline[..i + 1][..i] == scanline[..i];
    PredictionFrame(filter, bw, prev, r[..i], r, i);
    assert r[..i + 1][i] == r[i];
  }

  lemma FilteredPrefix(filter: nat, bw: nat, prev: seq<byte>, row: seq<byte>, n: nat)
    requires filter <= 4 && 0 < bw && n <= |row|
    ensures Filtered(filter, bw, prev, row[..n]) == Filtered(filter, bw, prev, row)[..n]
  {
    hide Predict, Plus, Minus, Prediction;
    forall i | 0 <= i < n
      ensures Filtered(filter, bw, prev, row[..n])[i] == Filtered(filter, bw, prev, row)[i]
    {
      PredictionFrame(filter, bw, prev, row[..n], row, i);
    }
  }

  /** Reconstruction undoes filtering. */
  lemma {:induction false} RestoreFiltered(filter: nat, bw: nat, prev: seq<byte>, row: seq<byte>)
    requires filter <= 4 && 0 < bw
    ensures Restored(filter, bw, prev, Filtered(filter, bw, prev, row)) == row
    decreases |row|
  {
    hide Predict, Plus, Minus, Prediction;
    if row != [] {
      var n := |row| - 1;
      RestoreFiltered(filter, bw, prev, row[..n]);
      FilteredPrefix(filter, bw, prev, row, n);
      PredictionFrame(filter, bw, prev, row[..n], row, n);
      PlusMinus(row[n], Prediction(filter, bw, prev, row, n));
    }
  }

  /** And filtering undoes reconstruction, so no two scanlines give the same row. */
  lemma FilterRestored(filter: nat, bw: nat, prev: seq<byte>, scanline: seq<byte>)
    requires filter <= 4 && 0 < bw
    ensures Filtered(filter, bw, prev, Restored(filter, bw, prev, scanline)) == scanline
  {
    hide Predict, Plus, Minus, Prediction;
    var r := Restored(filter, bw, prev, scanline);
    forall i | 0 <= i < |scanline|
      ensures Filtered(filter, bw, prev, r)[i] == scanline[i]
    {
      RestoredAt(filter, bw, prev, scanline, i);
      PlusMinus(scanline[i], Prediction(filter, bw, prev, r, i));
    }
  }

  // The equations of section 6 of RFC 2083, each in terms of its neighbours a, b and c:
  // left, above and upper left, 0 outside the rows.

  function Left(row: seq<byte>, bw: nat, i: nat): (a: int)
    requires 0 < bw && i <= |row|
  {
    if bw <= i then row[i - bw] else 0
  }

  function Top(prev: seq<byte>, i: nat): (b: int) {
    if i < |prev| then prev[i] else 0
  }

  function TopLeft(prev: seq<byte>, bw: nat, i: nat): (c: int) {
    if bw <= i && i - bw < |prev| then prev[i - bw] else 0
  }

  /** The average, rounded down. */
  ghost predicate IsAverage(p: int, a: int, b: int) {
    0 <= a + b - 2 * p <= 1
  }

  /** The neighbour nearest to a + b - c; of several the first of a, b and c. */
  ghost predicate IsNearest(p: int, a: int, b: int, c: int) {
    var e := a + b - c;
    && (p == a || p == b || p == c)
    && Abs(e - p) <= Abs(e - a) && Abs(e - p) <= Abs(e - b) && Abs(e - p) <= Abs(e - c)
    && (p != a ==> Abs(e - p) < Abs(e - a))
    && (p != a && p != b ==> Abs(e - p) < Abs(e - b))
  }

  /** What each type predicts from the neighbours. */
  ghost predicate Predicts(filter: nat, p: int, a: int, b: int, c: int) {
    && (filter == 0 ==> p == 0) && (filter == 1 ==> p == a) && (filter == 2 ==> p == b)
    && (filter == 3 ==> IsAverage(p, a, b)) && (filter == 4 ==> IsNearest(p, a, b, c))
  }

  lemma PredictIs(filter: nat, a: byte, b: byte, c: byte)
    requires filter <= 4
    ensures Predicts(filter, Predict(filter, a, b, c), a, b, c)
  {
  }

  lemma PredictionIs(filter: nat, bw: nat, prev: seq<byte>, row: seq<byte>, i: nat)
    requires filter <= 4 && 0 < bw && i <= |row|
    ensures Predicts(filter, Prediction(filter, bw, prev, row, i), Left(row, bw, i), Top(prev, i),
                     TopLeft(prev, bw, i))
  {
    hide Predicts, Predict;
    if i < bw {
      PredictIs(filter, ZERO, Above(prev, i), ZERO);
    } else {
      PredictIs(filter, row[i - bw], Above(prev, i), Above(prev, i - bw));
    }
  }

  /** Every byte of a reconstructed row is the scanline's plus the prediction, modulo 256. */
  lemma RestoreEquations(filter: nat, bw: nat, prev: seq<byte>, scanline: seq<byte>, i: nat) returns (p: int)
    requires filter <= 4 && 0 < bw && i < |scanline|
    ensures var r := Restored(filter, bw, prev, scanline);
            && Predicts(filter, p, Left(r, bw, i), Top(prev, i), TopLeft(prev, bw, i))
            && r[i] as int == (scanline[i] as int + p) % 256
  {
    hide Restored, Predicts, Prediction;
    var r := Restored(filter, bw, prev, scanline);
    p := Prediction(filter, bw, prev, r, i);
    RestoredAt(filter, bw, prev, scanline, i);
    PredictionIs(filter, bw, prev, r, i);
  }

  /** Every byte of a filtered row is the row's minus the prediction, modulo 256. */
  lemma FilterEquations(filter: nat, bw: nat, prev: seq<byte>, row: seq<byte>, i: nat) returns (p: int)
    requires filter <= 4 && 0 < bw && i < |row|
    ensures Predicts(filter, p, Left(row, bw, i), Top(prev, i), TopLeft(prev, bw, i))
    ensures Filtered(filter, bw, prev, row)[i] as int == (row[i] as int - p) % 256
  {
    hide Predicts, Prediction;
    p := Prediction(filter, bw, prev, row, i);
    PredictionIs(filter, bw, prev, row, i);
  }

  /** A scanline of zeros of type 2 repeats the row above. */
  lemma UpOfZeros(bw: nat, prev: seq<byte>)
    requires 0 < bw
    ensures Restored(2, bw, prev, seq(|prev|, _ => ZERO)) == prev
  {
    var scanline := seq(|prev|, _ => ZERO);
    var r := Restored(2, bw, prev, scanline);
    forall i | 0 <= i < |prev|
      ensures r[i] == prev[i]
    {
      var p := RestoreEquations(2, bw, prev, scanline, i);
      ModIs(prev[i], 256, 0, prev[i]);
    }
  }
}
