/**
 Adam7 interlacing, section 2.6 of RFC 2083: which pass a pixel belongs to, where the
 passes lie in the buffer, and how large they are together.
 */
module Adam7 {
  import opened Arithmetic
  import BitSequence

  const PASSES: nat := 7

  // The pass tables: first column and row, column and row step.

  function StartX(i: nat): nat {
    if i == 1 then 4 else if i == 3 then 2 else if i == 5 then 1 else 0
  }

  function StartY(i: nat): nat {
    if i == 2 then 4 else if i == 4 then 2 else if i == 6 then 1 else 0
  }

  function StepX(i: nat): nat {
    if i <= 1 then 8 else if i <= 3 then 4 else if i <= 5 then 2 else 1
  }

  function StepY(i: nat): nat {
    if i <= 2 then 8 else if i <= 4 then 4 else 2
  }

  /** Pixel (x, y) is in pass i: it lies on the grid of the pass. */
  predicate InPass(i: nat, x: nat, y: nat) {
    i < PASSES && x % StepX(i) == StartX(i) && y % StepY(i) == StartY(i)
  }

  function PassOf(x: nat, y: nat): (i: nat)
    ensures i < PASSES
  {
    if y % 2 == 1 then 6
    else if x % 2 == 1 then 5
    else if y % 4 == 2 then 4
    else if x % 4 == 2 then 3
    else if y % 8 == 4 then 2
    else if x % 8 == 4 then 1
    else 0
  }

  /** Every pixel is in exactly one pass. */
  lemma OnePass(x: nat, y: nat, i: nat)
    ensures InPass(i, x, y) <==> i == PassOf(x, y)
  {
    Remainders(x);
    Remainders(y);
  }

  /** What the remainder modulo 8 says about the others. */
  lemma Remainders(x: nat)
    ensures x % 4 == x % 8 || x % 4 == x % 8 - 4
    ensures x % 2 == x % 4 || x % 2 == x % 4 - 2
    ensures x % 1 == 0
  {
    var q, r := x / 8, x % 8;
    BitSequence.ModIs(x, 4, if r < 4 then 2 * q else 2 * q + 1, if r < 4 then r else r - 4);
    var q', r' := x / 4, x % 4;
    BitSequence.ModIs(x, 2, if r' < 2 then 2 * q' else 2 * q' + 1, if r' < 2 then r' else r' - 2);
  }

  // Sizes of the passes.

  function PassWidth(i: nat, w: nat): (r: nat)
    requires i < PASSES
  {
    (w + StepX(i) - StartX(i) - 1) / StepX(i)
  }

  function PassHeight(i: nat, h: nat): (r: nat)
    requires i < PASSES
  {
    (h + StepY(i) - StartY(i) - 1) / StepY(i)
  }

  /** A pass has a column for each of its image columns, and no other. */
  lemma ColumnInPass(i: nat, w: nat, px: nat)
    requires i < PASSES
    ensures px < PassWidth(i, w) <==> StartX(i) + px * StepX(i) < w
  {
    assert i == 0 || i == 1 || i == 2 || i == 3 || i == 4 || i == 5 || i == 6;
  }

  lemma RowInPass(i: nat, h: nat, py: nat)
    requires i < PASSES
    ensures py < PassHeight(i, h) <==> StartY(i) + py * StepY(i) < h
  {
    assert i == 0 || i == 1 || i == 2 || i == 3 || i == 4 || i == 5 || i == 6;
  }

  /** Where a pixel sits within its pass. */
  function ColumnOf(x: nat, y: nat): nat {
    x / StepX(PassOf(x, y))
  }

  function RowOf(x: nat, y: nat): nat {
    y / StepY(PassOf(x, y))
  }

  /** A pixel's place in its pass, and back. */
  lemma PlaceOf(x: nat, y: nat)
    ensures var i := PassOf(x, y);
            x == StartX(i) + ColumnOf(x, y) * StepX(i) && y == StartY(i) + RowOf(x, y) * StepY(i)
  {
    hide PassOf;
    var i := PassOf(x, y);
    OnePass(x, y, i);
    assert StepX(i) == 8 || StepX(i) == 4 || StepX(i) == 2 || StepX(i) == 1;
  }

  lemma PixelOf(i: nat, px: nat, py: nat)
    requires i < PASSES
    ensures var x, y := StartX(i) + px * StepX(i), StartY(i) + py * StepY(i);
            PassOf(x, y) == i && ColumnOf(x, y) == px && RowOf(x, y) == py
  {
    hide PassOf;
    var x, y := StartX(i) + px * StepX(i), StartY(i) + py * StepY(i);
    GridPoint(StartX(i), StepX(i), px);
    GridPoint(StartY(i), StepY(i), py);
    OnePass(x, y, i);
  }

  lemma GridPoint(start: nat, step: nat, p: nat)
    requires start < step
    ensures (start + p * step) % step == start && (start + p * step) / step == p
  {
    BitSequence.ModIs(start + p * step, step, p, start);
  }

  // Positions in the buffers, in bits.

  /** Offset of a cell in a grid stored row by row, with `unit` bits per cell. */
  function Offset(width: nat, unit: nat, column: nat, row: nat): (r: nat) {
    (row * width + column) * unit
  }

  /** First bit of a pixel in the image: rows follow each other without padding. */
  function FlatBit(w: nat, bpp: nat, x: nat, y: nat): nat {
    Offset(w, bpp, x, y)
  }

  /** First byte of a pass: each pass starts at a byte. */
  function PassStart(i: nat, w: nat, h: nat, bpp: nat): (r: nat)
    requires i <= PASSES
  {
    if i == 0 then 0
    else PassStart(i - 1, w, h, bpp) + (Offset(PassWidth(i - 1, w), bpp, 0, PassHeight(i - 1, h)) + 7) / 8
  }

  /** First bit of a pixel in the interlaced buffer. */
  function PassBit(w: nat, h: nat, bpp: nat, x: nat, y: nat): nat {
    var i := PassOf(x, y);
    8 * PassStart(i, w, h, bpp) + Offset(PassWidth(i, w), bpp, ColumnOf(x, y), RowOf(x, y))
  }

  /** Numbering the cells of a grid row by row gives every cell its own number. */
  lemma CellNumbers(w: nat, x: nat, y: nat, x': nat, y': nat)
    requires x < w && x' < w
    ensures y < y' ==> y * w + x < y' * w + x'
    ensures y * w + x == y' * w + x' <==> x == x' && y == y'
  {
    if y < y' {
      RowsApart(w, y, y');
    } else if y' < y {
      RowsApart(w, y', y);
    }
  }

  lemma RowsApart(w: nat, y: nat, y': nat)
    requires y < y'
    ensures y * w + w <= y' * w
    decreases y'
  {
    assert y' * w == (y' - 1) * w + w;
    if y + 1 < y' {
      RowsApart(w, y, y' - 1);
    }
  }

  lemma CellInGrid(w: nat, h: nat, x: nat, y: nat)
    requires x < w && y < h
    ensures y * w + x < h * w
  {
    RowsApart(w, y, h);
  }

  /** Different image pixels do not overlap. */
  lemma FlatApart(w: nat, bpp: nat, x: nat, y: nat, x': nat, y': nat)
    requires x < w && x' < w && (x, y) != (x', y')
    ensures FlatBit(w, bpp, x, y) + bpp <= FlatBit(w, bpp, x', y')
            || FlatBit(w, bpp, x', y') + bpp <= FlatBit(w, bpp, x, y)
  {
    CellNumbers(w, x, y, x', y');
    var a, b := y * w + x, y' * w + x';
    if a < b {
      RowsApart(bpp, a, b);
    } else {
      RowsApart(bpp, b, a);
    }
  }

  lemma FlatInside(w: nat, h: nat, bpp: nat, x: nat, y: nat)
    requires x < w && y < h
    ensures FlatBit(w, bpp, x, y) + bpp <= Offset(w, bpp, 0, h)
  {
    CellInGrid(w, h, x, y);
    RowsApart(bpp, y * w + x, h * w);
  }

  /** A pixel lies inside its pass. */
  lemma PixelInPass(w: nat, h: nat, x: nat, y: nat)
    requires x < w && y < h
    ensures ColumnOf(x, y) < PassWidth(PassOf(x, y), w) && RowOf(x, y) < PassHeight(PassOf(x, y), h)
  {
    hide PassOf, PassWidth, PassHeight, ColumnOf, RowOf, StartX, StartY, StepX, StepY;
    PlaceOf(x, y);
    ColumnInPass(PassOf(x, y), w, ColumnOf(x, y));
    RowInPass(PassOf(x, y), h, RowOf(x, y));
  }

  lemma {:induction false} PassStartMonotone(i: nat, j: nat, w: nat, h: nat, bpp: nat)
    requires i <= j <= PASSES
    ensures PassStart(i, w, h, bpp) <= PassStart(j, w, h, bpp)
    decreases j
  {
    hide PassWidth, PassHeight;
    if i < j {
      PassStartMonotone(i, j - 1, w, h, bpp);
    }
  }

  /** A pixel's bits lie within its pass. */
  lemma PassInside(w: nat, h: nat, bpp: nat, x: nat, y: nat)
    requires x < w && y < h
    ensures var i := PassOf(x, y);
            && 8 * PassStart(i, w, h, bpp) <= PassBit(w, h, bpp, x, y)
            && PassBit(w, h, bpp, x, y) + bpp
               <= 8 * PassStart(i, w, h, bpp) + Offset(PassWidth(i, w), bpp, 0, PassHeight(i, h))
            && PassBit(w, h, bpp, x, y) + bpp <= 8 * PassStart(i + 1, w, h, bpp)
  {
    hide PassOf, PassWidth, PassHeight, ColumnOf, RowOf;
    var i := PassOf(x, y);
    PixelInPass(w, h, x, y);
    CellInGrid(PassWidth(i, w), PassHeight(i, h), ColumnOf(x, y), RowOf(x, y));
    RowsApart(bpp, RowOf(x, y) * PassWidth(i, w) + ColumnOf(x, y), PassHeight(i, h) * PassWidth(i, w));
  }

  /** Different pixels do not overlap in the interlaced buffer. */
  lemma PassApart(w: nat, h: nat, bpp: nat, x: nat, y: nat, x': nat, y': nat)
    requires x < w && x' < w && y < h && y' < h && (x, y) != (x', y')
    ensures PassBit(w, h, bpp, x, y) + bpp <= PassBit(w, h, bpp, x', y')
            || PassBit(w, h, bpp, x', y') + bpp <= PassBit(w, h, bpp, x, y)
  {
    hide PassOf, PassWidth, PassHeight, ColumnOf, RowOf, PassStart;
    var i, j := PassOf(x, y), PassOf(x', y');
    PassInside(w, h, bpp, x, y);
    PassInside(w, h, bpp, x', y');
    if i < j {
      PassStartMonotone(i + 1, j, w, h, bpp);
    } else if j < i {
      PassStartMonotone(j + 1, i, w, h, bpp);
    } else {
      SamePassApart(w, h, bpp, x, y, x', y');
    }
  }

  lemma SamePassApart(w: nat, h: nat, bpp: nat, x: nat, y: nat, x': nat, y': nat)
    requires x < w && x' < w && y < h && y' < h && (x, y) != (x', y') && PassOf(x, y) == PassOf(x', y')
    ensures PassBit(w, h, bpp, x, y) + bpp <= PassBit(w, h, bpp, x', y')
            || PassBit(w, h, bpp, x', y') + bpp <= PassBit(w, h, bpp, x, y)
  {
    hide PassOf, PassWidth, PassHeight, ColumnOf, RowOf, PassStart;
    var i := PassOf(x, y);
    PixelInPass(w, h, x, y);
    PixelInPass(w, h, x', y');
    PlaceOf(x, y);
    PlaceOf(x', y');
    CellNumbers(PassWidth(i, w), ColumnOf(x, y), RowOf(x, y), ColumnOf(x', y'), RowOf(x', y'));
    var a, b := RowOf(x, y) * PassWidth(i, w) + ColumnOf(x, y), RowOf(x', y') * PassWidth(i, w) + ColumnOf(x', y');
    if a < b {
      RowsApart(bpp, a, b);
    } else {
      RowsApart(bpp, b, a);
    }
  }

  // Sizes of the filtered passes.

  /** Bytes of a row of w pixels. */
  function LineBytes(w: nat, bpp: nat): (r: nat) {
    (w * bpp + 7) / 8
  }

  /** First byte of a pass with a filter-type byte before every row; an empty pass takes nothing. */
  function FilterStart(i: nat, w: nat, h: nat, bpp: nat): (r: nat)
    requires i <= PASSES
  {
    if i == 0 then 0
    else FilterStart(i - 1, w, h, bpp) + FilteredSize(PassWidth(i - 1, w), PassHeight(i - 1, h), bpp)
  }

  function FilteredSize(pw: nat, ph: nat, bpp: nat): (r: nat) {
    if pw == 0 || ph == 0 then 0 else Product(ph, 1 + LineBytes(pw, bpp))
  }

  /** The same without the filter-type bytes. */
  function PaddedStart(i: nat, w: nat, h: nat, bpp: nat): (r: nat)
    requires i <= PASSES
  {
    if i == 0 then 0
    else PaddedStart(i - 1, w, h, bpp) + PaddedSize(PassWidth(i - 1, w), PassHeight(i - 1, h), bpp)
  }

  function PaddedSize(pw: nat, ph: nat, bpp: nat): (r: nat) {
    if pw == 0 || ph == 0 then 0 else Product(ph, LineBytes(pw, bpp))
  }

  /** An empty pass is empty whatever its other side. */
  lemma EmptyOffset(bpp: nat, pw: nat, ph: nat)
    ensures pw == 0 || ph == 0 ==> Offset(pw, bpp, 0, ph) == 0
    ensures Offset(0, bpp, 0, 0) == 0
  {
  }

  // The pattern of section 2.6 of RFC 2083.

  const PATTERN: seq<seq<nat>> :=
    [[1, 6, 4, 6, 2, 6, 4, 6],
     [7, 7, 7, 7, 7, 7, 7, 7],
     [5, 6, 5, 6, 5, 6, 5, 6],
     [7, 7, 7, 7, 7, 7, 7, 7],
     [3, 6, 4, 6, 3, 6, 4, 6],
     [7, 7, 7, 7, 7, 7, 7, 7],
     [5, 6, 5, 6, 5, 6, 5, 6],
     [7, 7, 7, 7, 7, 7, 7, 7]]

  /** Passes, counted from 1, repeat that pattern of eight by eight pixels. */
  lemma PassPattern(x: nat, y: nat)
    ensures PassOf(x, y) + 1 == PATTERN[y % 8][x % 8]
  {
    Remainders(x);
    Remainders(y);
  }

  /** Pixels follow each other row by row, in the image and in every pass, and a pass ends at the next byte boundary. */
  lemma LayoutOrder(w: nat, h: nat, bpp: nat, i: nat, x: nat, y: nat)
    requires i < PASSES
    ensures FlatBit(w, bpp, 0, 0) == 0 && FlatBit(w, bpp, x + 1, y) == FlatBit(w, bpp, x, y) + bpp
    ensures FlatBit(w, bpp, 0, y + 1) == FlatBit(w, bpp, 0, y) + w * bpp
    ensures PassBit(w, h, bpp, StartX(i), StartY(i)) == 8 * PassStart(i, w, h, bpp)
    ensures PassBit(w, h, bpp, StartX(i) + x * StepX(i), StartY(i) + y * StepY(i))
            == 8 * PassStart(i, w, h, bpp) + FlatBit(PassWidth(i, w), bpp, x, y)
    ensures var bits := FlatBit(PassWidth(i, w), bpp, 0, PassHeight(i, h));
            0 <= 8 * (PassStart(i + 1, w, h, bpp) - PassStart(i, w, h, bpp)) - bits < 8
  {
    hide PassOf, PassWidth, PassHeight, ColumnOf, RowOf, StartX, StartY, StepX, StepY;
    PixelOf(i, x, y);
    PixelOf(i, 0, 0);
    NextCell(w, bpp, x, y);
  }

  lemma NextCell(w: nat, bpp: nat, x: nat, y: nat)
    ensures Offset(w, bpp, x + 1, y) == Offset(w, bpp, x, y) + bpp
    ensures Offset(w, bpp, 0, y + 1) == Offset(w, bpp, 0, y) + w * bpp
  {
    Distribute(y * w + x, 1, bpp);
    Distribute(y, 1, w);
    Distribute(y * w, w, bpp);
  }
}
