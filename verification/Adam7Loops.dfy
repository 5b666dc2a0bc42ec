/**
 Moving pixels between an image and its seven passes, bit by bit for small pixels and
 byte by byte for the others. Bits are numbered from the most significant of each byte.
 */
module Adam7Loops {
  import opened Arithmetic
  import opened Adam7
  import opened Adam7Tables
  import opened ByteBits

  /** Bit k of a stream of bytes. */
  function Bit(buffer: seq<bv8>, k: nat): (b: bool)
    requires k < 8 * |buffer|
  {
    TestBit(buffer[k / 8], 7 - k % 8)
  }

  /** The first bit of a byte is its highest. */
  lemma HighestBitFirst(buffer: seq<bv8>, k: nat)
    requires k < 8 * |buffer|
    ensures Bit(buffer, k) <==> (buffer[k / 8] << ((k % 8) as bv3)) >= 128
  {
  }

  /** `out` is `was` with n bits of `inp` from `ib` on written at `ob`. */
  ghost predicate Copied(out: seq<bv8>, was: seq<bv8>, ob: nat, inp: seq<bv8>, ib: nat, n: nat) {
    && |out| == |was| && ob + n <= 8 * |out| && ib + n <= 8 * |inp|
    && forall k: nat {:trigger Bit(out, k)} ::
         k < 8 * |out| ==> Bit(out, k) == if ob <= k < ob + n then Bit(inp, ib + (k - ob)) else Bit(was, k)
  }

  method SetBit(out: array<bv8>, bp: nat, value: bool)
    requires bp < 8 * out.Length
    modifies out
    ensures forall k: nat {:trigger Bit(out[..], k)} ::
              k < 8 * out.Length ==> Bit(out[..], k) == if k == bp then value else Bit(old(out[..]), k)
  {
    hide TestBit, WithBit;
    var at, offset := bp / 8, 7 - bp % 8;
    ghost var was := out[..];
    out[at] := WithBit(out[at], offset, value);
    forall k: nat | k < 8 * out.Length
      ensures Bit(out[..], k) == if k == bp then value else Bit(was, k)
    {
      TestWithBit(was[at], offset, 7 - k % 8, value);
    }
  }

  method CopyBits(out: array<bv8>, ob: nat, inp: array<bv8>, ib: nat, n: nat)
    requires out != inp && ob + n <= 8 * out.Length && ib + n <= 8 * inp.Length
    modifies out
    ensures Copied(out[..], old(out[..]), ob, inp[..], ib, n)
  {
    hide Bit;
    var b := 0;
    while b < n
      invariant b <= n && Copied(out[..], old(out[..]), ob, inp[..], ib, b)
    {
      var bit := Bit(inp[..], ib + b);
      SetBit(out, ob + b, bit);
      b := b + 1;
    }
  }

  method CopyBytes(out: array<bv8>, o: nat, inp: array<bv8>, i: nat, n: nat)
    requires out != inp && o + n <= out.Length && i + n <= inp.Length
    modifies out
    ensures Copied(out[..], old(out[..]), 8 * o, inp[..], 8 * i, 8 * n)
  {
    hide TestBit;
    ghost var was := out[..];
    var b := 0;
    while b < n
      invariant b <= n
      invariant forall k :: 0 <= k < out.Length ==> out[k] == if o <= k < o + b then inp[i + (k - o)] else was[k]
    {
      out[o + b] := inp[i + b];
      b := b + 1;
    }
    forall k: nat | k < 8 * out.Length
      ensures Bit(out[..], k) == if 8 * o <= k < 8 * o + 8 * n then Bit(inp[..], 8 * i + (k - 8 * o)) else Bit(was, k)
    {
      if 8 * o <= k < 8 * o + 8 * n {
        var j := 8 * i + (k - 8 * o);
        assert j / 8 == i + (k / 8 - o) && j % 8 == k % 8;
      }
    }
  }

  /** An image and a direction: into passes, or back. */
  datatype Job = Job(w: nat, h: nat, bpp: nat, interlace: bool)

  function Target(j: Job, x: nat, y: nat): nat {
    if j.interlace then PassBit(j.w, j.h, j.bpp, x, y) else FlatBit(j.w, j.bpp, x, y)
  }

  function Source(j: Job, x: nat, y: nat): nat {
    if j.interlace then FlatBit(j.w, j.bpp, x, y) else PassBit(j.w, j.h, j.bpp, x, y)
  }

  /** Where a pixel comes in the order of the passes. */
  function Order(j: Job, x: nat, y: nat): nat {
    PassBit(j.w, j.h, j.bpp, x, y)
  }

  /** Pixel (x, y) of `out` is the pixel of `inp`. */
  ghost predicate SamePixel(out: seq<bv8>, ob: nat, inp: seq<bv8>, ib: nat, n: nat) {
    && ob + n <= 8 * |out| && ib + n <= 8 * |inp|
    && forall k: nat {:trigger Bit(out, k)} :: ob <= k < ob + n ==> Bit(out, k) == Bit(inp, ib + (k - ob))
  }

  /** Every pixel that comes before `cur` has been moved. */
  ghost predicate MovedBefore(j: Job, out: seq<bv8>, inp: seq<bv8>, cur: nat) {
    forall x: nat, y: nat {:trigger Order(j, x, y)} :: x < j.w && y < j.h && Order(j, x, y) < cur ==>
      SamePixel(out, Target(j, x, y), inp, Source(j, x, y), j.bpp)
  }

  ghost predicate AllMoved(j: Job, out: seq<bv8>, inp: seq<bv8>) {
    forall x: nat, y: nat {:trigger Order(j, x, y)} :: x < j.w && y < j.h ==>
      SamePixel(out, Target(j, x, y), inp, Source(j, x, y), j.bpp)
  }

  /** The buffers are large enough. */
  ghost predicate Fits(j: Job, out: seq<bv8>, inp: seq<bv8>) {
    && Depth(j.bpp)
    && (var flat, passes := Offset(j.w, j.bpp, 0, j.h), 8 * PassStart(7, j.w, j.h, j.bpp);
        if j.interlace then flat <= 8 * |inp| && passes <= 8 * |out| else flat <= 8 * |out| && passes <= 8 * |inp|)
  }

  lemma PixelsFit(j: Job, out: seq<bv8>, inp: seq<bv8>, x: nat, y: nat)
    requires Fits(j, out, inp) && x < j.w && y < j.h
    ensures Target(j, x, y) + j.bpp <= 8 * |out| && Source(j, x, y) + j.bpp <= 8 * |inp|
  {
    hide PassBit, FlatBit, PassStart, Offset, PassOf, PassWidth, PassHeight;
    FlatInside(j.w, j.h, j.bpp, x, y);
    PassInside(j.w, j.h, j.bpp, x, y);
    PassStartMonotone(PassOf(x, y) + 1, 7, j.w, j.h, j.bpp);
  }

  /** Different pixels have disjoint targets. */
  lemma TargetsApart(j: Job, x: nat, y: nat, x': nat, y': nat)
    requires x < j.w && x' < j.w && y < j.h && y' < j.h && (x, y) != (x', y')
    ensures Target(j, x, y) + j.bpp <= Target(j, x', y') || Target(j, x', y') + j.bpp <= Target(j, x, y)
    ensures Order(j, x, y) + j.bpp <= Order(j, x', y') || Order(j, x', y') + j.bpp <= Order(j, x, y)
  {
    hide PassBit, FlatBit;
    FlatApart(j.w, j.bpp, x, y, x', y');
    PassApart(j.w, j.h, j.bpp, x, y, x', y');
  }

  lemma SamePixelFrame(out: seq<bv8>, was: seq<bv8>, inp: seq<bv8>, ob: nat, ib: nat, ob': nat, ib': nat, n: nat)
    requires Copied(out, was, ob, inp, ib, n) && SamePixel(was, ob', inp, ib', n) && (ob + n <= ob' || ob' + n <= ob)
    ensures SamePixel(out, ob', inp, ib', n)
  {
    hide Bit;
    forall k: nat | ob' <= k < ob' + n
      ensures Bit(out, k) == Bit(inp, ib' + (k - ob'))
    {
      assert Bit(was, k) == Bit(inp, ib' + (k - ob'));
    }
  }

  lemma CopiedPixel(out: seq<bv8>, was: seq<bv8>, inp: seq<bv8>, ob: nat, ib: nat, n: nat)
    requires Copied(out, was, ob, inp, ib, n)
    ensures SamePixel(out, ob, inp, ib, n)
  {
    hide Bit;
  }

  /** Moving the next pixel keeps the ones before it. */
  lemma MoveNext(j: Job, out: seq<bv8>, was: seq<bv8>, inp: seq<bv8>, x: nat, y: nat)
    requires x < j.w && y < j.h && MovedBefore(j, was, inp, Order(j, x, y))
    requires Copied(out, was, Target(j, x, y), inp, Source(j, x, y), j.bpp)
    ensures MovedBefore(j, out, inp, Order(j, x, y) + j.bpp)
  {
    hide Order, Target, Source, Copied, SamePixel;
    forall x': nat, y': nat | x' < j.w && y' < j.h && Order(j, x', y') < Order(j, x, y) + j.bpp
      ensures SamePixel(out, Target(j, x', y'), inp, Source(j, x', y'), j.bpp)
    {
      if (x', y') == (x, y) {
        CopiedPixel(out, was, inp, Target(j, x, y), Source(j, x, y), j.bpp);
      } else {
        TargetsApart(j, x, y, x', y');
        SamePixelFrame(out, was, inp, Target(j, x, y), Source(j, x, y), Target(j, x', y'), Source(j, x', y'), j.bpp);
      }
    }
  }

  /** The order of the pixel at a place of a pass. */
  lemma OrderOfPlace(j: Job, i: nat, px: nat, py: nat)
    requires i < PASSES && px < PassWidth(i, j.w) && py < PassHeight(i, j.h)
    ensures var x, y := ImageColumn(i, px), ImageRow(i, py);
            && x < j.w && y < j.h
            && Order(j, x, y) == 8 * PassStart(i, j.w, j.h, j.bpp) + Offset(PassWidth(i, j.w), j.bpp, px, py)
  {
    hide PassOf, PassWidth, PassHeight, ColumnOf, RowOf, PassStart, Offset, StartX, StartY, StepX, StepY;
    ColumnInPass(i, j.w, px);
    RowInPass(i, j.h, py);
    PixelOf(i, px, py);
  }

  lemma NextOffset(pw: nat, unit: nat, x: nat, y: nat)
    ensures Offset(pw, unit, x, y) + unit == Offset(pw, unit, x + 1, y)
    ensures Offset(pw, unit, pw, y) == Offset(pw, unit, 0, y + 1)
    ensures Offset(pw, unit, 0, 0) == 0
  {
    assert (y * pw + x) * unit + unit == (y * pw + x + 1) * unit;
    assert y * pw + pw == (y + 1) * pw;
  }

  /** What comes before the end of a pass also comes before the start of the next. */
  lemma PassEnds(j: Job, out: seq<bv8>, inp: seq<bv8>, i: nat)
    requires i < PASSES && j.bpp > 0
    requires MovedBefore(j, out, inp, 8 * PassStart(i, j.w, j.h, j.bpp) +
                                      if PassWidth(i, j.w) == 0 then 0
                                      else Offset(PassWidth(i, j.w), j.bpp, 0, PassHeight(i, j.h)))
    ensures MovedBefore(j, out, inp, 8 * PassStart(i + 1, j.w, j.h, j.bpp))
  {
    hide PassOf, PassWidth, PassHeight, PassStart, Offset, PassBit, Target, Source, SamePixel, ColumnOf, RowOf;
    forall x: nat, y: nat | x < j.w && y < j.h && Order(j, x, y) < 8 * PassStart(i + 1, j.w, j.h, j.bpp)
      ensures SamePixel(out, Target(j, x, y), inp, Source(j, x, y), j.bpp)
    {
      var k := PassOf(x, y);
      PassInside(j.w, j.h, j.bpp, x, y);
      PixelInPass(j.w, j.h, x, y);
      if k > i {
        PassStartMonotone(i + 1, k, j.w, j.h, j.bpp);
      } else if k < i {
        PassStartMonotone(k + 1, i, j.w, j.h, j.bpp);
      }
    }
  }

  /** The image column and row of a column and row of pass i. */
  function ImageColumn(i: nat, px: nat): (x: nat) {
    StartX(i) + px * StepX(i)
  }

  function ImageRow(i: nat, py: nat): (y: nat) {
    StartY(i) + py * StepY(i)
  }

  // The addresses as the code computes them. Sums of products are unsigned 32-bit numbers
  // within a pass, and within the image when interlacing; only then are they scaled or added.

  function PassByte32(start: nat, pw: nat, px: nat, py: nat, bytewidth: nat): (r: nat) {
    start + Wrap(py * pw + px) * bytewidth
  }

  function PassBit32(start: nat, pw: nat, px: nat, py: nat, bpp: nat): (r: nat) {
    var line := Wrap(bpp * pw);
    8 * start + Wrap(py * line + px * bpp)
  }

  function ImageByte32(j: Job, x: nat, y: nat, bytewidth: nat): (r: nat) {
    var pixel := y * j.w + x;
    (if j.interlace then Wrap(pixel) else pixel) * bytewidth
  }

  function ImageBit32(j: Job, x: nat, y: nat): (r: nat) {
    var line := Wrap(j.bpp * j.w);
    var bit := y * line + x * j.bpp;
    if j.interlace then Wrap(bit) else bit
  }

  /** The bit at which the code finds the pixel in column px and row py of a pass. */
  function InPass32(j: Job, start: nat, pw: nat, px: nat, py: nat): (r: nat) {
    if j.bpp >= 8 then 8 * PassByte32(start, pw, px, py, j.bpp / 8) else PassBit32(start, pw, px, py, j.bpp)
  }

  /** The bit at which the code finds pixel (x, y) of the image. */
  function InImage32(j: Job, x: nat, y: nat): (r: nat) {
    if j.bpp >= 8 then 8 * ImageByte32(j, x, y, j.bpp / 8) else ImageBit32(j, x, y)
  }

  /** Pixels are bytes or smaller than bytes. */
  ghost predicate Depth(bpp: nat) {
    bpp > 0 && (bpp >= 8 ==> bpp % 8 == 0)
  }

  /** What a caller can check: no pass wraps nor, when interlacing small pixels, the image. */
  ghost predicate NoWrap(j: Job) {
    && j.w < WORD32 && j.h < WORD32 && PassesFit(PASSES, j.w, j.h, j.bpp)
    && (j.interlace && j.bpp < 8 ==> Offset(j.w, j.bpp, 0, j.h) < WORD32 + j.bpp)
  }

  /** The code's offsets and addresses are those of the layout. */
  ghost predicate Addresses(j: Job) {
    && Pass32(PASSES, j.w, j.h, j.bpp) == PassStart(PASSES, j.w, j.h, j.bpp)
    && forall x: nat, y: nat {:trigger Order(j, x, y)} :: x < j.w && y < j.h ==> AddressesOf(j, x, y)
  }

  ghost predicate AddressesOf(j: Job, x: nat, y: nat) {
    var i := PassOf(x, y);
    && InPass32(j, Pass32(i, j.w, j.h, j.bpp), Columns(i, j.w), ColumnOf(x, y), RowOf(x, y))
       == PassBit(j.w, j.h, j.bpp, x, y)
    && InImage32(j, x, y) == FlatBit(j.w, j.bpp, x, y)
  }

  lemma EightUnits(width: nat, bpp: nat, column: nat, row: nat)
    requires bpp % 8 == 0
    ensures 8 * ((row * width + column) * (bpp / 8)) == Offset(width, bpp, column, row)
  {
    var n, b := row * width + column, bpp / 8;
    assert n * (8 * b) == 8 * (n * b);
  }

  lemma LineBits(width: nat, bpp: nat, column: nat, row: nat)
    ensures row * (bpp * width) + column * bpp == Offset(width, bpp, column, row)
  {
    assert row * (bpp * width) == (row * width) * bpp;
    assert (row * width + column) * bpp == (row * width) * bpp + column * bpp;
  }

  /** In a grid that does not wrap, neither do the numbers of its cells. */
  lemma GridFits(width: nat, height: nat, bpp: nat, column: nat, row: nat)
    requires column < width && row < height && bpp > 0
    ensures row * width + column < height * width <= Offset(width, bpp, 0, height)
    ensures bpp * width <= Offset(width, bpp, 0, height)
    ensures Offset(width, bpp, column, row) + bpp <= Offset(width, bpp, 0, height)
  {
    CellInGrid(width, height, column, row);
    FlatInside(width, height, bpp, column, row);
    MulMonotone(1, bpp, height * width);
    MulMonotone(1, height, width);
    MulMonotone(width, height * width, bpp);
  }

  /** Inside a pass that does not wrap the code finds the pixel at its place. */
  lemma InPassIs(j: Job, start: nat, pw: nat, ph: nat, px: nat, py: nat)
    requires Depth(j.bpp) && px < pw && py < ph && Offset(pw, j.bpp, 0, ph) + 7 < WORD32
    ensures InPass32(j, start, pw, px, py) == 8 * start + Offset(pw, j.bpp, px, py)
  {
    hide Wrap, Offset;
    GridFits(pw, ph, j.bpp, px, py);
    WrapIs(py * pw + px);
    WrapIs(j.bpp * pw);
    LineBits(pw, j.bpp, px, py);
    WrapIs(Offset(pw, j.bpp, px, py));
    if j.bpp >= 8 {
      EightUnits(pw, j.bpp, px, py);
    }
  }

  /** The image when its last pass does not wrap. */
  lemma ImageBound(j: Job)
    requires Depth(j.bpp) && j.w < WORD32 && j.h < WORD32 && PassFits(6, j.w, j.h, j.bpp) && j.w > 0
    ensures j.h >= 2 ==> j.bpp * j.w < WORD32
    ensures j.bpp >= 8 ==> j.h * j.w < WORD32
  {
    hide Offset, Wrap;
    assert PassWidth(6, j.w) == j.w && PassHeight(6, j.h) == j.h / 2;
    if j.h >= 2 {
      HalfImage(j.w, j.h, j.bpp);
    } else {
      MulMonotone(j.h, 1, j.w);
    }
  }

  lemma HalfImage(w: nat, h: nat, bpp: nat)
    requires w > 0 && h >= 2 && bpp > 0 && Offset(w, bpp, 0, h / 2) + 7 < WORD32
    ensures bpp * w < WORD32 && (bpp >= 8 ==> h * w < WORD32)
  {
    hide Offset;
    var half := h / 2;
    GridFits(w, half, bpp, 0, 0);
    if bpp >= 8 {
      EightBits(w, half, bpp);
      ThreeHalves(w, h, half);
    }
  }

  lemma EightBits(w: nat, half: nat, bpp: nat)
    requires bpp >= 8
    ensures 8 * (half * w) <= Offset(w, bpp, 0, half)
  {
    MulMonotone(8, bpp, half * w);
  }

  lemma ThreeHalves(w: nat, h: nat, half: nat)
    requires h <= 3 * half
    ensures h * w <= 3 * (half * w)
  {
    MulMonotone(h, 3 * half, w);
    assert 3 * half * w == 3 * (half * w);
  }

  lemma InImageIs(j: Job, x: nat, y: nat)
    requires Depth(j.bpp) && NoWrap(j) && x < j.w && y < j.h
    ensures InImage32(j, x, y) == FlatBit(j.w, j.bpp, x, y)
  {
    hide Wrap, Offset, PassFits, ImageByte32, ImageBit32;
    assert PassFits(6, j.w, j.h, j.bpp);
    ImageBound(j);
    GridFits(j.w, j.h, j.bpp, x, y);
    if j.bpp >= 8 {
      ByteInImage(j, x, y);
    } else {
      BitInImage(j, x, y);
    }
  }

  lemma ByteInImage(j: Job, x: nat, y: nat)
    requires j.bpp % 8 == 0 && y * j.w + x < WORD32
    ensures 8 * ImageByte32(j, x, y, j.bpp / 8) == Offset(j.w, j.bpp, x, y)
  {
    hide Wrap, Offset;
    WrapIs(y * j.w + x);
    EightUnits(j.w, j.bpp, x, y);
  }

  lemma BitInImage(j: Job, x: nat, y: nat)
    requires y < j.h && (j.h >= 2 ==> j.bpp * j.w < WORD32)
    requires j.interlace ==> Offset(j.w, j.bpp, x, y) < WORD32
    ensures ImageBit32(j, x, y) == Offset(j.w, j.bpp, x, y)
  {
    hide Wrap, Offset;
    ImageLine(j, y);
    LineBits(j.w, j.bpp, x, y);
    WrapIs(Offset(j.w, j.bpp, x, y));
  }

  /** A line that wraps is only that of an image of one row, which needs no line. */
  lemma ImageLine(j: Job, y: nat)
    requires y < j.h && (j.h >= 2 ==> j.bpp * j.w < WORD32)
    ensures y * Wrap(j.bpp * j.w) == y * (j.bpp * j.w)
  {
    hide Wrap;
    WrapIs(j.bpp * j.w);
  }

  /** The code addresses all pixels as the layout does exactly when nothing wraps. */
  lemma AddressesIff(j: Job)
    requires Depth(j.bpp) && j.w < WORD32 && j.h < WORD32
    ensures Addresses(j) <==> NoWrap(j)
  {
    hide Pass32, PassStart, PassFits, AddressesOf, Offset;
    TablesAre(PASSES, j.w, j.h, j.bpp);
    if NoWrap(j) {
      forall x: nat, y: nat | x < j.w && y < j.h
        ensures AddressesOf(j, x, y)
      {
        PixelAddresses(j, x, y);
      }
    }
    if Addresses(j) && j.w > 0 && j.h > 0 && j.interlace {
      LastPixel(j);
    }
    EmptyImage(j);
  }

  lemma EmptyImage(j: Job)
    ensures j.w == 0 || j.h == 0 ==> Offset(j.w, j.bpp, 0, j.h) == 0
  {
    EmptyOffset(j.bpp, j.w, j.h);
  }

  lemma LastPixel(j: Job)
    requires Addresses(j) && j.w > 0 && j.h > 0 && j.bpp > 0 && j.interlace
    ensures j.bpp < 8 ==> Offset(j.w, j.bpp, 0, j.h) < WORD32 + j.bpp
  {
    hide Pass32, PassStart, PassBit, InPass32, Columns, Wrap, Offset, PassOf, ColumnOf, RowOf, ImageBit32;
    var x, y := j.w - 1, j.h - 1;
    assert Order(j, x, y) >= 0;
    assert AddressesOf(j, x, y);
    SmallBit(j, x, y);
    LastOffset(j.w, j.h, j.bpp);
  }

  lemma SmallBit(j: Job, x: nat, y: nat)
    requires j.interlace
    ensures ImageBit32(j, x, y) < WORD32
  {
    hide Wrap;
    WrapIs(y * Wrap(j.bpp * j.w) + x * j.bpp);
  }

  lemma LastOffset(w: nat, h: nat, bpp: nat)
    requires w > 0 && h > 0
    ensures Offset(w, bpp, 0, h) == Offset(w, bpp, w - 1, h - 1) + bpp
  {
    assert h * w == (h - 1) * w + w;
    assert (h * w) * bpp == (h * w - 1) * bpp + bpp;
  }

  lemma PixelAddresses(j: Job, x: nat, y: nat)
    requires Depth(j.bpp) && NoWrap(j) && x < j.w && y < j.h
    ensures AddressesOf(j, x, y)
  {
    hide PassOf, PassWidth, PassHeight, ColumnOf, RowOf, PassStart, Pass32, Columns, Rows, Offset, InPass32, InImage32;
    var i := PassOf(x, y);
    PixelInPass(j.w, j.h, x, y);
    StartFits(j, i);
    assert PassFits(i, j.w, j.h, j.bpp);
    DimensionsAre(i, j.w, j.h);
    InPassIs(j, PassStart(i, j.w, j.h, j.bpp), PassWidth(i, j.w), PassHeight(i, j.h), ColumnOf(x, y), RowOf(x, y));
    InImageIs(j, x, y);
  }

  lemma StartFits(j: Job, i: nat)
    requires j.bpp > 0 && NoWrap(j) && i <= PASSES
    ensures Pass32(i, j.w, j.h, j.bpp) == PassStart(i, j.w, j.h, j.bpp)
  {
    hide PassFits;
    TablesAre(i, j.w, j.h, j.bpp);
  }

  /** Move one pixel between its place in pass i, which starts at byte `start`, and its place in the image. */
  method MovePixel(j: Job, out: array<bv8>, inp: array<bv8>, i: nat, start: nat, pw: nat, px: nat, py: nat)
    requires out != inp && Fits(j, out[..], inp[..]) && NoWrap(j) && i < PASSES && pw == PassWidth(i, j.w)
    requires px < pw && py < PassHeight(i, j.h) && start == PassStart(i, j.w, j.h, j.bpp)
    modifies out
    ensures var x, y := ImageColumn(i, px), ImageRow(i, py);
            Copied(out[..], old(out[..]), Target(j, x, y), inp[..], Source(j, x, y), j.bpp)
  {
    hide PassBit, FlatBit, PassWidth, PassHeight, PassStart, Copied, StartX, StartY, StepX, StepY, Order, NoWrap,
         Offset, PassByte32, PassBit32, ImageByte32, ImageBit32;
    var x, y := ImageColumn(i, px), ImageRow(i, py);
    OrderOfPlace(j, i, px, py);
    PixelsFit(j, out[..], inp[..], x, y);
    PlaceAddresses(j, i, start, pw, px, py);
    if j.bpp >= 8 {
      var bytewidth := j.bpp / 8;
      var inPass, inImage := PassByte32(start, pw, px, py, bytewidth), ImageByte32(j, x, y, bytewidth);
      if j.interlace {
        CopyBytes(out, inPass, inp, inImage, bytewidth);
      } else {
        CopyBytes(out, inImage, inp, inPass, bytewidth);
      }
    } else {
      var inPass, inImage := PassBit32(start, pw, px, py, j.bpp), ImageBit32(j, x, y);
      if j.interlace {
        CopyBits(out, inPass, inp, inImage, j.bpp);
      } else {
        CopyBits(out, inImage, inp, inPass, j.bpp);
      }
    }
  }

  lemma PlaceAddresses(j: Job, i: nat, start: nat, pw: nat, px: nat, py: nat)
    requires Depth(j.bpp) && NoWrap(j) && i < PASSES && pw == PassWidth(i, j.w)
    requires px < pw && py < PassHeight(i, j.h) && start == PassStart(i, j.w, j.h, j.bpp)
    ensures var x, y := ImageColumn(i, px), ImageRow(i, py);
            && InPass32(j, start, pw, px, py) == PassBit(j.w, j.h, j.bpp, x, y)
            && InImage32(j, x, y) == FlatBit(j.w, j.bpp, x, y)
  {
    hide PassOf, PassWidth, PassHeight, ColumnOf, RowOf, PassStart, Pass32, Columns, Rows, Offset, InPass32, InImage32,
         StartX, StartY, StepX, StepY;
    var x, y := ImageColumn(i, px), ImageRow(i, py);
    OrderOfPlace(j, i, px, py);
    PixelOf(i, px, py);
    assert PassFits(i, j.w, j.h, j.bpp);
    InPassIs(j, start, pw, PassHeight(i, j.h), px, py);
    InImageIs(j, x, y);
  }

  /** Move the pixels of pass i, row by row. */
  method MovePass(j: Job, out: array<bv8>, inp: array<bv8>, i: nat, start: nat, pw: nat, ph: nat)
    requires out != inp && Fits(j, out[..], inp[..]) && NoWrap(j) && i < PASSES && PassIs(pw, ph, i, j.w, j.h)
    requires start == PassStart(i, j.w, j.h, j.bpp) && MovedBefore(j, out[..], inp[..], 8 * start)
    modifies out
    ensures MovedBefore(j, out[..], inp[..], 8 * PassStart(i + 1, j.w, j.h, j.bpp))
  {
    hide PassWidth, PassHeight, PassStart, Offset, MovedBefore, Target, Source, Order, StartX, StartY, StepX, StepY,
         Copied;
    NextOffset(pw, j.bpp, 0, 0);
    var py := 0;
    while py < ph
      invariant py <= ph && Fits(j, out[..], inp[..])
      invariant MovedBefore(j, out[..], inp[..], 8 * start + Offset(pw, j.bpp, 0, py))
    {
      var px := 0;
      while px < pw
        invariant px <= pw && Fits(j, out[..], inp[..])
        invariant MovedBefore(j, out[..], inp[..], 8 * start + Offset(pw, j.bpp, px, py))
      {
        OrderOfPlace(j, i, px, py);
        ghost var was := out[..];
        MovePixel(j, out, inp, i, start, pw, px, py);
        MoveNext(j, out[..], was, inp[..], ImageColumn(i, px), ImageRow(i, py));
        NextOffset(pw, j.bpp, px, py);
        px := px + 1;
      }
      NextOffset(pw, j.bpp, px, py);
      py := py + 1;
    }
    EmptyOffset(j.bpp, PassWidth(i, j.w), PassHeight(i, j.h));
    PassEnds(j, out[..], inp[..], i);
  }

  /** All seven passes, in either direction. */
  method Move(j: Job, out: array<bv8>, inp: array<bv8>)
    requires out != inp && Fits(j, out[..], inp[..]) && NoWrap(j)
    modifies out
    ensures AllMoved(j, out[..], inp[..])
  {
    hide PassStart, PassIs, PassWidth, PassHeight, Offset, SamePixel, Target, Source, PaddedStart, FilterStart, Side,
         Filter32, Padded32, Pass32, Columns, Rows, FiltersFit, PaddedsFit, PassFits;
    var passw, passh, filterStart, paddedStart, passStart := GetPassValues(j.w, j.h, j.bpp);
    NothingBefore(j, out[..], inp[..]);
    var i := 0;
    while i != 7
      invariant 0 <= i <= 7 && Fits(j, out[..], inp[..])
      invariant MovedBefore(j, out[..], inp[..], 8 * PassStart(i, j.w, j.h, j.bpp))
    {
      StartFits(j, i);
      assert PassFits(i, j.w, j.h, j.bpp);
      FittingSizes(i, j.w, j.h, j.bpp);
      MovePass(j, out, inp, i, passStart[i], passw[i], passh[i]);
      i := i + 1;
    }
    AllBefore(j, out[..], inp[..]);
  }

  lemma AllBefore(j: Job, out: seq<bv8>, inp: seq<bv8>)
    requires j.bpp > 0 && MovedBefore(j, out, inp, 8 * PassStart(7, j.w, j.h, j.bpp))
    ensures AllMoved(j, out, inp)
  {
    hide PassStart, PassBit, PassOf, PassWidth, PassHeight, Offset, SamePixel, Target, Source;
    forall x: nat, y: nat | x < j.w && y < j.h
      ensures SamePixel(out, Target(j, x, y), inp, Source(j, x, y), j.bpp)
    {
      PassInside(j.w, j.h, j.bpp, x, y);
      PassStartMonotone(PassOf(x, y) + 1, 7, j.w, j.h, j.bpp);
      assert Order(j, x, y) < 8 * PassStart(7, j.w, j.h, j.bpp);
    }
  }

  lemma NothingBefore(j: Job, out: seq<bv8>, inp: seq<bv8>)
    ensures MovedBefore(j, out, inp, 8 * PassStart(0, j.w, j.h, j.bpp))
  {
  }

  /** Reorder an image into its passes. */
  method Interlace(out: array<bv8>, inp: array<bv8>, w: nat, h: nat, bpp: nat)
    requires out != inp && Fits(Job(w, h, bpp, true), out[..], inp[..]) && NoWrap(Job(w, h, bpp, true))
    modifies out
    ensures AllMoved(Job(w, h, bpp, true), out[..], inp[..])
  {
    Move(Job(w, h, bpp, true), out, inp);
  }

  /** Reorder passes into the image. */
  method Deinterlace(out: array<bv8>, inp: array<bv8>, w: nat, h: nat, bpp: nat)
    requires out != inp && Fits(Job(w, h, bpp, false), out[..], inp[..]) && NoWrap(Job(w, h, bpp, false))
    modifies out
    ensures AllMoved(Job(w, h, bpp, false), out[..], inp[..])
  {
    Move(Job(w, h, bpp, false), out, inp);
  }

  /** Interlacing and then deinterlacing gives every bit of the image back. */
  lemma RoundTrip(w: nat, h: nat, bpp: nat, image: seq<bv8>, passes: seq<bv8>, result: seq<bv8>, k: nat)
    requires bpp > 0 && k < Offset(w, bpp, 0, h)
    requires AllMoved(Job(w, h, bpp, true), passes, image) && AllMoved(Job(w, h, bpp, false), result, passes)
    ensures k < 8 * |image| && k < 8 * |result| && Bit(result, k) == Bit(image, k)
  {
    hide PassBit, Bit, Order;
    var x, y := PixelAt(w, h, bpp, k);
    var there, back := Job(w, h, bpp, true), Job(w, h, bpp, false);
    assert Order(there, x, y) == Order(back, x, y) by {
      SameOrder(there, back, x, y);
    }
    var flat, pass := FlatBit(w, bpp, x, y), PassBit(w, h, bpp, x, y);
    assert SamePixel(passes, pass, image, flat, bpp) && SamePixel(result, flat, passes, pass, bpp);
    assert Bit(result, k) == Bit(passes, pass + (k - flat));
    assert Bit(passes, pass + (k - flat)) == Bit(image, flat + (pass + (k - flat) - pass));
  }

  /** An image through the passes, in a buffer of the size the table gives, and back. */
  method InterlaceThenDeinterlace(image: array<bv8>, w: nat, h: nat, bpp: nat) returns (result: array<bv8>)
    requires Depth(bpp) && NoWrap(Job(w, h, bpp, true)) && Offset(w, bpp, 0, h) <= 8 * image.Length
    ensures fresh(result) && image[..] == old(image[..]) && Offset(w, bpp, 0, h) <= 8 * result.Length
    ensures forall k: nat {:trigger Bit(result[..], k)} :: k < Offset(w, bpp, 0, h) ==>
              Bit(result[..], k) == Bit(image[..], k)
  {
    hide Offset, PassStart, PassesFit, AllMoved, Bit, Pass32, Filter32, Padded32, FilterStart, PaddedStart, FiltersFit,
         PaddedsFit, SizesAre;
    var passw, passh, filterStart, paddedStart, passStart := GetPassValues(w, h, bpp);
    var passes := new bv8[passStart[7]](_ => 0);
    result := new bv8[(Offset(w, bpp, 0, h) + 7) / 8](_ => 0);
    Interlace(passes, image, w, h, bpp);
    Deinterlace(result, passes, w, h, bpp);
    forall k: nat | k < Offset(w, bpp, 0, h)
      ensures k < 8 * result.Length && Bit(result[..], k) == Bit(image[..], k)
    {
      RoundTrip(w, h, bpp, image[..], passes[..], result[..], k);
    }
  }

  // Images that the loops spoil.

  /** Two passes of a square image of 2 GiB start at the same bit, so their first pixels share one place. */
  lemma SquareImageOverlaps(interlace: bool)
    ensures var j := Job(0x4000, 0x4000, 64, interlace);
            && !NoWrap(j) && PassOf(1, 0) == 5 && PassOf(0, 1) == 6
            && InPass32(j, Pass32(5, j.w, j.h, j.bpp), Columns(5, j.w), 0, 0)
               == InPass32(j, Pass32(6, j.w, j.h, j.bpp), Columns(6, j.w), 0, 0)
  {
    hide Pass32, Columns, Rows;
    SquareImageWraps();
    var j := Job(0x4000, 0x4000, 64, interlace);
    assert !PassFits(5, j.w, j.h, j.bpp);
  }

  /** Interlacing a tall image of single bits reads its first row again for the row behind bit 2^32. */
  lemma TallImageRepeats()
    ensures var j := Job(0x1_0000, 0x1_0001, 1, true);
            PassesFit(PASSES, j.w, j.h, j.bpp) && !NoWrap(j) && ImageBit32(j, 0, 0x1_0000) == ImageBit32(j, 0, 0)
  {
    hide PassFits, ImageBit32;
    forall k | 0 <= k < PASSES
      ensures PassFits(k, 0x1_0000, 0x1_0001, 1)
    {
      TallPassFits(k);
    }
    TallAddress();
  }

  lemma TallPassFits(i: nat)
    requires i < PASSES
    ensures PassFits(i, 0x1_0000, 0x1_0001, 1)
  {
    hide Offset;
    var pw, ph := PassWidth(i, 0x1_0000), PassHeight(i, 0x1_0001);
    assert pw <= 0x1_0000 && ph <= 0x8001;
    MulMonotone(pw, 0x1_0000, ph);
    assert Offset(pw, 1, 0, ph) <= 0x8001_0000 by {
      OneBitPixels(pw, ph);
    }
  }

  lemma OneBitPixels(pw: nat, ph: nat)
    ensures Offset(pw, 1, 0, ph) == pw * ph
  {
  }

  lemma TallAddress()
    ensures var j := Job(0x1_0000, 0x1_0001, 1, true); ImageBit32(j, 0, 0x1_0000) == ImageBit32(j, 0, 0) == 0
  {
    hide Wrap;
    WrapIs(0x1_0000);
    WrapIs(0x1_0000_0000);
    WrapIs(0);
  }

  lemma SameOrder(j: Job, k: Job, x: nat, y: nat)
    requires j.w == k.w && j.h == k.h && j.bpp == k.bpp
    ensures Order(j, x, y) == Order(k, x, y)
  {
  }

  /** Every bit of the image belongs to a pixel. */
  lemma PixelAt(w: nat, h: nat, bpp: nat, k: nat) returns (x: nat, y: nat)
    requires bpp > 0 && k < Offset(w, bpp, 0, h)
    ensures x < w && y < h && FlatBit(w, bpp, x, y) <= k < FlatBit(w, bpp, x, y) + bpp
  {
    var p := Quotient(h * w, bpp, k);
    if w == 0 {
      assert false;
    } else {
      y := Quotient(h, w, p);
      x := p - y * w;
    }
  }

  /** Division with remainder: the cell of a row of n cells of a given width that contains k. */
  lemma {:induction false} Quotient(n: nat, width: nat, k: nat) returns (q: nat)
    requires k < n * width
    ensures q < n && q * width <= k < q * width + width
    decreases n
  {
    if n == 0 {
      assert false;
    } else {
      assert n * width == (n - 1) * width + width;
      if (n - 1) * width <= k {
        q := n - 1;
      } else {
        q := Quotient(n - 1, width, k);
      }
    }
  }
}
