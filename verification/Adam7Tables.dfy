/**
 The tables of pass sizes and offsets as the code computes them, each term in unsigned
 32-bit arithmetic, and exactly when they are those of the layout.
 */
module Adam7Tables {
  import opened Arithmetic
  import opened Adam7
  import opened BitSequence

  const WORD32: nat := 0x1_0000_0000

  /** The result of an unsigned 32-bit computation. */
  function Wrap(v: nat): (r: nat) {
    v % WORD32
  }

  lemma WrapIs(v: nat)
    ensures Wrap(v) < WORD32 && (v < WORD32 ==> Wrap(v) == v) && (v >= WORD32 ==> Wrap(v) + WORD32 <= v)
    ensures WORD32 <= v < 2 * WORD32 ==> Wrap(v) == v - WORD32
  {
    if v < WORD32 {
      ModIs(v, WORD32, 0, v);
    } else if v < 2 * WORD32 {
      ModIs(v, WORD32, 1, v - WORD32);
    }
  }

  // Widths and heights.

  function ReachX(i: nat): (r: nat) {
    StepX(i) - StartX(i) - 1
  }

  function ReachY(i: nat): (r: nat) {
    StepY(i) - StartY(i) - 1
  }

  function Columns(i: nat, w: nat): (r: nat) {
    Wrap(w + ReachX(i)) / StepX(i)
  }

  function Rows(i: nat, h: nat): (r: nat) {
    Wrap(h + ReachY(i)) / StepY(i)
  }

  /** A width that wraps leaves a pass without columns. */
  lemma ColumnsIs(i: nat, w: nat)
    requires i < PASSES && w < WORD32
    ensures Columns(i, w) == if w + ReachX(i) < WORD32 then PassWidth(i, w) else 0
    ensures w + ReachX(i) >= WORD32 ==> PassWidth(i, w) > 0
  {
    hide Wrap;
    WrapIs(w + ReachX(i));
    assert StepX(i) == 8 || StepX(i) == 4 || StepX(i) == 2 || StepX(i) == 1;
  }

  lemma RowsIs(i: nat, h: nat)
    requires i < PASSES && h < WORD32
    ensures Rows(i, h) == if h + ReachY(i) < WORD32 then PassHeight(i, h) else 0
    ensures h + ReachY(i) >= WORD32 ==> PassHeight(i, h) > 0
  {
    hide Wrap;
    WrapIs(h + ReachY(i));
    assert StepY(i) == 8 || StepY(i) == 4 || StepY(i) == 2;
  }

  // The terms of the three tables.

  function Line32(pw: nat, bpp: nat): (r: nat) {
    Wrap(pw * bpp + 7) / 8
  }

  function FilterTerm(pw: nat, ph: nat, bpp: nat): (r: nat) {
    if pw == 0 || ph == 0 then 0 else Wrap(Product(ph, 1 + Line32(pw, bpp)))
  }

  function PaddedTerm(pw: nat, ph: nat, bpp: nat): (r: nat) {
    if pw == 0 || ph == 0 then 0 else Wrap(Product(ph, Line32(pw, bpp)))
  }

  function PassTerm(pw: nat, ph: nat, bpp: nat): (r: nat) {
    Wrap(Offset(pw, bpp, 0, ph) + 7) / 8
  }

  lemma LineIs(pw: nat, bpp: nat)
    ensures Line32(pw, bpp) <= LineBytes(pw, bpp)
    ensures Line32(pw, bpp) == LineBytes(pw, bpp) <==> pw * bpp + 7 < WORD32
  {
    hide Wrap;
    WrapIs(pw * bpp + 7);
  }

  /** A product of a computed line is right exactly if the line is and the product does not wrap. */
  lemma WrappedProduct(a: nat, b: nat, c: nat)
    requires a > 0 && b <= c
    ensures Wrap(Product(a, b)) <= Product(a, c)
    ensures Wrap(Product(a, b)) == Product(a, c) <==> b == c && Product(a, c) < WORD32
  {
    hide Wrap, Product;
    WrapIs(Product(a, b));
    ProductGrows(a, b, c);
  }

  ghost predicate FilterExact(pw: nat, ph: nat, bpp: nat) {
    pw == 0 || ph == 0 || (pw * bpp + 7 < WORD32 && Product(ph, 1 + LineBytes(pw, bpp)) < WORD32)
  }

  ghost predicate PaddedExact(pw: nat, ph: nat, bpp: nat) {
    pw == 0 || ph == 0 || (pw * bpp + 7 < WORD32 && Product(ph, LineBytes(pw, bpp)) < WORD32)
  }

  ghost predicate PassExact(pw: nat, ph: nat, bpp: nat) {
    Offset(pw, bpp, 0, ph) + 7 < WORD32
  }

  lemma FilterTermIs(pw: nat, ph: nat, bpp: nat)
    ensures FilterTerm(pw, ph, bpp) <= FilteredSize(pw, ph, bpp)
    ensures FilterTerm(pw, ph, bpp) == FilteredSize(pw, ph, bpp) <==> FilterExact(pw, ph, bpp)
  {
    hide Wrap, Product, Line32, LineBytes;
    if pw > 0 && ph > 0 {
      LineIs(pw, bpp);
      WrappedProduct(ph, 1 + Line32(pw, bpp), 1 + LineBytes(pw, bpp));
    }
  }

  lemma PaddedTermIs(pw: nat, ph: nat, bpp: nat)
    ensures PaddedTerm(pw, ph, bpp) <= PaddedSize(pw, ph, bpp)
    ensures PaddedTerm(pw, ph, bpp) == PaddedSize(pw, ph, bpp) <==> PaddedExact(pw, ph, bpp)
  {
    hide Wrap, Product, Line32, LineBytes;
    if pw > 0 && ph > 0 {
      LineIs(pw, bpp);
      WrappedProduct(ph, Line32(pw, bpp), LineBytes(pw, bpp));
    }
  }

  lemma PassTermIs(pw: nat, ph: nat, bpp: nat)
    ensures PassTerm(pw, ph, bpp) <= (Offset(pw, bpp, 0, ph) + 7) / 8
    ensures PassTerm(pw, ph, bpp) == (Offset(pw, bpp, 0, ph) + 7) / 8 <==> PassExact(pw, ph, bpp)
  {
    hide Wrap, Offset;
    WrapIs(Offset(pw, bpp, 0, ph) + 7);
  }

  // The same with the computed widths and heights.

  /** Neither side of pass i wraps. */
  ghost predicate InRange(i: nat, w: nat, h: nat) {
    w + ReachX(i) < WORD32 && h + ReachY(i) < WORD32
  }

  ghost predicate Empty(i: nat, w: nat, h: nat)
    requires i < PASSES
  {
    PassWidth(i, w) == 0 || PassHeight(i, h) == 0
  }

  /** When the code's numbers for pass i are those of the layout. */
  ghost predicate FilterFits(i: nat, w: nat, h: nat, bpp: nat)
    requires i < PASSES
  {
    Empty(i, w, h) || (InRange(i, w, h) && FilterExact(PassWidth(i, w), PassHeight(i, h), bpp))
  }

  ghost predicate PaddedFits(i: nat, w: nat, h: nat, bpp: nat)
    requires i < PASSES
  {
    Empty(i, w, h) || (InRange(i, w, h) && PaddedExact(PassWidth(i, w), PassHeight(i, h), bpp))
  }

  ghost predicate PassFits(i: nat, w: nat, h: nat, bpp: nat)
    requires i < PASSES
  {
    Empty(i, w, h) || (InRange(i, w, h) && PassExact(PassWidth(i, w), PassHeight(i, h), bpp))
  }

  /** A pass as the code has it: empty both ways if either way. */
  function Side(a: nat, b: nat): (r: nat) {
    if a == 0 || b == 0 then 0 else a
  }

  lemma DimensionsAre(i: nat, w: nat, h: nat)
    requires i < PASSES && w < WORD32 && h < WORD32
    ensures !Empty(i, w, h) && InRange(i, w, h) ==>
              Columns(i, w) == PassWidth(i, w) > 0 && Rows(i, h) == PassHeight(i, h) > 0
    ensures Empty(i, w, h) || !InRange(i, w, h) ==> Columns(i, w) == 0 || Rows(i, h) == 0
  {
    hide Columns, Rows, PassWidth, PassHeight, ReachX, ReachY;
    ColumnsIs(i, w);
    RowsIs(i, h);
  }

  lemma Positive(pw: nat, ph: nat, bpp: nat)
    requires pw > 0 && ph > 0 && bpp > 0
    ensures LineBytes(pw, bpp) > 0 && FilteredSize(pw, ph, bpp) > 0 && PaddedSize(pw, ph, bpp) > 0
    ensures Offset(pw, bpp, 0, ph) > 0
  {
    ProductIsPositive(pw, bpp);
    ProductIsPositive(ph, LineBytes(pw, bpp));
    ProductIsPositive(ph, 1 + LineBytes(pw, bpp));
    ProductIsPositive(ph, pw);
    ProductIsPositive(ph * pw, bpp);
  }

  lemma ProductIsPositive(a: nat, b: nat)
    requires a > 0 && b > 0
    ensures a * b > 0
  {
  }

  lemma NoTerms(pw: nat, ph: nat, bpp: nat)
    requires pw == 0 || ph == 0
    ensures FilterTerm(pw, ph, bpp) == PaddedTerm(pw, ph, bpp) == PassTerm(pw, ph, bpp) == 0
    ensures FilteredSize(pw, ph, bpp) == PaddedSize(pw, ph, bpp) == 0 && Offset(pw, bpp, 0, ph) == 0
  {
    hide Wrap;
    EmptyOffset(bpp, pw, ph);
    WrapIs(7);
  }

  /** One pass: no term is too large, and each is right exactly when the pass fits. */
  lemma TermsAre(i: nat, w: nat, h: nat, bpp: nat)
    requires i < PASSES && w < WORD32 && h < WORD32 && bpp > 0
    ensures var c, r, pw, ph := Columns(i, w), Rows(i, h), PassWidth(i, w), PassHeight(i, h);
            && FilterTerm(c, r, bpp) <= FilteredSize(pw, ph, bpp)
            && (FilterTerm(c, r, bpp) == FilteredSize(pw, ph, bpp) <==> FilterFits(i, w, h, bpp))
            && PaddedTerm(c, r, bpp) <= PaddedSize(pw, ph, bpp)
            && (PaddedTerm(c, r, bpp) == PaddedSize(pw, ph, bpp) <==> PaddedFits(i, w, h, bpp))
            && PassTerm(c, r, bpp) <= (Offset(pw, bpp, 0, ph) + 7) / 8
            && (PassTerm(c, r, bpp) == (Offset(pw, bpp, 0, ph) + 7) / 8 <==> PassFits(i, w, h, bpp))
  {
    hide Columns, Rows, PassWidth, PassHeight, ReachX, ReachY, FilterTerm, PaddedTerm, PassTerm, FilteredSize,
         PaddedSize, Offset, FilterExact, PaddedExact, PassExact;
    var c, r, pw, ph := Columns(i, w), Rows(i, h), PassWidth(i, w), PassHeight(i, h);
    DimensionsAre(i, w, h);
    if Empty(i, w, h) {
      NoTerms(c, r, bpp);
      NoTerms(pw, ph, bpp);
    } else if InRange(i, w, h) {
      FilterTermIs(pw, ph, bpp);
      PaddedTermIs(pw, ph, bpp);
      PassTermIs(pw, ph, bpp);
    } else {
      NoTerms(c, r, bpp);
      Positive(pw, ph, bpp);
    }
  }

  // The tables.

  function Filter32(i: nat, w: nat, h: nat, bpp: nat): (r: nat) {
    if i == 0 then 0 else Filter32(i - 1, w, h, bpp) + FilterTerm(Columns(i - 1, w), Rows(i - 1, h), bpp)
  }

  function Padded32(i: nat, w: nat, h: nat, bpp: nat): (r: nat) {
    if i == 0 then 0 else Padded32(i - 1, w, h, bpp) + PaddedTerm(Columns(i - 1, w), Rows(i - 1, h), bpp)
  }

  function Pass32(i: nat, w: nat, h: nat, bpp: nat): (r: nat) {
    if i == 0 then 0 else Pass32(i - 1, w, h, bpp) + PassTerm(Columns(i - 1, w), Rows(i - 1, h), bpp)
  }

  ghost predicate FiltersFit(i: nat, w: nat, h: nat, bpp: nat)
    requires i <= PASSES
  {
    forall k {:trigger FilterFits(k, w, h, bpp)} :: 0 <= k < i ==> FilterFits(k, w, h, bpp)
  }

  ghost predicate PaddedsFit(i: nat, w: nat, h: nat, bpp: nat)
    requires i <= PASSES
  {
    forall k {:trigger PaddedFits(k, w, h, bpp)} :: 0 <= k < i ==> PaddedFits(k, w, h, bpp)
  }

  ghost predicate PassesFit(i: nat, w: nat, h: nat, bpp: nat)
    requires i <= PASSES
  {
    forall k {:trigger PassFits(k, w, h, bpp)} :: 0 <= k < i ==> PassFits(k, w, h, bpp)
  }

  /** No entry is too large, and each is right exactly when all passes before it fit. */
  lemma {:induction false} TablesAre(i: nat, w: nat, h: nat, bpp: nat)
    requires i <= PASSES && w < WORD32 && h < WORD32 && bpp > 0
    ensures Filter32(i, w, h, bpp) <= FilterStart(i, w, h, bpp)
    ensures Filter32(i, w, h, bpp) == FilterStart(i, w, h, bpp) <==> FiltersFit(i, w, h, bpp)
    ensures Padded32(i, w, h, bpp) <= PaddedStart(i, w, h, bpp)
    ensures Padded32(i, w, h, bpp) == PaddedStart(i, w, h, bpp) <==> PaddedsFit(i, w, h, bpp)
    ensures Pass32(i, w, h, bpp) <= PassStart(i, w, h, bpp)
    ensures Pass32(i, w, h, bpp) == PassStart(i, w, h, bpp) <==> PassesFit(i, w, h, bpp)
  {
    hide Columns, Rows, PassWidth, PassHeight, FilterTerm, PaddedTerm, PassTerm, FilteredSize, PaddedSize, Offset,
         FilterFits, PaddedFits, PassFits;
    if i > 0 {
      TablesAre(i - 1, w, h, bpp);
      TermsAre(i - 1, w, h, bpp);
    }
  }

  ghost predicate SizesAre(passw: seq<nat>, passh: seq<nat>, n: nat, w: nat, h: nat) {
    && |passw| == |passh| == n
    && forall i :: 0 <= i < n ==>
         passw[i] == Side(Columns(i, w), Rows(i, h)) && passh[i] == Side(Rows(i, h), Columns(i, w))
  }

  method GetPassSizes(w: nat, h: nat) returns (passw: seq<nat>, passh: seq<nat>)
    ensures SizesAre(passw, passh, 7, w, h)
  {
    hide Columns, Rows;
    passw, passh := [], [];
    var i := 0;
    while i != 7
      invariant 0 <= i <= 7 && SizesAre(passw, passh, i, w, h)
    {
      var pw, ph := Columns(i, w), Rows(i, h);
      if pw == 0 {
        ph := 0;
      }
      if ph == 0 {
        pw := 0;
      }
      passw, passh := passw + [pw], passh + [ph];
      i := i + 1;
    }
  }

  /** The pass tables of an image. */
  method GetPassValues(w: nat, h: nat, bpp: nat)
    returns (passw: seq<nat>, passh: seq<nat>, filterStart: seq<nat>, paddedStart: seq<nat>, passStart: seq<nat>)
    requires w < WORD32 && h < WORD32 && bpp > 0
    ensures SizesAre(passw, passh, 7, w, h) && |filterStart| == |paddedStart| == |passStart| == 8
    ensures forall i :: 0 <= i <= 7 ==> filterStart[i] == Filter32(i, w, h, bpp) <= FilterStart(i, w, h, bpp)
    ensures forall i :: 0 <= i <= 7 ==> (filterStart[i] == FilterStart(i, w, h, bpp) <==> FiltersFit(i, w, h, bpp))
    ensures forall i :: 0 <= i <= 7 ==> paddedStart[i] == Padded32(i, w, h, bpp) <= PaddedStart(i, w, h, bpp)
    ensures forall i :: 0 <= i <= 7 ==> (paddedStart[i] == PaddedStart(i, w, h, bpp) <==> PaddedsFit(i, w, h, bpp))
    ensures forall i :: 0 <= i <= 7 ==> passStart[i] == Pass32(i, w, h, bpp) <= PassStart(i, w, h, bpp)
    ensures forall i :: 0 <= i <= 7 ==> (passStart[i] == PassStart(i, w, h, bpp) <==> PassesFit(i, w, h, bpp))
  {
    hide FilterStart, PaddedStart, PassStart, Product, Offset, Wrap, FiltersFit, PaddedsFit, PassesFit, Side,
         Columns, Rows, Filter32, Padded32, Pass32;
    passw, passh := GetPassSizes(w, h);
    filterStart, paddedStart, passStart := [0], [0], [0];
    NoEntries(w, h, bpp);
    var i := 0;
    while i != 7
      invariant 0 <= i <= 7 && |filterStart| == |paddedStart| == |passStart| == i + 1
      invariant forall j :: 0 <= j <= i ==> filterStart[j] == Filter32(j, w, h, bpp)
      invariant forall j :: 0 <= j <= i ==> paddedStart[j] == Padded32(j, w, h, bpp)
      invariant forall j :: 0 <= j <= i ==> passStart[j] == Pass32(j, w, h, bpp)
    {
      NextEntries(passw[i], passh[i], i, w, h, bpp);
      var line := Wrap(passw[i] * bpp + 7) / 8;
      var filtered := if passw[i] != 0 && passh[i] != 0 then Wrap(Product(passh[i], 1 + line)) else 0;
      filterStart := filterStart + [filterStart[i] + filtered];
      paddedStart := paddedStart + [paddedStart[i] + Wrap(Product(passh[i], line))];
      passStart := passStart + [passStart[i] + Wrap(Offset(passw[i], bpp, 0, passh[i]) + 7) / 8];
      i := i + 1;
    }
    AllTablesAre(w, h, bpp);
  }

  lemma NoEntries(w: nat, h: nat, bpp: nat)
    ensures Filter32(0, w, h, bpp) == Padded32(0, w, h, bpp) == Pass32(0, w, h, bpp) == 0
  {
  }

  lemma AllTablesAre(w: nat, h: nat, bpp: nat)
    requires w < WORD32 && h < WORD32 && bpp > 0
    ensures forall k :: 0 <= k <= 7 ==>
              && Filter32(k, w, h, bpp) <= FilterStart(k, w, h, bpp)
              && (Filter32(k, w, h, bpp) == FilterStart(k, w, h, bpp) <==> FiltersFit(k, w, h, bpp))
    ensures forall k :: 0 <= k <= 7 ==>
              && Padded32(k, w, h, bpp) <= PaddedStart(k, w, h, bpp)
              && (Padded32(k, w, h, bpp) == PaddedStart(k, w, h, bpp) <==> PaddedsFit(k, w, h, bpp))
    ensures forall k :: 0 <= k <= 7 ==>
              && Pass32(k, w, h, bpp) <= PassStart(k, w, h, bpp)
              && (Pass32(k, w, h, bpp) == PassStart(k, w, h, bpp) <==> PassesFit(k, w, h, bpp))
  {
    hide FilterStart, PaddedStart, PassStart, FiltersFit, PaddedsFit, PassesFit, Filter32, Padded32, Pass32;
    forall k | 0 <= k <= 7
      ensures Filter32(k, w, h, bpp) <= FilterStart(k, w, h, bpp)
      ensures Filter32(k, w, h, bpp) == FilterStart(k, w, h, bpp) <==> FiltersFit(k, w, h, bpp)
      ensures Padded32(k, w, h, bpp) <= PaddedStart(k, w, h, bpp)
      ensures Padded32(k, w, h, bpp) == PaddedStart(k, w, h, bpp) <==> PaddedsFit(k, w, h, bpp)
      ensures Pass32(k, w, h, bpp) <= PassStart(k, w, h, bpp)
      ensures Pass32(k, w, h, bpp) == PassStart(k, w, h, bpp) <==> PassesFit(k, w, h, bpp)
    {
      TablesAre(k, w, h, bpp);
    }
  }

  lemma NextEntries(pw: nat, ph: nat, i: nat, w: nat, h: nat, bpp: nat)
    requires pw == Side(Columns(i, w), Rows(i, h)) && ph == Side(Rows(i, h), Columns(i, w))
    ensures Filter32(i + 1, w, h, bpp)
            == Filter32(i, w, h, bpp) + if pw != 0 && ph != 0 then Wrap(Product(ph, 1 + Wrap(pw * bpp + 7) / 8)) else 0
    ensures Padded32(i + 1, w, h, bpp) == Padded32(i, w, h, bpp) + Wrap(Product(ph, Wrap(pw * bpp + 7) / 8))
    ensures Pass32(i + 1, w, h, bpp) == Pass32(i, w, h, bpp) + Wrap(Offset(pw, bpp, 0, ph) + 7) / 8
  {
    hide Columns, Rows, Wrap, Product, Offset;
    WrapIs(0);
    ProductNext(0, Wrap(pw * bpp + 7) / 8);
    NoOffset(Columns(i, w), Rows(i, h), bpp);
  }

  lemma NoOffset(c: nat, r: nat, bpp: nat)
    ensures c == 0 || r == 0 ==> Offset(c, bpp, 0, r) == Offset(0, bpp, 0, 0) == 0
  {
    EmptyOffset(bpp, c, r);
  }

  // The size the decoder expects.

  /** The size of h rows with filter bytes, computed so that w * bpp does not overflow. */
  function RawSizeIdat(w: nat, h: nat, bpp: nat): (r: nat) {
    Product(h, Product(w / 8, bpp) + 1 + (Product(w % 8, bpp) + 7) / 8)
  }

  lemma RawSizeIs(w: nat, h: nat, bpp: nat)
    ensures RawSizeIdat(w, h, bpp) == Product(h, 1 + LineBytes(w, bpp))
  {
    var q, r := w / 8, w % 8;
    assert w * bpp == (8 * q + r) * bpp == 8 * (q * bpp) + r * bpp;
  }

  /** The decoder's expected size, by shifts of 32-bit sums. */
  function ExpectedSize(w: nat, h: nat, bpp: nat): (r: nat) {
    RawSizeIdat(Wrap(w + 7) / 8, Wrap(h + 7) / 8, bpp)
    + (if w > 4 then RawSizeIdat(Wrap(w + 3) / 8, Wrap(h + 7) / 8, bpp) else 0)
    + RawSizeIdat(Wrap(w + 3) / 4, Wrap(h + 3) / 8, bpp)
    + (if w > 2 then RawSizeIdat(Wrap(w + 1) / 4, Wrap(h + 3) / 4, bpp) else 0)
    + RawSizeIdat(Wrap(w + 1) / 2, Wrap(h + 1) / 4, bpp)
    + (if w > 1 then RawSizeIdat(w / 2, Wrap(h + 1) / 2, bpp) else 0)
    + RawSizeIdat(w, h / 2, bpp)
  }

  /** The same pass by pass. */
  ghost predicate Counted(i: nat, w: nat) {
    if i == 1 then w > 4 else if i == 3 then w > 2 else if i == 5 then w > 1 else true
  }

  ghost function RawTerm(i: nat, w: nat, h: nat, bpp: nat): (r: nat) {
    if Counted(i, w) then RawSizeIdat(Columns(i, w), Rows(i, h), bpp) else 0
  }

  ghost function RawSum(i: nat, w: nat, h: nat, bpp: nat): (r: nat) {
    if i == 0 then 0 else RawSum(i - 1, w, h, bpp) + RawTerm(i - 1, w, h, bpp)
  }

  lemma ExpectedIsSum(w: nat, h: nat, bpp: nat)
    requires w < WORD32 && h < WORD32
    ensures ExpectedSize(w, h, bpp) == RawSum(7, w, h, bpp)
  {
    hide RawSizeIdat, RawSum, RawTerm, Wrap;
    WrapIs(w);
    WrapIs(h);
    RawTerms(w, h, bpp);
    RawStep(0, w, h, bpp);
    RawStep(1, w, h, bpp);
    RawStep(2, w, h, bpp);
    RawStep(3, w, h, bpp);
    RawStep(4, w, h, bpp);
    RawStep(5, w, h, bpp);
    RawStep(6, w, h, bpp);
  }

  lemma RawStep(i: nat, w: nat, h: nat, bpp: nat)
    ensures RawSum(i + 1, w, h, bpp) == RawSum(i, w, h, bpp) + RawTerm(i, w, h, bpp) && RawSum(0, w, h, bpp) == 0
  {
  }

  lemma RawTerms(w: nat, h: nat, bpp: nat)
    ensures RawTerm(0, w, h, bpp) == RawSizeIdat(Wrap(w + 7) / 8, Wrap(h + 7) / 8, bpp)
    ensures RawTerm(1, w, h, bpp) == if w > 4 then RawSizeIdat(Wrap(w + 3) / 8, Wrap(h + 7) / 8, bpp) else 0
    ensures RawTerm(2, w, h, bpp) == RawSizeIdat(Wrap(w + 3) / 4, Wrap(h + 3) / 8, bpp)
    ensures RawTerm(3, w, h, bpp) == if w > 2 then RawSizeIdat(Wrap(w + 1) / 4, Wrap(h + 3) / 4, bpp) else 0
    ensures RawTerm(4, w, h, bpp) == RawSizeIdat(Wrap(w + 1) / 2, Wrap(h + 1) / 4, bpp)
    ensures RawTerm(5, w, h, bpp) == if w > 1 then RawSizeIdat(Wrap(w) / 2, Wrap(h + 1) / 2, bpp) else 0
    ensures RawTerm(6, w, h, bpp) == RawSizeIdat(Wrap(w), Wrap(h) / 2, bpp)
  {
    hide RawSizeIdat, Wrap;
  }

  /** When the two computations of pass i agree. */
  ghost predicate TermExact(i: nat, w: nat, h: nat, bpp: nat) {
    var c, r := Columns(i, w), Rows(i, h);
    FilterExact(c, r, bpp) && (c == 0 && Counted(i, w) ==> r == 0)
  }

  lemma CompareTerms(i: nat, w: nat, h: nat, bpp: nat)
    requires i < PASSES && w < WORD32
    ensures FilterTerm(Columns(i, w), Rows(i, h), bpp) <= RawTerm(i, w, h, bpp)
    ensures FilterTerm(Columns(i, w), Rows(i, h), bpp) == RawTerm(i, w, h, bpp) <==> TermExact(i, w, h, bpp)
  {
    hide Columns, Rows, FilterTerm, LineBytes, FilterExact, Product, RawSizeIdat;
    var c, r := Columns(i, w), Rows(i, h);
    RawSizeIs(c, r, bpp);
    FilterTermIs(c, r, bpp);
    UncountedIsEmpty(i, w);
    CompareSizes(c, r, bpp);
  }

  lemma CompareSizes(c: nat, r: nat, bpp: nat)
    ensures c > 0 || r == 0 ==> FilteredSize(c, r, bpp) == Product(r, 1 + LineBytes(c, bpp))
    ensures c == 0 ==> FilteredSize(c, r, bpp) == 0 && FilterExact(c, r, bpp)
    ensures c == 0 ==> Product(r, 1 + LineBytes(c, bpp)) == r
  {
    ProductNext(0, 1 + LineBytes(c, bpp));
  }

  lemma UncountedIsEmpty(i: nat, w: nat)
    requires i < PASSES && w < WORD32
    ensures !Counted(i, w) ==> Columns(i, w) == 0
  {
    hide Wrap;
    WrapIs(w + ReachX(i));
  }

  lemma {:induction false} CompareSums(i: nat, w: nat, h: nat, bpp: nat)
    requires i <= PASSES && w < WORD32
    ensures Filter32(i, w, h, bpp) <= RawSum(i, w, h, bpp)
    ensures Filter32(i, w, h, bpp) == RawSum(i, w, h, bpp)
       <==> forall k {:trigger TermExact(k, w, h, bpp)} :: 0 <= k < i ==> TermExact(k, w, h, bpp)
  {
    hide Columns, Rows, FilterTerm, RawTerm, TermExact;
    if i > 0 {
      CompareSums(i - 1, w, h, bpp);
      CompareTerms(i - 1, w, h, bpp);
    }
  }

  /** No term of the filter table wraps. */
  ghost predicate NoFilterWrap(w: nat, h: nat, bpp: nat) {
    forall k {:trigger FilterExact(Columns(k, w), Rows(k, h), bpp)} :: 0 <= k < PASSES ==>
      FilterExact(Columns(k, w), Rows(k, h), bpp)
  }

  /**
   The size the decoder expects is the end of the table the encoder uses exactly when there is
   no row, or there are columns whose number plus seven does not wrap and no term wraps.
   */
  lemma ExpectedSizeIsTable(w: nat, h: nat, bpp: nat)
    requires w < WORD32 && h < WORD32 && bpp > 0
    ensures ExpectedSize(w, h, bpp) == Filter32(7, w, h, bpp)
       <==> h == 0 || (0 < w && w + 7 < WORD32 && NoFilterWrap(w, h, bpp))
  {
    hide ExpectedSize, Filter32, RawSum, TermExact;
    ExpectedIsSum(w, h, bpp);
    CompareSums(7, w, h, bpp);
    if h == 0 {
      NoRows(w, bpp);
    } else if 0 < w && w + 7 < WORD32 {
      SomeColumns(w, h, bpp);
    } else if w == 0 {
      NoColumns(h, bpp);
    } else {
      WideImage(w, h, bpp);
    }
  }

  lemma NoRows(w: nat, bpp: nat)
    requires w < WORD32
    ensures forall k {:trigger TermExact(k, w, 0, bpp)} :: 0 <= k < PASSES ==> TermExact(k, w, 0, bpp)
  {
    hide Columns;
    forall k | 0 <= k < PASSES
      ensures TermExact(k, w, 0, bpp)
    {
      RowsIs(k, 0);
    }
  }

  lemma SomeColumns(w: nat, h: nat, bpp: nat)
    requires 0 < w && w + 7 < WORD32
    ensures NoFilterWrap(w, h, bpp)
       <==> forall k {:trigger TermExact(k, w, h, bpp)} :: 0 <= k < PASSES ==> TermExact(k, w, h, bpp)
  {
    hide Columns, Rows, FilterExact;
    forall k | 0 <= k < PASSES
      ensures TermExact(k, w, h, bpp) <==> FilterExact(Columns(k, w), Rows(k, h), bpp)
    {
      ColumnsIs(k, w);
    }
  }

  lemma NoColumns(h: nat, bpp: nat)
    requires 0 < h < WORD32
    ensures !TermExact(0, 0, h, bpp) || !TermExact(6, 0, h, bpp)
  {
    hide Columns, Rows, FilterExact, PassWidth, PassHeight;
    ColumnsIs(0, 0);
    ColumnsIs(6, 0);
    OuterPasses(0, h);
    RowsIs(0, h);
    RowsIs(6, h);
  }

  lemma OuterPasses(w: nat, h: nat)
    ensures PassWidth(0, w) == (w + 7) / 8 && PassWidth(6, w) == w
    ensures PassHeight(0, h) == (h + 7) / 8 && PassHeight(6, h) == h / 2
  {
  }

  lemma WideImage(w: nat, h: nat, bpp: nat)
    requires w < WORD32 && w + 7 >= WORD32 && 0 < h < WORD32 && bpp > 0
    ensures !TermExact(0, w, h, bpp) || !TermExact(6, w, h, bpp)
  {
    hide LineBytes, Columns, Rows, PassWidth, PassHeight, Product;
    OuterPasses(w, h);
    ColumnsIs(0, w);
    ColumnsIs(6, w);
    RowsIs(0, h);
    RowsIs(6, h);
    WideLine(w, bpp);
  }

  lemma WideLine(w: nat, bpp: nat)
    requires bpp > 0
    ensures w * bpp >= w
  {
    assert w * bpp == w + w * (bpp - 1);
  }

  /** Unless a side itself wraps, those are the images whose filter table is that of the layout. */
  lemma NoWrapFits(w: nat, h: nat, bpp: nat)
    requires w + 7 < WORD32 && h + 7 < WORD32
    ensures NoFilterWrap(w, h, bpp) <==> FiltersFit(PASSES, w, h, bpp)
  {
    hide Columns, Rows, FilterExact, PassWidth, PassHeight;
    forall k | 0 <= k < PASSES
      ensures FilterExact(Columns(k, w), Rows(k, h), bpp) <==> FilterFits(k, w, h, bpp)
    {
      DimensionsAre(k, w, h);
      EmptyIsExact(Columns(k, w), Rows(k, h), bpp);
    }
  }

  lemma EmptyIsExact(pw: nat, ph: nat, bpp: nat)
    ensures pw == 0 || ph == 0 ==> FilterExact(pw, ph, bpp)
  {
  }

  /** A pass that fits has the sizes of the layout. */
  lemma FittingSizes(i: nat, w: nat, h: nat, bpp: nat)
    requires i < PASSES && w < WORD32 && h < WORD32 && PassFits(i, w, h, bpp)
    ensures PassIs(Side(Columns(i, w), Rows(i, h)), Side(Rows(i, h), Columns(i, w)), i, w, h)
  {
    hide Columns, Rows, PassWidth, PassHeight;
    DimensionsAre(i, w, h);
  }

  /** The size of a pass, with an empty pass empty both ways. */
  predicate PassIs(pw: nat, ph: nat, i: nat, w: nat, h: nat)
    requires i < PASSES
  {
    if PassWidth(i, w) == 0 || PassHeight(i, h) == 0 then pw == 0 && ph == 0
    else pw == PassWidth(i, w) && ph == PassHeight(i, h)
  }

  // Images for which the tables are wrong.

  /** An image of 1 GiB whose last pass has one byte in the table instead of half a gigabyte. */
  lemma WideImageWraps()
    ensures var w, h, bpp := 0x400_0000, 2, 64;
            && FilterTerm(Columns(6, w), Rows(6, h), bpp) == 1
            && FilteredSize(PassWidth(6, w), PassHeight(6, h), bpp) == 0x2000_0001
            && ExpectedSize(w, h, bpp) != Filter32(7, w, h, bpp)
  {
    hide ExpectedSize, Filter32;
    var w, h, bpp := 0x400_0000, 2, 64;
    ColumnsIs(6, w);
    RowsIs(6, h);
    WrapIs(w * bpp + 7);
    WrapIs(1);
    assert !FilterExact(Columns(6, w), Rows(6, h), bpp);
    ExpectedSizeIsTable(w, h, bpp);
  }

  /** A square image of 2 GiB whose sixth pass takes no room in the table. */
  lemma SquareImageWraps()
    ensures var w, h, bpp := 0x4000, 0x4000, 64;
            && Columns(5, w) == Rows(5, h) == 0x2000 && Columns(6, w) > 0 && Rows(6, h) > 0
            && Pass32(6, w, h, bpp) == Pass32(5, w, h, bpp)
  {
    hide Pass32;
    var w, h, bpp := 0x4000, 0x4000, 64;
    ColumnsIs(5, w);
    RowsIs(5, h);
    ColumnsIs(6, w);
    RowsIs(6, h);
    WrapIs(0x1_0000_0007);
    PassStep(5, w, h, bpp);
  }

  lemma PassStep(i: nat, w: nat, h: nat, bpp: nat)
    ensures Pass32(i + 1, w, h, bpp) == Pass32(i, w, h, bpp) + PassTerm(Columns(i, w), Rows(i, h), bpp)
  {
  }
}
