/**
 Drawing a line with Bresenham's error term. The pixels are returned in the order in
 which they are drawn.
 */
module Line {
  import opened Arithmetic

  function Max(a: nat, b: nat): (r: nat) {
    if a < b then b else a
  }

  function Sign(from: int, to: int): (s: int) {
    if from < to then 1 else -1
  }

  /** The coordinate i units on the way from one value to another. */
  function Along(from: int, to: int, i: nat): (r: int) {
    if from < to then from + i else from - i
  }

  lemma ProductCommutes(a: nat, b: nat)
    ensures Product(a, b) == Product(b, a)
  {
  }

  /** After k steps along the longer side, the shorter side is within half a unit of its share. */
  ghost predicate Near(long: nat, short: nat, k: nat, s: nat) {
    k <= long && s <= short && (long == 0 || 0 - long < 2 * (Product(k, short) - Product(s, long)) <= long)
  }

  /** After k steps, i along x and j along y: the longer side takes every step. */
  ghost predicate OnLine(dx: nat, dy: nat, i: nat, j: nat, k: nat) {
    if dx >= dy then i == k && Near(dx, dy, k, j) else j == k && Near(dy, dx, k, i)
  }

  /** The short side moves exactly when it would otherwise be more than half a unit behind. */
  lemma ShortSide(long: nat, short: nat, k: nat, s: nat)
    requires Near(long, short, k, s) && k < long && short <= long
    ensures Near(long, short, k + 1, if 2 * (Product(k + 1, short) - Product(s, long)) > long then s + 1 else s)
  {
    hide Product;
    ProductNext(k, short);
    ProductNext(s, long);
    if s == short {
      Grows(k + 1, long, short);
      ProductCommutes(long, short);
    }
  }

  lemma {:induction false} Grows(a: nat, b: nat, c: nat)
    requires a <= b
    ensures Product(a, c) <= Product(b, c)
    decreases b
  {
    hide Product;
    if a < b {
      Grows(a, b - 1, c);
      ProductNext(b - 1, c);
    }
  }

  /** The long side moves in every step. */
  lemma LongSide(long: nat, short: nat, k: nat, s: nat)
    requires Near(long, short, k, s) && k < long && short <= long
    ensures 2 * Product(s + 1, long) > 2 * Product(k, short) + short
  {
    hide Product;
    ProductNext(s, long);
    if long == short {
      OddMultiple(long, k, s);
    }
  }

  lemma OddMultiple(d: nat, k: nat, s: nat)
    requires d > 0
    ensures 2 * (Product(k, d) - Product(s, d)) != d
  {
    hide Product;
    if k > s {
      Grows(s + 1, k, d);
      ProductNext(s, d);
    } else {
      Grows(k, s, d);
    }
  }

  lemma Step(dx: nat, dy: nat, i: nat, j: nat, k: nat, err: int)
    requires OnLine(dx, dy, i, j, k) && k < Max(dx, dy) && err == Product(j + 1, dx) - Product(i + 1, dy)
    ensures OnLine(dx, dy, if 2 * err > 0 - dy then i + 1 else i, if 2 * err < dx then j + 1 else j, k + 1)
  {
    hide Product;
    ProductNext(j, dx);
    ProductNext(i, dy);
    if dx >= dy {
      ShortSide(dx, dy, k, j);
      LongSide(dx, dy, k, j);
    } else {
      ShortSide(dy, dx, k, i);
      LongSide(dy, dx, k, i);
    }
  }

  /** At the end of the longer side, and only there, the line is at its end point. */
  lemma Arrival(dx: nat, dy: nat, i: nat, j: nat, k: nat)
    requires OnLine(dx, dy, i, j, k)
    ensures i == dx && j == dy <==> k == Max(dx, dy)
  {
    hide Product;
    var long, short, s := Max(dx, dy), if dx >= dy then dy else dx, if dx >= dy then j else i;
    if s < short {
      Grows(s + 1, short, long);
      ProductNext(s, long);
      ProductCommutes(short, long);
    }
  }

  // Signed coordinates.

  ghost predicate PixelOk(x0: int, y0: int, x1: int, y1: int, p: (int, int), k: nat) {
    var dx, dy := Abs(x1 - x0), Abs(y1 - y0);
    && (if dx >= dy then p.0 == Along(x0, x1, k) else p.1 == Along(y0, y1, k))
    && 2 * Abs((p.0 - x0) * (y1 - y0) - (p.1 - y0) * (x1 - x0)) <= Max(dx, dy)
  }

  lemma SignedDistance(x0: int, y0: int, x1: int, y1: int, i: nat, j: nat)
    ensures var dx, dy := Abs(x1 - x0), Abs(y1 - y0); var x, y := Along(x0, x1, i), Along(y0, y1, j);
            Abs((x - x0) * (y1 - y0) - (y - y0) * (x1 - x0)) == Abs(Product(i, dy) - Product(j, dx))
  {
    var u: int, v: int := x1 - x0, y1 - y0;
    var a: int, b: int := i, j;
    assert (0 - a) * v == 0 - a * v && (0 - b) * u == 0 - b * u;
    assert a * (0 - v) == 0 - a * v && b * (0 - u) == 0 - b * u;
    assert (0 - a) * (0 - v) == a * v && (0 - b) * (0 - u) == b * u;
  }

  lemma PixelIsOk(x0: int, y0: int, x1: int, y1: int, i: nat, j: nat, k: nat)
    requires OnLine(Abs(x1 - x0), Abs(y1 - y0), i, j, k)
    ensures PixelOk(x0, y0, x1, y1, (Along(x0, x1, i), Along(y0, y1, j)), k)
  {
    SignedDistance(x0, y0, x1, y1, i, j);
  }

  lemma Start(dx: nat, dy: nat)
    ensures OnLine(dx, dy, 0, 0, 0)
  {
  }

  lemma AtEnd(from: int, to: int, i: nat)
    ensures Along(from, to, i) == to <==> i == Abs(to - from)
    ensures Along(from, to, i + 1) == Along(from, to, i) + Sign(from, to) && Along(from, to, 0) == from
  {
  }

  lemma ErrorSteps(dx: nat, dy: nat, i: nat, j: nat)
    ensures Product(j + 2, dx) == Product(j + 1, dx) + dx && Product(i + 2, dy) == Product(i + 1, dy) + dy
  {
    hide Product;
    ProductNext(j + 1, dx);
    ProductNext(i + 1, dy);
  }

  method DrawLine(x0: int, y0: int, x1: int, y1: int) returns (pixels: seq<(int, int)>)
    ensures |pixels| == Max(Abs(x1 - x0), Abs(y1 - y0)) + 1
    ensures pixels[0] == (x0, y0) && pixels[|pixels| - 1] == (x1, y1)
    ensures forall k :: 0 <= k < |pixels| ==> PixelOk(x0, y0, x1, y1, pixels[k], k)
  {
    hide OnLine, PixelOk, Product, Along, Abs, Sign;
    AtEnd(x0, x1, 0);
    AtEnd(y0, y1, 0);
    ProductNext(0, Abs(x1 - x0));
    ProductNext(0, Abs(y1 - y0));
    var dx, dy := Abs(x1 - x0), Abs(y1 - y0);
    var sx, sy := Sign(x0, x1), Sign(y0, y1);
    var err: int := dx as int - dy;
    var x, y := x0, y0;
    ghost var i: nat, j: nat, k: nat := 0, 0, 0;
    pixels := [];
    Start(dx, dy);
    while true
      invariant OnLine(dx, dy, i, j, k) && k <= Max(dx, dy) && |pixels| == k
      invariant x == Along(x0, x1, i) && y == Along(y0, y1, j) && err == Product(j + 1, dx) - Product(i + 1, dy)
      invariant k > 0 ==> pixels[0] == (x0, y0)
      invariant k == 0 ==> i == 0 && j == 0
      invariant forall n :: 0 <= n < k ==> PixelOk(x0, y0, x1, y1, pixels[n], n)
      decreases Max(dx, dy) - k
    {
      PixelIsOk(x0, y0, x1, y1, i, j, k);
      pixels := pixels + [(x, y)];
      Arrival(dx, dy, i, j, k);
      AtEnd(x0, x1, i);
      AtEnd(y0, y1, j);
      if x == x1 && y == y1 {
        break;
      }
      Step(dx, dy, i, j, k, err);
      var e2: int := 2 * err;
      ErrorSteps(dx, dy, i, j);
      if e2 > -(dy as int) {
        err := err - dy;
        x := x + sx;
        i := i + 1;
      }
      if e2 < dx {
        err := err + dx;
        y := y + sy;
        j := j + 1;
      }
      k := k + 1;
    }
  }
}
