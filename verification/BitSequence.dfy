/**
 Bit strings and the numbers they stand for. DEFLATE packs numbers least
 significant bit first and Huffman codes most significant bit first, so both
 readings of a bit string are needed.
 */
module BitSequence {

  type byte = b: int | 0 <= b < 256

  function Pow2(n: nat): (p: nat)
    ensures p >= 1
  {
    if n == 0 then 1 else 2 * Pow2(n - 1)
  }

  lemma SmallPowers()
    ensures Pow2(0) == 1 && Pow2(1) == 2 && Pow2(2) == 4 && Pow2(3) == 8 && Pow2(4) == 16
    ensures Pow2(5) == 32 && Pow2(6) == 64 && Pow2(7) == 128 && Pow2(8) == 256 && Pow2(9) == 512
    ensures Pow2(10) == 1024 && Pow2(11) == 2048 && Pow2(12) == 4096 && Pow2(13) == 8192
    ensures Pow2(14) == 16384 && Pow2(15) == 32768
  {
  }

  lemma {:induction false} Pow2Adds(m: nat, n: nat)
    ensures Pow2(m + n) == Pow2(m) * Pow2(n)
  {
    if m > 0 {
      Pow2Adds(m - 1, n);
      MulAssociates(2, Pow2(m - 1), Pow2(n));
    }
  }

  lemma {:induction false} Pow2Monotone(m: nat, n: nat)
    requires m <= n
    ensures Pow2(m) <= Pow2(n)
    decreases n
  {
    if m < n {
      Pow2Monotone(m, n - 1);
    }
  }

  /** The lowest n bits of v, least significant first. */
  function LsbBits(v: nat, n: nat): (s: seq<bool>)
    ensures |s| == n
    decreases n
  {
    if n == 0 then [] else [v % 2 == 1] + LsbBits(v / 2, n - 1)
  }

  /** The number whose bits are s, least significant first. */
  function LsbValue(s: seq<bool>): (v: nat)
  {
    if s == [] then 0 else (if s[0] then 1 else 0) + 2 * LsbValue(s[1..])
  }

  /** The lowest n bits of v, most significant first. */
  function MsbBits(v: nat, n: nat): (s: seq<bool>)
    ensures |s| == n
    decreases n
  {
    if n == 0 then [] else MsbBits(v / 2, n - 1) + [v % 2 == 1]
  }

  /** The number whose bits are s, most significant first. */
  function MsbValue(s: seq<bool>): (v: nat)
  {
    if s == [] then 0 else 2 * MsbValue(s[..|s| - 1]) + (if s[|s| - 1] then 1 else 0)
  }

  lemma {:induction false} LsbValueBound(s: seq<bool>)
    ensures LsbValue(s) < Pow2(|s|)
  {
    if s != [] {
      LsbValueBound(s[1..]);
    }
  }

  lemma {:induction false} MsbValueBound(s: seq<bool>)
    ensures MsbValue(s) < Pow2(|s|)
  {
    if s != [] {
      MsbValueBound(s[..|s| - 1]);
    }
  }

  /** Reading back the bits of v gives v modulo 2^n. */
  lemma {:induction false} LsbValueOfBits(v: nat, n: nat)
    ensures LsbValue(LsbBits(v, n)) == v % Pow2(n)
    decreases n
  {
    if n > 0 {
      LsbValueOfBits(v / 2, n - 1);
      assert LsbBits(v, n)[1..] == LsbBits(v / 2, n - 1);
      HalfMod(v, Pow2(n - 1));
    }
  }

  lemma HalfMod(v: nat, p: nat)
    requires p >= 1
    ensures v % (2 * p) == v % 2 + 2 * (v / 2 % p)
  {
    var h := v / 2;
    var q := h / p;
    assert v == 2 * (p * q + h % p) + v % 2;
    assert v == (2 * p) * q + (2 * (h % p) + v % 2);
    ModIs(v, 2 * p, q, 2 * (h % p) + v % 2);
  }

  lemma ModIs(v: int, m: int, q: int, r: int)
    requires m > 0 && 0 <= r < m && v == m * q + r
    ensures v % m == r && v / m == q
  {
    var d := v / m - q;
    assert m * d == m * (v / m) - m * q == r - v % m;
    assert -m < m * d < m;
    assert d == 0 by {
      if d >= 1 {
        MulAtLeast(m, d);
      } else if d <= -1 {
        MulAtLeast(m, -d);
      }
    }
  }

  lemma MulAssociates(a: int, b: int, c: int)
    ensures a * (b * c) == (a * b) * c
  {
  }

  lemma MulAtLeast(m: int, d: int)
    requires m > 0 && d >= 1
    ensures m * d >= m
  {
  }

  lemma {:induction false} LsbBitsOfValue(s: seq<bool>)
    ensures LsbBits(LsbValue(s), |s|) == s
  {
    if s != [] {
      LsbBitsOfValue(s[1..]);
      assert s == [s[0]] + s[1..];
    }
  }

  lemma {:induction false} LsbValueConcat(a: seq<bool>, b: seq<bool>)
    ensures LsbValue(a + b) == LsbValue(a) + Pow2(|a|) * LsbValue(b)
  {
    if a == [] {
      assert a + b == b;
    } else {
      LsbValueConcat(a[1..], b);
      assert (a + b)[1..] == a[1..] + b;
      MulAssociates(2, Pow2(|a| - 1), LsbValue(b));
    }
  }

  lemma {:induction false} MsbValueOfBits(v: nat, n: nat)
    ensures MsbValue(MsbBits(v, n)) == v % Pow2(n)
    decreases n
  {
    if n > 0 {
      MsbValueOfBits(v / 2, n - 1);
      assert MsbBits(v, n)[..n - 1] == MsbBits(v / 2, n - 1);
      HalfMod(v, Pow2(n - 1));
    }
  }

  lemma {:induction false} MsbBitsOfValue(s: seq<bool>)
    ensures MsbBits(MsbValue(s), |s|) == s
  {
    if s != [] {
      MsbBitsOfValue(s[..|s| - 1]);
      assert s == s[..|s| - 1] + [s[|s| - 1]];
    }
  }

  /** Dropping trailing bits of an MSB-first number is integer division. */
  lemma {:induction false} MsbValueOfPrefix(s: seq<bool>, k: nat)
    requires k <= |s|
    ensures MsbValue(s[..k]) == MsbValue(s) / Pow2(|s| - k)
    decreases |s|
  {
    if k == |s| {
      assert s[..k] == s;
    } else {
      var t := s[..|s| - 1];
      MsbValueOfPrefix(t, k);
      assert t[..k] == s[..k];
      DivTwice(MsbValue(s), Pow2(|s| - 1 - k));
      assert MsbValue(s) / 2 == MsbValue(t);
    }
  }

  lemma DivTwice(v: nat, p: nat)
    requires p >= 1
    ensures v / (2 * p) == v / 2 / p
  {
    HalfMod(v, p);
    var h := v / 2;
    assert v == (2 * p) * (h / p) + (2 * (h % p) + v % 2);
    ModIs(v, 2 * p, h / p, 2 * (h % p) + v % 2);
  }

  lemma {:induction false} LsbBitsPrefix(v: nat, n: nat, k: nat)
    requires k <= n
    ensures LsbBits(v, n)[..k] == LsbBits(v, k)
    decreases n
  {
    if k > 0 {
      LsbBitsPrefix(v / 2, n - 1, k - 1);
      assert LsbBits(v, n)[..k] == [v % 2 == 1] + LsbBits(v / 2, n - 1)[..k - 1];
    }
  }

  /** Starting with the bits w, LSB first, is a condition on the remainder. */
  lemma StartsWithLsb(w: seq<bool>, v: nat, n: nat)
    requires |w| <= n
    ensures w <= LsbBits(v, n) <==> v % Pow2(|w|) == LsbValue(w)
  {
    LsbBitsPrefix(v, n, |w|);
    LsbValueOfBits(v, |w|);
    LsbBitsOfValue(w);
    LsbBitsOfValue(LsbBits(v, |w|));
    if w <= LsbBits(v, n) {
      assert w == LsbBits(v, n)[..|w|];
    }
  }

  lemma {:induction false} MsbBitsPrefix(v: nat, n: nat, k: nat)
    requires k <= n
    ensures MsbBits(v, n)[..k] == MsbBits(v / Pow2(n - k), k)
    decreases n
  {
    if k < n {
      MsbBitsPrefix(v / 2, n - 1, k);
      assert MsbBits(v, n)[..k] == MsbBits(v / 2, n - 1)[..k];
      DivTwice(v, Pow2(n - 1 - k));
    }
  }

  lemma MsbBitAt(v: nat, n: nat, i: nat)
    requires i < n
    ensures MsbBits(v, n)[i] == (v / Pow2(n - i - 1) % 2 == 1)
  {
    MsbBitsPrefix(v, n, i + 1);
    assert MsbBits(v, n)[i] == MsbBits(v, n)[..i + 1][i];
  }

  lemma {:induction false} LsbValueSnoc(s: seq<bool>, b: bool)
    ensures LsbValue(s + [b]) == LsbValue(s) + (if b then Pow2(|s|) else 0)
  {
    if s != [] {
      LsbValueSnoc(s[1..], b);
      assert (s + [b])[1..] == s[1..] + [b];
    }
  }

  /** The bits of a byte string in stream order: byte by byte, LSB first. */
  function BitsOf(data: seq<byte>): (s: seq<bool>)
    ensures |s| == 8 * |data|
  {
    if data == [] then [] else LsbBits(data[0], 8) + BitsOf(data[1..])
  }

  lemma {:induction false} BitsOfConcat(a: seq<byte>, b: seq<byte>)
    ensures BitsOf(a + b) == BitsOf(a) + BitsOf(b)
  {
    if a == [] {
      assert a + b == b;
    } else {
      assert BitsOf(a + b) == LsbBits(a[0], 8) + BitsOf(a[1..] + b) by {
        assert (a + b)[1..] == a[1..] + b;
      }
      BitsOfConcat(a[1..], b);
    }
  }

  lemma BitsOfSplit(data: seq<byte>, k: nat)
    requires k <= |data|
    ensures BitsOf(data[..k]) == BitsOf(data)[..8 * k]
    ensures BitsOf(data[k..]) == BitsOf(data)[8 * k..]
  {
    hide BitsOf;
    BitsOfConcat(data[..k], data[k..]);
    assert data == data[..k] + data[k..];
  }
}
