/**
 Single bits of a byte, as the frame bitmap and packed pixels use them.
 */
module ByteBits {
  /** 1 << k */
  function Mask(k: nat): (m: bv8)
    requires k < 8
  {
    match k
    case 0 => 1
    case 1 => 2
    case 2 => 4
    case 3 => 8
    case 4 => 16
    case 5 => 32
    case 6 => 64
    case _ => 128
  }

  lemma MaskBits(b: bv8, j: nat, k: nat)
    requires j < 8 && k < 8
    ensures ((b | Mask(j)) & Mask(k)) != 0 <==> j == k || (b & Mask(k)) != 0
    ensures ((b & !Mask(j)) & Mask(k)) != 0 <==> j != k && (b & Mask(k)) != 0
  {
  }

  function TestBit(b: bv8, k: nat): (r: bool)
    requires k < 8
  {
    b & Mask(k) != 0
  }

  function WithBit(b: bv8, k: nat, value: bool): (r: bv8)
    requires k < 8
  {
    if value then b | Mask(k) else b & !Mask(k)
  }

  lemma TestWithBit(b: bv8, j: nat, k: nat, value: bool)
    requires j < 8 && k < 8
    ensures TestBit(WithBit(b, j, value), k) == if j == k then value else TestBit(b, k)
  {
    hide Mask;
    MaskBits(b, j, k);
  }

  /** Bit k of a byte is its binary digit of value 2^k. */
  lemma BitIsDigit(b: bv8, k: nat)
    requires k < 8
    ensures TestBit(b, k) <==> (b >> (k as bv3)) & 1 == 1
  {
  }
}
