/**
 Absolute values and products.
 */
module Arithmetic {
  function Abs(x: int): (r: nat) {
    if x < 0 then -x else x
  }

  lemma Distribute(a: nat, b: nat, p: nat)
    ensures (a + b) * p == a * p + b * p
  {
  }

  lemma MulMonotone(a: nat, b: nat, p: nat)
    requires a <= b
    ensures a * p <= b * p
  {
  }

  /** A product as a function, so that proofs can treat it as a term. */
  function Product(a: nat, b: nat): (r: nat) {
    a * b
  }

  lemma ProductNext(a: nat, b: nat)
    ensures Product(a + 1, b) == Product(a, b) + b && Product(0, b) == 0
  {
  }

  lemma ProductGrows(a: nat, b: nat, c: nat)
    requires b <= c
    ensures Product(a, b) <= Product(a, c) && (a > 0 && b < c ==> Product(a, b) < Product(a, c))
  {
    assert a * c == a * b + a * (c - b);
  }
}
