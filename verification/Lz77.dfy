/**
 The LZ77 layer of DEFLATE: the symbols exchanged between encoder and decoder,
 what a list of symbols expands to (RFC 1951 sections 3.2.3 and 3.2.5), and the
 conversion of a length/distance pair into base codes and extra bits.
 */
module Lz77 {
  import opened BitSequence
  import opened Wrappers

  const FIRST_LENGTH_CODE: nat := 257
  const MAX_LENGTH: nat := 258
  const MAX_WINDOW: nat := 32768

  const LENGTH_BASE: seq<nat> :=
    [3, 4, 5, 6, 7, 8, 9, 10, 11, 13, 15, 17, 19, 23, 27, 31, 35, 43, 51, 59,
     67, 83, 99, 115, 131, 163, 195, 227, 258]

  const LENGTH_EXTRA: seq<nat> :=
    [0, 0, 0, 0, 0, 0, 0, 0, 1, 1, 1, 1, 2, 2, 2, 2, 3, 3, 3, 3,
     4, 4, 4, 4, 5, 5, 5, 5, 0]

  const DISTANCE_BASE: seq<nat> :=
    [1, 2, 3, 4, 5, 7, 9, 13, 17, 25, 33, 49, 65, 97, 129, 193, 257, 385, 513,
     769, 1025, 1537, 2049, 3073, 4097, 6145, 8193, 12289, 16385, 24577]

  const DISTANCE_EXTRA: seq<nat> :=
    [0, 0, 0, 0, 1, 1, 2, 2, 3, 3, 4, 4, 5, 5, 6, 6, 7, 7, 8,
     8, 9, 9, 10, 10, 11, 11, 12, 12, 13, 13]

  const NUM_LENGTH_CODES: nat := 29
  const NUM_DISTANCE_CODES: nat := 30

  function LengthBase(code: nat): nat
    requires code < NUM_LENGTH_CODES
  {
    LENGTH_BASE[code]
  }

  function LengthExtra(code: nat): (n: nat)
    requires code < NUM_LENGTH_CODES
    ensures n <= 5
  {
    LENGTH_EXTRA[code]
  }

  function DistanceBase(code: nat): nat
    requires code < NUM_DISTANCE_CODES
  {
    DISTANCE_BASE[code]
  }

  function DistanceExtra(code: nat): (n: nat)
    requires code < NUM_DISTANCE_CODES
    ensures n <= 13
  {
    DISTANCE_EXTRA[code]
  }

  /** One unit of compressed data, as the code and extra-bit fields that carry it. */
  datatype Token =
    | Literal(value: byte)
    | Copy(lengthCode: nat, lengthExtra: nat, distCode: nat, distExtra: nat)
  {
    predicate Valid() {
      Copy? ==>
        && lengthCode < NUM_LENGTH_CODES && distCode < NUM_DISTANCE_CODES
        && lengthExtra < Pow2(LengthExtra(lengthCode))
        && distExtra < Pow2(DistanceExtra(distCode))
    }

    function Length(): nat
      requires Copy? && Valid()
    {
      LengthBase(lengthCode) + lengthExtra
    }

    function Distance(): nat
      requires Copy? && Valid()
    {
      DistanceBase(distCode) + distExtra
    }

    /** The entries that represent this token in the encoder's symbol vector. */
    function Entries(): seq<nat> {
      match this
      case Literal(b) => [b]
      case Copy(lc, le, dc, de) => [FIRST_LENGTH_CODE + lc, le, dc, de]
    }
  }

  ghost predicate ValidTokens(tokens: seq<Token>) {
    forall i :: 0 <= i < |tokens| ==> tokens[i].Valid()
  }

  function Entries(tokens: seq<Token>): seq<nat> {
    if tokens == [] then []
    else Entries(tokens[..|tokens| - 1]) + tokens[|tokens| - 1].Entries()
  }

  /** Byte-by-byte back-reference: each new byte repeats the one `distance` before it. */
  function CopyBack(out: seq<byte>, distance: nat, length: nat): (r: seq<byte>)
    requires 1 <= distance <= |out|
    ensures |r| == |out| + length
    decreases length
  {
    if length == 0 then out
    else CopyBack(out + [out[|out| - distance]], distance, length - 1)
  }

  lemma DistanceIsPositive(token: Token)
    requires token.Copy? && token.Valid()
    ensures 1 <= token.Distance()
  {
    assert forall i :: 0 <= i < |DISTANCE_BASE| ==> DISTANCE_BASE[i] >= 1;
  }

  lemma TokenRange(token: Token)
    requires token.Copy? && token.Valid()
    ensures 3 <= token.Length() <= MAX_LENGTH && 1 <= token.Distance() <= MAX_WINDOW
  {
    hide Pow2, LengthBase, LengthExtra, DistanceBase, DistanceExtra;
    LengthLimit(token.lengthCode);
    DistanceLimit(token.distCode);
  }

  lemma LengthLimit(code: nat)
    requires code < NUM_LENGTH_CODES
    ensures 3 <= LengthBase(code) && LengthBase(code) + Pow2(LengthExtra(code)) <= MAX_LENGTH + 1
  {
    hide Pow2;
    SmallPowers();
  }

  lemma DistanceLimit(code: nat)
    requires code < NUM_DISTANCE_CODES
    ensures 1 <= DistanceBase(code) && DistanceBase(code) + Pow2(DistanceExtra(code)) <= MAX_WINDOW + 1
  {
    hide Pow2;
    SmallPowers();
  }

  /** What the decoder does with one token; a distance past the start of the output is an error. */
  function Step(out: seq<byte>, token: Token): (r: Option<seq<byte>>)
    requires token.Valid()
  {
    match token
    case Literal(b) => Some(out + [b])
    case Copy(_, _, _, _) =>
      DistanceIsPositive(token);
      if token.Distance() > |out| then None
      else Some(CopyBack(out, token.Distance(), token.Length()))
  }

  lemma LiteralStep(out: seq<byte>, b: byte)
    ensures Step(out, Literal(b)) == Some(out + [b])
  {
  }

  /** The bytes a token list stands for, appended to the bytes already decoded. */
  ghost function Expand(history: seq<byte>, tokens: seq<Token>): (r: Option<seq<byte>>)
    requires ValidTokens(tokens)
  {
    if tokens == [] then Some(history)
    else
      var before := Expand(history, tokens[..|tokens| - 1]);
      if before.None? then None else Step(before.value, tokens[|tokens| - 1])
  }

  /** The `length` bytes from `pos` repeat those `distance` earlier. */
  ghost predicate MatchAt(data: seq<byte>, pos: nat, length: nat, distance: nat) {
    && 1 <= distance <= pos && pos + length <= |data|
    && forall k :: pos <= k < pos + length ==> data[k] == data[k - distance]
  }

  lemma {:induction false} CopyBackOfMatch(data: seq<byte>, pos: nat, length: nat, distance: nat)
    requires MatchAt(data, pos, length, distance)
    ensures CopyBack(data[..pos], distance, length) == data[..pos + length]
    decreases length
  {
    if length > 0 {
      assert data[..pos] + [data[pos - distance]] == data[..pos + 1];
      CopyBackOfMatch(data, pos + 1, length - 1, distance);
    }
  }

  lemma AppendToken(history: seq<byte>, tokens: seq<Token>, token: Token)
    requires ValidTokens(tokens) && token.Valid() && Expand(history, tokens).Some?
    ensures ValidTokens(tokens + [token])
    ensures Expand(history, tokens + [token]) == Step(Expand(history, tokens).value, token)
    ensures Entries(tokens + [token]) == Entries(tokens) + token.Entries()
  {
    assert (tokens + [token])[..|tokens|] == tokens;
  }

  // Searching the base tables.

  ghost predicate StrictlyIncreasing(a: seq<nat>) {
    forall i, j :: 0 <= i < j < |a| ==> a[i] < a[j]
  }

  /** Index of the largest entry not above value; 0 when every entry is above it. */
  method SearchCodeIndex(a: seq<nat>, value: nat) returns (index: nat)
    requires a != [] && StrictlyIncreasing(a)
    ensures index < |a|
    ensures index == 0 || a[index] <= value
    ensures index + 1 < |a| ==> value < a[index + 1]
  {
    var left, right := 1, |a| - 1;
    while left <= right
      invariant 1 <= left <= right + 1 <= |a|
      invariant forall i :: 1 <= i < left ==> a[i] < value
      invariant forall i :: right < i < |a| ==> a[i] >= value
    {
      var mid := (left + right) / 2;
      if a[mid] >= value {
        right := mid - 1;
      } else {
        left := mid + 1;
      }
    }
    if left >= |a| || a[left] > value {
      left := left - 1;
    }
    index := left;
  }

  lemma BaseTables()
    ensures StrictlyIncreasing(LENGTH_BASE) && StrictlyIncreasing(DISTANCE_BASE)
  {
    assert StrictlyIncreasing(LENGTH_BASE);
    LocallyIncreasing(DISTANCE_BASE);
  }

  lemma LocallyIncreasing(a: seq<nat>)
    requires forall i :: 0 <= i < |a| - 1 ==> a[i] < a[i + 1]
    ensures StrictlyIncreasing(a)
  {
    forall i, j | 0 <= i < j < |a|
      ensures a[i] < a[j]
    {
      var k := i + 1;
      while k < j
        invariant i < k <= j && a[i] < a[k]
      {
        k := k + 1;
      }
    }
  }

  /** Each base code reaches up to the next one, and the last ones exactly to the limits. */
  lemma LengthCodeCovers(code: nat, length: nat)
    requires code < NUM_LENGTH_CODES && LengthBase(code) <= length <= MAX_LENGTH
    requires code + 1 < NUM_LENGTH_CODES ==> length < LengthBase(code + 1)
    ensures length - LengthBase(code) < Pow2(LengthExtra(code))
  {
    SmallPowers();
  }

  lemma DistanceCodeCovers(code: nat, distance: nat)
    requires code < NUM_DISTANCE_CODES && DistanceBase(code) <= distance <= MAX_WINDOW
    requires code + 1 < NUM_DISTANCE_CODES ==> distance < DistanceBase(code + 1)
    ensures distance - DistanceBase(code) < Pow2(DistanceExtra(code))
  {
    SmallPowers();
  }

  /** The token for a match: the four values appended to the symbol vector. */
  method LengthDistanceToken(length: nat, distance: nat) returns (token: Token)
    requires 3 <= length <= MAX_LENGTH && 1 <= distance <= MAX_WINDOW
    ensures token.Copy? && token.Valid()
    ensures token.Length() == length && token.Distance() == distance
  {
    BaseTables();
    var lengthCode := SearchCodeIndex(LENGTH_BASE, length);
    var distCode := SearchCodeIndex(DISTANCE_BASE, distance);
    LengthCodeCovers(lengthCode, length);
    DistanceCodeCovers(distCode, distance);
    token := Copy(lengthCode, length - LENGTH_BASE[lengthCode], distCode, distance - DISTANCE_BASE[distCode]);
  }
}
