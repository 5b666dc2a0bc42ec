/**
 The bit format of a Huffman-coded DEFLATE block (RFC 1951 section 3.2.3): how a
 list of tokens is laid out in bits, and what a decoder makes of any bit stream.
 */
module HuffmanBlock {
  import opened BitSequence
  import opened Wrappers
  import opened BitIo
  import opened Huffman
  import opened HuffmanTable
  import opened HuffmanTree
  import opened Lz77

  const END_CODE: nat := 256
  const LAST_LENGTH_CODE: nat := 285

  /** Code lengths of the literal/length and of the distance alphabet. */
  datatype Codes = Codes(ll: seq<nat>, d: seq<nat>) {
    ghost predicate Valid() {
      UsableCode(ll, MAX_BITS) && UsableCode(d, MAX_BITS)
    }
  }

  /** Every symbol the token needs has a code. */
  predicate Encodable(codes: Codes, t: Token) {
    && t.Valid()
    && match t
       case Literal(b) => Present(codes.ll, b)
       case Copy(lc, _, dc, _) => Present(codes.ll, FIRST_LENGTH_CODE + lc) && Present(codes.d, dc)
  }

  ghost predicate AllEncodable(codes: Codes, tokens: seq<Token>) {
    forall i :: 0 <= i < |tokens| ==> Encodable(codes, tokens[i])
  }

  /** One token in the stream: code, extra length bits, distance code, extra distance bits. */
  function TokenBits(codes: Codes, t: Token): seq<bool>
    requires Encodable(codes, t)
  {
    match t
    case Literal(b) => Codeword(codes.ll, b)
    case Copy(lc, le, dc, de) =>
      Codeword(codes.ll, FIRST_LENGTH_CODE + lc) + LsbBits(le, LengthExtra(lc))
      + Codeword(codes.d, dc) + LsbBits(de, DistanceExtra(dc))
  }

  ghost function TokenStream(codes: Codes, tokens: seq<Token>): seq<bool>
    requires AllEncodable(codes, tokens)
  {
    if tokens == [] then [] else TokenBits(codes, tokens[0]) + TokenStream(codes, tokens[1..])
  }

  /** The tokens of a block and the end code. */
  ghost function BlockBits(codes: Codes, tokens: seq<Token>): seq<bool>
    requires AllEncodable(codes, tokens) && Present(codes.ll, END_CODE)
  {
    TokenStream(codes, tokens) + Codeword(codes.ll, END_CODE)
  }

  /** The tokens stand for the bytes from `start` to `end`, given those before. */
  ghost predicate Represents(tokens: seq<Token>, data: seq<byte>, start: nat, end: nat) {
    start <= end <= |data| && ValidTokens(tokens) && Expand(data[..start], tokens) == Some(data[..end])
  }

  // Decoding any stream.

  datatype Item = Tok(token: Token) | End | Bad

  /** What the stream holds at bit p, and the position after it. */
  ghost function ReadItem(codes: Codes, data: seq<byte>, p: nat): (r: (Item, nat))
    requires codes.Valid()
    ensures r.1 > p && (r.0.Tok? ==> r.0.token.Valid())
  {
    var s := SymbolAt(codes.ll, data, p);
    var p1 := p + LengthOf(codes.ll, s);
    if s <= 255 then (Tok(Literal(s)), p1)
    else if s == END_CODE then (End, p1)
    else if s <= LAST_LENGTH_CODE then ReadCopy(codes, data, s - FIRST_LENGTH_CODE, p1)
    else (Bad, p1)
  }

  ghost function ReadCopy(codes: Codes, data: seq<byte>, lc: nat, p: nat): (r: (Item, nat))
    requires codes.Valid() && lc < NUM_LENGTH_CODES
    ensures r.1 >= p && !r.0.End? && (r.0.Tok? ==> r.0.token.Valid())
  {
    var le := LsbValue(Ahead(data, p, LengthExtra(lc)));
    LsbValueBound(Ahead(data, p, LengthExtra(lc)));
    var p1 := p + LengthExtra(lc);
    var dc := SymbolAt(codes.d, data, p1);
    var p2 := p1 + LengthOf(codes.d, dc);
    if dc >= NUM_DISTANCE_CODES then (Bad, p2)
    else
      var de := LsbValue(Ahead(data, p2, DistanceExtra(dc)));
      LsbValueBound(Ahead(data, p2, DistanceExtra(dc)));
      (Tok(Copy(lc, le, dc, de)), p2 + DistanceExtra(dc))
  }

  /**
   Decode items from bit p until the end code: the bytes after `out` and the position just past
   the end code, or None if the stream is malformed or runs out.
   */
  ghost function Inflate(codes: Codes, data: seq<byte>, p: nat, out: seq<byte>): (r: Option<(seq<byte>, nat)>)
    requires codes.Valid()
    ensures r.Some? ==> p < r.value.1 <= 8 * |data| && |out| <= |r.value.0|
    decreases 8 * |data| + 1 - p
  {
    if p > 8 * |data| then None
    else
      var (item, p') := ReadItem(codes, data, p);
      match item
      case Bad => None
      case End => if p' <= 8 * |data| then Some((out, p')) else None
      case Tok(t) =>
        var next := Step(out, t);
        if next.None? then None else Inflate(codes, data, p', next.value)
  }

  // A stream that holds tokens is read back as those tokens.

  lemma ReadSymbol(lengths: seq<nat>, data: seq<byte>, p: nat, s: nat, rest: seq<bool>)
    requires UsableCode(lengths, MAX_BITS) && Present(lengths, s)
    requires Ahead(data, p, lengths[s] + |rest|) == Codeword(lengths, s) + rest
    ensures SymbolAt(lengths, data, p) == s
    ensures Ahead(data, p + lengths[s], |rest|) == rest
  {
    hide Codeword, Ahead, UsableCode;
    AheadSplit(data, p, lengths[s], lengths[s] + |rest|);
    SymbolAtIs(lengths, data, p, s);
  }

  lemma ReadNumber(data: seq<byte>, p: nat, v: nat, n: nat, rest: seq<bool>)
    requires v < Pow2(n) && Ahead(data, p, n + |rest|) == LsbBits(v, n) + rest
    ensures LsbValue(Ahead(data, p, n)) == v
    ensures Ahead(data, p + n, |rest|) == rest
  {
    hide LsbBits, Ahead, LsbValue, Pow2;
    AheadSplit(data, p, n, n + |rest|);
    LsbValueOfBits(v, n);
    ModIs(v, Pow2(n), 0, v);
  }

  lemma ReadToken(codes: Codes, data: seq<byte>, p: nat, t: Token)
    requires codes.Valid() && Encodable(codes, t)
    requires Ahead(data, p, |TokenBits(codes, t)|) == TokenBits(codes, t)
    ensures ReadItem(codes, data, p) == (Tok(t), p + |TokenBits(codes, t)|)
  {
    hide Codeword, LsbBits, Ahead, LsbValue, UsableCode, Pow2, LengthExtra, DistanceExtra, ReadCopy;
    match t {
      case Literal(b) =>
        assert Codeword(codes.ll, b) == Codeword(codes.ll, b) + [];
        ReadSymbol(codes.ll, data, p, b, []);
      case Copy(lc, le, dc, de) =>
        var s := FIRST_LENGTH_CODE + lc;
        var tail := LsbBits(le, LengthExtra(lc)) + Codeword(codes.d, dc) + LsbBits(de, DistanceExtra(dc));
        assert TokenBits(codes, t) == Codeword(codes.ll, s) + tail;
        ReadSymbol(codes.ll, data, p, s, tail);
        ReadCopyFields(codes, data, p + codes.ll[s], t);
    }
  }

  lemma ReadCopyFields(codes: Codes, data: seq<byte>, p: nat, t: Token)
    requires codes.Valid() && t.Copy? && Encodable(codes, t)
    requires var bits := LsbBits(t.lengthExtra, LengthExtra(t.lengthCode)) + Codeword(codes.d, t.distCode)
                       + LsbBits(t.distExtra, DistanceExtra(t.distCode));
             Ahead(data, p, |bits|) == bits
    ensures ReadCopy(codes, data, t.lengthCode, p)
         == (Tok(t), p + LengthExtra(t.lengthCode) + codes.d[t.distCode] + DistanceExtra(t.distCode))
  {
    hide Codeword, LsbBits, Ahead, LsbValue, UsableCode, Pow2, LengthExtra, DistanceExtra;
    var n, m := LengthExtra(t.lengthCode), DistanceExtra(t.distCode);
    var number, code, number2 := LsbBits(t.lengthExtra, n), Codeword(codes.d, t.distCode), LsbBits(t.distExtra, m);
    assert number + code + number2 == number + (code + number2);
    ReadNumber(data, p, t.lengthExtra, n, code + number2);
    ReadSymbol(codes.d, data, p + n, t.distCode, number2);
    assert number2 == number2 + [];
    ReadNumber(data, p + n + codes.d[t.distCode], t.distExtra, m, []);
  }

  lemma {:induction false} ExpandFront(history: seq<byte>, tokens: seq<Token>)
    requires ValidTokens(tokens) && tokens != [] && Expand(history, tokens).Some?
    ensures Step(history, tokens[0]).Some?
    ensures Expand(history, tokens) == Expand(Step(history, tokens[0]).value, tokens[1..])
    decreases |tokens|
  {
    var n := |tokens| - 1;
    if n > 0 {
      ExpandFront(history, tokens[..n]);
      assert tokens[..n][1..] == tokens[1..][..n - 1];
    }
  }

  lemma ExpandOfNothing(history: seq<byte>)
    ensures Expand(history, []) == Some(history)
  {
  }

  /** Decoding a written block gives back what its tokens expand to and stops right after the end code. */
  lemma {:induction false} InflateOfTokens(codes: Codes, data: seq<byte>, p: nat, out: seq<byte>, tokens: seq<Token>)
    requires codes.Valid() && ValidTokens(tokens) && AllEncodable(codes, tokens) && Present(codes.ll, END_CODE)
    requires var bits := BlockBits(codes, tokens);
             p + |bits| <= 8 * |data| && Ahead(data, p, |bits|) == bits
    requires Expand(out, tokens).Some?
    ensures Inflate(codes, data, p, out) == Some((Expand(out, tokens).value, p + |BlockBits(codes, tokens)|))
    decreases |tokens|
  {
    hide Ahead, UsableCode, Encodable, Step, TokenBits, Expand, BlockBits, Inflate, ReadItem, Token.Valid;
    if tokens == [] {
      InflateEnd(codes, data, p, out);
      ExpandOfNothing(out);
    } else {
      var first, rest := TokenBits(codes, tokens[0]), BlockBits(codes, tokens[1..]);
      BlockBitsFront(codes, tokens);
      AheadSplit(data, p, |first|, |first| + |rest|);
      ReadToken(codes, data, p, tokens[0]);
      ExpandFront(out, tokens);
      InflateStep(codes, data, p, out, tokens[0], p + |first|);
      InflateOfTokens(codes, data, p + |first|, Step(out, tokens[0]).value, tokens[1..]);
    }
  }

  lemma BlockBitsFront(codes: Codes, tokens: seq<Token>)
    requires tokens != [] && AllEncodable(codes, tokens) && Present(codes.ll, END_CODE)
    ensures BlockBits(codes, tokens) == TokenBits(codes, tokens[0]) + BlockBits(codes, tokens[1..])
  {
    hide Codeword, Encodable, TokenBits;
  }

  lemma InflateEnd(codes: Codes, data: seq<byte>, p: nat, out: seq<byte>)
    requires codes.Valid() && Present(codes.ll, END_CODE)
    requires var bits := BlockBits(codes, []); p + |bits| <= 8 * |data| && Ahead(data, p, |bits|) == bits
    ensures Inflate(codes, data, p, out) == Some((out, p + |BlockBits(codes, [])|))
  {
    hide Codeword, Ahead, UsableCode;
    var end := Codeword(codes.ll, END_CODE);
    assert BlockBits(codes, []) == end + [];
    ReadSymbol(codes.ll, data, p, END_CODE, []);
  }

  lemma InflateStep(codes: Codes, data: seq<byte>, p: nat, out: seq<byte>, t: Token, q: nat)
    requires codes.Valid() && p <= 8 * |data| && ReadItem(codes, data, p) == (Tok(t), q) && t.Valid()
    requires Step(out, t).Some?
    ensures Inflate(codes, data, p, out) == Inflate(codes, data, q, Step(out, t).value)
  {
    hide ReadItem, Step, UsableCode, Token.Valid;
  }

  lemma {:induction false} TokenStreamConcat(codes: Codes, a: seq<Token>, b: seq<Token>)
    requires AllEncodable(codes, a) && AllEncodable(codes, b)
    ensures AllEncodable(codes, a + b)
    ensures TokenStream(codes, a + b) == TokenStream(codes, a) + TokenStream(codes, b)
    decreases |a|
  {
    hide TokenBits;
    if a == [] {
      assert a + b == b;
    } else {
      assert (a + b)[1..] == a[1..] + b;
      TokenStreamConcat(codes, a[1..], b);
    }
  }
}
