/**
 The LZ77 encoder: hash chains over a circular window, a second chain for runs
 of zeros, and lazy matching that can step back one byte.
 */
module Lz77Encoder {
  import opened BitSequence
  import opened Wrappers
  import opened Lz77

  const HASH_NUM_VALUES: nat := 65536

  function Min(a: nat, b: nat): nat {
    if a < b then a else b
  }

  ghost predicate ZeroRun(data: seq<byte>, pos: nat, count: nat) {
    && pos + count <= |data|
    && forall k :: pos <= k < pos + count ==> data[k] == 0
  }

  // Positions in the circular window.

  /** The distance from window slot `slot` back from position `pos`. */
  function SlotDistance(pos: nat, slot: nat, window: nat): (d: nat)
    requires 0 < window && slot < window
    ensures d < window
  {
    if slot <= pos % window then pos % window - slot else pos % window - slot + window
  }

  /** A slot that has been filled names the last position, at most one lap back, that fell on it. */
  lemma SlotPosition(pos: nat, slot: nat, window: nat)
    requires 0 < window && slot < Min(pos + 1, window)
    ensures SlotDistance(pos, slot, window) <= pos
    ensures (pos - SlotDistance(pos, slot, window)) % window == slot
  {
    var d, q := SlotDistance(pos, slot, window), pos / window;
    assert pos == window * q + pos % window;
    if slot <= pos % window {
      ModIs(pos - d, window, q, slot);
    } else {
      PositiveFactor(window, q);
      MulAtLeast(window, q);
      assert window * (q - 1) == window * q - window;
      ModIs(pos - d, window, q - 1, slot);
    }
  }

  /** Two different positions less than one lap apart fall on different slots. */
  lemma SlotsDiffer(p: nat, pos: nat, window: nat)
    requires 0 < window && p < pos < p + window
    ensures p % window != pos % window
  {
    if p % window == pos % window {
      var d := pos / window - p / window;
      assert window * d == window * (pos / window) - window * (p / window) == pos - p;
      PositiveFactor(window, d);
      MulAtLeast(window, d);
    }
  }

  lemma PositiveFactor(m: int, d: int)
    requires m > 0 && m * d > 0
    ensures d >= 1
  {
  }

  /** The 16-bit hash of up to three bytes. */
  function GetHash(data: seq<byte>, size: nat, pos: nat): (h: nat)
    requires size <= |data|
    ensures h < HASH_NUM_VALUES
  {
    if pos + 2 < size then
      ((data[pos] as bv16) ^ ((data[pos + 1] as bv16) << 4) ^ ((data[pos + 2] as bv16) << 8)) as int
    else if pos >= size then 0
    else if pos + 1 < size then
      ((data[pos] as bv16) ^ ((data[pos + 1] as bv16) << 8)) as int
    else
      data[pos]
  }

  method CountZeros(data: seq<byte>, size: nat, pos: nat) returns (count: nat)
    requires pos < size <= |data|
    ensures count <= MAX_LENGTH && pos + count <= size && ZeroRun(data, pos, count)
    ensures count == MAX_LENGTH || pos + count == size || data[pos + count] != 0
  {
    var end := pos + MAX_LENGTH;
    if end > size {
      end := size;
    }
    var p := pos;
    while p != end && data[p] == 0
      invariant pos <= p <= end
      invariant forall k :: pos <= k < p ==> data[k] == 0
      decreases end - p
    {
      p := p + 1;
    }
    count := p - pos;
  }

  /** The hash tables shared by all blocks of one stream. */
  class Hash {
    const windowSize: nat
    const head: array<int>
    const val: array<int>
    const headz: array<int>
    const chain: array<nat>
    const chainz: array<nat>
    const zeros: array<nat>

    ghost predicate Valid() {
      && head.Length == HASH_NUM_VALUES && headz.Length == MAX_LENGTH + 1
      && val.Length == chain.Length == chainz.Length == zeros.Length == windowSize
      && head != val && head != headz && val != headz
      && chain != chainz && chain != zeros && chainz != zeros
    }

    /** Every head and every link leads to one of the `filled` slots; the other slots link to themselves. */
    static ghost predicate Linked(head: seq<int>, chain: seq<nat>, filled: nat) {
      && filled <= |chain|
      && (forall h :: 0 <= h < |head| ==> head[h] == -1 || 0 <= head[h] < filled)
      && (forall e :: 0 <= e < filled ==> chain[e] < filled)
      && (forall e :: filled <= e < |chain| ==> chain[e] == e)
    }

    /**
     The tables describe the first `visited` positions of `data`: every link leads to a
     slot that has been filled, and every zero count is a real run of zeros at the latest
     position of its slot.
     */
    ghost predicate Describes(data: seq<byte>, visited: nat)
      requires Valid()
      reads head, headz, chain, chainz, zeros
    {
      && visited <= |data|
      && Linked(head[..], chain[..], Min(visited, windowSize))
      && Linked(headz[..], chainz[..], Min(visited, windowSize))
      && CountsZeros(data, visited)
    }

    ghost predicate CountsZeros(data: seq<byte>, visited: nat)
      requires Valid()
      reads zeros
    {
      forall p :: 0 <= p && visited - windowSize <= p < visited ==>
        0 < windowSize && ZeroRun(data, p, zeros[p % windowSize])
    }

    constructor (windowSize: nat)
      ensures Valid() && this.windowSize == windowSize
      ensures fresh(head) && fresh(val) && fresh(headz) && fresh(chain) && fresh(chainz) && fresh(zeros)
      ensures forall data :: Describes(data, 0)
    {
      this.windowSize := windowSize;
      head := new int[HASH_NUM_VALUES](_ => -1);
      val := new int[windowSize](_ => -1);
      headz := new int[MAX_LENGTH + 1](_ => -1);
      chain := new nat[windowSize](i => i);
      chainz := new nat[windowSize](i => i);
      zeros := new nat[windowSize];
    }

    /** Make slot wpos the newest of its list, keeping the old link when the list was empty. */
    static method Link(heads: array<int>, links: array<nat>, list: nat, wpos: nat, ghost filled: nat)
      requires list < heads.Length && wpos < filled && Linked(heads[..], links[..], filled)
      modifies heads, links
      ensures Linked(heads[..], links[..], filled)
    {
      if heads[list] != -1 {
        links[wpos] := heads[list];
      }
      heads[list] := wpos;
    }

    static lemma FillSlot(head: seq<int>, chain: seq<nat>, pos: nat, window: nat, visited: nat)
      requires 0 < window == |chain| && (visited == pos || visited == pos + 1)
      requires Linked(head, chain, Min(visited, window))
      ensures pos % window < Min(pos + 1, window)
      ensures Linked(head, chain, Min(pos + 1, window))
    {
      if pos < window {
        ModIs(pos, window, 0, pos);
      }
    }

    method Update(ghost data: seq<byte>, ghost visited: nat, ghost pos: nat, wpos: nat, hashval: nat, numzeros: nat)
      requires Valid() && 0 < windowSize && Describes(data, visited)
      requires pos < |data| && (visited == pos || visited == pos + 1)
      requires wpos == pos % windowSize && hashval < HASH_NUM_VALUES
      requires numzeros <= MAX_LENGTH && ZeroRun(data, pos, numzeros)
      modifies head, val, headz, chain, chainz, zeros
      ensures Describes(data, pos + 1)
    {
      FillSlot(head[..], chain[..], pos, windowSize, visited);
      FillSlot(headz[..], chainz[..], pos, windowSize, visited);
      val[wpos] := hashval;
      Link(head, chain, hashval, wpos, Min(pos + 1, windowSize));
      RecordZeros(data, visited, pos, wpos, numzeros);
      Link(headz, chainz, numzeros, wpos, Min(pos + 1, windowSize));
    }

    method RecordZeros(ghost data: seq<byte>, ghost visited: nat, ghost pos: nat, wpos: nat, numzeros: nat)
      requires Valid() && 0 < windowSize && CountsZeros(data, visited)
      requires visited == pos || visited == pos + 1
      requires wpos == pos % windowSize && ZeroRun(data, pos, numzeros)
      modifies zeros
      ensures CountsZeros(data, pos + 1)
    {
      zeros[wpos] := numzeros;
      forall p | 0 <= p && pos + 1 - windowSize <= p < pos
        ensures p % windowSize != wpos
      {
        SlotsDiffer(p, pos, windowSize);
      }
    }

    /** Forget the newest chain heads, so that the position about to be revisited is linked only once. */
    method DropHeads(ghost data: seq<byte>, ghost visited: nat, hashval: nat, numzeros: nat)
      requires Valid() && Describes(data, visited)
      requires hashval < HASH_NUM_VALUES && numzeros <= MAX_LENGTH
      modifies head, headz
      ensures Describes(data, visited)
    {
      head[hashval] := -1;
      headz[numzeros] := -1;
    }
  }

  /** Length of the match `offset` back, skipping the zeros both positions are known to start with. */
  method MatchLength(data: seq<byte>, pos: nat, offset: nat, last: nat, skip: nat) returns (length: nat)
    requires 0 < offset <= pos && last <= |data| && pos + skip <= last
    requires ZeroRun(data, pos, skip) && ZeroRun(data, pos - offset, skip)
    ensures skip <= length && pos + length <= last && MatchAt(data, pos, length, offset)
    ensures pos + length == last || data[pos + length] != data[pos + length - offset]
  {
    var fore := pos + skip;
    while fore != last && data[fore - offset] == data[fore]
      invariant pos + skip <= fore <= last
      invariant forall k :: pos <= k < fore ==> data[k] == data[k - offset]
      decreases last - fore
    {
      fore := fore + 1;
    }
    length := fore - pos;
  }

  /** Walk the chains from position pos; what is returned is a real match inside the window. */
  method FindMatch(hash: Hash, data: seq<byte>, insize: nat, pos: nat, hashval: nat, numzeros: nat,
                   nicematch: nat, maxchainlength: nat)
    returns (length: nat, offset: nat)
    requires hash.Valid() && 0 < hash.windowSize && hash.Describes(data, pos + 1)
    requires pos < insize <= |data| && pos + numzeros <= insize
    requires numzeros <= MAX_LENGTH && ZeroRun(data, pos, numzeros)
    ensures length <= MAX_LENGTH && pos + length <= insize
    ensures length > 0 ==> MatchAt(data, pos, length, offset) && offset < hash.windowSize
  {
    var window := hash.windowSize;
    var wpos := pos % window;
    Hash.FillSlot(hash.head[..], hash.chain[..], pos, window, pos + 1);
    length, offset := 0, 0;
    var hashpos: nat := hash.chain[wpos];
    var last := if insize < pos + MAX_LENGTH then insize else pos + MAX_LENGTH;
    var prevOffset, chainlength := 0, 0;
    while chainlength < maxchainlength
      invariant hashpos < Min(pos + 1, window)
      invariant pos + length <= last
      invariant length > 0 ==> MatchAt(data, pos, length, offset) && offset < window
    {
      chainlength := chainlength + 1;
      var currentOffset := SlotDistance(pos, hashpos, window);
      if currentOffset < prevOffset {
        break;
      }
      prevOffset := currentOffset;
      if currentOffset > 0 {
        SlotPosition(pos, hashpos, window);
        var skip := 0;
        if numzeros >= 3 {
          skip := if hash.zeros[hashpos] > numzeros then numzeros else hash.zeros[hashpos];
          assert ZeroRun(data, pos - currentOffset, hash.zeros[(pos - currentOffset) % window]);
        }
        var currentLength := MatchLength(data, pos, currentOffset, last, skip);
        if currentLength > length {
          length, offset := currentLength, currentOffset;
          if currentLength >= nicematch {
            break;
          }
        }
      }
      if hashpos == hash.chain[hashpos] {
        break;
      }
      if numzeros >= 3 && length > numzeros {
        hashpos := hash.chainz[hashpos];
        if hash.zeros[hashpos] != numzeros {
          break;
        }
      } else {
        hashpos := hash.chain[hashpos];
        if hash.val[hashpos] != hashval {
          break;
        }
      }
    }
  }

  /**
   Keep `numzeros` a lower bound for the run of zeros at pos. It was one for pos itself
   (a revisited position) or for the position before.
   */
  method NextZeros(data: seq<byte>, insize: nat, pos: nat, hashval: nat, numzeros: nat) returns (z: nat)
    requires pos < insize <= |data| && numzeros <= MAX_LENGTH
    requires ZerosKnown(data, insize, pos, numzeros)
    ensures z <= MAX_LENGTH && pos + z <= insize && ZeroRun(data, pos, z)
    ensures ZerosKnown(data, insize, pos, z) && ZerosKnown(data, insize, pos + 1, z)
  {
    z := numzeros;
    if hashval == 0 {
      if z == 0 {
        z := CountZeros(data, insize, pos);
      } else if pos + z > insize || data[pos + z - 1] != 0 {
        z := z - 1;
      }
    } else {
      z := 0;
    }
  }

  ghost predicate ZerosKnown(data: seq<byte>, insize: nat, pos: nat, z: nat) {
    || z == 0
    || (pos + z <= insize && ZeroRun(data, pos, z))
    || (pos > 0 && pos - 1 + z <= insize && ZeroRun(data, pos - 1, z))
  }

  predicate IsPowerOfTwo(w: nat) {
    w in {1, 2, 4, 8, 16, 32, 64, 128, 256, 512, 1024, 2048, 4096, 8192, 16384, 32768}
  }

  /** The error for a window size that is out of range or not a power of two. */
  function WindowError(windowsize: nat): nat {
    if windowsize == 0 || windowsize > MAX_WINDOW then 60
    else if !IsPowerOfTwo(windowsize) then 90
    else 0
  }

  /** Sixteen window sizes are accepted: the powers of two up to 2^15. */
  lemma WindowSizes(w: nat)
    ensures WindowError(w) == 0 <==> exists k: nat :: k <= 15 && w == Pow2(k)
    ensures WindowError(w) == 60 <==> w == 0 || w > 32768
  {
    hide Pow2;
    SmallPowers();
    if IsPowerOfTwo(w) {
      var k := if w == 1 then 0 else if w == 2 then 1 else if w == 4 then 2 else if w == 8 then 3
               else if w == 16 then 4 else if w == 32 then 5 else if w == 64 then 6 else if w == 128 then 7
               else if w == 256 then 8 else if w == 512 then 9 else if w == 1024 then 10 else if w == 2048 then 11
               else if w == 4096 then 12 else if w == 8192 then 13 else if w == 16384 then 14 else 15;
      assert w == Pow2(k);
    }
  }

  /** Hash the positions covered by a match just emitted. */
  method SkipMatch(hash: Hash, data: seq<byte>, insize: nat, start: nat, length: nat,
                   ghost visited: nat, numzeros: nat)
    returns (z: nat)
    requires hash.Valid() && 0 < hash.windowSize && hash.Describes(data, visited)
    requires 3 <= length && start + length <= insize <= |data|
    requires visited == start + 1 || visited == start + 2
    requires numzeros <= MAX_LENGTH && ZerosKnown(data, insize, start + 1, numzeros)
    modifies hash.head, hash.val, hash.headz, hash.chain, hash.chainz, hash.zeros
    ensures hash.Describes(data, start + length)
    ensures z <= MAX_LENGTH && ZerosKnown(data, insize, start + length, z)
  {
    z := numzeros;
    ghost var v: nat := visited;
    for i := 1 to length
      invariant hash.Describes(data, v) && (v == start + i || (i == 1 && v == start + 2))
      invariant z <= MAX_LENGTH && ZerosKnown(data, insize, start + i, z)
    {
      var pos := start + i;
      var hashval := GetHash(data, insize, pos);
      z := NextZeros(data, insize, pos, hashval, z);
      hash.Update(data, v, pos, pos % hash.windowSize, hashval, z);
      v := pos + 1;
    }
  }

  /** A usable match at pos, within the range and the window. */
  ghost predicate GoodMatch(data: seq<byte>, insize: nat, pos: nat, length: nat, offset: nat, window: nat) {
    length <= MAX_LENGTH && pos + length <= insize && offset < window && MatchAt(data, pos, length, offset)
  }

  /** The symbols emitted so far are the given tokens and expand to the bytes before `upto`. */
  ghost predicate Emitted(data: seq<byte>, inpos: nat, upto: int, out: seq<nat>, tokens: seq<Token>) {
    && inpos <= upto <= |data| && ValidTokens(tokens) && out == Entries(tokens)
    && Expand(data[..inpos], tokens) == Some(data[..upto])
  }

  /** Enter position pos into the tables and search for its longest match. */
  method Visit(hash: Hash, data: seq<byte>, insize: nat, pos: nat, ghost visited: nat, numzeros: nat,
               nicematch: nat, maxchainlength: nat)
    returns (hashval: nat, z: nat, length: nat, offset: nat)
    requires hash.Valid() && 0 < hash.windowSize && hash.Describes(data, visited)
    requires pos < insize <= |data| && (visited == pos || visited == pos + 1)
    requires numzeros <= MAX_LENGTH && ZerosKnown(data, insize, pos, numzeros)
    modifies hash.head, hash.val, hash.headz, hash.chain, hash.chainz, hash.zeros
    ensures hash.Describes(data, pos + 1) && hashval < HASH_NUM_VALUES && z <= MAX_LENGTH
    ensures ZerosKnown(data, insize, pos, z) && ZerosKnown(data, insize, pos + 1, z)
    ensures length > 0 ==> GoodMatch(data, insize, pos, length, offset, hash.windowSize)
  {
    hashval := GetHash(data, insize, pos);
    z := NextZeros(data, insize, pos, hashval, numzeros);
    hash.Update(data, visited, pos, pos % hash.windowSize, hashval, z);
    length, offset := FindMatch(hash, data, insize, pos, hashval, z, nicematch, maxchainlength);
  }

  /** Emit a literal or, when it pays, the match found; hash the positions the match covers. */
  method Emit(hash: Hash, data: seq<byte>, inpos: nat, insize: nat, pos: nat, length: nat, offset: nat, minmatch: nat,
              ghost visited: nat, numzeros: nat, out: seq<nat>, ghost tokens: seq<Token>)
    returns (pos': nat, z: nat, out': seq<nat>, ghost tokens': seq<Token>, ghost visited': nat)
    requires hash.Valid() && 0 < hash.windowSize <= MAX_WINDOW && hash.Describes(data, visited)
    requires pos < insize <= |data| && (visited == pos + 1 || (visited == pos + 2 && length >= 3))
    requires length > 0 ==> GoodMatch(data, insize, pos, length, offset, hash.windowSize)
    requires numzeros <= MAX_LENGTH && ZerosKnown(data, insize, pos + 1, numzeros)
    requires Emitted(data, inpos, pos, out, tokens)
    modifies hash.head, hash.val, hash.headz, hash.chain, hash.chainz, hash.zeros
    ensures pos < pos' <= insize && Emitted(data, inpos, pos', out', tokens')
    ensures z <= MAX_LENGTH && ZerosKnown(data, insize, pos', z)
    ensures hash.Describes(data, visited')
    ensures visited' == pos' || (visited' == pos' + 1 && pos' < insize)
  {
    hide Hash.Describes, Emitted, ZerosKnown;
    if length < 3 || length < minmatch || (length == 3 && offset > 4096) {
      out', tokens' := PushLiteral(data, inpos, pos, out, tokens);
      pos', z, visited' := pos + 1, numzeros, visited;
    } else {
      out', tokens' := PushMatch(data, inpos, pos, length, offset, out, tokens);
      z := SkipMatch(hash, data, insize, pos, length, visited, numzeros);
      pos', visited' := pos + length, pos + length;
    }
  }

  /** Choose between the match at pos and the deferred one at pos - 1, stepping back for the latter. */
  method ResolveLazy(hash: Hash, data: seq<byte>, inpos: nat, insize: nat, pos: nat, length: nat, offset: nat,
                     lazylength: nat, lazyoffset: nat, hashval: nat, numzeros: nat,
                     out: seq<nat>, ghost tokens: seq<Token>)
    returns (pos': nat, length': nat, offset': nat, out': seq<nat>, ghost tokens': seq<Token>)
    requires hash.Valid() && pos + 1 <= |data| && hash.Describes(data, pos + 1)
    requires hashval < HASH_NUM_VALUES && numzeros <= MAX_LENGTH
    requires 0 < pos && Emitted(data, inpos, pos - 1, out, tokens)
    requires length > 0 ==> GoodMatch(data, insize, pos, length, offset, hash.windowSize)
    requires 3 <= lazylength && GoodMatch(data, insize, pos - 1, lazylength, lazyoffset, hash.windowSize)
    modifies hash.head, hash.headz
    ensures hash.Describes(data, pos + 1) && Emitted(data, inpos, pos', out', tokens')
    ensures GoodMatch(data, insize, pos', length', offset', hash.windowSize)
    ensures 3 <= length' && (pos' == pos || pos' == pos - 1)
  {
    hide Hash.Describes, GoodMatch, Emitted;
    pos', length', offset', out', tokens' := pos, length, offset, out, tokens;
    if length > lazylength + 1 {
      out', tokens' := PushLiteral(data, inpos, pos - 1, out, tokens);
    } else {
      length', offset' := lazylength, lazyoffset;
      hash.DropHeads(data, pos + 1, hashval, numzeros);
      pos' := pos - 1;
    }
  }

  lemma NothingEmitted(data: seq<byte>, inpos: nat, insize: nat)
    requires inpos <= insize <= |data|
    ensures ZerosKnown(data, insize, inpos, 0) && Emitted(data, inpos, inpos, [], [])
  {
  }

  lemma MatchInside(data: seq<byte>, insize: nat, pos: nat, length: nat, offset: nat, window: nat)
    requires GoodMatch(data, insize, pos, length, offset, window)
    ensures pos + length <= insize
  {
  }

  /** What follows once the match at pos is not deferred: choose, then emit. */
  method Settle(hash: Hash, data: seq<byte>, inpos: nat, insize: nat, pos: nat, length: nat, offset: nat, lazy: bool,
                lazylength: nat, lazyoffset: nat, hashval: nat, minmatch: nat, numzeros: nat,
                out: seq<nat>, ghost tokens: seq<Token>)
    returns (pos': nat, z: nat, out': seq<nat>, ghost tokens': seq<Token>, ghost visited': nat)
    requires hash.Valid() && 0 < hash.windowSize <= MAX_WINDOW && pos < insize <= |data|
    requires hash.Describes(data, pos + 1) && hashval < HASH_NUM_VALUES && numzeros <= MAX_LENGTH
    requires ZerosKnown(data, insize, pos, numzeros) && ZerosKnown(data, insize, pos + 1, numzeros)
    requires length > 0 ==> GoodMatch(data, insize, pos, length, offset, hash.windowSize)
    requires lazy ==> 0 < pos && 3 <= lazylength
    requires lazy ==> GoodMatch(data, insize, pos - 1, lazylength, lazyoffset, hash.windowSize)
    requires Emitted(data, inpos, if lazy then pos - 1 else pos, out, tokens)
    modifies hash.head, hash.val, hash.headz, hash.chain, hash.chainz, hash.zeros
    ensures (if lazy then pos - 1 else pos) < pos' <= insize && Emitted(data, inpos, pos', out', tokens')
    ensures z <= MAX_LENGTH && ZerosKnown(data, insize, pos', z) && hash.Describes(data, visited')
    ensures visited' == pos' || (visited' == pos' + 1 && pos' < insize)
  {
    hide Hash.Describes, GoodMatch, Emitted, ZerosKnown;
    var at, len, off := pos, length, offset;
    out', tokens' := out, tokens;
    if lazy {
      at, len, off, out', tokens' :=
        ResolveLazy(hash, data, inpos, insize, pos, length, offset, lazylength, lazyoffset, hashval, numzeros, out,
                    tokens);
    }
    pos', z, out', tokens', visited' :=
      Emit(hash, data, inpos, insize, at, len, off, minmatch, pos + 1, numzeros, out', tokens');
  }

  /** The encoder's main loop, for a valid window size. */
  method EncodeRange(hash: Hash, data: seq<byte>, inpos: nat, insize: nat, windowsize: nat, minmatch: nat,
                     nicematch: nat, lazymatching: bool)
    returns (out: seq<nat>, ghost tokens: seq<Token>)
    requires hash.Valid() && hash.windowSize == windowsize && 0 < windowsize <= MAX_WINDOW
    requires inpos <= insize <= |data| && hash.Describes(data, inpos)
    modifies hash.head, hash.val, hash.headz, hash.chain, hash.chainz, hash.zeros
    ensures Emitted(data, inpos, insize, out, tokens) && hash.Describes(data, insize)
  {
    hide *;
    NothingEmitted(data, inpos, insize);
    out, tokens := [], [];
    var maxchainlength := if windowsize >= 8192 then windowsize else windowsize / 8;
    var maxlazymatch := if windowsize >= 8192 then MAX_LENGTH else 64;
    var numzeros: nat, lazylength: nat, lazyoffset: nat := 0, 0, 0;
    var lazy := false;
    var pos := inpos;
    ghost var visited: nat := inpos;
    while pos < insize
      invariant inpos <= pos <= insize
      invariant visited == pos || (visited == pos + 1 && !lazy)
      invariant pos == insize ==> visited == pos
      invariant hash.Describes(data, visited)
      invariant numzeros <= MAX_LENGTH && ZerosKnown(data, insize, pos, numzeros)
      invariant lazy ==> 0 < pos < insize && 3 <= lazylength
      invariant lazy ==> GoodMatch(data, insize, pos - 1, lazylength, lazyoffset, windowsize)
      invariant Emitted(data, inpos, if lazy then pos - 1 else pos, out, tokens)
      decreases insize - (if lazy then pos - 1 else pos), if lazy then 0 else 1
    {
      var hashval, length, offset;
      hashval, numzeros, length, offset :=
        Visit(hash, data, insize, pos, visited, numzeros, nicematch, maxchainlength);
      visited := pos + 1;
      if lazymatching && !lazy && length >= 3 && length <= maxlazymatch && length < MAX_LENGTH {
        MatchInside(data, insize, pos, length, offset, windowsize);
        lazy, lazylength, lazyoffset := true, length, offset;
        pos := pos + 1;
        continue;
      }
      pos, numzeros, out, tokens, visited :=
        Settle(hash, data, inpos, insize, pos, length, offset, lazy, lazylength, lazyoffset, hashval, minmatch,
               numzeros, out, tokens);
      lazy := false;
    }
  }

  /**
   LZ77-encode data[inpos..insize], given tables that describe the bytes before inpos.
   The only errors are bad window sizes: the error exits for a match deferred from before
   the data (81) and for an offset outside the window (86) are never taken.
   Otherwise the symbols emitted expand, after the bytes before inpos, to exactly the
   bytes up to insize.
   */
  method EncodeLz77(hash: Hash, data: seq<byte>, inpos: nat, insize: nat, windowsize: nat,
                    minmatch: nat, nicematch: nat, lazymatching: bool)
    returns (error: nat, out: seq<nat>, ghost tokens: seq<Token>)
    requires hash.Valid() && hash.windowSize == windowsize
    requires inpos <= insize <= |data| && hash.Describes(data, inpos)
    modifies hash.head, hash.val, hash.headz, hash.chain, hash.chainz, hash.zeros
    ensures error == WindowError(windowsize)
    ensures error == 0 ==>
      && ValidTokens(tokens) && out == Entries(tokens)
      && Expand(data[..inpos], tokens) == Some(data[..insize])
      && hash.Describes(data, insize)
  {
    if windowsize == 0 || windowsize > MAX_WINDOW {
      return 60, [], [];
    }
    if !IsPowerOfTwo(windowsize) {
      return 90, [], [];
    }
    error := 0;
    out, tokens := EncodeRange(hash, data, inpos, insize, windowsize, minmatch,
                               if nicematch > MAX_LENGTH then MAX_LENGTH else nicematch, lazymatching);
  }

  method PushLiteral(data: seq<byte>, ghost inpos: nat, pos: nat, out: seq<nat>, ghost tokens: seq<Token>)
    returns (out': seq<nat>, ghost tokens': seq<Token>)
    requires pos < |data| && Emitted(data, inpos, pos, out, tokens)
    ensures Emitted(data, inpos, pos + 1, out', tokens')
  {
    out' := out + [data[pos]];
    tokens' := tokens + [Literal(data[pos])];
    AppendToken(data[..inpos], tokens, Literal(data[pos]));
    assert data[..pos] + [data[pos]] == data[..pos + 1];
  }

  method PushMatch(data: seq<byte>, ghost inpos: nat, ghost pos: nat, length: nat, offset: nat,
                   out: seq<nat>, ghost tokens: seq<Token>)
    returns (out': seq<nat>, ghost tokens': seq<Token>)
    requires 3 <= length <= MAX_LENGTH && offset < MAX_WINDOW && MatchAt(data, pos, length, offset)
    requires Emitted(data, inpos, pos, out, tokens)
    ensures Emitted(data, inpos, pos + length, out', tokens')
  {
    var token := LengthDistanceToken(length, offset);
    out' := out + token.Entries();
    tokens' := tokens + [token];
    AppendToken(data[..inpos], tokens, token);
    CopyBackOfMatch(data, pos, length, offset);
  }
}
