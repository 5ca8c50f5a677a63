/**
 * What SHA-1 and MD5 share: folding a compression function over 64-byte blocks, and a 64-bit bit count in two
 * words.
 */
module BlockHash {
  import opened Basics

  const WORD := 0x1_0000_0000
  const DOUBLE_WORD := 0x1_0000_0000_0000_0000
  const BLOCK := 64

  type Word = w: int | 0 <= w < WORD

  /** The state after the whole blocks of `m`; a last, incomplete block is not counted. */
  function Fold<S>(transform: (S, seq<Byte>) -> S, state: S, m: seq<Byte>): S
    decreases |m|
  {
    if |m| < BLOCK then state else Fold(transform, transform(state, m[..BLOCK]), m[BLOCK..])
  }

  /** The incomplete block at the end. */
  function Tail(m: seq<Byte>): seq<Byte>
    decreases |m|
  {
    if |m| < BLOCK then m else Tail(m[BLOCK..])
  }

  lemma {:induction false} TailLength(m: seq<Byte>)
    ensures |Tail(m)| == |m| % BLOCK
    decreases |m|
  {
    if |m| >= BLOCK {
      TailLength(m[BLOCK..]);
    }
  }

  /** A whole block taken off the front. */
  lemma FoldBlock<S>(transform: (S, seq<Byte>) -> S, state: S, m: seq<Byte>)
    requires |m| >= BLOCK
    ensures Fold(transform, state, m) == Fold(transform, transform(state, m[..BLOCK]), m[BLOCK..])
    ensures Tail(m) == Tail(m[BLOCK..])
  {
  }

  /** A started block filled up from the data. */
  lemma FillBlock(started: seq<Byte>, data: seq<Byte>)
    requires |started| <= BLOCK <= |started| + |data|
    ensures var i := BLOCK - |started|;
            (started + data)[..BLOCK] == started + data[..i] && (started + data)[BLOCK..] == data[i..]
  {
  }

  lemma NextBlock(data: seq<Byte>, i: nat)
    requires i + BLOCK <= |data|
    ensures data[i..][..BLOCK] == data[i..i + BLOCK] && data[i..][BLOCK..] == data[i + BLOCK..]
  {
  }

  lemma FoldShort<S>(transform: (S, seq<Byte>) -> S, state: S, m: seq<Byte>)
    requires |m| < BLOCK
    ensures Fold(transform, state, m) == state && Tail(m) == m
  {
  }

  /** A message continued: only its incomplete block matters for what follows. */
  lemma {:induction false} FoldContinues<S>(transform: (S, seq<Byte>) -> S, state: S, m: seq<Byte>, data: seq<Byte>)
    ensures Fold(transform, state, m + data) == Fold(transform, Fold(transform, state, m), Tail(m) + data)
    ensures Tail(m + data) == Tail(Tail(m) + data)
    decreases |m|
  {
    hide Fold, Tail;
    if |m| < BLOCK {
      FoldShort(transform, state, m);
    } else {
      FoldBlock(transform, state, m);
      FoldBlock(transform, state, m + data);
      assert (m + data)[..BLOCK] == m[..BLOCK] && (m + data)[BLOCK..] == m[BLOCK..] + data;
      FoldContinues(transform, transform(state, m[..BLOCK]), m[BLOCK..], data);
    }
  }

  /** The whole blocks of `m`, one by one. */
  function Blocks(m: seq<Byte>): seq<seq<Byte>>
    decreases |m|
  {
    if |m| < BLOCK then [] else [m[..BLOCK]] + Blocks(m[BLOCK..])
  }

  function FoldBlocks<S>(transform: (S, seq<Byte>) -> S, state: S, blocks: seq<seq<Byte>>): S
    decreases |blocks|
  {
    if blocks == [] then state else FoldBlocks(transform, transform(state, blocks[0]), blocks[1..])
  }

  /** The blocks and the tail are the message, and folding goes over just these blocks. */
  lemma {:induction false} FoldTakesBlocks<S>(transform: (S, seq<Byte>) -> S, state: S, m: seq<Byte>)
    ensures Concat(Blocks(m)) + Tail(m) == m
    ensures forall i :: 0 <= i < |Blocks(m)| ==> |Blocks(m)[i]| == BLOCK
    ensures Fold(transform, state, m) == FoldBlocks(transform, state, Blocks(m))
    decreases |m|
  {
    if |m| >= BLOCK {
      var first, rest := m[..BLOCK], m[BLOCK..];
      FoldTakesBlocks(transform, transform(state, first), rest);
      assert Blocks(m)[1..] == Blocks(rest);
      assert Concat(Blocks(m)) == first + Concat(Blocks(rest));
      Regroup(first, Concat(Blocks(rest)), Tail(rest));
      assert first + rest == m;
    }
  }

  /** A message of whole blocks is folded to the last byte. */
  lemma NothingLeft<S>(transform: (S, seq<Byte>) -> S, state: S, m: seq<Byte>)
    requires |m| % BLOCK == 0
    ensures Concat(Blocks(m)) == m
    ensures Fold(transform, state, m) == FoldBlocks(transform, state, Blocks(m))
  {
    FoldTakesBlocks(transform, state, m);
    TailLength(m);
    hide Fold, FoldBlocks, Tail, Blocks;
    assert Concat(Blocks(m)) + [] == Concat(Blocks(m));
  }

  // ----- the padding

  /** The number of zero bytes that bring the length, with the byte 0x80, to 56 modulo 64. */
  function ZeroCount(length: nat): nat {
    (55 - length) % BLOCK
  }

  /** With zeros and an eight-byte count the message consists of whole blocks. */
  lemma PaddingIsWhole(m: seq<Byte>, count: seq<Byte>)
    requires |count| == 8
    ensures |m + [0x80] + Zeros(ZeroCount(|m|)) + count| % BLOCK == 0
  {
    hide Zeros;
  }

  /** The message, the byte 0x80, zeros and eight bytes, in as few whole blocks as will hold them. */
  ghost predicate IsPadding(padded: seq<Byte>, m: seq<Byte>) {
    var n, p := |m|, |padded|;
    && p % 64 == 0 && n + 9 <= p < n + 73
    && padded[..n] == m && padded[n] == 0x80
    && forall i :: n < i < p - 8 ==> padded[i] == 0
  }

  lemma PaddingLayout(m: seq<Byte>, count: seq<Byte>)
    requires |count| == 8
    ensures var padded := m + [0x80] + Zeros(ZeroCount(|m|)) + count;
            IsPadding(padded, m) && padded[|padded| - 8..] == count
  {
    var zeros := Zeros(ZeroCount(|m|));
    var padded := m + [0x80] + zeros + count;
    PaddingIsWhole(m, count);
    assert forall i :: |m| < i < |padded| - 8 ==> padded[i] == zeros[i - |m| - 1] == 0;
  }

  // ----- the bit count

  /** Two words hold the number of bits of `m`, modulo 2^64. */
  predicate Counts(low: Word, high: Word, m: seq<Byte>) {
    low + WORD * high == 8 * |m| % DOUBLE_WORD
  }

  lemma CarryIsSeen(low: Word, added: Word)
    ensures var sum := (low + added) % WORD;
            low + added == sum + WORD * (if sum < low then 1 else 0)
  {
  }

  lemma ModuloTwoWords(x: Word, y: int)
    requires y >= 0
    ensures (x + WORD * y) % DOUBLE_WORD == x + WORD * (y % WORD)
  {
    var q := y / WORD;
    assert x + WORD * y == x + WORD * (y % WORD) + DOUBLE_WORD * q;
  }

  /**
   * Adding `len` bytes to the count the way both algorithms do: a shifted low part, a carry, and the bits
   * shifted out.
   */
  lemma CountAdvances(low: Word, high: Word, m: seq<Byte>, data: seq<Byte>)
    requires Counts(low, high, m) && |data| < WORD
    ensures var low' := (low + |data| * 8 % WORD) % WORD;
            var high' := ((high + if low' < low then 1 else 0) % WORD + |data| / 0x2000_0000) % WORD;
            Counts(low', high', m + data)
  {
    var len := |data|;
    var low' := (low + len * 8 % WORD) % WORD;
    var carry := if low' < low then 1 else 0;
    CarryIsSeen(low, len * 8 % WORD);
    assert len * 8 == len * 8 % WORD + WORD * (len / 0x2000_0000);
    var y := high + carry + len / 0x2000_0000;
    assert low + WORD * high + 8 * len == low' + WORD * y;
    ModuloTwoWords(low', y);
    NestedModulo(high + carry, len / 0x2000_0000);
    AddBits(8 * |m|, 8 * len);
    assert 8 * |m + data| == 8 * |m| + 8 * len;
  }

  lemma NestedModulo(a: int, b: int)
    ensures (a % WORD + b) % WORD == (a + b) % WORD
  {
  }

  lemma AddBits(a: int, b: int)
    ensures (a % DOUBLE_WORD + b) % DOUBLE_WORD == (a + b) % DOUBLE_WORD
  {
  }

  lemma PositionOf(n: int, x: int)
    ensures 8 * (n - 64 * x) / 8 % BLOCK == n % BLOCK
  {
    assert 8 * (n - 64 * x) / 8 == n - 64 * x;
  }

  /** The position in the block, read off the low word of the count. */
  lemma PositionFromCount(low: Word, high: Word, m: seq<Byte>)
    requires Counts(low, high, m)
    ensures low / 8 % BLOCK == |m| % BLOCK
  {
    var x := WORD * (8 * |m| / DOUBLE_WORD) + high;
    assert low == 8 * |m| - WORD * x;
    PositionOf(|m|, 0x80_0000 * x);
  }

  /** The two words of the count, high and low. */
  lemma CountWords(low: Word, high: Word, m: seq<Byte>)
    requires Counts(low, high, m)
    ensures 8 * |m| % DOUBLE_WORD / WORD == high && 8 * |m| % DOUBLE_WORD % WORD == low
  {
  }

  /** Adds the bits of `data` to the count; returns also the position in the block so far. */
  method AddToCount(low0: Word, high0: Word, length: nat, ghost m: seq<Byte>, ghost data: seq<Byte>)
    returns (low: Word, high: Word, position: nat)
    requires Counts(low0, high0, m) && length == |data| < WORD
    ensures Counts(low, high, m + data) && position == |m| % BLOCK
  {
    PositionFromCount(low0, high0, m);
    CountAdvances(low0, high0, m, data);
    hide Counts;
    high := high0;
    low := (low0 + length * 8 % WORD) % WORD;
    if low < low0 {
      high := (high + 1) % WORD;
    }
    assert high == (high0 + if low < low0 then 1 else 0) % WORD;
    high := (high + length / 0x2000_0000) % WORD;
    position := low0 / 8 % BLOCK;
  }
}
