/**
 * SHA-1 as mongoose computes it, piece by piece through a 64-byte buffer, against its
 * definition on the whole message (section 5.1.1 of FIPS 180-4).  The compression
 * function is a parameter.
 */
module Sha1 {
  import opened Basics
  import opened BlockHash

  type State = s: seq<Word> | |s| == 5 witness [0, 0, 0, 0, 0]
  type Transform = (State, seq<Byte>) -> State

  const INITIAL: State := [0x67452301, 0xEFCDAB89, 0x98BADCFE, 0x10325476, 0xC3D2E1F0]

  function BigEndian(w: Word): (b: seq<Byte>)
    ensures |b| == 4
  {
    [w / 0x100_0000, w / 0x1_0000 % 0x100, w / 0x100 % 0x100, w % 0x100]
  }

  function BitCount(length: nat): (b: seq<Byte>)
    ensures |b| == 8
  {
    var bits := 8 * length % DOUBLE_WORD;
    BigEndian(bits / WORD) + BigEndian(bits % WORD)
  }

  function Padded(m: seq<Byte>): seq<Byte> {
    m + [0x80] + Zeros(ZeroCount(|m|)) + BitCount(|m|)
  }

  function DigestOf(s: State): seq<Byte> {
    BigEndian(s[0]) + BigEndian(s[1]) + BigEndian(s[2]) + BigEndian(s[3]) + BigEndian(s[4])
  }

  /** SHA-1 of a whole message. */
  function Hash(transform: Transform, m: seq<Byte>): seq<Byte> {
    DigestOf(Fold(transform, INITIAL, Padded(m)))
  }

  lemma ZerosFill(n: nat)
    ensures (n + 1 + ZeroCount(n)) % BLOCK == 56
  {
  }

  /** The digest depends on every byte of the message and its padding, block by block. */
  lemma HashTakesEveryByte(transform: Transform, m: seq<Byte>)
    ensures Concat(Blocks(Padded(m))) == Padded(m)
    ensures Hash(transform, m) == DigestOf(FoldBlocks(transform, INITIAL, Blocks(Padded(m))))
  {
    hide DigestOf, Blocks, Fold, FoldBlocks, ZeroCount, BitCount;
    PaddingIsWhole(m, BitCount(|m|));
    NothingLeft(transform, INITIAL, Padded(m));
  }

  /** What eight bytes stand for, the highest first. */
  function BigNumber(b: seq<Byte>): int
    requires |b| == 8
  {
    ((((((((b[0] as int) * 256 + b[1]) * 256 + b[2]) * 256 + b[3]) * 256 + b[4]) * 256 + b[5]) * 256 + b[6]) * 256
      + b[7])
  }

  /** The layout of section 5.1.1 of FIPS 180-4: the number of bits stands at the end, the highest byte first. */
  lemma PaddedInBytes(m: seq<Byte>)
    ensures IsPadding(Padded(m), m)
    ensures BigNumber(Padded(m)[|Padded(m)| - 8..]) == 8 * |m| % 0x1_0000_0000_0000_0000
  {
    hide BigNumber, BitCount, ZeroCount, IsPadding;
    PaddingLayout(m, BitCount(|m|));
    BitCountInBytes(|m|);
  }

  lemma BitCountInBytes(length: nat)
    ensures BigNumber(BitCount(length)) == 8 * length % DOUBLE_WORD
  {
    var bits := 8 * length % DOUBLE_WORD;
    var high, low := bits / WORD, bits % WORD;
    WordInBytes(high);
    WordInBytes(low);
    var b := BitCount(length);
    assert b[0..4] == BigEndian(high) && b[4..8] == BigEndian(low);
    hide BitCount, BigEndian;
    var x := (((b[0] as int) * 256 + b[1]) * 256 + b[2]) * 256 + b[3];
    assert BigNumber(b) == (((x * 256 + b[4]) * 256 + b[5]) * 256 + b[6]) * 256 + b[7];
  }

  lemma WordInBytes(w: Word)
    ensures var b := BigEndian(w); (((b[0] as int) * 256 + b[1]) * 256 + b[2]) * 256 + b[3] == w
  {
    var q := w / 256;
    assert w / 0x1_0000 == q / 256 && w / 0x100_0000 == q / 256 / 256;
  }

  /** The digest is the state, word by word, the highest byte of each first. */
  lemma DigestInBytes(s: State)
    ensures |DigestOf(s)| == 20
    ensures forall i :: 0 <= i < 5 ==>
              && DigestOf(s)[4 * i] == s[i] / 0x100_0000
              && DigestOf(s)[4 * i + 1] == s[i] / 0x1_0000 % 256
              && DigestOf(s)[4 * i + 2] == s[i] / 256 % 256
              && DigestOf(s)[4 * i + 3] == s[i] % 256
  {
  }

  /** Section 5.3.1 of FIPS 180-4: what hashing starts from. */
  lemma InitialInBytes()
    ensures DigestOf(INITIAL) == [0x67, 0x45, 0x23, 0x01, 0xEF, 0xCD, 0xAB, 0x89, 0x98, 0xBA, 0xDC, 0xFE,
                                  0x10, 0x32, 0x54, 0x76, 0xC3, 0xD2, 0xE1, 0xF0]
  {
  }

  /** The padding stops at the first length that is 56 modulo 64. */
  lemma FillStops(n: nat, length: nat)
    requires n < length <= n + 1 + ZeroCount(n)
    ensures length % BLOCK == 56 <==> length == n + 1 + ZeroCount(n)
  {
  }

  class Context {
    const transform: Transform
    var state: State
    var low: Word
    var high: Word
    const buffer: array<Byte>
    /** Everything hashed so far. */
    ghost var message: seq<Byte>

    ghost predicate Valid()
      reads this, buffer
    {
      && buffer.Length == BLOCK
      && state == Fold(transform, INITIAL, message)
      && Counts(low, high, message)
      && buffer[..|message| % BLOCK] == Tail(message)
    }

    constructor (transform: Transform)
      ensures Valid() && message == [] && this.transform == transform && fresh(buffer)
    {
      this.transform := transform;
      state, low, high := INITIAL, 0, 0;
      buffer := new Byte[BLOCK](_ => 0);
      message := [];
    }

    method CopyToBuffer(at: nat, data: seq<Byte>)
      requires at + |data| <= buffer.Length
      modifies buffer
      ensures buffer[..] == old(buffer[..at]) + data + old(buffer[at + |data|..])
    {
      forall i | 0 <= i < |data| {
        buffer[at + i] := data[i];
      }
    }

    /** The position in the block and the length of the data are added as unsigned 32-bit numbers. */
    method Update(data: seq<Byte>)
      requires Valid() && |message| % BLOCK + |data| < WORD
      modifies this`state, this`low, this`high, this`message, buffer
      ensures Valid() && message == old(message) + data
    {
      hide Counts, Fold, Tail;
      FoldContinues(transform, INITIAL, message, data);
      TailLength(message);
      TailLength(message + data);
      TailLength(Tail(message) + data);
      var position;
      low, high, position := AddToCount(low, high, |data|, message, data);
      Absorb(position, data);
      message := message + data;
    }

    /** The part of the update that moves the data: complete blocks are transformed, the rest is kept. */
    method Absorb(position: nat, data: seq<Byte>)
      requires buffer.Length == BLOCK && position < BLOCK
      modifies this`state, buffer
      ensures var pending := old(buffer[..position]) + data;
              && state == Fold(transform, old(state), pending)
              && buffer[..|pending| % BLOCK] == Tail(pending)
    {
      hide Fold, Tail;
      var j, i := position, 0;
      ghost var pending, state0 := buffer[..j] + data, state;
      if j + |data| > 63 {
        i := BLOCK - j;
        FillBlock(buffer[..j], data);
        CopyToBuffer(j, data[..i]);
        assert buffer[..] == pending[..BLOCK];
        FoldBlock(transform, state0, pending);
        state := transform(state, buffer[..]);
        while i + 63 < |data|
          invariant i <= |data|
          invariant Fold(transform, state, data[i..]) == Fold(transform, state0, pending)
          invariant Tail(data[i..]) == Tail(pending)
        {
          FoldBlock(transform, state, data[i..]);
          NextBlock(data, i);
          state := transform(state, data[i..i + BLOCK]);
          i := i + BLOCK;
        }
        FoldShort(transform, state, data[i..]);
        j := 0;
      } else {
        FoldShort(transform, state0, pending);
      }
      TailLength(pending);
      CopyToBuffer(j, data[i..]);
      assert Tail(pending) == buffer[..j + (|data| - i)];
    }

    static lemma CountBytes(low: Word, high: Word, m: seq<Byte>)
      requires Counts(low, high, m)
      ensures BigEndian(high) + BigEndian(low) == BitCount(|m|)
    {
      CountWords(low, high, m);
    }

    method Final() returns (digest: seq<Byte>)
      requires Valid()
      modifies this`state, this`low, this`high, this`message, buffer
      ensures digest == Hash(transform, old(message))
    {
      hide Counts, Fold, Tail, ZeroCount, BitCount, BigEndian;
      ghost var m := message;
      var finalCount := BigEndian(high) + BigEndian(low);
      CountBytes(low, high, m);
      Update([0x80]);
      PositionFromCount(low, high, message);
      FillStops(|m|, |message|);
      while low / 8 % BLOCK != 56
        invariant Valid() && |m| < |message| <= |m| + 1 + ZeroCount(|m|)
        invariant message == m + [0x80] + Zeros(|message| - |m| - 1)
        invariant low / 8 % BLOCK == 56 <==> |message| == |m| + 1 + ZeroCount(|m|)
        decreases |m| + 1 + ZeroCount(|m|) - |message|
      {
        Update([0]);
        PositionFromCount(low, high, message);
        FillStops(|m|, |message|);
      }
      Update(finalCount);
      assert message == Padded(m);
      digest := DigestOf(state);
      state, low, high := [0, 0, 0, 0, 0], 0, 0;
      forall i | 0 <= i < buffer.Length {
        buffer[i] := 0;
      }
    }
  }

  /**
   * Why updates must stay below 2^32 bytes with what is already in the block: the test
   * whether a block is complete adds in 32 bits, and is right exactly for such updates.
   */
  lemma BlockTestIffNoWrap(position: nat, length: nat)
    requires position < BLOCK && length < WORD
    ensures ((position + length) % WORD > 63 <==> position + length > 63) <==> position + length < WORD
  {
  }

  /** Each piece and the position at which it begins add up below 2^32. */
  predicate UpdatesFit(length: nat, pieces: seq<seq<Byte>>)
    decreases |pieces|
  {
    pieces == [] || (length % BLOCK + |pieces[0]| < WORD && UpdatesFit(length + |pieces[0]|, pieces[1..]))
  }

  /** However a message is cut into updates, the digest is that of the whole. */
  method HashPieces(transform: Transform, pieces: seq<seq<Byte>>) returns (digest: seq<Byte>)
    requires UpdatesFit(0, pieces)
    ensures digest == Hash(transform, Concat(pieces))
  {
    hide Counts, Fold, Tail, Padded, DigestOf;
    var context := new Context(transform);
    for i := 0 to |pieces|
      invariant context.Valid() && context.transform == transform && fresh(context.buffer)
      invariant context.message + Concat(pieces[i..]) == Concat(pieces)
      invariant UpdatesFit(|context.message|, pieces[i..])
    {
      assert pieces[i..][0] == pieces[i] && pieces[i..][1..] == pieces[i + 1..];
      context.Update(pieces[i]);
    }
    assert context.message == context.message + Concat(pieces[|pieces|..]);
    digest := context.Final();
  }
}
