/**
 * MD5 as mongoose computes it, against its definition on the whole message (sections
 * 3.1 and 3.2 of RFC 1321), on a little-endian host.  The compression function is a
 * parameter.
 */
module Md5 {
  import opened Basics
  import opened BlockHash

  type State = s: seq<Word> | |s| == 4 witness [0, 0, 0, 0]
  type Transform = (State, seq<Byte>) -> State

  const INITIAL: State := [0x67452301, 0xEFCDAB89, 0x98BADCFE, 0x10325476]

  function BitCount(length: nat): (b: seq<Byte>)
    ensures |b| == 8
  {
    var bits := 8 * length % DOUBLE_WORD;
    LittleEndian(bits % WORD, 4) + LittleEndian(bits / WORD, 4)
  }

  function Padded(m: seq<Byte>): seq<Byte> {
    m + [0x80] + Zeros(ZeroCount(|m|)) + BitCount(|m|)
  }

  function DigestOf(s: State): (d: seq<Byte>)
    ensures |d| == 16
  {
    LittleEndian(s[0], 4) + LittleEndian(s[1], 4) + LittleEndian(s[2], 4) + LittleEndian(s[3], 4)
  }

  /** MD5 of a whole message. */
  function Hash(transform: Transform, m: seq<Byte>): (d: seq<Byte>)
    ensures |d| == 16
  {
    DigestOf(Fold(transform, INITIAL, Padded(m)))
  }

  /** The last one or two blocks: what is left of the message, the padding, the count. */
  lemma LastBlocks(transform: Transform, m: seq<Byte>)
    ensures Fold(transform, INITIAL, Padded(m))
         == Fold(transform, Fold(transform, INITIAL, m), Tail(m) + [0x80] + Zeros(ZeroCount(|m|)) + BitCount(|m|))
  {
    hide Fold, BitCount, ZeroCount, Zeros, Tail;
    var zeros, count := Zeros(ZeroCount(|m|)), BitCount(|m|);
    FoldContinues(transform, INITIAL, m, [0x80] + zeros + count);
    RegroupFour(m, [0x80], zeros, count);
    RegroupFour(Tail(m), [0x80], zeros, count);
  }

  lemma RegroupFour(a: seq<Byte>, b: seq<Byte>, c: seq<Byte>, d: seq<Byte>)
    ensures a + b + c + d == a + (b + c + d)
  {
  }

  /** The digest depends on every byte of the message and its padding, block by block. */
  lemma HashTakesEveryByte(transform: Transform, m: seq<Byte>)
    ensures Concat(Blocks(Padded(m))) == Padded(m)
    ensures Hash(transform, m) == DigestOf(FoldBlocks(transform, INITIAL, Blocks(Padded(m))))
  {
    hide DigestOf, Blocks, Fold, FoldBlocks, ZeroCount, BitCount;
    PaddingIsWhole(m, BitCount(|m|));
    NothingLeft(transform, INITIAL, Padded(m));
  }

  /**
   * The layout of sections 3.1 and 3.2 of RFC 1321: the number of bits stands at the end, the
   * lowest byte first.
   */
  lemma PaddedInBytes(m: seq<Byte>)
    ensures IsPadding(Padded(m), m)
    ensures var b := Padded(m)[|Padded(m)| - 8..];
            LittleWord(b[..4]) + 0x1_0000_0000 * LittleWord(b[4..]) == 8 * |m| % 0x1_0000_0000_0000_0000
  {
    hide BitCount, ZeroCount, IsPadding, LittleWord;
    PaddingLayout(m, BitCount(|m|));
    BitCountInBytes(|m|);
  }

  lemma BitCountInBytes(length: nat)
    ensures var b := BitCount(length); LittleWord(b[..4]) + WORD * LittleWord(b[4..]) == 8 * length % DOUBLE_WORD
  {
    hide LittleEndian, LittleWord;
    var bits := 8 * length % DOUBLE_WORD;
    LittleWordOf(bits % WORD);
    LittleWordOf(bits / WORD);
    assert BitCount(length)[..4] == LittleEndian(bits % WORD, 4);
    assert BitCount(length)[4..] == LittleEndian(bits / WORD, 4);
  }

  /** The digest is the state, word by word, the lowest byte of each first. */
  lemma DigestInBytes(s: State)
    ensures forall i :: 0 <= i < 4 ==> LittleWord(DigestOf(s)[4 * i..4 * i + 4]) == s[i]
  {
    hide LittleEndian, LittleWord;
    forall i | 0 <= i < 4
      ensures DigestOf(s)[4 * i..4 * i + 4] == LittleEndian(s[i], 4)
    {
    }
    forall i | 0 <= i < 4
      ensures LittleWord(LittleEndian(s[i], 4)) == s[i]
    {
      LittleWordOf(s[i]);
    }
  }

  /** Section 3.3 of RFC 1321: what hashing starts from. */
  lemma InitialInBytes()
    ensures DigestOf(INITIAL) == [0x01, 0x23, 0x45, 0x67, 0x89, 0xAB, 0xCD, 0xEF,
                                  0xFE, 0xDC, 0xBA, 0x98, 0x76, 0x54, 0x32, 0x10]
  {
    hide LittleEndian;
    FirstWords();
    LastWords();
  }

  lemma FirstWords()
    ensures LittleEndian(0x67452301, 4) == [0x01, 0x23, 0x45, 0x67]
    ensures LittleEndian(0xEFCDAB89, 4) == [0x89, 0xAB, 0xCD, 0xEF]
  {
    hide LittleEndian;
    LittleEndianInBytes(0x67452301);
    LittleEndianInBytes(0xEFCDAB89);
  }

  lemma LastWords()
    ensures LittleEndian(0x98BADCFE, 4) == [0xFE, 0xDC, 0xBA, 0x98]
    ensures LittleEndian(0x10325476, 4) == [0x76, 0x54, 0x32, 0x10]
  {
    hide LittleEndian;
    LittleEndianInBytes(0x98BADCFE);
    LittleEndianInBytes(0x10325476);
  }

  lemma FoldOneBlock(transform: Transform, state: State, block: seq<Byte>)
    requires |block| == BLOCK
    ensures Fold(transform, state, block) == transform(state, block)
  {
    assert block[..BLOCK] == block && |block[BLOCK..]| == 0;
  }

  /** The length after padding is 56 modulo 64, in this block or, if it is beyond that already, in the next. */
  lemma ZerosFill(count: nat, length: nat)
    requires count == length % BLOCK
    ensures ZeroCount(length) == if BLOCK - 1 - count < 8 then BLOCK - 1 - count + 56 else BLOCK - 1 - count - 8
  {
  }

  class Context {
    const transform: Transform
    var buf: State
    var low: Word
    var high: Word
    const input: array<Byte>
    /** Everything hashed so far. */
    ghost var message: seq<Byte>

    ghost predicate Valid()
      reads this, input
    {
      && input.Length == BLOCK
      && buf == Fold(transform, INITIAL, message)
      && Counts(low, high, message)
      && input[..|message| % BLOCK] == Tail(message)
    }

    constructor (transform: Transform)
      ensures Valid() && message == [] && this.transform == transform && fresh(input)
    {
      this.transform := transform;
      buf, low, high := INITIAL, 0, 0;
      input := new Byte[BLOCK](_ => 0);
      message := [];
    }

    method CopyToInput(at: nat, data: seq<Byte>)
      requires at + |data| <= input.Length
      modifies input
      ensures input[..] == old(input[..at]) + data + old(input[at + |data|..])
    {
      forall i | 0 <= i < |data| {
        input[at + i] := data[i];
      }
    }

    method Update(data: seq<Byte>)
      requires Valid() && |data| < WORD
      modifies this`buf, this`low, this`high, this`message, input
      ensures Valid() && message == old(message) + data
    {
      hide Counts, Fold, Tail;
      FoldContinues(transform, INITIAL, message, data);
      TailLength(message);
      TailLength(message + data);
      TailLength(Tail(message) + data);
      var position;
      low, high, position := AddToCount(low, high, |data|, message, data);
      Absorb(position, data);
      message := message + data;
    }

    /** Fills up a started block first, and returns early if it stays incomplete. */
    method Absorb(position: nat, data: seq<Byte>)
      requires input.Length == BLOCK && position < BLOCK
      modifies this`buf, input
      ensures var pending := old(input[..position]) + data;
              && buf == Fold(transform, old(buf), pending)
              && input[..|pending| % BLOCK] == Tail(pending)
    {
      hide Fold, Tail;
      ghost var pending, buf0 := input[..position] + data, buf;
      var at := 0;
      if position != 0 {
        var t := BLOCK - position;
        if |data| < t {
          CopyToInput(position, data);
          FoldShort(transform, buf0, pending);
          return;
        }
        FillBlock(input[..position], data);
        CopyToInput(position, data[..t]);
        assert input[..] == pending[..BLOCK];
        FoldBlock(transform, buf0, pending);
        buf := transform(buf, input[..]);
        at := t;
      } else {
        assert pending == data[at..];
      }
      TailLength(pending);
      at := TakeBlocks(data, at);
      CopyToInput(0, data[at..]);
      assert input[..|data| - at] == data[at..];
    }

    /** The whole blocks from `from` on; `at` is where they end. */
    method TakeBlocks(data: seq<Byte>, from: nat) returns (at: nat)
      requires input.Length == BLOCK && from <= |data|
      modifies this`buf, input
      ensures from <= at <= |data|
      ensures buf == Fold(transform, old(buf), data[from..]) && data[at..] == Tail(data[from..])
    {
      hide Fold, Tail;
      at := from;
      while |data| - at >= BLOCK
        invariant from <= at <= |data|
        invariant Fold(transform, buf, data[at..]) == Fold(transform, old(buf), data[from..])
        invariant Tail(data[at..]) == Tail(data[from..])
      {
        FoldBlock(transform, buf, data[at..]);
        CopyToInput(0, data[at..at + BLOCK]);
        NextBlock(data, at);
        assert input[..] == data[at..at + BLOCK];
        buf := transform(buf, input[..]);
        at := at + BLOCK;
      }
      FoldShort(transform, buf, data[at..]);
    }

    /** Pads in place: into this block, or to its end and into the next. */
    method Pad(count: nat)
      requires input.Length == BLOCK && count < BLOCK
      modifies this`buf, input
      ensures var started, left := old(input[..count]) + [0x80], BLOCK - 1 - count;
              if left < 8 then buf == transform(old(buf), started + Zeros(left)) && input[..56] == Zeros(56)
              else buf == old(buf) && input[..56] == started + Zeros(left - 8)
    {
      hide Zeros;
      CopyToInput(count, [0x80]);
      var left := BLOCK - 1 - count;
      if left < 8 {
        CopyToInput(count + 1, Zeros(left));
        assert input[..] == old(input[..count]) + [0x80] + Zeros(left);
        buf := transform(buf, input[..]);
        CopyToInput(0, Zeros(56));
      } else {
        CopyToInput(count + 1, Zeros(left - 8));
      }
    }

    /** Puts the count behind the padding. */
    method PutCount()
      requires input.Length == BLOCK
      modifies input
      ensures input[..] == old(input[..56]) + (LittleEndian(low, 4) + LittleEndian(high, 4))
    {
      hide LittleEndian;
      CopyToInput(56, LittleEndian(low, 4));
      CopyToInput(60, LittleEndian(high, 4));
    }

    method Final() returns (digest: seq<Byte>)
      requires Valid()
      modifies this`buf, this`low, this`high, input
      ensures digest == Hash(transform, message)
    {
      hide Counts, Fold, Tail, BitCount, LittleEndian, Zeros, ZeroCount, Padded;
      ghost var m, buf0 := message, buf;
      PositionFromCount(low, high, m);
      TailLength(m);
      LastBlocks(transform, m);
      CountBytes(low, high, m);
      PaddedBlocks(transform, buf0, Tail(m), |m|, BitCount(|m|));
      Pad(low / 8 % BLOCK);
      PutCount();
      buf := transform(buf, input[..]);
      digest := DigestOf(buf);
      buf, low, high := [0, 0, 0, 0], 0, 0;
      forall i | 0 <= i < input.Length {
        input[i] := 0;
      }
    }

    /** The padded rest of the message is one block or two. */
    static lemma PaddedBlocks(transform: Transform, state: State, tail: seq<Byte>, length: nat, count: seq<Byte>)
      requires |tail| == length % BLOCK && |count| == 8
      ensures var started, left := tail + [0x80], BLOCK - 1 - |tail|;
              var last := started + Zeros(ZeroCount(length)) + count;
              Fold(transform, state, last)
              == if left < 8 then transform(transform(state, started + Zeros(left)), Zeros(56) + count)
                 else transform(state, started + Zeros(left - 8) + count)
    {
      var started, left := tail + [0x80], BLOCK - 1 - |tail|;
      ZerosFill(|tail|, length);
      hide Fold, ZeroCount, Tail;
      if left < 8 {
        var block := started + Zeros(left);
        assert Zeros(left + 56) == Zeros(left) + Zeros(56);
        assert started + (Zeros(left) + Zeros(56)) + count == block + (Zeros(56) + count);
        FoldOneBlock(transform, state, block);
        FoldContinues(transform, state, block, Zeros(56) + count);
        TailLength(block);
        assert Tail(block) + (Zeros(56) + count) == Zeros(56) + count;
        FoldOneBlock(transform, transform(state, block), Zeros(56) + count);
      } else {
        FoldOneBlock(transform, state, started + Zeros(left - 8) + count);
      }
    }

    static lemma CountBytes(low: Word, high: Word, m: seq<Byte>)
      requires Counts(low, high, m)
      ensures LittleEndian(low, 4) + LittleEndian(high, 4) == BitCount(|m|)
    {
      CountWords(low, high, m);
    }
  }

  // ----- the digest as text

  function Hex(b: seq<Byte>): (s: seq<Byte>)
    ensures |s| == 2 * |b|
  {
    if b == [] then [] else [HexDigit(b[0] / 16), HexDigit(b[0] % 16)] + Hex(b[1..])
  }

  /** The high digit of each byte and then the low one, as characters of `LOWER_DIGITS`. */
  lemma {:induction false} HexInDigits(b: seq<Byte>, i: nat)
    requires i < |b|
    ensures Hex(b)[2 * i] == LOWER_DIGITS[b[i] / 16] as int && Hex(b)[2 * i + 1] == LOWER_DIGITS[b[i] % 16] as int
  {
    if i == 0 {
      HexDigitIs(b[0] / 16);
      HexDigitIs(b[0] % 16);
    } else {
      hide HexDigit;
      HexInDigits(b[1..], i - 1);
      assert Hex(b)[2..] == Hex(b[1..]);
    }
  }

  method BinToStr(p: seq<Byte>) returns (to: seq<Byte>)
    ensures to == Hex(p)
  {
    to := [];
    for i := 0 to |p|
      invariant to + Hex(p[i..]) == Hex(p)
    {
      assert p[i..][0] == p[i] && p[i..][1..] == p[i + 1..];
      to := to + [HexDigit(p[i] / 16), HexDigit(p[i] % 16)];
    }
    assert to == to + Hex(p[|p|..]);
  }

  /** The digest of a list of strings is that of their concatenation. */
  method DigestOfStrings(transform: Transform, strings: seq<seq<Byte>>) returns (text: seq<Byte>)
    requires forall p :: p in strings ==> |p| < WORD
    ensures text == Hex(Hash(transform, Concat(strings)))
  {
    hide Counts, Fold, Tail, Padded, DigestOf;
    var context := new Context(transform);
    for i := 0 to |strings|
      invariant context.Valid() && context.transform == transform && fresh(context.input)
      invariant context.message + Concat(strings[i..]) == Concat(strings)
    {
      assert strings[i..][0] == strings[i] && strings[i..][1..] == strings[i + 1..];
      context.Update(strings[i]);
    }
    assert context.message == context.message + Concat(strings[|strings|..]);
    var digest := context.Final();
    text := BinToStr(digest);
  }
}
