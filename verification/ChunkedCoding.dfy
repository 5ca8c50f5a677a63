/**
 * The chunked transfer coding (section 4.1 of RFC 7230): what `write_chunk` and the
 * terminating chunk put into the output buffer, and what a decoder makes of it.
 */
module ChunkedCoding {
  import opened Basics
  import opened IoBuffer

  const CRLF: seq<Byte> := [13, 10]
  const LAST: seq<Byte> := [48, 13, 10, 13, 10]

  // ----- writing

  function UpperHexDigit(n: int): Byte
    requires 0 <= n < 16
  {
    if n < 10 then 48 + n else 55 + n
  }

  /** Upper-case hexadecimal without leading zeros. */
  function Hex(n: nat): seq<Byte> {
    if n < 16 then [UpperHexDigit(n)] else Hex(n / 16) + [UpperHexDigit(n % 16)]
  }

  function Chunk(data: seq<Byte>): seq<Byte> {
    Hex(|data|) + CRLF + data + CRLF
  }

  function Written(chunks: seq<seq<Byte>>): seq<Byte> {
    if chunks == [] then [] else Chunk(chunks[0]) + Written(chunks[1..])
  }

  const UPPER_DIGITS := "0123456789ABCDEF"

  /** Digit by digit from the lowest, in upper case, with no zero in front. */
  lemma {:induction false} HexInDigits(n: nat)
    ensures n < 16 ==> Hex(n) == [UPPER_DIGITS[n] as int]
    ensures n >= 16 ==> Hex(n) == Hex(n / 16) + [UPPER_DIGITS[n % 16] as int]
    ensures Hex(n) != [] && (n > 0 ==> Hex(n)[0] != 48)
  {
    UpperDigitIs(n % 16);
    if n >= 16 {
      HexInDigits(n / 16);
    }
  }

  lemma UpperDigitIs(n: int)
    requires 0 <= n < 16
    ensures UpperHexDigit(n) == UPPER_DIGITS[n] as int
  {
  }

  /** Line ends are carriage return and line feed. */
  lemma ChunkInBytes(data: seq<Byte>)
    ensures Chunk(data) == Hex(|data|) + [13, 10] + data + [13, 10]
    ensures Chunk([]) == LAST == [48, 13, 10, 13, 10]
  {
    hide Hex;
    HexInDigits(0);
  }

  method WriteChunk(out: IoBuf, data: seq<Byte>)
    requires out.Valid()
    modifies out, out.buf
    ensures out.Valid() && out.Content() == old(out.Content()) + Chunk(data)
    ensures out.buf == old(out.buf) || fresh(out.buf)
  {
    out.Spool(Hex(|data|) + CRLF);
    out.Spool(data);
    out.Spool(CRLF);
  }

  method WriteTerminatingChunk(out: IoBuf)
    requires out.Valid()
    modifies out, out.buf
    ensures out.Valid() && out.Content() == old(out.Content()) + LAST
  {
    out.Spool(LAST);
  }

  // ----- decoding

  function HexValue(b: Byte): Option<nat> {
    if 48 <= b <= 57 then Some(b - 48)
    else if 65 <= b <= 70 then Some(b - 55)
    else if 97 <= b <= 102 then Some(b - 87)
    else None
  }

  /** Reads hexadecimal digits: the number and what follows. */
  function ReadSize(b: seq<Byte>, value: nat): (r: (nat, seq<Byte>))
    ensures |r.1| <= |b|
  {
    if b == [] || HexValue(b[0]).None? then (value, b)
    else ReadSize(b[1..], 16 * value + HexValue(b[0]).value)
  }

  predicate StartsWithCrlf(b: seq<Byte>) {
    |b| >= 2 && b[..2] == CRLF
  }

  /** The payload of a chunked body without extensions and trailers, and what follows the body. */
  function DecodeChunks(b: seq<Byte>): Option<(seq<Byte>, seq<Byte>)>
    decreases |b|
  {
    if b == [] || HexValue(b[0]).None? then None
    else
      var (n, r) := ReadSize(b, 0);
      if !StartsWithCrlf(r) then None
      else if n == 0 then
        if StartsWithCrlf(r[2..]) then Some(([], r[4..])) else None
      else if |r| < n + 4 || !StartsWithCrlf(r[n + 2..]) then None
      else
        match DecodeChunks(r[n + 4..])
        case None => None
        case Some((payload, rest)) => Some((r[2..n + 2] + payload, rest))
  }

  // ----- both ways

  predicate AllHex(a: seq<Byte>) {
    forall i :: 0 <= i < |a| ==> HexValue(a[i]).Some?
  }

  lemma {:induction false} ReadSizeAppend(a: seq<Byte>, b: seq<Byte>, value: nat)
    requires AllHex(a)
    ensures ReadSize(a + b, value) == ReadSize(b, ReadSize(a, value).0)
    decreases |a|
  {
    hide HexValue;
    if a == [] {
      assert a + b == b;
    } else {
      var next := 16 * value + HexValue(a[0]).value;
      assert (a + b)[0] == a[0] && (a + b)[1..] == a[1..] + b;
      ReadSizeAppend(a[1..], b, next);
      assert ReadSize(a + b, value) == ReadSize(a[1..] + b, next);
    }
  }

  lemma ReadOneDigit(n: int, value: nat)
    requires 0 <= n < 16
    ensures ReadSize([UpperHexDigit(n)], value) == (16 * value + n, [])
  {
    assert [UpperHexDigit(n)][1..] == [];
    assert HexValue(UpperHexDigit(n)) == Some(n);
  }

  lemma {:induction false} ReadSizeOfHex(n: nat)
    ensures AllHex(Hex(n)) && Hex(n) != [] && ReadSize(Hex(n), 0).0 == n
  {
    hide ReadSize;
    if n < 16 {
      ReadOneDigit(n, 0);
    } else {
      ReadSizeOfHex(n / 16);
      ReadOneDigit(n % 16, n / 16);
      ReadSizeAppend(Hex(n / 16), [UpperHexDigit(n % 16)], 0);
    }
  }

  /** The size line of a chunk, in front of anything. */
  lemma SizeIsRead(n: nat, more: seq<Byte>)
    ensures var b := Hex(n) + (CRLF + more);
            b != [] && HexValue(b[0]).Some? && ReadSize(b, 0) == (n, CRLF + more)
  {
    ReadSizeOfHex(n);
    ReadSizeAppend(Hex(n), CRLF + more, 0);
    hide Hex;
    assert (CRLF + more)[0] == 13;
  }

  lemma FirstChunk(data: seq<Byte>, more: seq<Byte>)
    requires data != []
    ensures DecodeChunks(Chunk(data) + more)
         == match DecodeChunks(more) case None => None case Some((payload, rest)) => Some((data + payload, rest))
  {
    var n, r := |data|, CRLF + (data + CRLF + more);
    SizeIsRead(n, data + CRLF + more);
    ChunkParts(data, more);
    hide Hex, ReadSize, HexValue, StartsWithCrlf;
    JoinChunk(Hex(n), data, more);
  }

  lemma JoinChunk(size: seq<Byte>, data: seq<Byte>, more: seq<Byte>)
    ensures size + CRLF + data + CRLF + more == size + (CRLF + (data + CRLF + more))
  {
  }

  /** What follows the size of a chunk. */
  lemma ChunkParts(data: seq<Byte>, more: seq<Byte>)
    ensures var n, r := |data|, CRLF + (data + CRLF + more);
            && |r| >= n + 4 && StartsWithCrlf(r) && StartsWithCrlf(r[n + 2..])
            && r[2..n + 2] == data && r[n + 4..] == more
  {
    var n, r := |data|, CRLF + (data + CRLF + more);
    assert r[n + 2..] == CRLF + more;
  }

  lemma LastChunk(more: seq<Byte>)
    ensures DecodeChunks(LAST + more) == Some(([], more))
    ensures Chunk([]) == LAST
  {
    SizeIsRead(0, CRLF + more);
    var r := CRLF + (CRLF + more);
    assert LAST + more == Hex(0) + r;
    assert r[2..] == CRLF + more && r[4..] == more;
    hide ReadSize, HexValue;
  }

  /** The chunks in front of the first empty one, and those behind it. */
  function BeforeEmpty(chunks: seq<seq<Byte>>): seq<seq<Byte>> {
    if chunks == [] || chunks[0] == [] then [] else [chunks[0]] + BeforeEmpty(chunks[1..])
  }

  function BehindEmpty(chunks: seq<seq<Byte>>): seq<seq<Byte>> {
    if chunks == [] then [] else if chunks[0] == [] then chunks[1..] else BehindEmpty(chunks[1..])
  }

  /** A decoder sees the chunks up to the first empty one, which it takes for the end. */
  lemma {:induction false} DecodedUpToEmpty(chunks: seq<seq<Byte>>, rest: seq<Byte>)
    ensures DecodeChunks(Written(chunks) + LAST + rest)
         == Some((Concat(BeforeEmpty(chunks)),
                  if NoneEmpty(chunks) then rest else Written(BehindEmpty(chunks)) + LAST + rest))
    decreases |chunks|
  {
    hide DecodeChunks, Chunk;
    if chunks == [] {
      LastChunk(rest);
      assert Written(chunks) + LAST + rest == LAST + rest;
    } else {
      var more := Written(chunks[1..]) + LAST + rest;
      assert Written(chunks) + LAST + rest == Chunk(chunks[0]) + more;
      if chunks[0] == [] {
        LastChunk(more);
        assert !NoneEmpty(chunks);
      } else {
        FirstChunk(chunks[0], more);
        DecodedUpToEmpty(chunks[1..], rest);
        assert NoneEmpty(chunks) <==> NoneEmpty(chunks[1..]) by {
          assert chunks == [chunks[0]] + chunks[1..];
        }
        BeforeEmptyFirst(chunks);
      }
    }
  }

  lemma BeforeEmptyFirst(chunks: seq<seq<Byte>>)
    requires chunks != [] && chunks[0] != []
    ensures Concat(BeforeEmpty(chunks)) == chunks[0] + Concat(BeforeEmpty(chunks[1..]))
  {
    assert BeforeEmpty(chunks)[1..] == BeforeEmpty(chunks[1..]);
  }

  lemma {:induction false} NothingIsCut(chunks: seq<seq<Byte>>)
    requires NoneEmpty(chunks)
    ensures BeforeEmpty(chunks) == chunks
    decreases |chunks|
  {
    if chunks != [] {
      NothingIsCut(chunks[1..]);
    }
  }

  /** The whole response arrives, and nothing of what follows it is touched, if and only if no chunk is empty. */
  lemma ResponseArrivesIffNoChunkIsEmpty(chunks: seq<seq<Byte>>, rest: seq<Byte>)
    ensures DecodeChunks(Written(chunks) + LAST + rest) == Some((Concat(chunks), rest)) <==> NoneEmpty(chunks)
  {
    hide DecodeChunks;
    DecodedUpToEmpty(chunks, rest);
    if NoneEmpty(chunks) {
      NothingIsCut(chunks);
    } else {
      assert |Written(BehindEmpty(chunks)) + LAST + rest| > |rest|;
    }
  }
}
