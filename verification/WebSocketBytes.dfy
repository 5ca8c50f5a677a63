/**
 * Websocket frames read and written octet by octet: what each octet of the header means and
 * what becomes of each octet of the payload, by arithmetic and single bits alone.
 */
module WebSocketBytes {
  import opened Basics
  import opened WebSocket

  // ----- exclusive or

  /** Whether the bit worth `d` is set. */
  predicate Bit(x: Octet, d: int)
    requires d > 0
  {
    x / d % 2 == 1
  }

  /** The eight bits of `r` are set where exactly one of `x` and `y` has its bit set. */
  predicate IsExclusiveOr(r: Octet, x: Octet, y: Octet) {
    && (Bit(r, 1) <==> Bit(x, 1) != Bit(y, 1)) && (Bit(r, 2) <==> Bit(x, 2) != Bit(y, 2))
    && (Bit(r, 4) <==> Bit(x, 4) != Bit(y, 4)) && (Bit(r, 8) <==> Bit(x, 8) != Bit(y, 8))
    && (Bit(r, 16) <==> Bit(x, 16) != Bit(y, 16)) && (Bit(r, 32) <==> Bit(x, 32) != Bit(y, 32))
    && (Bit(r, 64) <==> Bit(x, 64) != Bit(y, 64)) && (Bit(r, 128) <==> Bit(x, 128) != Bit(y, 128))
  }

  lemma LowestBit(x: nat, y: nat, n: nat)
    requires n > 0
    ensures XorBits(x, y, n) % 2 == (x + y) % 2 && XorBits(x, y, n) / 2 == XorBits(x / 2, y / 2, n - 1)
  {
  }

  lemma LowTwoBits(x: nat, y: nat, n: nat)
    requires n >= 2
    ensures var r := XorBits(x, y, n);
            && r % 2 == (x + y) % 2 && r / 2 % 2 == (x / 2 + y / 2) % 2
            && r / 4 == XorBits(x / 4, y / 4, n - 2)
  {
    hide XorBits;
    LowestBit(x, y, n);
    LowestBit(x / 2, y / 2, n - 1);
    Quarters(x);
    Quarters(y);
    Quarters(XorBits(x, y, n));
  }

  lemma Quarters(x: nat)
    ensures x / 2 / 2 == x / 4 && x / 4 / 2 == x / 8 && x / 4 / 4 == x / 16
  {
  }

  /** The parity of a sum of two bits. */
  lemma BitOfSum(x: Octet, y: Octet, r: Octet, d: int)
    requires d > 0 && r / d % 2 == (x / d + y / d) % 2
    ensures Bit(r, d) <==> Bit(x, d) != Bit(y, d)
  {
  }

  lemma LowBitsOfXor(x: Octet, y: Octet)
    ensures var r := Xor(x, y);
            && r % 2 == (x + y) % 2 && r / 2 % 2 == (x / 2 + y / 2) % 2
            && r / 4 % 2 == (x / 4 + y / 4) % 2 && r / 8 % 2 == (x / 8 + y / 8) % 2
            && r / 16 == XorBits(x / 16, y / 16, 4)
  {
    hide XorBits;
    LowTwoBits(x, y, 8);
    LowTwoBits(x / 4, y / 4, 6);
    Quarters(x);
    Quarters(y);
    Quarters(XorBits(x, y, 8));
  }

  lemma HighBitsOfXor(x: Octet, y: Octet)
    ensures var r := Xor(x, y);
            && r / 16 % 2 == (x / 16 + y / 16) % 2 && r / 32 % 2 == (x / 32 + y / 32) % 2
            && r / 64 % 2 == (x / 64 + y / 64) % 2 && r / 128 % 2 == (x / 128 + y / 128) % 2
  {
    hide XorBits;
    LowBitsOfXor(x, y);
    LowTwoBits(x / 16, y / 16, 4);
    LowTwoBits(x / 64, y / 64, 2);
    Sixteenths(x);
    Sixteenths(y);
    Sixteenths(Xor(x, y));
  }

  lemma Sixteenths(x: nat)
    ensures x / 16 / 2 == x / 32 && x / 16 / 4 == x / 64 && x / 64 / 2 == x / 128
  {
  }

  lemma XorIsExclusiveOr(x: Octet, y: Octet)
    ensures IsExclusiveOr(Xor(x, y), x, y)
  {
    hide Xor, Bit;
    var r := Xor(x, y);
    LowBitsOfXor(x, y);
    HighBitsOfXor(x, y);
    BitOfSum(x, y, r, 1);
    BitOfSum(x, y, r, 2);
    BitOfSum(x, y, r, 4);
    BitOfSum(x, y, r, 8);
    BitOfSum(x, y, r, 16);
    BitOfSum(x, y, r, 32);
    BitOfSum(x, y, r, 64);
    BitOfSum(x, y, r, 128);
  }

  // ----- frames read

  function HeaderBytes(b1: Octet): nat {
    2 + (if b1 % 128 < 126 then 0 else if b1 % 128 == 126 then 2 else 8) + (if b1 >= 128 then 4 else 0)
  }

  /** The payload length as the header gives it: one octet, two of them, or the low four of eight as a signed word. */
  function PayloadLength(b: seq<Octet>): int
    requires |b| >= 2 && |b| >= HeaderBytes(b[1])
  {
    if b[1] % 128 < 126 then b[1] % 128
    else if b[1] % 128 == 126 then (b[2] as int) * 256 + b[3]
    else
      var word := (b[6] as int) * 0x100_0000 + (b[7] as int) * 0x1_0000 + (b[8] as int) * 0x100 + b[9];
      if word < 0x8000_0000 then word else word - 0x1_0000_0000
  }

  lemma LengthsInBytes(b: seq<Octet>)
    requires |b| >= 2 && |b| >= HeaderBytes(b[1])
    ensures Lengths(b) == (HeaderBytes(b[1]), PayloadLength(b))
    ensures MaskLength(b) == if b[1] >= 128 then 4 else 0
  {
  }

  lemma ShortHeader(b: seq<Octet>)
    requires |b| < 2 || |b| < HeaderBytes(b[1])
    ensures ParseFrame(b) == None
  {
  }

  /** The payload of a frame whose header has `h` octets: as it stands, or unmasked. */
  function PayloadAt(b: seq<Octet>, h: nat, n: int): (payload: seq<Octet>)
    requires |b| >= 2 && h + n <= |b| && h <= |b| && (b[1] >= 128 ==> h >= 4)
    ensures |payload| == if n > 0 then n else 0
  {
    var data := if n > 0 then b[h..h + n] else [];
    if b[1] >= 128 then Unmask(data, b[h - 4..h]) else data
  }

  lemma FoundIn(b: seq<Octet>)
    requires |b| >= 2 && |b| >= HeaderBytes(b[1]) && HeaderBytes(b[1]) <= 14 && (b[1] >= 128 ==> HeaderBytes(b[1]) >= 4)
    ensures var h, n := HeaderBytes(b[1]), PayloadLength(b);
            ParseFrame(b) == if 0 < h + n <= |b| && h + n < 0x8000_0000
                             then Some((Message(b[0], PayloadAt(b, h, n)), h + n)) else None
  {
    hide Lengths, MaskLength, HeaderBytes, PayloadLength, Unmask;
    LengthsInBytes(b);
  }

  lemma UnmaskedOctet(data: seq<Octet>, key: seq<Octet>, i: nat)
    requires |key| == 4 && i < |data|
    ensures Unmask(data, key)[i] == Xor(data[i], key[i % 4])
  {
    hide Xor;
  }

  lemma OctetOfPayload(b: seq<Octet>, h: nat, n: int, i: nat)
    requires |b| >= 2 && h + n <= |b| && h <= |b| && (b[1] >= 128 ==> h >= 4) && i < n
    ensures var octet := PayloadAt(b, h, n)[i];
            if b[1] >= 128 then IsExclusiveOr(octet, b[h + i], b[h - 4 + i % 4]) else octet == b[h + i]
  {
    hide IsExclusiveOr, Xor, Unmask;
    var data := b[h..h + n];
    assert data[i] == b[h + i];
    if b[1] >= 128 {
      var key, j := b[h - 4..h], i % 4;
      assert key[j] == b[h - 4 + j];
      UnmaskedOctet(data, key, i);
      XorIsExclusiveOr(data[i], key[j]);
    }
  }

  /**
   * Every frame that is found, octet by octet: the header's length, the payload's length, the
   * first octet handed on as it is, and each payload octet as it stands or, in a masked
   * frame, combined with the mask octet whose turn it is.
   */
  lemma FrameInBytes(b: seq<Octet>)
    requires |b| >= 2 && |b| >= HeaderBytes(b[1])
    ensures var h, n := HeaderBytes(b[1]), PayloadLength(b);
            && (ParseFrame(b).Some? <==> 0 < h + n <= |b| && h + n < 0x8000_0000)
            && (ParseFrame(b).Some? ==>
                var (message, size) := ParseFrame(b).value;
                && size == h + n && message.bits == b[0]
                && |message.payload| == (if n > 0 then n else 0)
                && forall i :: 0 <= i < |message.payload| ==>
                    if b[1] >= 128 then IsExclusiveOr(message.payload[i], b[h + i], b[h - 4 + i % 4])
                    else message.payload[i] == b[h + i])
  {
    hide HeaderBytes, PayloadLength, PayloadAt, ParseFrame, IsExclusiveOr;
    HeaderHoldsMask(b[1]);
    FoundIn(b);
    var h, n := HeaderBytes(b[1]), PayloadLength(b);
    if ParseFrame(b).Some? {
      forall i | 0 <= i < |PayloadAt(b, h, n)|
        ensures var octet := PayloadAt(b, h, n)[i];
                if b[1] >= 128 then IsExclusiveOr(octet, b[h + i], b[h - 4 + i % 4]) else octet == b[h + i]
      {
        OctetOfPayload(b, h, n, i);
      }
    }
  }

  lemma HeaderHoldsMask(b1: Octet)
    ensures 2 <= HeaderBytes(b1) <= 14 && (b1 >= 128 ==> HeaderBytes(b1) >= 6)
  {
  }

  // ----- frames written

  /** The two or eight length octets of the longer forms are big-endian, and nothing is masked. */
  lemma WrittenInBytes(opcode: Octet, data: seq<Octet>)
    ensures var copy, n := FrameBytes(WrittenFrame(opcode, data)), |data|;
            var head := 0x80 + opcode % 0x10;
            copy == (if n < 126 then [head, n]
                     else if n <= 65535 then [head, 126, n / 256, n % 256]
                     else [head, 127, n / 0x100_0000_0000_0000 % 256, n / 0x1_0000_0000_0000 % 256,
                           n / 0x100_0000_0000 % 256, n / 0x1_0000_0000 % 256,
                           n / 0x100_0000 % 256, n / 0x1_0000 % 256, n / 256 % 256, n % 256]) + data
  {
    var n := |data|;
    FourBytes(n);
    FourBytes(n / 0x1_0000_0000);
    FarBytes(n);
    hide Bytes32;
  }

  lemma FourBytes(n: nat)
    ensures Bytes32(n) == [n / 0x100_0000 % 256, n / 0x1_0000 % 256, n / 256 % 256, n % 256]
  {
    assert n / 0x1_0000 / 256 == n / 0x100_0000;
  }

  lemma FarBytes(n: nat)
    ensures var q := n / 0x1_0000_0000;
            && q / 0x100_0000 == n / 0x100_0000_0000_0000 && q / 0x1_0000 == n / 0x1_0000_0000_0000
            && q / 256 == n / 0x100_0000_0000
  {
  }
}
