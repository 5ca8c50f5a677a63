/**
 * WebSocket framing (sections 5.2 and 5.3 of RFC 6455) over mongoose's growing input
 * buffer: the frame that `deliver_websocket_frame` finds, what `mg_websocket_write`
 * produces, and the code that works in place on the buffer.
 */
module WebSocket {
  import opened Basics
  import opened IoBuffer
  import opened Splitter

  type Octet = Byte

  /** Exclusive or of the low `n` bits. */
  function XorBits(x: nat, y: nat, n: nat): (r: nat)
    ensures r < Power2(n)
  {
    if n == 0 then 0 else (x + y) % 2 + 2 * XorBits(x / 2, y / 2, n - 1)
  }

  function Power2(n: nat): (r: nat)
    ensures r > 0
  {
    if n == 0 then 1 else 2 * Power2(n - 1)
  }

  function Xor(x: Octet, y: Octet): Octet {
    EightBits();
    XorBits(x, y, 8)
  }

  lemma EightBits()
    ensures Power2(8) == 0x100
  {
    assert Power2(4) == 2 * Power2(3) && Power2(2) == 2 * Power2(1);
    assert Power2(8) == 2 * Power2(7) && Power2(6) == 2 * Power2(5);
  }

  /** What the handler sees: the first octet of the frame and the unmasked payload. */
  datatype Message = Message(bits: Octet, payload: seq<Octet>)

  const HALF_WORD := 0x8000_0000
  const WORD := 0x1_0000_0000

  // ----- reading

  function MaskLength(b: seq<Octet>): nat
    requires |b| >= 2
  {
    if b[1] >= 0x80 then 4 else 0
  }

  function Length7(b: seq<Octet>): int
    requires |b| >= 2
  {
    b[1] % 0x80
  }

  function BigEndian16(b: seq<Octet>, at: nat): int
    requires at + 2 <= |b|
  {
    (b[at] as int) * 0x100 + b[at + 1]
  }

  function BigEndian32(b: seq<Octet>, at: nat): int
    requires at + 4 <= |b|
  {
    BigEndian16(b, at) * 0x1_0000 + BigEndian16(b, at + 2)
  }

  /** Conversion to a signed 32-bit integer. */
  function ToInt32(n: int): (r: int)
    ensures -HALF_WORD <= r < HALF_WORD
    ensures -HALF_WORD <= n < HALF_WORD ==> r == n
    ensures HALF_WORD <= n < HALF_WORD + 14 ==> r < 0
  {
    (n + HALF_WORD) % WORD - HALF_WORD
  }

  /**
   * Header and payload length of the frame at the front of the buffer, zero while the
   * header is incomplete.  Of a 64-bit length only the low word is used.
   */
  function Lengths(b: seq<Octet>): (r: (int, int))
    ensures 0 <= r.0 <= 14 && -HALF_WORD <= r.1 < HALF_WORD && (r.0 == 0 ==> r.1 == 0)
  {
    if |b| < 2 then (0, 0)
    else
      var maskLen := MaskLength(b);
      if Length7(b) < 126 && |b| >= maskLen then (2 + maskLen, Length7(b))
      else if Length7(b) == 126 && |b| >= 4 + maskLen then (4 + maskLen, BigEndian16(b, 2))
      else if |b| >= 10 + maskLen then (10 + maskLen, ToInt32(BigEndian32(b, 6)))
      else (0, 0)
  }

  /** The frame is complete; its length is a signed 32-bit sum. */
  predicate Buffered(b: seq<Octet>) {
    0 < ToInt32(Lengths(b).0 + Lengths(b).1) <= |b|
  }

  function Unmask(data: seq<Octet>, key: seq<Octet>): (r: seq<Octet>)
    requires |key| == 4
    ensures |r| == |data|
  {
    seq(|data|, i requires 0 <= i < |data| => Xor(data[i], key[i % 4]))
  }

  function ParseFrame(b: seq<Octet>): Option<(Message, nat)> {
    if !Buffered(b) then None
    else
      var (headerLen, dataLen) := Lengths(b);
      var data := if dataLen > 0 then b[headerLen..headerLen + dataLen] else [];
      var payload := if MaskLength(b) == 4 then Unmask(data, b[headerLen - 4..headerLen]) else data;
      Some((Message(b[0], payload), headerLen + dataLen))
  }

  lemma SameLengths(b: seq<Octet>, more: seq<Octet>)
    requires Lengths(b).0 > 0
    ensures Lengths(b + more) == Lengths(b) && MaskLength(b + more) == MaskLength(b)
  {
    var c := b + more;
    assert c[1] == b[1];
    if Length7(b) == 126 {
      assert BigEndian16(c, 2) == BigEndian16(b, 2);
    } else if Length7(b) > 126 {
      assert BigEndian32(c, 6) == BigEndian32(b, 6);
    }
  }

  lemma SliceOfFront<T>(b: seq<T>, more: seq<T>, low: int, high: int)
    requires 0 <= low <= high <= |b|
    ensures (b + more)[low..high] == b[low..high]
  {
  }

  lemma FoundAgain(b: seq<Octet>, more: seq<Octet>)
    requires ParseFrame(b).Some?
    ensures ParseFrame(b + more) == ParseFrame(b)
  {
    SameLengths(b, more);
    var (headerLen, dataLen) := Lengths(b);
    hide Lengths, ToInt32;
    if MaskLength(b) == 4 {
      SliceOfFront(b, more, headerLen - 4, headerLen);
    }
    if dataLen > 0 {
      SliceOfFront(b, more, headerLen, headerLen + dataLen);
    }
  }

  lemma FramesAreStreaming()
    ensures Streaming(ParseFrame)
  {
    hide Lengths, ToInt32, Unmask;
    forall b: seq<Octet>, more: seq<Octet> | ParseFrame(b).Some?
      ensures ParseFrame(b + more) == ParseFrame(b)
    {
      FoundAgain(b, more);
    }
  }

  // ----- frames on the wire

  /** The three ways to write a payload length; a sender may choose a longer one than needed. */
  datatype Width = Inline | Word16 | Word64

  /** A frame as a peer may send it; an empty key stands for an unmasked frame. */
  datatype Frame = Frame(bits: Octet, key: seq<Octet>, width: Width, payload: seq<Octet>)

  /** Payload lengths that fit the chosen form, and whose frame length fits a signed 32-bit integer. */
  predicate Sendable(f: Frame) {
    && (f.key == [] || |f.key| == 4)
    && (f.width.Inline? ==> |f.payload| < 126)
    && (f.width.Word16? ==> |f.payload| <= 0xFFFF)
    && |FrameBytes(f)| < HALF_WORD
  }

  function Octet8(n: int): Octet
  {
    n % 0x100
  }

  function Bytes16(n: int): (b: seq<Octet>)
    ensures |b| == 2
  {
    [Octet8(n / 0x100), Octet8(n)]
  }

  function Bytes32(n: int): (b: seq<Octet>)
    ensures |b| == 4
  {
    Bytes16(n / 0x1_0000) + Bytes16(n)
  }

  function LengthBytes(f: Frame): seq<Octet> {
    var mask := if f.key == [] then 0 else 0x80;
    match f.width
    case Inline => [|f.payload| % 0x80 + mask]
    case Word16 => [126 + mask] + Bytes16(|f.payload|)
    case Word64 => [127 + mask] + Bytes32(|f.payload| / WORD) + Bytes32(|f.payload|)
  }

  function Header(f: Frame): seq<Octet> {
    [f.bits] + LengthBytes(f) + f.key
  }

  function FrameBytes(f: Frame): seq<Octet> {
    Header(f) + if |f.key| == 4 then Unmask(f.payload, f.key) else f.payload
  }

  lemma Bytes16Read(b: seq<Octet>, at: nat, n: int)
    requires at + 2 <= |b| && b[at..at + 2] == Bytes16(n)
    ensures BigEndian16(b, at) == n % 0x1_0000
  {
    assert b[at] == b[at..at + 2][0] && b[at + 1] == b[at..at + 2][1];
  }

  lemma Bytes32Read(b: seq<Octet>, at: nat, n: int)
    requires at + 4 <= |b| && b[at..at + 4] == Bytes32(n)
    ensures BigEndian32(b, at) == n % WORD
  {
    assert b[at..at + 2] == b[at..at + 4][..2] && b[at + 2..at + 4] == b[at..at + 4][2..];
    Bytes16Read(b, at, n / 0x1_0000);
    Bytes16Read(b, at + 2, n);
    hide BigEndian16, Bytes16;
    TwoHalves(n);
  }

  lemma TwoHalves(n: int)
    ensures n / 0x1_0000 % 0x1_0000 * 0x1_0000 + n % 0x1_0000 == n % WORD
  {
    var q := n / 0x1_0000;
    assert n == 0x1_0000 * q + n % 0x1_0000;
    assert q == 0x1_0000 * (q / 0x1_0000) + q % 0x1_0000;
    assert n == WORD * (q / 0x1_0000) + (q % 0x1_0000 * 0x1_0000 + n % 0x1_0000);
  }

  lemma XorBit(x: nat, y: nat, rest: nat)
    ensures var r := (x + y) % 2 + 2 * rest; r / 2 == rest && (r + y) % 2 == x % 2
  {
  }

  lemma {:induction false} XorBitsTwice(x: nat, y: nat, n: nat)
    requires x < Power2(n)
    ensures XorBits(XorBits(x, y, n), y, n) == x
  {
    if n > 0 {
      var rest := XorBits(x / 2, y / 2, n - 1);
      XorBitsTwice(x / 2, y / 2, n - 1);
      XorBit(x, y, rest);
      var r := (x + y) % 2 + 2 * rest;
      assert XorBits(r, y, n) == (r + y) % 2 + 2 * XorBits(r / 2, y / 2, n - 1);
    }
  }

  lemma XorTwice(x: Octet, y: Octet)
    ensures Xor(Xor(x, y), y) == x
  {
    EightBits();
    XorBitsTwice(x, y, 8);
  }

  lemma UnmaskTwice(data: seq<Octet>, key: seq<Octet>)
    requires |key| == 4
    ensures Unmask(Unmask(data, key), key) == data
  {
    forall i | 0 <= i < |data|
      ensures Unmask(Unmask(data, key), key)[i] == data[i]
    {
      XorTwice(data[i], key[i % 4]);
    }
  }

  lemma LengthsInline(f: Frame, b: seq<Octet>)
    requires (f.key == [] || |f.key| == 4) && f.width.Inline? && |f.payload| < 126 && Header(f) <= b
    ensures Lengths(b) == (|Header(f)|, |f.payload|) && (MaskLength(b) == 4 <==> f.key != [])
  {
    var mask: Octet := if f.key == [] then 0 else 0x80;
    assert b[1] == Header(f)[1] == |f.payload| + mask;
  }

  lemma LengthsWord16(f: Frame, b: seq<Octet>)
    requires (f.key == [] || |f.key| == 4) && f.width.Word16? && |f.payload| <= 0xFFFF && Header(f) <= b
    ensures Lengths(b) == (|Header(f)|, |f.payload|) && (MaskLength(b) == 4 <==> f.key != [])
  {
    var mask: Octet := if f.key == [] then 0 else 0x80;
    assert b[1] == Header(f)[1] == 126 + mask;
    assert b[2..4] == Header(f)[2..4] == Bytes16(|f.payload|);
    Bytes16Read(b, 2, |f.payload|);
  }

  lemma LengthsWord64(f: Frame, b: seq<Octet>)
    requires (f.key == [] || |f.key| == 4) && f.width.Word64? && |f.payload| < HALF_WORD && Header(f) <= b
    ensures Lengths(b) == (|Header(f)|, |f.payload|) && (MaskLength(b) == 4 <==> f.key != [])
  {
    hide Bytes32;
    var mask: Octet := if f.key == [] then 0 else 0x80;
    assert b[1] == Header(f)[1] == 127 + mask;
    assert b[6..10] == Header(f)[6..10] == Bytes32(|f.payload|);
    Bytes32Read(b, 6, |f.payload|);
  }

  /** The parser finds the header and the payload length that the sender wrote. */
  lemma LengthsOfFrame(f: Frame, b: seq<Octet>)
    requires Sendable(f) && Header(f) <= b
    ensures Lengths(b) == (|Header(f)|, |f.payload|) && (MaskLength(b) == 4 <==> f.key != [])
  {
    hide Lengths, MaskLength, Header;
    match f.width {
      case Inline => LengthsInline(f, b);
      case Word16 => LengthsWord16(f, b);
      case Word64 => LengthsWord64(f, b);
    }
  }

  lemma FrameFound(f: Frame, more: seq<Octet>)
    requires Sendable(f)
    ensures ParseFrame(FrameBytes(f) + more) == Some((Message(f.bits, f.payload), |FrameBytes(f)|))
  {
    hide Lengths, LengthBytes, Unmask, ToInt32;
    var b := FrameBytes(f) + more;
    var h, n := |Header(f)|, |f.payload|;
    LengthsOfFrame(f, b);
    var data := if f.key == [] then f.payload else Unmask(f.payload, f.key);
    assert b[h..h + n] == data;
    if f.key != [] {
      assert b[h - 4..h] == f.key;
      UnmaskTwice(f.payload, f.key);
    }
  }

  /** A well-made frame is taken off the stream as it was sent exactly when its length fits a signed 32-bit integer. */
  lemma FoundIffLengthFits(f: Frame, more: seq<Octet>)
    requires f.key == [] || |f.key| == 4
    requires (f.width.Inline? ==> |f.payload| < 126) && (f.width.Word16? ==> |f.payload| <= 0xFFFF)
    ensures ParseFrame(FrameBytes(f) + more) == Some((Message(f.bits, f.payload), |FrameBytes(f)|))
            <==> |FrameBytes(f)| < HALF_WORD
  {
    hide Lengths, FrameBytes, ToInt32, Unmask;
    if Sendable(f) {
      FrameFound(f, more);
    }
  }

  lemma FrameNotFoundEarly(f: Frame, n: nat)
    requires Sendable(f) && n < |FrameBytes(f)|
    ensures ParseFrame(FrameBytes(f)[..n]) == None
  {
    hide Lengths, LengthBytes, Unmask, ToInt32, MaskLength;
    var code := FrameBytes(f);
    var c := code[..n];
    LengthsOfFrame(f, code);
    assert c + code[n..] == code;
    if Lengths(c).0 > 0 {
      SameLengths(c, code[n..]);
    }
  }

  lemma FrameIsWireForm(f: Frame)
    requires Sendable(f)
    ensures IsWireForm(ParseFrame, Message(f.bits, f.payload), FrameBytes(f))
  {
    forall more: seq<Octet>
      ensures ParseFrame(FrameBytes(f) + more) == Some((Message(f.bits, f.payload), |FrameBytes(f)|))
    {
      FrameFound(f, more);
    }
    forall n | 0 <= n < |FrameBytes(f)|
      ensures ParseFrame(FrameBytes(f)[..n]) == None
    {
      FrameNotFoundEarly(f, n);
    }
  }

  // ----- whole streams

  function AllBytes(frames: seq<Frame>): seq<seq<Octet>> {
    seq(|frames|, i requires 0 <= i < |frames| => FrameBytes(frames[i]))
  }

  function Messages(frames: seq<Frame>): seq<Message> {
    seq(|frames|, i requires 0 <= i < |frames| => Message(frames[i].bits, frames[i].payload))
  }

  lemma EmptyHasNoFrame()
    ensures ParseFrame([]) == None
  {
  }

  /**
   * However the bytes of a run of frames and of the beginning of a next one are cut
   * into pieces, the handler gets exactly those messages in order, and exactly the
   * unfinished frame stays in the buffer.
   */
  lemma HandlerGetsEveryFrame(frames: seq<Frame>, next: Frame, n: nat, pieces: seq<seq<Octet>>)
    requires (forall f :: f in frames ==> Sendable(f)) && Sendable(next) && n < |FrameBytes(next)|
    requires Concat(pieces) == Concat(AllBytes(frames)) + FrameBytes(next)[..n]
    ensures Feed(ParseFrame, [], pieces) == (Messages(frames), FrameBytes(next)[..n])
  {
    hide ParseFrame, Sendable, FrameBytes, Drain, Feed, Streaming, IsWireForm;
    FramesAreStreaming();
    FrameNotFoundEarly(next, n);
    forall i | 0 <= i < |frames|
      ensures IsWireForm(ParseFrame, Messages(frames)[i], AllBytes(frames)[i])
    {
      FrameIsWireForm(frames[i]);
    }
    EmptyHasNoFrame();
    PiecesDoNotMatter(ParseFrame, [], pieces);
    assert [] + Concat(pieces) == Concat(pieces);
    DrainOfWireForms(ParseFrame, Messages(frames), AllBytes(frames), FrameBytes(next)[..n]);
  }

  // ----- writing

  /** The frame `mg_websocket_write` makes: final, unmasked, the shortest length form. */
  function WrittenFrame(opcode: Octet, data: seq<Octet>): Frame {
    Frame(0x80 + opcode % 0x10, [], if |data| < 126 then Inline else if |data| <= 0xFFFF then Word16 else Word64, data)
  }

  method WebsocketWrite(opcode: Octet, data: seq<Octet>) returns (copy: seq<Octet>)
    ensures copy == FrameBytes(WrittenFrame(opcode, data))
  {
    copy := [0x80 + opcode % 0x10];
    if |data| < 126 {
      copy := copy + [|data|] + data;
    } else if |data| <= 0xFFFF {
      copy := copy + [126] + Bytes16(|data|) + data;
    } else {
      copy := copy + [127] + Bytes32(|data| / WORD) + Bytes32(|data|) + data;
    }
  }

  function WrittenFrames(writes: seq<(Octet, seq<Octet>)>): seq<Frame> {
    seq(|writes|, i requires 0 <= i < |writes| => WrittenFrame(writes[i].0, writes[i].1))
  }

  /**
   * Whatever run of writes is sent, a reader gets each opcode, marked final, and each payload back, cut as the
   * bytes may be.
   */
  lemma WritesAreRead(writes: seq<(Octet, seq<Octet>)>, pieces: seq<seq<Octet>>)
    requires forall w :: w in writes ==> |w.1| + 10 < HALF_WORD
    requires Concat(pieces) == Concat(AllBytes(WrittenFrames(writes)))
    ensures Feed(ParseFrame, [], pieces)
         == (seq(|writes|, i requires 0 <= i < |writes| => Message(0x80 + writes[i].0 % 0x10, writes[i].1)), [])
  {
    var frames := WrittenFrames(writes);
    forall f | f in frames
      ensures Sendable(f)
    {
      var i :| 0 <= i < |frames| && frames[i] == f;
      assert writes[i] in writes;
    }
    var idle := Frame(0, [], Inline, []);
    assert FrameBytes(idle)[..0] == [];
    assert Concat(AllBytes(frames)) + [] == Concat(AllBytes(frames));
    HandlerGetsEveryFrame(frames, idle, 0, pieces);
    assert Messages(frames)
        == seq(|writes|, i requires 0 <= i < |writes| => Message(0x80 + writes[i].0 % 0x10, writes[i].1));
  }

  // ----- the code

  /** A websocket connection: its input buffer, and what the handler was given. */
  class Connection {
    const local: IoBuf
    var delivered: seq<Message>

    ghost predicate Valid()
      reads local
    {
      local.Valid()
    }

    ghost function Content(): seq<Octet>
      requires Valid()
      reads local, local.buf
    {
      local.Content()
    }

    constructor ()
      ensures Valid() && Content() == [] && delivered == [] && fresh(local) && fresh(local.buf)
    {
      local := new IoBuf();
      delivered := [];
    }

    /** Removes the mask in place. */
    method UnmaskInPlace(headerLen: nat, dataLen: nat)
      requires Valid() && 4 <= headerLen && headerLen + dataLen <= local.len
      modifies local.buf
      ensures local.buf[headerLen..headerLen + dataLen]
           == Unmask(old(local.buf[headerLen..headerLen + dataLen]), old(local.buf[headerLen - 4..headerLen]))
      ensures forall j :: 0 <= j < headerLen || headerLen + dataLen <= j < local.buf.Length ==>
                local.buf[j] == old(local.buf[j])
    {
      for i := 0 to dataLen
        invariant forall j :: 0 <= j < headerLen || headerLen + i <= j < local.buf.Length ==>
                    local.buf[j] == old(local.buf[j])
        invariant forall j :: 0 <= j < i ==>
          local.buf[headerLen + j] ==
            Xor(old(local.buf[headerLen + j]), old(local.buf[headerLen - 4..headerLen])[j % 4])
      {
        local.buf[i + headerLen] := Xor(local.buf[i + headerLen], local.buf[headerLen - 4 + i % 4]);
      }
    }

    /** Delivers the frame at the front of the buffer, if it is complete, and removes it. */
    method DeliverWebsocketFrame() returns (buffered: bool)
      requires Valid()
      modifies local`len, this`delivered, local.buf
      ensures Valid()
      ensures match ParseFrame(old(Content()))
              case None => !buffered && Content() == old(Content()) && delivered == old(delivered)
              case Some((message, n)) =>
                buffered && 0 < n <= |old(Content())| && Content() == old(Content())[n..]
                  && delivered == old(delivered) + [message]
    {
      hide Lengths, ParseFrame, Unmask, MaskLength;
      ghost var b := Content();
      var maskLen, headerLen, dataLen := ReadLengths();
      var frameLen := ToInt32(headerLen + dataLen);
      buffered := 0 < frameLen <= local.len;
      if buffered {
        HeaderWithin(b);
        var bits := local.buf[0];
        var payload := TakePayload(maskLen, headerLen, dataLen);
        delivered := delivered + [Message(bits, payload)];
        Found(b, maskLen, headerLen, dataLen, Message(bits, payload));
        assert Content()[frameLen..] == b[frameLen..];
        local.Shift(frameLen);
      } else {
        NotFound(b);
      }
    }

    static lemma SliceOfSlice(s: seq<Octet>, n: nat, low: nat, high: nat)
      requires low <= high <= n <= |s|
      ensures s[..n][low..high] == s[low..high]
    {
    }

    static lemma NotFound(b: seq<Octet>)
      requires !Buffered(b)
      ensures ParseFrame(b) == None
    {
    }

    static lemma Found(b: seq<Octet>, maskLen: nat, headerLen: nat, dataLen: int, message: Message)
      requires Buffered(b) && maskLen == MaskLength(b) && (headerLen, dataLen) == Lengths(b) && message.bits == b[0]
      requires 4 <= headerLen + (4 - maskLen) && headerLen <= |b|
      requires var data := if dataLen > 0 then b[headerLen..headerLen + dataLen] else [];
               message.payload == if maskLen == 4 then Unmask(data, b[headerLen - 4..headerLen]) else data
      ensures ParseFrame(b) == Some((message, headerLen + dataLen))
    {
      hide Lengths, Unmask, MaskLength, ToInt32;
    }

    /** The payload of the frame at the front, unmasked where it lies. */
    method TakePayload(maskLen: nat, headerLen: nat, dataLen: int) returns (payload: seq<Octet>)
      requires Valid() && maskLen in {0, 4} && 2 + maskLen <= headerLen <= local.len && headerLen + dataLen <= local.len
      modifies local.buf
      ensures var b := old(Content());
              var data := if dataLen > 0 then b[headerLen..headerLen + dataLen] else [];
              payload == if maskLen == 4 then Unmask(data, b[headerLen - 4..headerLen]) else data
      ensures forall i :: 0 <= i < local.len && !(headerLen <= i < headerLen + dataLen) ==>
                local.buf[i] == old(local.buf[i])
    {
      hide Unmask;
      ghost var b := Content();
      var size := if dataLen > 0 then dataLen else 0;
      SliceOfSlice(local.buf[..], local.len, headerLen, headerLen + size);
      if maskLen > 0 {
        SliceOfSlice(local.buf[..], local.len, headerLen - 4, headerLen);
        UnmaskInPlace(headerLen, size);
      }
      payload := local.buf[headerLen..headerLen + size];
    }

    /** The lengths as the header gives them, and the length of the mask. */
    method ReadLengths() returns (maskLen: nat, headerLen: nat, dataLen: int)
      requires Valid()
      ensures (headerLen, dataLen) == Lengths(Content())
      ensures local.len >= 2 ==> maskLen == MaskLength(Content()) && maskLen in {0, 4}
    {
      maskLen, headerLen, dataLen := 0, 0, 0;
      if local.len >= 2 {
        var len7 := local.buf[1] % 0x80;
        maskLen := if local.buf[1] >= 0x80 then 4 else 0;
        if len7 < 126 && local.len >= maskLen {
          headerLen, dataLen := 2 + maskLen, len7;
        } else if len7 == 126 && local.len >= 4 + maskLen {
          headerLen, dataLen := 4 + maskLen, BigEndian16(local.buf[..local.len], 2);
        } else if local.len >= 10 + maskLen {
          headerLen, dataLen := 10 + maskLen, ToInt32(BigEndian32(local.buf[..local.len], 6));
        }
      }
    }

    static lemma HeaderWithin(b: seq<Octet>)
      requires Buffered(b)
      ensures |b| >= 2 && 2 + MaskLength(b) <= Lengths(b).0 <= |b|
      ensures ToInt32(Lengths(b).0 + Lengths(b).1) == Lengths(b).0 + Lengths(b).1
    {
    }

    /** Delivers frames for as long as there are complete ones; each makes the buffer shorter. */
    method CallUriHandler()
      requires Valid()
      modifies local`len, this`delivered, local.buf
      ensures Valid()
      ensures var (messages, rest) := Drain(ParseFrame, old(Content()));
              delivered == old(delivered) + messages && Content() == rest
    {
      hide ParseFrame, Drain;
      ghost var goal := Drain(ParseFrame, Content());
      var more := true;
      while more
        invariant Valid()
        invariant delivered + Drain(ParseFrame, Content()).0 == old(delivered) + goal.0
        invariant Drain(ParseFrame, Content()).1 == goal.1
        invariant !more ==> ParseFrame(Content()).None?
        decreases local.len, more
      {
        ghost var c, delivered0 := Content(), delivered;
        more := DeliverWebsocketFrame();
        if more {
          DrainOne(ParseFrame, c);
          assert delivered + Drain(ParseFrame, Content()).0 == delivered0 + Drain(ParseFrame, c).0;
        }
      }
      DrainNone(ParseFrame, Content());
    }

    /** One read from the client. */
    method ReadFromClient(data: seq<Octet>)
      requires Valid()
      modifies local`buf, local`len, this`delivered, local.buf
      ensures Valid() && (local.buf == old(local.buf) || fresh(local.buf))
      ensures var (messages, rest) := Drain(ParseFrame, old(Content()) + data);
              delivered == old(delivered) + messages && Content() == rest
    {
      local.Spool(data);
      CallUriHandler();
    }

    /** The reads of a whole connection. */
    method Serve(pieces: seq<seq<Octet>>)
      requires Valid()
      modifies local`buf, local`len, this`delivered, local.buf
      ensures Valid()
      ensures var (messages, rest) := Feed(ParseFrame, old(Content()), pieces);
              delivered == old(delivered) + messages && Content() == rest
    {
      hide Drain;
      ghost var b := Content();
      for i := 0 to |pieces|
        invariant Valid() && (local.buf == old(local.buf) || fresh(local.buf))
        invariant delivered + Feed(ParseFrame, Content(), pieces[i..]).0
               == old(delivered) + Feed(ParseFrame, b, pieces).0
        invariant Feed(ParseFrame, Content(), pieces[i..]).1 == Feed(ParseFrame, b, pieces).1
      {
        ghost var c, delivered0 := Content(), delivered;
        ReadFromClient(pieces[i]);
        assert pieces[i..][0] == pieces[i] && pieces[i..][1..] == pieces[i + 1..];
        assert delivered + Feed(ParseFrame, Content(), pieces[i + 1..]).0
            == delivered0 + Feed(ParseFrame, c, pieces[i..]).0;
      }
    }
  }
}
