/**
 * In-band bytestreams (XEP-0047) over IQ stanzas: the sender's blocks, numbered modulo
 * 2^16 and carried as Base64, and the receiver's acceptance of them.
 */
module InBandBytestream {
  import opened Basics
  import opened Base64

  datatype Kind = Open | Data | Close

  /** The payload as the program holds it, and as the element that goes over the stream. */
  datatype Ibb = Ibb(kind: Kind, sid: string, number: int, blockSize: int, data: Octets)
  datatype Element = Element(kind: Kind, sid: string, number: int, blockSize: int, text: Octets)

  datatype Reply = Result | ItemNotFound | BadRequest

  /** Building the element and reading it back; an attribute that is not written reads as 0. */
  function ToElement(i: Ibb): Element {
    match i.kind
    case Data => Element(Data, i.sid, i.number, 0, Encode(i.data))
    case Open => Element(Open, i.sid, 0, i.blockSize, [])
    case Close => Element(Close, i.sid, 0, 0, [])
  }

  function FromElement(e: Element): Ibb {
    Ibb(e.kind, e.sid, e.number, e.blockSize, Decode(e.text))
  }

  lemma ElementRoundTrip(sid: string, number: int, data: Octets)
    ensures FromElement(ToElement(Ibb(Data, sid, number, 0, data))) == Ibb(Data, sid, number, 0, data)
  {
    DecodeOfEncode(data);
  }

  // ----- sending

  /** The counter after one more block: it goes back to -1 when 65535 has been used. */
  function Advance(counter: int): int {
    if counter + 1 == 65535 then -1 else counter + 1
  }

  function AdvanceBy(counter: int, n: nat): int
    decreases n
  {
    if n == 0 then counter else AdvanceBy(Advance(counter), n - 1)
  }

  /** The data cut into blocks; at least one, even for no data. */
  function Blocks(data: Octets, blockSize: nat): (blocks: seq<Octets>)
    requires blockSize > 0
    ensures blocks != []
  {
    if |data| <= blockSize then [data] else [data[..blockSize]] + Blocks(data[blockSize..], blockSize)
  }

  function Elements(sid: string, counter: int, blocks: seq<Octets>): seq<Element>
    decreases |blocks|
  {
    if blocks == [] then []
    else [ToElement(Ibb(Data, sid, counter + 1, 0, blocks[0]))] + Elements(sid, Advance(counter), blocks[1..])
  }

  /** All blocks of a list of sends. */
  function AllBlocks(sends: seq<Octets>, blockSize: nat): seq<Octets>
    requires blockSize > 0
  {
    if sends == [] then [] else Blocks(sends[0], blockSize) + AllBlocks(sends[1..], blockSize)
  }

  /** What a list of sends puts on the stream, each send starting from the counter the last one left. */
  function Sent(sid: string, counter: int, sends: seq<Octets>, blockSize: nat): seq<Element>
    requires blockSize > 0
    decreases |sends|
  {
    if sends == [] then []
    else
      var blocks := Blocks(sends[0], blockSize);
      Elements(sid, counter, blocks) + Sent(sid, AdvanceBy(counter, |blocks|), sends[1..], blockSize)
  }

  lemma {:induction false} ElementsAppend(sid: string, counter: int, a: seq<Octets>, b: seq<Octets>)
    ensures Elements(sid, counter, a + b) == Elements(sid, counter, a) + Elements(sid, AdvanceBy(counter, |a|), b)
    decreases |a|
  {
    hide ToElement, Advance;
    if a == [] {
      assert a + b == b;
      assert Elements(sid, counter, a) + Elements(sid, counter, b) == Elements(sid, counter, b);
    } else {
      assert (a + b)[1..] == a[1..] + b;
      ElementsAppend(sid, Advance(counter), a[1..], b);
    }
  }

  lemma {:induction false} SentIsAllBlocks(sid: string, counter: int, sends: seq<Octets>, blockSize: nat)
    requires blockSize > 0
    ensures Sent(sid, counter, sends, blockSize) == Elements(sid, counter, AllBlocks(sends, blockSize))
    decreases |sends|
  {
    hide Elements, Blocks, AdvanceBy;
    if sends == [] {
      assert Elements(sid, counter, []) == [] by {
        ElementsNone(sid, counter);
      }
    } else {
      var blocks := Blocks(sends[0], blockSize);
      SentIsAllBlocks(sid, AdvanceBy(counter, |blocks|), sends[1..], blockSize);
      ElementsAppend(sid, counter, blocks, AllBlocks(sends[1..], blockSize));
    }
  }

  lemma ElementsNone(sid: string, counter: int)
    ensures Elements(sid, counter, []) == [] && AdvanceBy(counter, 0) == counter
  {
  }

  /** Each block becomes one element, with the next number modulo 2^16 and the block in Base64. */
  lemma {:induction false} ElementsAreNumbered(sid: string, counter: int, blocks: seq<Octets>, i: nat)
    requires -1 <= counter < 65535 && i < |blocks|
    ensures |Elements(sid, counter, blocks)| == |blocks|
    ensures Elements(sid, counter, blocks)[i]
         == Element(Data, sid, (counter + 1 + i) % 0x1_0000, 0, Encode(blocks[i]))
    decreases |blocks|
  {
    hide Encode;
    ElementsLength(sid, counter, blocks);
    if i > 0 {
      ElementsAreNumbered(sid, Advance(counter), blocks[1..], i - 1);
    }
  }

  lemma {:induction false} ElementsLength(sid: string, counter: int, blocks: seq<Octets>)
    ensures |Elements(sid, counter, blocks)| == |blocks|
    decreases |blocks|
  {
    hide ToElement;
    if blocks != [] {
      ElementsLength(sid, Advance(counter), blocks[1..]);
    }
  }

  // ----- receiving

  datatype Receiver = Receiver(open: bool, last: int, delivered: seq<Octets>, replies: seq<Reply>)

  /** One IQ of type `set` for a stream named `sid`: the new state and whether the IQ was taken. */
  function HandleIq(r: Receiver, sid: string, e: Element): (Receiver, bool) {
    var i := FromElement(e);
    if i.sid != sid then (r, false)
    else if !r.open then
      if i.kind == Open then (r.(open := true, replies := r.replies + [Result]), true) else (r, false)
    else if i.kind == Close then (r.(open := false, replies := r.replies + [Result]), true)
    else if r.last + 1 != i.number then
      (r.(open := false, last := r.last + 1, replies := r.replies + [ItemNotFound]), false)
    else if i.data == [] then
      (r.(open := false, last := Advance(r.last), replies := r.replies + [BadRequest]), false)
    else
      (r.(last := Advance(r.last), delivered := r.delivered + [i.data], replies := r.replies + [Result]), true)
  }

  function ReceiveAll(r: Receiver, sid: string, elements: seq<Element>): Receiver
    decreases |elements|
  {
    if elements == [] then r else ReceiveAll(HandleIq(r, sid, elements[0]).0, sid, elements[1..])
  }

  // ----- end to end

  function Results(n: nat): (r: seq<Reply>)
    ensures |r| == n
  {
    seq(n, _ => Result)
  }

  /** The next block in turn at an open receiver. */
  lemma BlockHandled(r: Receiver, sid: string, block: Octets)
    requires r.open
    ensures HandleIq(r, sid, ToElement(Ibb(Data, sid, r.last + 1, 0, block))).0
         == if block == [] then r.(open := false, last := Advance(r.last), replies := r.replies + [BadRequest])
            else r.(last := Advance(r.last), delivered := r.delivered + [block], replies := r.replies + [Result])
  {
    hide Encode, Decode;
    ElementRoundTrip(sid, r.last + 1, block);
  }

  /**
   * Data reach the application if and only if they come next in turn; anything else that is no close ends the
   * stream.
   */
  lemma DeliveredIffNext(r: Receiver, sid: string, e: Element)
    requires r.open && e.sid == sid && e.kind != Close
    ensures var r' := HandleIq(r, sid, e).0;
            && (r'.delivered == r.delivered + [Decode(e.text)] <==> e.number == r.last + 1 && Decode(e.text) != [])
            && (r'.delivered == r.delivered + [Decode(e.text)] || r'.delivered == r.delivered)
            && (r'.open <==> r'.delivered != r.delivered)
  {
    hide Decode;
    assert |r.delivered + [Decode(e.text)]| != |r.delivered|;
  }

  /**
   * What becomes of any element for any receiver: whether it is taken, what is answered, and
   * what is delivered, counted and closed.
   */
  lemma AnswerTells(r: Receiver, sid: string, e: Element)
    ensures var (r', taken) := HandleIq(r, sid, e);
            var data, next, ours := Decode(e.text), r.last + 1, e.sid == sid;
            var isData := ours && r.open && e.kind != Close;
            && (taken <==>
                ours && if !r.open then e.kind == Open else e.kind == Close || (e.number == next && data != []))
            && r'.replies == r.replies + (if taken then [Result] else if !isData then []
                                          else if e.number != next then [ItemNotFound] else [BadRequest])
            && (r'.open <==> if !ours then r.open else taken && (!r.open || e.kind != Close))
            && r'.last == (if !isData then r.last else if e.number == next == 65535 then -1 else next)
            && r'.delivered == r.delivered + if isData && taken then [data] else []
  {
    hide Decode;
    assert r.replies + [] == r.replies && r.delivered + [] == r.delivered;
  }

  lemma ElementsFirst(sid: string, counter: int, blocks: seq<Octets>)
    requires blocks != []
    ensures Elements(sid, counter, blocks)
         == [ToElement(Ibb(Data, sid, counter + 1, 0, blocks[0]))] + Elements(sid, Advance(counter), blocks[1..])
    ensures AdvanceBy(counter, |blocks|) == AdvanceBy(Advance(counter), |blocks[1..]|)
  {
  }

  lemma ReceiveFirst(r: Receiver, sid: string, e: Element, rest: seq<Element>)
    ensures ReceiveAll(r, sid, [e] + rest) == ReceiveAll(HandleIq(r, sid, e).0, sid, rest)
  {
    hide HandleIq;
    assert ([e] + rest)[1..] == rest;
  }

  /** The receiver after taking these blocks. */
  function Taken(r: Receiver, blocks: seq<Octets>): Receiver {
    Receiver(true, AdvanceBy(r.last, |blocks|), r.delivered + blocks, r.replies + Results(|blocks|))
  }

  lemma TakenNone(r: Receiver)
    requires r.open
    ensures Taken(r, []) == r
  {
    var none: seq<Octets> := [];
    assert r.delivered + none == r.delivered;
    assert r.replies + Results(0) == r.replies;
  }

  lemma TakenStep(r: Receiver, blocks: seq<Octets>)
    requires blocks != []
    ensures Taken(Taken(r, [blocks[0]]), blocks[1..]) == Taken(r, blocks)
  {
    hide Advance;
    var block := [blocks[0]];
    assert AdvanceBy(r.last, 1) == AdvanceBy(Advance(r.last), 0);
    assert r.delivered + block + blocks[1..] == r.delivered + blocks;
    assert r.replies + Results(1) + Results(|blocks| - 1) == r.replies + Results(|blocks|);
  }

  lemma TakesOne(r: Receiver, sid: string, block: Octets)
    requires r.open && block != []
    ensures HandleIq(r, sid, ToElement(Ibb(Data, sid, r.last + 1, 0, block))).0 == Taken(r, [block])
  {
    hide HandleIq, ToElement, Advance;
    BlockHandled(r, sid, block);
    assert AdvanceBy(r.last, 1) == AdvanceBy(Advance(r.last), 0);
    assert [Result] == Results(1);
  }

  /** A receiver in step with the sender takes non-empty blocks one by one and stays in step. */
  lemma {:induction false} BlocksAreTaken(r: Receiver, sid: string, blocks: seq<Octets>)
    requires r.open && NoneEmpty(blocks)
    ensures ReceiveAll(r, sid, Elements(sid, r.last, blocks)) == Taken(r, blocks)
    decreases |blocks|
  {
    if blocks == [] {
      TakenNone(r);
    } else {
      ElementsFirst(sid, r.last, blocks);
      TakesOne(r, sid, blocks[0]);
      ReceiveFirst(
        r, sid, ToElement(Ibb(Data, sid, r.last + 1, 0, blocks[0])), Elements(sid, Advance(r.last), blocks[1..]));
      TakenStep(r, blocks);
      var r1 := Taken(r, [blocks[0]]);
      assert r1.last == Advance(r.last) by {
        assert AdvanceBy(r.last, 1) == AdvanceBy(Advance(r.last), 0);
      }
      hide HandleIq, ToElement, Elements, ReceiveAll, Advance, AdvanceBy, Taken;
      BlocksAreTaken(r1, sid, blocks[1..]);
    }
  }

  lemma {:induction false} ClosedTakesNoData(r: Receiver, sid: string, counter: int, blocks: seq<Octets>)
    requires !r.open
    ensures ReceiveAll(r, sid, Elements(sid, counter, blocks)) == r
    decreases |blocks|
  {
    if blocks != [] {
      hide Decode, Encode;
      ElementRoundTrip(sid, counter + 1, blocks[0]);
      ClosedTakesNoData(r, sid, Advance(counter), blocks[1..]);
    }
  }

  /** The stream survives exactly the runs without an empty block. */
  lemma {:induction false} StaysOpenIffNoneEmpty(r: Receiver, sid: string, blocks: seq<Octets>)
    requires r.open
    ensures ReceiveAll(r, sid, Elements(sid, r.last, blocks)).open <==> NoneEmpty(blocks)
    decreases |blocks|
  {
    if blocks != [] {
      hide HandleIq, ToElement, Elements, ReceiveAll, Advance;
      var first := ToElement(Ibb(Data, sid, r.last + 1, 0, blocks[0]));
      ElementsFirst(sid, r.last, blocks);
      BlockHandled(r, sid, blocks[0]);
      ReceiveFirst(r, sid, first, Elements(sid, Advance(r.last), blocks[1..]));
      var r1 := HandleIq(r, sid, first).0;
      if blocks[0] == [] {
        ClosedTakesNoData(r1, sid, Advance(r.last), blocks[1..]);
      } else {
        StaysOpenIffNoneEmpty(r1, sid, blocks[1..]);
        assert blocks == [blocks[0]] + blocks[1..];
      }
    }
  }

  lemma {:induction false} BlocksOfData(data: Octets, blockSize: nat)
    requires blockSize > 0
    ensures Concat(Blocks(data, blockSize)) == data
    ensures NoneEmpty(Blocks(data, blockSize)) <==> data != []
    ensures forall i :: 0 <= i < |Blocks(data, blockSize)| ==> |Blocks(data, blockSize)[i]| <= blockSize
    ensures forall i :: 0 <= i < |Blocks(data, blockSize)| - 1 ==> |Blocks(data, blockSize)[i]| == blockSize
    decreases |data|
  {
    if |data| > blockSize {
      BlocksOfData(data[blockSize..], blockSize);
      assert data == data[..blockSize] + data[blockSize..];
    } else {
      assert Concat([data]) == data + Concat([]);
    }
  }

  lemma {:induction false} BlocksOfSends(sends: seq<Octets>, blockSize: nat)
    requires blockSize > 0
    ensures Concat(AllBlocks(sends, blockSize)) == Concat(sends)
    ensures NoneEmpty(AllBlocks(sends, blockSize)) <==> NoneEmpty(sends)
    decreases |sends|
  {
    if sends != [] {
      var first, rest := Blocks(sends[0], blockSize), AllBlocks(sends[1..], blockSize);
      BlocksOfData(sends[0], blockSize);
      BlocksOfSends(sends[1..], blockSize);
      ConcatAppend(first, rest);
      NoneEmptyAppend(first, rest);
      NoneEmptyAppend([sends[0]], sends[1..]);
      assert sends == [sends[0]] + sends[1..];
    }
  }

  lemma NoneEmptyAppend(a: seq<Octets>, b: seq<Octets>)
    ensures NoneEmpty(a + b) <==> NoneEmpty(a) && NoneEmpty(b)
  {
    if NoneEmpty(a + b) {
      forall i | 0 <= i < |a|
        ensures |a[i]| > 0
      {
        assert (a + b)[i] == a[i];
      }
      forall i | 0 <= i < |b|
        ensures |b[i]| > 0
      {
        assert (a + b)[|a| + i] == b[i];
      }
    }
  }

  /**
   * The stream end to end: for any list of sends and any block size, the receiver takes
   * every block, stays in step through every wrap and is handed what was sent, if and
   * only if no send is empty.
   */
  lemma StreamArrivesIffNoSendIsEmpty(r: Receiver, sid: string, sends: seq<Octets>, blockSize: nat)
    requires r.open && blockSize > 0
    ensures var blocks := AllBlocks(sends, blockSize);
            var r' := ReceiveAll(r, sid, Sent(sid, r.last, sends, blockSize));
            && (r'.open <==> NoneEmpty(sends))
            && (NoneEmpty(sends) ==> r' == Taken(r, blocks))
            && (NoneEmpty(sends) ==> Concat(r'.delivered) == Concat(r.delivered) + Concat(sends))
  {
    var blocks := AllBlocks(sends, blockSize);
    SentIsAllBlocks(sid, r.last, sends, blockSize);
    BlocksOfSends(sends, blockSize);
    StaysOpenIffNoneEmpty(r, sid, blocks);
    if NoneEmpty(sends) {
      BlocksAreTaken(r, sid, blocks);
      ConcatAppend(r.delivered, blocks);
    }
  }

  /** The counter is always the number of blocks so far, less one, modulo 2^16. */
  lemma {:induction false} CounterIsModular(counter: int, n: nat)
    requires -1 <= counter < 65535
    ensures -1 <= AdvanceBy(counter, n) < 65535
            && (AdvanceBy(counter, n) + 1) % 0x1_0000 == (counter + 1 + n) % 0x1_0000
    decreases n
  {
    if n > 0 {
      CounterIsModular(Advance(counter), n - 1);
    }
  }

  // ----- the code

  /** One end of a stream; `sent` records the elements handed to the client, in order. */
  class InBandBytestream {
    const sid: string
    const blockSize: nat
    var open: bool
    var sequence: int
    var lastChunkReceived: int
    var sent: seq<Element>
    var delivered: seq<Octets>
    var replies: seq<Reply>

    ghost function State(): Receiver
      reads this
    {
      Receiver(open, lastChunkReceived, delivered, replies)
    }

    constructor (sid: string, blockSize: nat)
      ensures this.sid == sid && this.blockSize == blockSize
      ensures sequence == -1 && sent == [] && State() == Receiver(false, -1, [], [])
    {
      this.sid, this.blockSize := sid, blockSize;
      open, sequence, lastChunkReceived := false, -1, -1;
      sent, delivered, replies := [], [], [];
    }

    method Send(data: Octets) returns (ok: bool)
      requires blockSize > 0
      modifies this`sequence, this`sent
      ensures ok == open
      ensures !ok ==> sequence == old(sequence) && sent == old(sent)
      ensures ok ==> sent == old(sent) + Elements(sid, old(sequence), Blocks(data, blockSize))
      ensures ok ==> sequence == AdvanceBy(old(sequence), |Blocks(data, blockSize)|)
    {
      hide Blocks, Elements, AdvanceBy;
      ok := open;
      if ok {
        SendBlocks(data);
      }
    }

    /** The loop: one element for each block, at least one. */
    method SendBlocks(data: Octets)
      requires blockSize > 0
      modifies this`sequence, this`sent
      ensures sent == old(sent) + Elements(sid, old(sequence), Blocks(data, blockSize))
      ensures sequence == AdvanceBy(old(sequence), |Blocks(data, blockSize)|)
    {
      hide Blocks, Elements, AdvanceBy, ToElement, Advance, Block, Sending;
      ghost var counter, before := sequence, sent;
      SendingStarts(sid, blockSize, data, counter, before);
      var pos, first := 0, true;
      while first || pos < |data|
        invariant 0 <= pos && (first ==> pos == 0)
        invariant Sending(sid, blockSize, data, counter, before, sent, sequence, pos, first)
        decreases first, |data| - pos
      {
        SendingGoesOn(sid, blockSize, data, counter, before, sent, sequence, pos, first);
        SendBlock(Block(data, pos, blockSize));
        pos := pos + blockSize;
        first := false;
      }
      SendingEnds(sid, blockSize, data, counter, before, sent, sequence, pos);
    }

    /** One block: the counter goes up, the element goes out, the counter wraps. */
    method SendBlock(block: Octets)
      modifies this`sequence, this`sent
      ensures sent == old(sent) + [ToElement(Ibb(Data, sid, old(sequence) + 1, 0, block))]
              && sequence == Advance(old(sequence))
    {
      sequence := sequence + 1;
      sent := sent + [ToElement(Ibb(Data, sid, sequence, 0, block))];
      if sequence == 65535 {
        sequence := -1;
      }
    }

    /** At most `blockSize` octets from `pos` on, like `substr`. */
    static function Block(data: Octets, pos: nat, blockSize: nat): Octets
      requires pos <= |data|
    {
      if pos + blockSize <= |data| then data[pos..pos + blockSize] else data[pos..]
    }

    /** The blocks still to be sent when the loop is about to test its condition. */
    static ghost function Rest(data: Octets, pos: nat, first: bool, blockSize: nat): seq<Octets>
      requires blockSize > 0 && (first ==> pos == 0)
    {
      if first || pos < |data| then Blocks(data[pos..], blockSize) else []
    }

    /** What is sent and what is still to come make up the whole, in elements and in counter steps. */
    static ghost predicate Sending(sid: string, blockSize: nat, data: Octets, counter: int, before: seq<Element>,
                                   sent: seq<Element>, sequence: int, pos: nat, first: bool)
      requires blockSize > 0 && (first ==> pos == 0)
    {
      var rest, blocks := Rest(data, pos, first, blockSize), Blocks(data, blockSize);
      && sent + Elements(sid, sequence, rest) == before + Elements(sid, counter, blocks)
      && AdvanceBy(sequence, |rest|) == AdvanceBy(counter, |blocks|)
    }

    static lemma SendingStarts(sid: string, blockSize: nat, data: Octets, counter: int, before: seq<Element>)
      requires blockSize > 0
      ensures Sending(sid, blockSize, data, counter, before, before, counter, 0, true)
    {
      hide Blocks, Elements, AdvanceBy;
      assert data[0..] == data;
    }

    static lemma SendingGoesOn(sid: string, blockSize: nat, data: Octets, counter: int, before: seq<Element>,
                               sent: seq<Element>, sequence: int, pos: nat, first: bool)
      requires blockSize > 0 && (first ==> pos == 0) && (first || pos < |data|)
      requires Sending(sid, blockSize, data, counter, before, sent, sequence, pos, first)
      ensures var e := ToElement(Ibb(Data, sid, sequence + 1, 0, Block(data, pos, blockSize)));
              Sending(sid, blockSize, data, counter, before, sent + [e], Advance(sequence), pos + blockSize, false)
    {
      hide Blocks, Elements, AdvanceBy, ToElement, Advance, Rest, Block;
      var rest, more := Rest(data, pos, first, blockSize), Rest(data, pos + blockSize, false, blockSize);
      RestFirst(data, pos, first, blockSize);
      ElementsFirst(sid, sequence, rest);
      var e := ToElement(Ibb(Data, sid, sequence + 1, 0, rest[0]));
      Regroup(sent, [e], Elements(sid, Advance(sequence), more));
    }

    static lemma SendingEnds(sid: string, blockSize: nat, data: Octets, counter: int, before: seq<Element>,
                             sent: seq<Element>, sequence: int, pos: nat)
      requires blockSize > 0 && pos >= |data|
      requires Sending(sid, blockSize, data, counter, before, sent, sequence, pos, false)
      ensures sent == before + Elements(sid, counter, Blocks(data, blockSize))
      ensures sequence == AdvanceBy(counter, |Blocks(data, blockSize)|)
    {
      hide Blocks, Elements, AdvanceBy;
      ElementsNone(sid, sequence);
      assert sent + [] == sent;
    }

    static lemma RestFirst(data: Octets, pos: nat, first: bool, blockSize: nat)
      requires blockSize > 0 && (first ==> pos == 0) && (first || pos < |data|)
      ensures var rest := Rest(data, pos, first, blockSize);
              && rest != []
              && rest[0] == Block(data, pos, blockSize)
              && rest[1..] == Rest(data, pos + blockSize, false, blockSize)
    {
      var tail := data[pos..];
      if |tail| > blockSize {
        assert tail[..blockSize] == data[pos..pos + blockSize];
        assert tail[blockSize..] == data[pos + blockSize..];
      } else if |tail| == blockSize {
        assert tail == data[pos..pos + blockSize];
      }
    }

    /** The receiving side of an IQ of type `set`. */
    method Handle(e: Element) returns (taken: bool)
      modifies this`open, this`lastChunkReceived, this`delivered, this`replies
      ensures (State(), taken) == HandleIq(old(State()), sid, e)
    {
      hide Decode;
      var i := FromElement(e);
      if i.sid != sid {
        return false;
      }
      if !open {
        if i.kind == Open {
          replies := replies + [Result];
          open := true;
          return true;
        }
        return false;
      }
      if i.kind == Close {
        replies := replies + [Result];
        open := false;
        return true;
      }
      lastChunkReceived := lastChunkReceived + 1;
      if lastChunkReceived != i.number {
        open := false;
        replies := replies + [ItemNotFound];
        return false;
      }
      if lastChunkReceived == 65535 {
        lastChunkReceived := -1;
      }
      if i.data == [] {
        open := false;
        replies := replies + [BadRequest];
        return false;
      }
      replies := replies + [Result];
      delivered := delivered + [i.data];
      taken := true;
    }
  }
}
