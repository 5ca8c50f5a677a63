/**
 * The client side of stream management (XEP-0198), as kept by ClientBase and Client:
 * the counters of stanzas sent and handled, and the queue of stanzas the server has
 * not acknowledged.  Functions on the value `Client` say what each operation does to
 * the whole state; class `ClientBase` is the code that updates the fields in place.
 */
module StreamManagement {
  import opened Basics

  /** What goes over the stream.  Only `Stanza` is counted. */
  datatype Tag =
    | Stanza(xml: string)
    | Features(streamManagement: bool)
    | Enable(resume: bool)
    | Enabled(id: string, resume: bool)
    | Resume(h: int, previd: string)
    | Resumed(h: int, previd: string)
    | Answer(h: int)
    | Request
    | Failed
    | StreamEnd

  datatype SmContext = CtxSMInvalid | CtxSMFailed | CtxSMEnable | CtxSMResume | CtxSMEnabled | CtxSMResumed

  /** The enumeration's order, which the code compares with. */
  function Rank(c: SmContext): nat {
    match c
    case CtxSMInvalid => 0
    case CtxSMFailed => 1
    case CtxSMEnable => 2
    case CtxSMResume => 3
    case CtxSMEnabled => 4
    case CtxSMResumed => 5
  }

  predicate AtLeastEnabled(c: SmContext) {
    Rank(c) >= Rank(CtxSMEnabled)
  }

  type SendQueue = map<int, Tag>

  /** The states of the connection, in the enumeration's order. */
  datatype Transport = Unconnected | Connecting | Connected

  /**
   * `wire` records what was handed to the connection and has not reached the server;
   * `notified` records the stanzas handed to the application's handlers.
   */
  datatype Client = Client(
    context: SmContext, sent: int, handled: int, queue: SendQueue,
    wanted: bool, resumable: bool, id: string,
    transport: Transport, authed: bool, bound: bool,
    wire: seq<Tag>, notified: seq<Tag>)

  // ----- the ordered map behind the queue

  predicate After(k: int, previous: Option<int>) {
    previous.None? || previous.value < k
  }

  ghost function Remaining(q: SendQueue, previous: Option<int>): set<int> {
    set k | k in q && After(k, previous)
  }

  /** The iterator that follows `previous` in key order; the first one when there is no previous. */
  function Successor(q: SendQueue, previous: Option<int>): (it: Option<int>)
    ensures it.None? <==> forall k :: k in q ==> !After(k, previous)
    ensures it.Some? ==> it.value in q && After(it.value, previous)
    ensures it.Some? ==> forall k :: k in q && After(k, previous) ==> it.value <= k
  {
    var rest := set k | k in q && After(k, previous);
    assert forall k :: k in q && After(k, previous) ==> k in rest;
    if rest == {} then None
    else
      LeastExists(rest);
      assert exists k :: k in rest && forall j :: j in rest ==> k <= j by { var k :| IsLeast(k, rest); }
      var k :| k in rest && forall j :: j in rest ==> k <= j;
      Some(k)
  }

  /** The tags a walk over the queue meets after key `previous`, in key order. */
  function InOrder(q: SendQueue, previous: Option<int>): seq<Tag>
    decreases Remaining(q, previous)
  {
    match Successor(q, previous)
    case None => []
    case Some(k) =>
      assert k in Remaining(q, previous) && k !in Remaining(q, Some(k));
      [q[k]] + InOrder(q, Some(k))
  }

  /** The later of a position in the walk and the key `h`. */
  ghost function Beyond(previous: Option<int>, h: int): Option<int> {
    if After(h, previous) then Some(h) else previous
  }

  /** Where the walk has got to: what it passed is gone if acknowledged, all else is untouched. */
  ghost predicate Walked(q0: SendQueue, q: SendQueue, previous: Option<int>, h: int) {
    && (forall k :: k in q <==> k in q0 && (After(k, previous) || k > h))
    && forall k :: k in q ==> q[k] == q0[k]
  }

  /** `resent` is what the walk has sent again so far. */
  ghost predicate Resending(q0: SendQueue, resent: seq<Tag>, previous: Option<int>, h: int) {
    resent + InOrder(q0, Beyond(previous, h)) == InOrder(q0, Some(h))
  }

  lemma WalkStart(q: SendQueue, h: int)
    ensures Walked(q, q, None, h) && Resending(q, [], None, h)
  {
  }

  lemma WalkOn(q0: SendQueue, q: SendQueue, resent: seq<Tag>, previous: Option<int>, h: int)
    requires Walked(q0, q, previous, h) && Resending(q0, resent, previous, h)
    requires Successor(q, previous).Some?
    ensures var key := Successor(q, previous).value;
            && Walked(q0, if key <= h then q - {key} else q, Some(key), h)
            && Resending(q0, if key <= h then resent else resent + [q[key]], Some(key), h)
            && Remaining(if key <= h then q - {key} else q, Some(key)) < Remaining(q, previous)
  {
    var key := Successor(q, previous).value;
    WalkedOn(q0, q, previous, h);
    if key > h {
      NextUnacknowledged(q0, q, previous, h);
      ResentOn(q0, resent, previous, h, key);
    } else {
      assert Resending(q0, resent, Some(key), h) == Resending(q0, resent, previous, h);
    }
    hide Walked, Resending, Remaining, Successor;
  }

  lemma WalkedOn(q0: SendQueue, q: SendQueue, previous: Option<int>, h: int)
    requires Walked(q0, q, previous, h) && Successor(q, previous).Some?
    ensures var key := Successor(q, previous).value;
            var q1 := if key <= h then q - {key} else q;
            Walked(q0, q1, Some(key), h) && Remaining(q1, Some(key)) < Remaining(q, previous)
  {
    hide InOrder;
    var key := Successor(q, previous).value;
    var q1 := if key <= h then q - {key} else q;
    assert key in Remaining(q, previous) && key !in Remaining(q1, Some(key));
  }

  lemma ResentOn(q0: SendQueue, resent: seq<Tag>, previous: Option<int>, h: int, key: int)
    requires Resending(q0, resent, previous, h) && key > h
    requires Successor(q0, Beyond(previous, h)) == Some(key)
    ensures Resending(q0, resent + [q0[key]], Some(key), h)
  {
    hide Successor, Remaining;
    Regroup(resent, [q0[key]], InOrder(q0, Some(key)));
  }

  /** The first stanza the walk meets beyond `h` is the first one there was. */
  lemma NextUnacknowledged(q0: SendQueue, q: SendQueue, previous: Option<int>, h: int)
    requires Walked(q0, q, previous, h)
    requires Successor(q, previous).Some? && Successor(q, previous).value > h
    ensures var key := Successor(q, previous).value;
            Successor(q0, Beyond(previous, h)) == Some(key) && q0[key] == q[key]
  {
    hide InOrder, Resending;
  }

  lemma WalkEnd(q0: SendQueue, q: SendQueue, resent: seq<Tag>, previous: Option<int>, h: int)
    requires Walked(q0, q, previous, h) && Resending(q0, resent, previous, h)
    requires Successor(q, previous).None?
    ensures q == DropUpTo(q0, h) && resent == InOrder(q0, Some(h))
  {
    assert forall k :: k in q ==> !After(k, previous);
    assert forall k :: k in q <==> k in q0 && k > h;
    assert q == DropUpTo(q0, h);
    assert Successor(q0, Beyond(previous, h)).None?;
  }

  /** `std::map::insert`: an existing key keeps its old value. */
  function Insert(q: SendQueue, key: int, tag: Tag): SendQueue {
    if key in q then q else q[key := tag]
  }

  function DropUpTo(q: SendQueue, h: int): SendQueue {
    map k | k in q && k > h :: q[k]
  }

  // ----- the operations as functions of the state

  function SendString(c: Client, tag: Tag): Client {
    if c.transport == Connected then c.(wire := c.wire + [tag]) else c
  }

  function SendTag(c: Client, tag: Tag, queue: bool): Client {
    var c1 := SendString(c, tag);
    if queue && AtLeastEnabled(c.context)
    then c1.(sent := c.sent + 1, queue := Insert(c.queue, c.sent + 1, tag))
    else c1
  }

  function SendAll(c: Client, tags: seq<Tag>): Client
    decreases |tags|
  {
    if tags == [] then c else SendAll(SendTag(c, tags[0], true), tags[1..])
  }

  function CheckQueue(c: Client, h: int, resend: bool): Client {
    if !AtLeastEnabled(c.context) || h < 0 then c
    else c.(queue := DropUpTo(c.queue, h),
            wire := c.wire + if resend && c.transport == Connected then InOrder(c.queue, Some(h)) else [])
  }

  function SendStreamManagement(c: Client): Client {
    if !c.wanted then c
    else if c.context == CtxSMInvalid then
      SendTag(c, Enable(c.resumable), false).(context := CtxSMEnable, handled := 0)
    else if c.context == CtxSMEnabled then
      SendTag(c, Resume(c.handled, c.id), false).(context := CtxSMResume)
    else c
  }

  function AckStreamManagement(c: Client): Client {
    if AtLeastEnabled(c.context) then SendTag(c, Answer(c.handled), false) else c
  }

  function ReqStreamManagement(c: Client): Client {
    if AtLeastEnabled(c.context) then SendTag(c, Request, false) else c
  }

  /** `onConnect`: the stanzas sent while `connected()` runs (roster, presence, the application's callback). */
  function HandleNormalNode(c: Client, tag: Tag, onConnect: seq<Tag>): (Client, bool) {
    match tag
    case Features(sm) =>
      (if c.authed && sm && c.wanted && AtLeastEnabled(c.context) then SendStreamManagement(c) else c, true)
    case Enabled(id, resume) =>
      (SendAll(c.(context := CtxSMEnabled, id := id, resumable := resume && id != ""), onConnect), true)
    case Resumed(h, previd) =>
      if c.context != CtxSMResume then (c, false)
      else if previd != c.id then (c, true)
      else (CheckQueue(SendAll(c.(context := CtxSMResumed), onConnect), h, true), true)
    case Answer(h) =>
      if AtLeastEnabled(c.context) then (CheckQueue(c, h, false), true) else (c, false)
    case Request => (AckStreamManagement(c), true)
    case Failed => (c.(context := CtxSMFailed), true)
    case _ => (c, false)
  }

  function HandleTag(c: Client, tag: Tag, onConnect: seq<Tag>): Client {
    var (c1, handled) := HandleNormalNode(c, tag, onConnect);
    if handled || !tag.Stanza? then c1
    else c1.(notified := c1.notified + [tag], handled := c1.handled + if AtLeastEnabled(c1.context) then 1 else 0)
  }

  /**
   * The answer to the resource bind request.  `offered` says whether the stream offers stream
   * management; `onConnect` are the stanzas sent if the client is connected at once.
   */
  function ProcessResourceBind(c: Client, ok: bool, offered: bool, onConnect: seq<Tag>): Client {
    if !ok then c
    else if offered && c.wanted then SendStreamManagement(c.(bound := true))
    else SendAll(c.(bound := true), onConnect)
  }

  /** `setStreamManagement`: asks for a managed session from now on, or for none. */
  function SetStreamManagement(c: Client, enable: bool, resume: bool): Client {
    if !enable then c.(wanted := false, id := "", resumable := false)
    else
      var c1 := c.(wanted := true, resumable := resume);
      if c.bound then SendStreamManagement(c1) else c1
  }

  /** The connection tells the client that the transport is gone; what was in flight is lost. */
  function HandleDisconnect(c: Client): Client {
    c.(transport := Unconnected, authed := false, bound := false, wire := [])
  }

  /** `disconnect(reason)`: unless there is no transport, the count of sent stanzas restarts; the queue does not. */
  function DisconnectReason(c: Client): Client {
    if c.transport == Unconnected then c.(authed := false, bound := false)
    else HandleDisconnect(SendString(c, StreamEnd)).(sent := 0)
  }

  /** `disconnect()`: the application ends the session. */
  function UserDisconnect(c: Client): Client {
    DisconnectReason(c.(context := CtxSMInvalid, handled := 0, id := "", resumable := false, wanted := false))
  }

  // ----- the code

  class ClientBase {
    var context: SmContext
    var sent: int
    var handled: int
    var queue: SendQueue
    var wanted: bool
    var resumable: bool
    var id: string
    var transport: Transport
    var authed: bool
    var bound: bool
    var wire: seq<Tag>
    var notified: seq<Tag>

    ghost function State(): Client
      reads this
    {
      Client(context, sent, handled, queue, wanted, resumable, id, transport, authed, bound, wire, notified)
    }

    constructor (resume: bool)
      ensures State() == Client(CtxSMInvalid, 0, 0, map[], true, resume, "", Unconnected, false, false, [], [])
    {
      context, sent, handled, queue := CtxSMInvalid, 0, 0, map[];
      wanted, resumable, id := true, resume, "";
      transport, authed, bound := Unconnected, false, false;
      wire, notified := [], [];
    }

    method Transmit(tag: Tag)
      modifies this`wire
      ensures State() == SendString(old(State()), tag)
    {
      if transport == Connected {
        wire := wire + [tag];
      }
    }

    method Send(tag: Tag, queued: bool)
      modifies this
      ensures State() == SendTag(old(State()), tag, queued)
    {
      Transmit(tag);
      if queued && AtLeastEnabled(context) {
        sent := sent + 1;
        queue := Insert(queue, sent, tag);
      }
    }

    /** One entry of the queue: erased if acknowledged, else left and perhaps sent again. */
    method Visit(key: int, h: int, resend: bool)
      requires key in queue
      modifies this`queue, this`wire
      ensures queue == if key <= h then old(queue) - {key} else old(queue)
      ensures wire == old(wire) + if key > h && resend && transport == Connected then [queue[key]] else []
    {
      if key <= h {
        queue := queue - {key};
      } else if resend {
        Transmit(queue[key]);
      }
    }

    /** Walks over the queue in key order. */
    method WalkQueue(h: int, resend: bool)
      modifies this`queue, this`wire
      ensures queue == DropUpTo(old(queue), h)
      ensures wire == old(wire) + if resend && transport == Connected then InOrder(old(queue), Some(h)) else []
    {
      hide Walked, Resending, InOrder, After, Beyond, DropUpTo;
      ghost var q0, resent := queue, [];
      var previous: Option<int> := None;
      var it := Successor(queue, None);
      WalkStart(queue, h);
      while it.Some?
        invariant it == Successor(queue, previous)
        invariant Walked(q0, queue, previous, h) && Resending(q0, resent, previous, h)
        invariant wire == old(wire) + if resend && transport == Connected then resent else []
        decreases Remaining(queue, previous)
      {
        WalkOn(q0, queue, resent, previous, h);
        resent := if it.value <= h then resent else resent + [queue[it.value]];
        Visit(it.value, h, resend);
        previous := it;
        it := Successor(queue, previous);
      }
      WalkEnd(q0, queue, resent, previous, h);
    }

    /** Erases what is acknowledged and sends the rest again. */
    method Check(h: int, resend: bool)
      modifies this
      ensures State() == CheckQueue(old(State()), h, resend)
    {
      hide InOrder, DropUpTo;
      if !AtLeastEnabled(context) || h < 0 {
        return;
      }
      WalkQueue(h, resend);
    }

    method SendEach(tags: seq<Tag>)
      modifies this
      ensures State() == SendAll(old(State()), tags)
    {
      var i := 0;
      while i < |tags|
        invariant 0 <= i <= |tags|
        invariant SendAll(State(), tags[i..]) == SendAll(old(State()), tags)
      {
        Send(tags[i], true);
        i := i + 1;
      }
    }

    method NegotiateStreamManagement()
      modifies this
      ensures State() == SendStreamManagement(old(State()))
    {
      if !wanted {
        return;
      }
      if context == CtxSMInvalid {
        Send(Enable(resumable), false);
        context, handled := CtxSMEnable, 0;
      } else if context == CtxSMEnabled {
        Send(Resume(handled, id), false);
        context := CtxSMResume;
      }
    }

    /** The answer to every tag that is not an ordinary stanza; false hands the tag back to `Receive`. */
    method HandleNode(tag: Tag, onConnect: seq<Tag>) returns (taken: bool)
      modifies this
      ensures (State(), taken) == HandleNormalNode(old(State()), tag, onConnect)
    {
      taken := true;
      match tag {
        case Features(sm) =>
          if authed && sm && wanted && AtLeastEnabled(context) {
            NegotiateStreamManagement();
          }
        case Enabled(newId, resume) =>
          context, id, resumable := CtxSMEnabled, newId, resume && newId != "";
          SendEach(onConnect);
        case Resumed(h, previd) =>
          if context != CtxSMResume {
            taken := false;
          } else if previd == id {
            context := CtxSMResumed;
            SendEach(onConnect);
            Check(h, true);
          }
        case Answer(h) =>
          if AtLeastEnabled(context) {
            Check(h, false);
          } else {
            taken := false;
          }
        case Request =>
          if AtLeastEnabled(context) {
            Send(Answer(handled), false);
          }
        case Failed =>
          context := CtxSMFailed;
        case _ =>
          taken := false;
      }
    }

    method Receive(tag: Tag, onConnect: seq<Tag>)
      modifies this
      ensures State() == HandleTag(old(State()), tag, onConnect)
    {
      var taken := HandleNode(tag, onConnect);
      if !taken && tag.Stanza? {
        notified := notified + [tag];
        if AtLeastEnabled(context) {
          handled := handled + 1;
        }
      }
    }

    method ResourceBound(ok: bool, offered: bool, onConnect: seq<Tag>)
      modifies this
      ensures State() == ProcessResourceBind(old(State()), ok, offered, onConnect)
    {
      if ok {
        bound := true;
        if offered && wanted {
          NegotiateStreamManagement();
        } else {
          SendEach(onConnect);
        }
      }
    }

    method WantStreamManagement(enable: bool, resume: bool)
      modifies this
      ensures State() == SetStreamManagement(old(State()), enable, resume)
    {
      wanted, resumable := enable, resume;
      if !wanted {
        id, resumable := "", false;
        return;
      }
      if bound {
        NegotiateStreamManagement();
      }
    }

    method ConnectionLost()
      modifies this
      ensures State() == HandleDisconnect(old(State()))
    {
      transport, authed, bound, wire := Unconnected, false, false, [];
    }

    method Disconnect()
      modifies this
      ensures State() == DisconnectReason(old(State()))
    {
      authed, bound := false, false;
      if transport != Unconnected {
        Transmit(StreamEnd);
        ConnectionLost();
        sent := 0;
      }
    }

    method DisconnectByUser()
      modifies this
      ensures State() == UserDisconnect(old(State()))
    {
      hide DisconnectReason;
      context, handled, id, resumable, wanted := CtxSMInvalid, 0, "", false, false;
      Disconnect();
    }
  }
}
