/**
 * The BOSH connection: request numbers, the count of open requests, the send buffer, the
 * lists of transport links, and the responses read off the incoming stream.
 */
module Bosh {
  import opened Basics
  import opened Http
  import opened Splitter

  /** A transport connection, told apart by a number. */
  type Link = nat

  datatype ConnState = Disconnected | Connecting | Connected
  datatype Mode = LegacyHttp | PersistentHttp | Pipelining

  /** What goes out: the session request, a body with its payload, the closing body. */
  datatype Request =
    | Opening(rid: int)
    | Body(rid: int, restart: bool, payload: string)
    | Terminal(rid: int, payload: string)

  datatype Session = Session(
    state: ConnState, rid: int, open: int, limit: int, restart: bool, buffer: string,
    mode: Mode, active: seq<Link>, pool: seq<Link>, made: nat, wire: seq<Request>)

  /** What the surroundings decide during one call: the links that are up, whether a write succeeds, the clock. */
  datatype Net = Net(up: set<Link>, accepts: bool, tooSoon: bool)

  /** The attributes of an incoming body that matter here. */
  datatype Tag = Tag(sid: bool, requests: Option<int>, terminate: bool)

  // ----- sending

  /** The link at the head of the pool, moved to the active ones if it is up, else to the pool's end. */
  function ActivateConnection(s: Session, net: Net): (Session, Option<Link>)
    requires s.pool != []
  {
    var link := s.pool[0];
    if link in net.up then (s.(pool := s.pool[1..], active := s.active + [link]), Some(link))
    else (s.(pool := s.pool[1..] + [link]), None)
  }

  function GetConnection(s: Session, net: Net): (Session, Option<Link>) {
    if s.open > 0 && s.open >= s.limit then (s, None)
    else if s.mode == Pipelining then
      if s.active != [] then (s, Some(s.active[0]))
      else if s.pool != [] then ActivateConnection(s, net)
      else (s, None)
    else if s.pool != [] then ActivateConnection(s, net)
    else if s.active != [] then (s.(pool := s.pool + [s.made], made := s.made + 1), None)
    else (s, None)
  }

  function SendRequest(s: Session, request: Request, net: Net): (Session, bool) {
    var (s1, link) := GetConnection(s, net);
    if link.None? || !net.accepts then (s1, false)
    else (s1.(open := s1.open + 1, wire := s1.wire + [request]), true)
  }

  /** The pending restart, or else the buffer, as the next numbered body. */
  function SendXml(s: Session, net: Net): (Session, bool) {
    if s.state != Connected then (s, false)
    else if s.buffer == "" && net.tooSoon && s.open > 0 then (s, false)
    else
      var request := Body(s.rid + 1, s.restart, if s.restart then "" else s.buffer);
      var (s1, ok) := SendRequest(s.(rid := s.rid + 1), request, net);
      if ok then (s1.(buffer := "", restart := false), true)
      else (s1.(rid := s1.rid - 1), true)
  }

  predicate IsHeader(data: string) {
    |data| >= 2 && data[..2] == "<?"
  }

  const STREAM_END := "</stream:stream>"

  function Send(s: Session, data: string, net: Net): (Session, bool) {
    if s.state == Disconnected then (s, false)
    else if IsHeader(data) then (SendXml(s.(restart := true), net).0, true)
    else if data == STREAM_END then (s, true)
    else (SendXml(s.(buffer := s.buffer + data), net).0, true)
  }

  /** The end of a receive call: an empty request, or what is still buffered. */
  function Recv(s: Session, net: Net): Session {
    if (s.open == 0 || s.buffer != "") && s.state == Connected then SendXml(s, net).0 else s
  }

  // ----- opening and closing

  function Connect(s: Session, net: Net): Session {
    if s.state != Disconnected then s else GetConnection(s.(state := Connecting), net).0
  }

  /** A link has come up; `rid` is the random number to start from. */
  function HandleConnect(s: Session, rid: int, net: Net): Session {
    if s.state == Connecting then SendRequest(s.(rid := rid), Opening(rid), net).0 else s
  }

  function HandleDisconnect(s: Session): Session {
    if s.state == Connecting then s.(state := Disconnected)
    else if s.mode == Pipelining then s.(mode := LegacyHttp)
    else s
  }

  function Disconnect(s: Session, net: Net): Session {
    if s.active == [] && (s.mode == Pipelining || s.pool == []) then s
    else if s.state == Disconnected then s
    else
      var request := Terminal(s.rid + 1, s.buffer);
      SendRequest(s.(rid := s.rid + 1, buffer := ""), request, net).0.(state := Disconnected)
  }

  // ----- receiving

  function NoticeStatus(s: Session, status: string): Session {
    if status != "200" then s.(state := Disconnected) else s
  }

  function NoticeClosing(s: Session, closing: bool): Session {
    if s.mode != LegacyHttp && closing then s.(mode := LegacyHttp) else s
  }

  /** The first active link goes back to the pool, except when pipelining. */
  function PutConnection(s: Session): Session
    requires s.active != []
  {
    if s.mode == Pipelining then s else s.(active := s.active[1..], pool := s.pool + [s.active[0]])
  }

  /** One complete response. */
  function Respond(s: Session, r: Response): Session
    requires s.active != []
  {
    var s1 := PutConnection(NoticeClosing(NoticeStatus(s, r.status), r.closing));
    s1.(open := s1.open - 1)
  }

  datatype Reading = Reading(session: Session, buffer: string, fed: seq<string>)

  /**
   * What the loop over the receive buffer does: it acts on each header as soon as the header
   * is complete, and on each response as soon as the body is.  It stops for good at a length
   * of nothing, and where the original throws or has no defined behaviour: at a header that
   * is shorter than a status line, a negative length, or a response with no active link.
   */
  function Received(s: Session, buffer: string): Reading
    decreases |buffer|
  {
    match ReadHead(buffer)
    case None => Reading(s, buffer, [])
    case Some(head) =>
      var s1 := NoticeStatus(s, head.status);
      if head.length <= 0 then Reading(s1, buffer, [])
      else
        var end := head.begin + head.length;
        if |buffer| < end || s.active == [] then Reading(NoticeClosing(s1, head.closing), buffer, [])
        else
          var response := Response(head.status, head.closing, buffer[head.begin..end]);
          var r := Received(Respond(s, response), buffer[end..]);
          Reading(r.session, r.buffer, [response.body] + r.fed)
  }

  /** An incoming body. */
  function HandleTag(s: Session, tag: Tag): Session {
    var s1 := s.(restart := false);
    var s2 := if tag.sid
              then s1.(
                state := Connected,
                limit :=
                  if tag.requests.Some? && tag.requests.value < s1.limit then tag.requests.value else s1.limit)
              else s1;
    if tag.terminate then s2.(state := Disconnected) else s2
  }

  // ----- reading in pieces

  function ReceiveAll(s: Session, buffer: string, pieces: seq<string>): Reading
    decreases |pieces|
  {
    if pieces == [] then Reading(s, buffer, [])
    else
      var r := Received(s, buffer + pieces[0]);
      var r2 := ReceiveAll(r.session, r.buffer, pieces[1..]);
      Reading(r2.session, r2.buffer, r.fed + r2.fed)
  }

  /** What is done about a header whose response is not complete yet. */
  function Peek(s: Session, buffer: string): Session {
    match ReadHead(buffer)
    case None => s
    case Some(head) =>
      var s1 := NoticeStatus(s, head.status);
      if head.length <= 0 then s1 else NoticeClosing(s1, head.closing)
  }

  lemma ReceivedNone(s: Session, buffer: string)
    requires ParseResponse(buffer).None? || s.active == []
    ensures Received(s, buffer) == Reading(Peek(s, buffer), buffer, [])
  {
    hide ReadHead, NoticeStatus, NoticeClosing;
  }

  lemma ReceivedOne(s: Session, buffer: string)
    requires ParseResponse(buffer).Some? && s.active != []
    ensures var (response, n) := ParseResponse(buffer).value;
            && 0 < n <= |buffer|
            && var r := Received(Respond(s, response), buffer[n..]);
            Received(s, buffer) == Reading(r.session, r.buffer, [response.body] + r.fed)
  {
    hide ReadHead, Respond, NoticeStatus, NoticeClosing;
  }

  /** Acting on a header twice is acting on it once. */
  lemma PeekAgain(s: Session, b: string, more: string)
    ensures Peek(Peek(s, b), b + more) == Peek(s, b + more)
    ensures Peek(s, b).active == s.active
  {
    hide ReadHead;
    if ReadHead(b).Some? {
      HeadStays(b, more);
    }
  }

  lemma RespondAfterPeek(s: Session, b: string)
    requires ParseResponse(b).Some? && s.active != []
    ensures Peek(s, b).active != []
            && Respond(Peek(s, b), ParseResponse(b).value.0) == Respond(s, ParseResponse(b).value.0)
  {
    hide ReadHead;
  }

  lemma ReceivedAfterPeek(s: Session, b: string, more: string)
    ensures Received(Peek(s, b), b + more) == Received(s, b + more)
  {
    hide Received, Peek, Respond, ParseResponse;
    var text := b + more;
    PeekAgain(s, b, more);
    if ParseResponse(text).None? || s.active == [] {
      ReceivedNone(s, text);
      ReceivedNone(Peek(s, b), text);
    } else {
      var response := ParseResponse(text).value.0;
      ReceivedOne(s, text);
      ReceivedOne(Peek(s, b), text);
      RespondAfterPeek(s, text);
      RespondAfterPeek(Peek(s, b), text);
    }
  }

  /** Reading on from where a first part left off is reading both parts at once. */
  lemma {:induction false} ReceivedAppend(s: Session, b: string, more: string)
    ensures var r := Received(s, b);
            var r2 := Received(r.session, r.buffer + more);
            Received(s, b + more) == Reading(r2.session, r2.buffer, r.fed + r2.fed)
    decreases |b|
  {
    hide Received, Peek, Respond, ParseResponse;
    if ParseResponse(b).None? || s.active == [] {
      ReceivedNone(s, b);
      ReceivedAfterPeek(s, b, more);
      var r2 := Received(s, b + more);
      assert [] + r2.fed == r2.fed;
    } else {
      var (response, n) := ParseResponse(b).value;
      ResponseStays(b, more);
      ReceivedOne(s, b);
      ReceivedOne(s, b + more);
      assert (b + more)[n..] == b[n..] + more;
      ReceivedAppend(Respond(s, response), b[n..], more);
      var r := Received(Respond(s, response), b[n..]);
      var r2 := Received(r.session, r.buffer + more);
      assert [response.body] + (r.fed + r2.fed) == [response.body] + r.fed + r2.fed;
    }
  }

  /** Nothing more can be done with what a reading leaves. */
  predicate Settled(s: Session, buffer: string) {
    Received(s, buffer) == Reading(s, buffer, [])
  }

  lemma ReceivedSettles(s: Session, b: string)
    ensures Settled(Received(s, b).session, Received(s, b).buffer)
  {
    hide Received;
    var r := Received(s, b);
    ReceivedAppend(s, b, "");
    assert b + "" == b && r.buffer + "" == r.buffer;
    var r2 := Received(r.session, r.buffer);
    assert |r.fed + r2.fed| == |r.fed|;
    assert r2.fed == [];
  }

  /** However the stream arrives in pieces, whatever it holds, everything ends the same. */
  lemma {:induction false} ChunkingDoesNotMatter(s: Session, b: string, pieces: seq<string>)
    requires Settled(s, b)
    ensures ReceiveAll(s, b, pieces) == Received(s, b + Concat(pieces))
    decreases |pieces|
  {
    hide Received;
    if pieces == [] {
      assert b + Concat(pieces) == b;
    } else {
      var first := b + pieces[0];
      var r := Received(s, first);
      ReceivedSettles(s, first);
      ChunkingDoesNotMatter(r.session, r.buffer, pieces[1..]);
      ReceivedAppend(s, first, Concat(pieces[1..]));
      assert first + Concat(pieces[1..]) == b + Concat(pieces);
    }
  }

  // ----- a stream of responses

  /** The effect of complete responses, one after another. */
  function RespondAll(s: Session, responses: seq<Response>): Session
    requires s.active != [] && s.mode == Pipelining && forall i :: 0 <= i < |responses| ==> !responses[i].closing
    decreases |responses|
  {
    if responses == [] then s else RespondAll(Respond(s, responses[0]), responses[1..])
  }

  function Bodies(responses: seq<Response>): (bodies: seq<string>)
    ensures |bodies| == |responses| && forall i :: 0 <= i < |bodies| ==> bodies[i] == responses[i].body
  {
    seq(|responses|, i requires 0 <= i < |responses| => responses[i].body)
  }

  predicate AllOk(responses: seq<Response>) {
    forall i :: 0 <= i < |responses| ==> responses[i].status == "200"
  }

  /** When pipelining, each response closes one request, and only a bad status changes anything else. */
  lemma {:induction false} RespondAllCounts(s: Session, responses: seq<Response>)
    requires s.active != [] && s.mode == Pipelining && forall i :: 0 <= i < |responses| ==> !responses[i].closing
    ensures RespondAll(s, responses)
         == s.(open := s.open - |responses|, state := if AllOk(responses) then s.state else Disconnected)
    decreases |responses|
  {
    if responses != [] {
      RespondAllCounts(Respond(s, responses[0]), responses[1..]);
      assert responses == [responses[0]] + responses[1..];
      assert AllOk(responses) <==> responses[0].status == "200" && AllOk(responses[1..]);
    }
  }

  lemma RespondKeeps(s: Session, response: Response)
    requires s.active != [] && s.mode == Pipelining && !response.closing
    ensures Respond(s, response).active == s.active && Respond(s, response).mode == s.mode
  {
  }

  lemma RespondOne(s: Session, response: Response, more: seq<Response>)
    requires s.active != [] && s.mode == Pipelining && !response.closing
    requires forall i :: 0 <= i < |more| ==> !more[i].closing
    ensures RespondAll(s, [response] + more) == RespondAll(Respond(s, response), more)
    ensures Bodies([response] + more) == [response.body] + Bodies(more)
  {
    var responses := [response] + more;
    assert responses[0] == response && responses[1..] == more;
  }

  /** The loop takes exactly the responses that the parser cuts off the front of the buffer. */
  lemma {:induction false} ReceivedIsDrained(s: Session, buffer: string, responses: seq<Response>)
    requires s.active != [] && s.mode == Pipelining
    requires Drain(ParseResponse, buffer).0 == responses && forall i :: 0 <= i < |responses| ==> !responses[i].closing
    ensures var rest := Drain(ParseResponse, buffer).1;
            Received(s, buffer) == Reading(Peek(RespondAll(s, responses), rest), rest, Bodies(responses))
    decreases |buffer|
  {
    hide Received, ParseResponse, Drain, Peek, Respond, RespondAll, Bodies;
    if ParseResponse(buffer).None? {
      DrainNone(ParseResponse, buffer);
      ReceivedNone(s, buffer);
      NoResponses(s);
    } else {
      var (response, n) := ParseResponse(buffer).value;
      ReceivedOne(s, buffer);
      var more := Drain(ParseResponse, buffer[n..]).0;
      DrainOne(ParseResponse, buffer);
      assert responses == [response] + more;
      assert responses[0] == response && responses[1..] == more;
      RespondKeeps(s, response);
      ReceivedIsDrained(Respond(s, response), buffer[n..], more);
      RespondOne(s, response, more);
    }
  }

  lemma NoResponses(s: Session)
    requires s.active != [] && s.mode == Pipelining
    ensures RespondAll(s, []) == s && Bodies([]) == []
  {
  }

  /** A message of a server: header lines after which the connection stays open, and a body. */
  datatype Message = Message(lines: seq<string>, body: string) {
    predicate Valid() {
      IsMessage(lines, body) && !MessageResponse(lines, body).closing
    }

    function Response(): Response
      requires Valid()
    {
      MessageResponse(lines, body)
    }
  }

  function Texts(messages: seq<Message>): (texts: seq<string>)
    ensures |texts| == |messages|
  {
    seq(|messages|, i requires 0 <= i < |messages| => MessageText(messages[i].lines, messages[i].body))
  }

  predicate AllValid(messages: seq<Message>) {
    forall i :: 0 <= i < |messages| ==> messages[i].Valid()
  }

  function Responses(messages: seq<Message>): (responses: seq<Response>)
    requires AllValid(messages)
    ensures |responses| == |messages|
  {
    seq(|messages|, i requires 0 <= i < |messages| && messages[i].Valid() => messages[i].Response())
  }

  /** A stream of complete messages and the beginning of another is cut exactly there. */
  lemma MessagesDrain(messages: seq<Message>, partial: string)
    requires AllValid(messages) && ParseResponse(partial).None?
    ensures Drain(ParseResponse, Concat(Texts(messages)) + partial) == (Responses(messages), partial)
  {
    hide ParseResponse, MessageText, IsMessage;
    var responses, texts := Responses(messages), Texts(messages);
    forall i | 0 <= i < |responses|
      ensures IsWireForm(ParseResponse, responses[i], texts[i])
    {
      assert messages[i].Valid();
      MessageIsWireForm(messages[i].lines, messages[i].body);
    }
    hide IsWireForm;
    DrainOfWireForms(ParseResponse, responses, texts, partial);
  }

  lemma ResponsesStayOpen(messages: seq<Message>)
    requires AllValid(messages)
    ensures forall i :: 0 <= i < |messages| ==> !Responses(messages)[i].closing
  {
    hide IsMessage;
    forall i | 0 <= i < |messages|
      ensures !Responses(messages)[i].closing
    {
      assert messages[i].Valid();
    }
  }

  /**
   * Pipelined responses, with bodies that may hold anything, arriving in pieces cut anywhere:
   * the XML parser is fed exactly the bodies, in order; what has begun stays buffered; each
   * response closes one request.
   */
  lemma AnyPiecesFeedTheBodies(s: Session, messages: seq<Message>, partial: string, pieces: seq<string>)
    requires s.active != [] && s.mode == Pipelining
    requires AllValid(messages)
    requires ParseResponse(partial).None? && Concat(pieces) == Concat(Texts(messages)) + partial
    ensures var responses := Responses(messages);
            var after := s.(open := s.open - |messages|, state := if AllOk(responses) then s.state else Disconnected);
            ReceiveAll(s, "", pieces) == Reading(Peek(after, partial), partial, Bodies(responses))
  {
    hide ParseResponse, Received, Drain, Peek, RespondAll, AllValid, Settled, Texts, Responses, ReceiveAll, AllOk;
    var responses := Responses(messages);
    MessagesDrain(messages, partial);
    ReceivedNothing(s);
    ChunkingDoesNotMatter(s, "", pieces);
    assert "" + Concat(pieces) == Concat(pieces);
    ResponsesStayOpen(messages);
    ReceivedIsDrained(s, Concat(pieces), responses);
    RespondAllCounts(s, responses);
  }

  lemma ReceivedNothing(s: Session)
    ensures Settled(s, "")
  {
  }

  // ----- the code

  /** The connection object; `wire` and `fed` record the requests written and the bodies given to the XML parser. */
  class ConnectionBosh {
    var state: ConnState
    var rid: int
    var openRequests: int
    var maxOpenRequests: int
    var streamRestart: bool
    var sendBuffer: string
    var connMode: Mode
    var activeConnections: seq<Link>
    var connectionPool: seq<Link>
    var made: nat
    var wire: seq<Request>
    var buffer: string
    var fed: seq<string>

    ghost function Value(): Session
      reads this
    {
      Session(state, rid, openRequests, maxOpenRequests, streamRestart, sendBuffer, connMode,
              activeConnections, connectionPool, made, wire)
    }

    /** A connection given one transport link, which goes into the pool. */
    constructor (mode: Mode)
      ensures Value() == Fresh(mode) && buffer == "" && fed == []
    {
      state, rid, openRequests, maxOpenRequests := Disconnected, 0, 0, 2;
      streamRestart, sendBuffer, connMode := false, "", mode;
      activeConnections, connectionPool, made := [], [0], 1;
      wire, buffer, fed := [], "", [];
    }

    method TakeFromPool(net: Net) returns (link: Option<Link>)
      requires connectionPool != []
      modifies this`connectionPool, this`activeConnections
      ensures (Value(), link) == ActivateConnection(old(Value()), net)
    {
      var head := connectionPool[0];
      connectionPool := connectionPool[1..];
      if head in net.up {
        activeConnections := activeConnections + [head];
        return Some(head);
      }
      connectionPool := connectionPool + [head];
      link := None;
    }

    method ChooseConnection(net: Net) returns (link: Option<Link>)
      modifies this`connectionPool, this`activeConnections, this`made
      ensures (Value(), link) == GetConnection(old(Value()), net)
    {
      if openRequests > 0 && openRequests >= maxOpenRequests {
        return None;
      }
      link := None;
      match connMode
      case Pipelining =>
        if activeConnections != [] {
          link := Some(activeConnections[0]);
        } else if connectionPool != [] {
          link := TakeFromPool(net);
        }
      case _ =>
        if connectionPool != [] {
          link := TakeFromPool(net);
        } else if activeConnections != [] {
          connectionPool := connectionPool + [made];
          made := made + 1;
        }
    }

    method WriteRequest(request: Request, net: Net) returns (ok: bool)
      modifies this`connectionPool, this`activeConnections, this`made, this`openRequests, this`wire
      ensures (Value(), ok) == SendRequest(old(Value()), request, net)
    {
      var link := ChooseConnection(net);
      if link.None? {
        return false;
      }
      ok := net.accepts;
      if ok {
        wire := wire + [request];
        openRequests := openRequests + 1;
      }
    }

    method WriteXml(net: Net) returns (done: bool)
      modifies this
      ensures (Value(), done) == SendXml(old(Value()), net) && buffer == old(buffer) && fed == old(fed)
    {
      hide SendRequest;
      if state != Connected {
        return false;
      }
      if sendBuffer == "" && net.tooSoon && openRequests > 0 {
        return false;
      }
      rid := rid + 1;
      var request := Body(rid, streamRestart, if streamRestart then "" else sendBuffer);
      var ok := WriteRequest(request, net);
      if ok {
        sendBuffer := "";
        streamRestart := false;
      } else {
        rid := rid - 1;
      }
      done := true;
    }

    method SendData(data: string, net: Net) returns (ok: bool)
      modifies this
      ensures (Value(), ok) == Send(old(Value()), data, net) && buffer == old(buffer) && fed == old(fed)
    {
      if state == Disconnected {
        return false;
      }
      if IsHeader(data) {
        streamRestart := true;
        var _ := WriteXml(net);
        return true;
      } else if data == STREAM_END {
        return true;
      }
      sendBuffer := sendBuffer + data;
      var _ := WriteXml(net);
      ok := true;
    }

    method FinishRecv(net: Net)
      modifies this
      ensures Value() == Recv(old(Value()), net) && buffer == old(buffer) && fed == old(fed)
    {
      if (openRequests == 0 || |sendBuffer| > 0) && state == Connected {
        var _ := WriteXml(net);
      }
    }

    method Open(net: Net)
      modifies this
      ensures Value() == Connect(old(Value()), net) && buffer == old(buffer) && fed == old(fed)
    {
      if state != Disconnected {
        return;
      }
      state := Connecting;
      var _ := ChooseConnection(net);
    }

    method LinkUp(random: int, net: Net)
      modifies this
      ensures Value() == HandleConnect(old(Value()), random, net) && buffer == old(buffer) && fed == old(fed)
    {
      if state == Connecting {
        rid := random;
        var _ := WriteRequest(Opening(rid), net);
      }
    }

    method LinkDown()
      modifies this`state, this`connMode
      ensures Value() == HandleDisconnect(old(Value()))
    {
      if state == Connecting {
        state := Disconnected;
        return;
      }
      if connMode == Pipelining {
        connMode := LegacyHttp;
      }
    }

    method Close(net: Net)
      modifies this
      ensures Value() == Disconnect(old(Value()), net) && buffer == old(buffer) && fed == old(fed)
    {
      hide SendRequest;
      if (connMode == Pipelining && activeConnections == []) || (connectionPool == [] && activeConnections == []) {
        return;
      }
      if state != Disconnected {
        rid := rid + 1;
        var request := Terminal(rid, sendBuffer);
        sendBuffer := "";
        var _ := WriteRequest(request, net);
      }
      state := Disconnected;
    }

    method ReleaseConnection()
      requires activeConnections != []
      modifies this`connectionPool, this`activeConnections
      ensures Value() == PutConnection(old(Value()))
    {
      var link := activeConnections[0];
      if connMode != Pipelining {
        activeConnections := activeConnections[1..];
        connectionPool := connectionPool + [link];
      }
    }

    /** Data from a link: every response that is complete is taken off the buffer and its body fed to the parser. */
    method HandleReceivedData(data: string)
      modifies this
      ensures Reading(Value(), buffer, fed)
           == var r := Received(old(Value()), old(buffer) + data); Reading(r.session, r.buffer, old(fed) + r.fed)
    {
      buffer := buffer + data;
      ghost var all := Received(Value(), buffer);
      ghost var before := fed;
      assert before + all.fed == fed + all.fed;
      var more := true;
      while more
        invariant more ==> Pending(all, before)
        invariant !more ==> Reading(Value(), buffer, fed) == Reading(all.session, all.buffer, before + all.fed)
        decreases more, |buffer|
      {
        more := ReadResponse(all, before);
      }
    }

    /** What has been fed and what the rest will give make up the whole. */
    ghost predicate Pending(all: Reading, before: seq<string>)
      reads this
    {
      var r := Received(Value(), buffer);
      r.session == all.session && r.buffer == all.buffer && fed + r.fed == before + all.fed
    }

    /** One turn of the loop; `more` says whether a response was taken. */
    method ReadResponse(ghost all: Reading, ghost before: seq<string>) returns (more: bool)
      requires Pending(all, before)
      modifies this
      ensures more ==> Pending(all, before) && |buffer| < old(|buffer|)
      ensures !more ==> Reading(Value(), buffer, fed) == Reading(all.session, all.buffer, before + all.fed)
    {
      hide ReadHead;
      assert fed + [] == fed;
      var h := ReadHead(buffer);
      if h.None? {
        return false;
      }
      var head := h.value;
      ghost var value := Value();
      if head.status != "200" {
        state := Disconnected;
      }
      if head.length <= 0 {
        return false;
      }
      if connMode != LegacyHttp && head.closing {
        connMode := LegacyHttp;
      }
      var end := head.begin + head.length;
      if |buffer| < end || activeConnections == [] {
        return false;
      }
      ghost var response := Response(head.status, head.closing, buffer[head.begin..end]);
      ghost var rest := Received(Respond(value, response), buffer[end..]);
      FedOn(fed, response.body, rest.fed);
      TakeBody(head.begin, end);
      assert Value() == Respond(value, response);
      more := true;
    }

    /** The link goes back, the request is closed, the body goes to the parser and off the buffer. */
    method TakeBody(begin: nat, end: nat)
      requires activeConnections != [] && begin <= end <= |buffer|
      modifies this
      ensures Value() == old(PutConnection(Value())).(open := old(openRequests) - 1)
      ensures fed == old(fed) + [old(buffer)[begin..end]] && buffer == old(buffer)[end..]
    {
      ReleaseConnection();
      openRequests := openRequests - 1;
      fed := fed + [buffer[begin..end]];
      buffer := buffer[end..];
    }

    static lemma FedOn(fed: seq<string>, xml: string, rest: seq<string>)
      ensures fed + ([xml] + rest) == fed + [xml] + rest
    {
    }

    method BodyArrived(tag: Tag)
      modifies this`streamRestart, this`state, this`maxOpenRequests
      ensures Value() == HandleTag(old(Value()), tag)
    {
      if streamRestart {
        streamRestart := false;
      }
      if tag.sid {
        state := Connected;
        if tag.requests.Some? && tag.requests.value < maxOpenRequests {
          maxOpenRequests := tag.requests.value;
        }
      }
      if tag.terminate {
        state := Disconnected;
      }
    }
  }

  /** A new connection with one link in the pool. */
  function Fresh(mode: Mode): Session {
    Session(Disconnected, 0, 0, 2, false, "", mode, [], [0], 1, [])
  }
}
