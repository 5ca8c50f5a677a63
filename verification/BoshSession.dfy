/**
 * Whole runs of a BOSH connection: what an application sends, what links and clock decide
 * and what the connection manager answers, in any order.  Request numbers, open requests,
 * transport links, and where the accepted bytes are.
 */
module BoshSession {
  import opened Basics
  import opened Bosh
  import opened Http

  datatype Step =
    | Open(net: Net)
    | LinkUp(rid: int, net: Net)
    | LinkDown
    | SendData(data: string, net: Net)
    | FinishRecv(net: Net)
    | Close(net: Net)
    | HeaderOnly(status: string, closing: bool)
    | Answer(response: Response, tags: seq<Tag>)

  /** The connection, the bytes it has accepted for the stream, the number of requests answered. */
  datatype World = World(s: Session, accepted: string, answered: nat)

  /**
   * One session: it is opened while nothing has been written, only requests are answered, on
   * a link in use, and a session id comes in answer to the opening request.
   */
  predicate Allowed(w: World, step: Step) {
    match step
    case Open(_) => w.s.wire == []
    case LinkUp(_, _) => w.s.wire == []
    case Answer(_, tags) =>
      w.answered < |w.s.wire| && w.s.active != [] && (w.s.state == Connecting || NoSid(tags))
    case _ => true
  }

  predicate NoSid(tags: seq<Tag>) {
    forall i :: 0 <= i < |tags| ==> !tags[i].sid
  }

  function HandleTags(s: Session, tags: seq<Tag>): Session
    decreases |tags|
  {
    if tags == [] then s else HandleTags(HandleTag(s, tags[0]), tags[1..])
  }

  /** The bytes of a call that belong to the stream itself. */
  function Stanzas(data: string): string {
    if IsHeader(data) || data == STREAM_END then "" else data
  }

  function Next(w: World, step: Step): World
    requires Allowed(w, step)
  {
    match step
    case Open(net) => w.(s := Connect(w.s, net))
    case LinkUp(rid, net) => w.(s := HandleConnect(w.s, rid, net))
    case LinkDown => w.(s := HandleDisconnect(w.s))
    case SendData(data, net) =>
      var (s1, ok) := Send(w.s, data, net);
      w.(s := s1, accepted := if ok then w.accepted + Stanzas(data) else w.accepted)
    case FinishRecv(net) => w.(s := Recv(w.s, net))
    case Close(net) => w.(s := Disconnect(w.s, net))
    case HeaderOnly(status, closing) => w.(s := NoticeClosing(NoticeStatus(w.s, status), closing))
    case Answer(response, tags) => w.(s := HandleTags(Respond(w.s, response), tags), answered := w.answered + 1)
  }

  function Start(mode: Mode): World {
    World(Fresh(mode), "", 0)
  }

  ghost predicate AllowedRun(w: World, steps: seq<Step>)
    decreases |steps|
  {
    steps == [] || (Allowed(w, steps[0]) && AllowedRun(Next(w, steps[0]), steps[1..]))
  }

  ghost function Run(w: World, steps: seq<Step>): World
    requires AllowedRun(w, steps)
    decreases |steps|
  {
    if steps == [] then w else Run(Next(w, steps[0]), steps[1..])
  }

  // ----- one request

  /** A link can be had now: the limit leaves room and there is a link in use or one that is up. */
  predicate CanSend(s: Session, net: Net) {
    && (s.open <= 0 || s.open < s.limit)
    && (if s.mode == Pipelining && s.active != [] then true else s.pool != [] && s.pool[0] in net.up)
  }

  predicate Distinct(links: seq<Link>) {
    forall i, j :: 0 <= i < j < |links| ==> links[i] != links[j]
  }

  /** No link is in both lists or twice in one, and new ones get new numbers. */
  ghost predicate Linked(s: Session) {
    Distinct(s.active + s.pool) && forall l :: l in s.active + s.pool ==> l < s.made
  }

  ghost predicate SameButLinks(s: Session, t: Session) {
    t == s.(active := t.active, pool := t.pool, made := t.made)
  }

  lemma ActivateKeepsLinks(s: Session, net: Net)
    requires s.pool != [] && Linked(s)
    ensures Linked(ActivateConnection(s, net).0)
  {
    var t := ActivateConnection(s, net).0;
    if s.pool[0] in net.up {
      assert t.active + t.pool == s.active + s.pool;
    } else {
      RotateKeepsDistinct(s.active, s.pool);
    }
  }

  lemma RotateKeepsDistinct(a: seq<Link>, b: seq<Link>)
    requires b != [] && Distinct(a + b)
    ensures Distinct(a + (b[1..] + [b[0]]))
    ensures forall l :: l in a + (b[1..] + [b[0]]) ==> l in a + b
  {
    var was, now := a + b, a + (b[1..] + [b[0]]);
    forall i | 0 <= i < |now|
      ensures now[i] == was[if i < |a| then i else if i < |now| - 1 then i + 1 else |a|]
    {
    }
  }

  lemma GetConnectionEffect(s: Session, net: Net)
    ensures var (t, link) := GetConnection(s, net);
            && SameButLinks(s, t)
            && (link.Some? <==> CanSend(s, net))
            && (link.Some? ==> link.value in t.active)
            && (Linked(s) ==> Linked(t))
  {
    if s.pool != [] && Linked(s) {
      ActivateKeepsLinks(s, net);
    }
    if s.mode != Pipelining && s.pool == [] && s.active != [] {
      var t := s.(pool := s.pool + [s.made], made := s.made + 1);
      assert t.active + t.pool == (s.active + s.pool) + [s.made];
      var links := s.active + s.pool;
      forall i | Linked(s) && 0 <= i < |links|
        ensures links[i] < s.made
      {
        assert links[i] in links;
      }
    }
    if s.pool != [] {
      assert s.pool[0] in s.active + [s.pool[0]];
    }
  }

  /** A request goes out if and only if there is a link for it and the link takes it. */
  lemma SendRequestEffect(s: Session, request: Request, net: Net)
    ensures var (t, ok) := SendRequest(s, request, net);
            && (ok <==> CanSend(s, net) && net.accepts)
            && SameButLinks(if ok then s.(open := s.open + 1, wire := s.wire + [request]) else s, t)
            && (Linked(s) ==> Linked(t))
  {
    hide GetConnection, CanSend, Linked;
    GetConnectionEffect(s, net);
    var (_, link) := GetConnection(s, net);
    assert link.None? || link.Some?;
    if Linked(s) {
      LinkedAlike(GetConnection(s, net).0, SendRequest(s, request, net).0);
    }
  }

  /** Whether `SendXml` puts a body on the wire. */
  predicate BodyGoesOut(s: Session, net: Net) {
    && s.state == Connected
    && !(s.buffer == "" && net.tooSoon && s.open > 0)
    && CanSend(s, net)
    && net.accepts
  }

  function WithBody(s: Session): Session {
    s.(rid := s.rid + 1, open := s.open + 1, buffer := "", restart := false,
       wire := s.wire + [Body(s.rid + 1, s.restart, if s.restart then "" else s.buffer)])
  }

  /** A failed attempt leaves everything as it was, the request number included. */
  lemma SendXmlEffect(s: Session, net: Net)
    ensures var t := SendXml(s, net).0;
            SameButLinks(if BodyGoesOut(s, net) then WithBody(s) else s, t) && (Linked(s) ==> Linked(t))
  {
    hide SendRequest;
    var request := Body(s.rid + 1, s.restart, if s.restart then "" else s.buffer);
    SendRequestEffect(s.(rid := s.rid + 1), request, net);
  }

  /** A receive call sends what is waiting, or an empty body if nothing is open, whenever a body can go out. */
  lemma RecvSendsIff(s: Session, net: Net)
    ensures |Recv(s, net).wire| > |s.wire| <==> (s.open == 0 || s.buffer != "") && BodyGoesOut(s, net)
  {
    hide SendXml, CanSend;
    SendXmlEffect(s, net);
  }

  /** So the server has a request to answer after every receive call for which there is a link. */
  lemma RecvKeepsRequestOpen(s: Session, net: Net)
    requires s.state == Connected && s.open >= 0 && net.accepts && CanSend(s, net)
    ensures Recv(s, net).open > 0
  {
    hide SendXml;
    SendXmlEffect(s, net);
  }

  function Attempts(s: Session, net: Net, k: nat): Session
    decreases k
  {
    if k == 0 || s.pool == [] then s else Attempts(ActivateConnection(s, net).0, net, k - 1)
  }

  lemma RotateOn(p: seq<Link>, k: nat)
    requires 0 < k < |p|
    ensures var q := p[1..] + [p[0]]; q[k - 1..] + q[..k - 1] == p[k..] + p[..k]
  {
    var q := p[1..] + [p[0]];
    assert q[k - 1..] == p[k..] + [p[0]];
    assert q[..k - 1] == p[1..k];
    assert p[..k] == [p[0]] + p[1..k];
  }

  /** Links that are down take turns, so the first pooled link that is up is found after as many attempts. */
  lemma {:induction false} PoolTakesTurns(s: Session, net: Net, k: nat)
    requires k < |s.pool| && s.pool[k] in net.up && forall i :: 0 <= i < k ==> s.pool[i] !in net.up
    ensures var t := Attempts(s, net, k);
            && t == s.(pool := s.pool[k..] + s.pool[..k])
            && ActivateConnection(t, net).1 == Some(s.pool[k])
    decreases k
  {
    if k == 0 {
      assert s.pool[0..] + s.pool[..0] == s.pool;
    } else {
      var s1 := ActivateConnection(s, net).0;
      assert s1.pool == s.pool[1..] + [s.pool[0]];
      assert forall i :: 0 <= i < k ==> s1.pool[i] == s.pool[i + 1];
      PoolTakesTurns(s1, net, k - 1);
      RotateOn(s.pool, k);
    }
  }

  // ----- numbers, counts, links

  ghost predicate Consecutive(wire: seq<Request>) {
    forall i, j :: 0 <= i && j == i + 1 && j < |wire| ==> wire[j].rid == wire[i].rid + 1
  }

  ghost predicate Numbered(s: Session) {
    && Consecutive(s.wire)
    && (s.wire != [] && s.state != Disconnected ==> s.rid == s.wire[|s.wire| - 1].rid)
    && (s.state == Connected ==> s.wire != [])
  }

  ghost predicate Counted(w: World) {
    && w.answered <= |w.s.wire|
    && w.s.open == |w.s.wire| - w.answered
    && w.s.open <= 2
    && w.s.limit <= 2
  }

  ghost predicate Inv(w: World) {
    Numbered(w.s) && Counted(w) && Linked(w.s)
  }

  lemma SendXmlKeeps(s: Session, net: Net)
    requires Numbered(s) && Linked(s) && s.limit <= 2
    ensures var t := SendXml(s, net).0;
            && Numbered(t) && Linked(t) && t.limit == s.limit
            && t.open - |t.wire| == s.open - |s.wire| && |s.wire| <= |t.wire|
            && (|t.wire| > |s.wire| ==> t.open <= if s.limit > 1 then s.limit else 1)
  {
    hide SendXml, Linked;
    SendXmlEffect(s, net);
  }

  lemma SendRequestKeeps(s: Session, request: Request, net: Net)
    requires Linked(s)
    requires Consecutive(s.wire) && (s.wire != [] ==> request.rid == s.wire[|s.wire| - 1].rid + 1)
    ensures var t := SendRequest(s, request, net).0;
            && Consecutive(t.wire) && Linked(t) && t.limit == s.limit && t.rid == s.rid && t.state == s.state
            && t.open - |t.wire| == s.open - |s.wire| && |s.wire| <= |t.wire|
            && (t.wire == s.wire || t.wire == s.wire + [request])
            && (|t.wire| > |s.wire| ==> t.open <= if s.limit > 1 then s.limit else 1)
  {
    hide SendRequest, Linked;
    SendRequestEffect(s, request, net);
  }

  lemma RespondKeeps(s: Session, response: Response)
    requires s.active != [] && Numbered(s) && Linked(s)
    ensures var t := Respond(s, response);
            && Numbered(t) && Linked(t)
            && t == s.(state := t.state, mode := t.mode, active := t.active, pool := t.pool, open := s.open - 1)
            && (s.state == Disconnected ==> t.state == Disconnected)
  {
    var t := Respond(s, response);
    if t.mode != Pipelining {
      assert t.active + t.pool == s.active[1..] + (s.pool + [s.active[0]]);
      MoveFirstKeepsDistinct(s.active, s.pool);
    }
  }

  lemma MoveFirstKeepsDistinct(a: seq<Link>, b: seq<Link>)
    requires a != [] && Distinct(a + b)
    ensures Distinct(a[1..] + (b + [a[0]]))
    ensures forall l :: l in a[1..] + (b + [a[0]]) ==> l in a + b
  {
    var was, now := a + b, a[1..] + (b + [a[0]]);
    forall i | 0 <= i < |now|
      ensures now[i] == was[if i < |now| - 1 then i + 1 else 0]
    {
    }
  }

  lemma {:induction false} HandleTagsKeeps(s: Session, tags: seq<Tag>)
    requires Consecutive(s.wire) && Linked(s) && s.limit <= 2
    requires s.wire != [] && (s.rid == s.wire[|s.wire| - 1].rid || (s.state == Disconnected && NoSid(tags)))
    ensures var t := HandleTags(s, tags);
            && Numbered(t) && Linked(t) && t.limit <= 2
            && t == s.(state := t.state, limit := t.limit, restart := t.restart)
    decreases |tags|
  {
    if tags != [] {
      HandleTagsKeeps(HandleTag(s, tags[0]), tags[1..]);
    }
  }

  lemma AnswerKeeps(w: World, response: Response, tags: seq<Tag>)
    requires Inv(w) && Allowed(w, Answer(response, tags))
    ensures Inv(Next(w, Answer(response, tags)))
  {
    hide Linked, Respond, HandleTags, Consecutive;
    RespondKeeps(w.s, response);
    HandleTagsKeeps(Respond(w.s, response), tags);
  }

  /** The limit is kept by whatever a step writes. */
  ghost predicate WithinLimit(w: World, w1: World) {
    |w1.s.wire| > |w.s.wire| ==> w1.s.open <= if w.s.limit > 1 then w.s.limit else 1
  }

  lemma SendDataKeeps(w: World, data: string, net: Net)
    requires Inv(w)
    ensures Inv(Next(w, SendData(data, net))) && WithinLimit(w, Next(w, SendData(data, net)))
  {
    hide Linked, SendXml, Consecutive, IsHeader;
    if IsHeader(data) {
      LinkedAlike(w.s, w.s.(restart := true));
      SendXmlKeeps(w.s.(restart := true), net);
    } else {
      LinkedAlike(w.s, w.s.(buffer := w.s.buffer + data));
      SendXmlKeeps(w.s.(buffer := w.s.buffer + data), net);
    }
  }

  lemma LinkStepKeeps(w: World, step: Step)
    requires Inv(w) && Allowed(w, step) && (step.Open? || step.LinkUp? || step.LinkDown?)
    ensures Inv(Next(w, step)) && WithinLimit(w, Next(w, step))
  {
    hide Linked, SendRequest, GetConnection, Consecutive;
    match step
    case Open(net) =>
      LinkedAlike(w.s, w.s.(state := Connecting));
      GetConnectionEffect(w.s.(state := Connecting), net);
    case LinkUp(rid, net) =>
      LinkedAlike(w.s, w.s.(rid := rid));
      SendRequestKeeps(w.s.(rid := rid), Opening(rid), net);
    case LinkDown => LinkedAlike(w.s, HandleDisconnect(w.s));
  }

  /** Every step keeps the invariant, and a step that writes a request leaves at most max(1, limit) open. */
  lemma StepKeeps(w: World, step: Step)
    requires Inv(w) && Allowed(w, step)
    ensures Inv(Next(w, step))
    ensures WithinLimit(w, Next(w, step))
  {
    hide Linked, SendXml, SendRequest, GetConnection, HandleTags, Respond, Consecutive, IsHeader;
    match step
    case SendData(data, net) => SendDataKeeps(w, data, net);
    case FinishRecv(net) => SendXmlKeeps(w.s, net);
    case Close(net) => CloseKeeps(w.s, net);
    case HeaderOnly(status, closing) => LinkedAlike(w.s, NoticeClosing(NoticeStatus(w.s, status), closing));
    case Answer(response, tags) =>
      AnswerKeeps(w, response, tags);
      AnswerWritesNothing(w, response, tags);
      hide Next, Inv;
    case _ =>
      LinkStepKeeps(w, step);
      hide Next, Inv;
  }

  lemma {:induction false} RunKeeps(w: World, steps: seq<Step>)
    requires Inv(w) && AllowedRun(w, steps)
    ensures Inv(Run(w, steps))
    decreases |steps|
  {
    hide Inv, Next, Allowed;
    if steps != [] {
      StepKeeps(w, steps[0]);
      RunKeeps(Next(w, steps[0]), steps[1..]);
    }
  }

  lemma LinkedAlike(s: Session, t: Session)
    requires Linked(s) && t.active == s.active && t.pool == s.pool && t.made == s.made
    ensures Linked(t)
  {
  }

  lemma CloseKeeps(s: Session, net: Net)
    requires Numbered(s) && Linked(s)
    ensures var t := Disconnect(s, net);
            && Numbered(t) && Linked(t) && t.limit == s.limit
            && t.open - |t.wire| == s.open - |s.wire| && |s.wire| <= |t.wire|
            && (|t.wire| > |s.wire| ==> t.open <= if s.limit > 1 then s.limit else 1)
  {
    hide Linked, SendRequest, Consecutive;
    var s1 := s.(rid := s.rid + 1, buffer := "");
    LinkedAlike(s, s1);
    if s.state != Disconnected {
      SendRequestKeeps(s1, Terminal(s.rid + 1, s.buffer), net);
      var t := SendRequest(s1, Terminal(s.rid + 1, s.buffer), net).0;
      LinkedAlike(t, t.(state := Disconnected));
    }
  }

  lemma AnswerWritesNothing(w: World, response: Response, tags: seq<Tag>)
    requires Inv(w) && Allowed(w, Answer(response, tags))
    ensures Next(w, Answer(response, tags)).s.wire == w.s.wire
  {
    hide Linked, Respond, HandleTags, Consecutive;
    RespondKeeps(w.s, response);
    HandleTagsKeeps(Respond(w.s, response), tags);
  }

  lemma StartKeeps(mode: Mode)
    ensures Inv(Start(mode))
  {
  }

  /**
   * Of a new connection, in every run of a session: the requests on the wire are numbered
   * consecutively, failed attempts or not; those open are those sent less those answered,
   * and never more than two; no transport link is in use twice.
   */
  lemma RequestsAreNumberedAndCounted(mode: Mode, steps: seq<Step>)
    requires AllowedRun(Start(mode), steps)
    ensures var w := Run(Start(mode), steps);
            var wire := w.s.wire;
            && (forall i :: 0 <= i < |wire| ==> wire[i].rid == wire[0].rid + i)
            && 0 <= w.s.open == |wire| - w.answered <= 2
            && (w.s.state == Connected ==> wire != [] && w.s.rid == wire[|wire| - 1].rid)
            && Distinct(w.s.active + w.s.pool)
  {
    hide Run, AllowedRun;
    StartKeeps(mode);
    RunKeeps(Start(mode), steps);
    NumberedFromFirst(Run(Start(mode), steps).s.wire);
  }

  lemma {:induction false} NumberedFromFirst(wire: seq<Request>)
    requires Consecutive(wire)
    ensures forall i :: 0 <= i < |wire| ==> wire[i].rid == wire[0].rid + i
    decreases |wire|
  {
    if |wire| > 1 {
      var front := wire[..|wire| - 1];
      assert forall i :: 0 <= i < |front| ==> front[i] == wire[i];
      NumberedFromFirst(front);
      assert front[|front| - 1].rid == wire[0].rid + |front| - 1;
    }
  }

  // ----- where the accepted bytes are

  function Payload(request: Request): string {
    if request.Opening? then "" else request.payload
  }

  function Payloads(wire: seq<Request>): string {
    if wire == [] then "" else Payloads(wire[..|wire| - 1]) + Payload(wire[|wire| - 1])
  }

  lemma PayloadsOn(wire: seq<Request>, request: Request)
    ensures Payloads(wire + [request]) == Payloads(wire) + Payload(request)
  {
    assert (wire + [request])[..|wire|] == wire;
  }

  /** What went out and what is still buffered. */
  function Held(s: Session): string {
    Payloads(s.wire) + s.buffer
  }

  /** Every accepted byte has gone out or is buffered, in order. */
  predicate Conserved(w: World) {
    Held(w.s) == w.accepted
  }

  function Deficit(w: World): int {
    |w.accepted| - |Held(w.s)|
  }

  /** A pending restart goes out in place of the buffer, and the buffer is cleared. */
  predicate RestartDrops(s: Session, net: Net) {
    s.restart && s.buffer != "" && BodyGoesOut(s, net)
  }

  /** The closing body is given the buffer and is not sent. */
  predicate CloseDrops(s: Session, net: Net) {
    && s.state != Disconnected
    && (s.active != [] || (s.mode != Pipelining && s.pool != []))
    && s.buffer != ""
    && !(CanSend(s, net) && net.accepts)
  }

  /** Whether a step loses accepted bytes: a condition on what is pending when the call is made. */
  predicate Loses(w: World, step: Step) {
    match step
    case SendData(data, net) =>
      && w.s.state != Disconnected
      && data != STREAM_END
      && RestartDrops(if IsHeader(data) then w.s.(restart := true) else w.s.(buffer := w.s.buffer + data), net)
    case FinishRecv(net) => RestartDrops(w.s, net)
    case Close(net) => CloseDrops(w.s, net)
    case _ => false
  }

  lemma SendXmlHolds(s: Session, net: Net)
    ensures var t := SendXml(s, net).0;
            && (!RestartDrops(s, net) ==> Held(t) == Held(s))
            && (RestartDrops(s, net) ==> |Held(t)| < |Held(s)|)
  {
    hide SendXml, BodyGoesOut, Payloads;
    SendXmlEffect(s, net);
    if BodyGoesOut(s, net) {
      PayloadsOn(s.wire, Body(s.rid + 1, s.restart, if s.restart then "" else s.buffer));
    }
  }

  lemma CloseHolds(s: Session, net: Net)
    ensures var t := Disconnect(s, net);
            && (!CloseDrops(s, net) ==> Held(t) == Held(s))
            && (CloseDrops(s, net) ==> |Held(t)| < |Held(s)|)
  {
    hide SendRequest, Payloads;
    var request := Terminal(s.rid + 1, s.buffer);
    SendRequestEffect(s.(rid := s.rid + 1, buffer := ""), request, net);
    PayloadsOn(s.wire, request);
    assert Payloads(s.wire) + "" == Payloads(s.wire);
  }

  lemma RequestWithoutPayloadHolds(s: Session, rid: int, net: Net)
    ensures Held(SendRequest(s, Opening(rid), net).0) == Held(s)
  {
    hide SendRequest, Payloads;
    SendRequestEffect(s, Opening(rid), net);
    PayloadsOn(s.wire, Opening(rid));
    assert Payloads(s.wire) + "" == Payloads(s.wire);
  }

  lemma {:induction false} HandleTagsHolds(s: Session, tags: seq<Tag>)
    ensures Held(HandleTags(s, tags)) == Held(s)
    decreases |tags|
  {
    hide Payloads;
    if tags != [] {
      HandleTagsHolds(HandleTag(s, tags[0]), tags[1..]);
    }
  }

  lemma SendHeaderHolds(s: Session, data: string, net: Net)
    requires s.state != Disconnected && IsHeader(data)
    ensures var (t, ok) := Send(s, data, net);
            && ok
            && (!RestartDrops(s.(restart := true), net) ==> Held(t) == Held(s))
            && (RestartDrops(s.(restart := true), net) ==> |Held(t)| < |Held(s)|)
  {
    hide SendXml, Payloads, RestartDrops;
    SendXmlHolds(s.(restart := true), net);
  }

  lemma SendStanzaHolds(s: Session, data: string, net: Net)
    requires s.state != Disconnected && !IsHeader(data) && data != STREAM_END
    ensures var (t, ok) := Send(s, data, net);
            var s1 := s.(buffer := s.buffer + data);
            && ok
            && (!RestartDrops(s1, net) ==> Held(t) == Held(s) + data)
            && (RestartDrops(s1, net) ==> |Held(t)| < |Held(s)| + |data|)
  {
    hide SendXml, Payloads, RestartDrops, IsHeader;
    SendXmlHolds(s.(buffer := s.buffer + data), net);
    assert Payloads(s.wire) + (s.buffer + data) == Held(s) + data;
  }

  lemma SendStepHolds(w: World, data: string, net: Net)
    ensures var step := SendData(data, net);
            && (!Loses(w, step) ==> Deficit(Next(w, step)) == Deficit(w))
            && (!Loses(w, step) && Conserved(w) ==> Conserved(Next(w, step)))
            && (Loses(w, step) ==> Deficit(Next(w, step)) > Deficit(w))
  {
    assert !IsHeader(STREAM_END) by {
      assert STREAM_END[..2][1] == '/';
    }
    assert w.accepted + "" == w.accepted;
    if w.s.state != Disconnected && IsHeader(data) {
      SendHeaderHolds(w.s, data, net);
      hide Send, Payloads, RestartDrops, IsHeader, Held;
    } else if w.s.state != Disconnected && data != STREAM_END {
      SendStanzaHolds(w.s, data, net);
      hide Send, Payloads, RestartDrops, IsHeader, Held;
    } else {
      hide Payloads, RestartDrops, IsHeader, Held;
    }
  }

  /** A step keeps the bytes together unless it loses some, and what is lost stays lost. */
  lemma StepHolds(w: World, step: Step)
    requires Allowed(w, step)
    ensures !Loses(w, step) ==> Deficit(Next(w, step)) == Deficit(w)
    ensures !Loses(w, step) && Conserved(w) ==> Conserved(Next(w, step))
    ensures Loses(w, step) ==> Deficit(Next(w, step)) > Deficit(w)
  {
    match step
    case Open(net) =>
      GetConnectionEffect(w.s.(state := Connecting), net);
      hide GetConnection, Payloads;
    case LinkUp(rid, net) =>
      RequestWithoutPayloadHolds(w.s.(rid := rid), rid, net);
      hide SendRequest, Payloads;
    case LinkDown =>
      hide Payloads;
    case SendData(data, net) =>
      SendStepHolds(w, data, net);
      hide Next, Conserved, Deficit, Loses;
    case FinishRecv(net) =>
      SendXmlHolds(w.s, net);
      hide SendXml, Held;
    case Close(net) =>
      CloseHolds(w.s, net);
      hide Disconnect, CloseDrops, Held;
    case HeaderOnly(status, closing) =>
      hide Payloads;
    case Answer(response, tags) =>
      HandleTagsHolds(Respond(w.s, response), tags);
      hide Payloads, HandleTags;
  }

  ghost predicate NothingLost(w: World, steps: seq<Step>)
    requires AllowedRun(w, steps)
    decreases |steps|
  {
    steps == [] || (!Loses(w, steps[0]) && NothingLost(Next(w, steps[0]), steps[1..]))
  }

  lemma {:induction false} RunHolds(w: World, steps: seq<Step>)
    requires AllowedRun(w, steps)
    ensures Deficit(Run(w, steps)) >= Deficit(w)
    ensures !NothingLost(w, steps) ==> Deficit(Run(w, steps)) > Deficit(w)
    ensures NothingLost(w, steps) && Conserved(w) ==> Conserved(Run(w, steps))
    decreases |steps|
  {
    hide Next, Allowed, Loses, Deficit, Conserved;
    if steps != [] {
      StepHolds(w, steps[0]);
      RunHolds(Next(w, steps[0]), steps[1..]);
    }
  }

  /**
   * Over any run, the accepted bytes are the payloads sent, in order, followed by the
   * buffer, if and only if no restart was sent over a full buffer and no closing body failed.
   */
  lemma ConservedIffNothingLost(mode: Mode, steps: seq<Step>)
    requires AllowedRun(Start(mode), steps)
    ensures Conserved(Run(Start(mode), steps)) <==> NothingLost(Start(mode), steps)
  {
    RunHolds(Start(mode), steps);
  }

  // ----- a discipline under which nothing is lost

  /** A stream header is sent with nothing buffered, no stanza before it is out, no close with a full buffer. */
  predicate Disciplined(w: World, step: Step) {
    match step
    case SendData(data, _) => if IsHeader(data) then w.s.buffer == "" else data == STREAM_END || !w.s.restart
    case Close(_) => w.s.buffer == ""
    case _ => true
  }

  ghost predicate DisciplinedRun(w: World, steps: seq<Step>)
    requires AllowedRun(w, steps)
    decreases |steps|
  {
    steps == [] || (Disciplined(w, steps[0]) && DisciplinedRun(Next(w, steps[0]), steps[1..]))
  }

  predicate NoClash(s: Session) {
    !s.restart || s.buffer == ""
  }

  lemma {:induction false} HandleTagsNoClash(s: Session, tags: seq<Tag>)
    requires NoClash(s)
    ensures NoClash(HandleTags(s, tags))
    decreases |tags|
  {
    if tags != [] {
      HandleTagsNoClash(HandleTag(s, tags[0]), tags[1..]);
    }
  }

  lemma SendXmlNoClash(s: Session, net: Net)
    requires NoClash(s)
    ensures NoClash(SendXml(s, net).0)
  {
    hide SendXml, BodyGoesOut;
    SendXmlEffect(s, net);
  }

  lemma DisciplineAvoidsClash(w: World, step: Step)
    requires Allowed(w, step) && Disciplined(w, step) && NoClash(w.s)
    ensures !Loses(w, step) && NoClash(Next(w, step).s)
  {
    hide SendXml, SendRequest, GetConnection, HandleTags, BodyGoesOut, IsHeader, CanSend;
    match step
    case Open(net) => GetConnectionEffect(w.s.(state := Connecting), net);
    case LinkUp(rid, net) => SendRequestEffect(w.s.(rid := rid), Opening(rid), net);
    case LinkDown =>
    case SendData(data, net) =>
      if IsHeader(data) {
        SendXmlNoClash(w.s.(restart := true), net);
      } else if data != STREAM_END {
        SendXmlNoClash(w.s.(buffer := w.s.buffer + data), net);
      }
    case FinishRecv(net) => SendXmlNoClash(w.s, net);
    case Close(net) =>
      SendRequestEffect(w.s.(rid := w.s.rid + 1, buffer := ""), Terminal(w.s.rid + 1, w.s.buffer), net);
    case HeaderOnly(_, _) =>
    case Answer(response, tags) => HandleTagsNoClash(Respond(w.s, response), tags);
  }

  lemma {:induction false} DisciplineKeepsEverything(w: World, steps: seq<Step>)
    requires AllowedRun(w, steps) && NoClash(w.s) && DisciplinedRun(w, steps)
    ensures NothingLost(w, steps)
    decreases |steps|
  {
    hide Next, Allowed, Loses, NoClash, Disciplined;
    if steps != [] {
      DisciplineAvoidsClash(w, steps[0]);
      DisciplineKeepsEverything(Next(w, steps[0]), steps[1..]);
    }
  }

  // ----- restarts

  /** A pending restart stays pending until a body goes out, which carries it, or a body comes in, which forgets it. */
  lemma RestartGoesOutOrIsForgotten(w: World, step: Step)
    requires Allowed(w, step) && w.s.restart
    ensures var t := Next(w, step).s;
            t.restart <==> !(step.Answer? && step.tags != []) && !(|t.wire| > |w.s.wire| && t.wire[|t.wire| - 1].Body?)
    ensures var t := Next(w, step).s;
            |t.wire| > |w.s.wire| && t.wire[|t.wire| - 1].Body? ==> t.wire[|t.wire| - 1].restart
  {
    hide SendXml, SendRequest, GetConnection, HandleTags, BodyGoesOut, IsHeader, CanSend;
    match step
    case Open(net) => GetConnectionEffect(w.s.(state := Connecting), net);
    case LinkUp(rid, net) => SendRequestEffect(w.s.(rid := rid), Opening(rid), net);
    case LinkDown =>
    case SendData(data, net) =>
      SendXmlEffect(w.s.(restart := true), net);
      SendXmlEffect(w.s.(buffer := w.s.buffer + data), net);
    case FinishRecv(net) => SendXmlEffect(w.s, net);
    case Close(net) =>
      SendRequestEffect(w.s.(rid := w.s.rid + 1, buffer := ""), Terminal(w.s.rid + 1, w.s.buffer), net);
    case HeaderOnly(_, _) =>
    case Answer(response, tags) => HandleTagsForget(Respond(w.s, response), tags);
  }

  lemma {:induction false} HandleTagsForget(s: Session, tags: seq<Tag>)
    ensures HandleTags(s, tags).restart == (s.restart && tags == [])
    ensures HandleTags(s, tags).wire == s.wire
    decreases |tags|
  {
    if tags != [] {
      HandleTagsForget(HandleTag(s, tags[0]), tags[1..]);
    }
  }

  // ----- bytes lost although no stanza was sent with a restart pending

  const UP := Net({0}, true, false)

  function NoBody(tag: Tag): Step {
    Answer(Response("200", false, "<body/>"), [tag])
  }

  /** The session is up and one request may be open. */
  function SessionUp(): World {
    World(Session(Connected, 1000, 0, 1, false, "", Pipelining, [0], [], 1, [Opening(1000)]), "", 1)
  }

  function RunUp(): seq<Step> {
    [Open(Net({}, false, false)), LinkUp(1000, UP), NoBody(Tag(true, Some(1), false))]
  }

  /** Two stanzas, of which the second has to wait; an answer; the header of a new stream. */
  function RunDown(): seq<Step> {
    [SendData("a", UP), SendData("b", UP), NoBody(Tag(false, None, false)), SendData("<?", UP)]
  }

  lemma RunFirst(w: World, step: Step, rest: seq<Step>)
    requires Allowed(w, step)
    ensures AllowedRun(w, [step] + rest) <==> AllowedRun(Next(w, step), rest)
    ensures AllowedRun(w, [step] + rest) ==> Run(w, [step] + rest) == Run(Next(w, step), rest)
  {
    hide Allowed, Next;
    assert ([step] + rest)[1..] == rest;
  }

  lemma RunNone(w: World)
    ensures AllowedRun(w, []) && Run(w, []) == w
  {
  }

  lemma HandleOneTag(s: Session, tag: Tag)
    ensures HandleTags(s, [tag]) == HandleTag(s, tag)
  {
    assert [tag][1..] == [];
  }

  lemma SessionComesUp()
    ensures AllowedRun(Start(Pipelining), RunUp()) && Run(Start(Pipelining), RunUp()) == SessionUp()
  {
    var steps := RunUp();
    var w0 := Start(Pipelining);
    var w1 := Next(w0, steps[0]);
    var w2 := Next(w1, steps[1]);
    HandleOneTag(Respond(w2.s, Response("200", false, "<body/>")), Tag(true, Some(1), false));
    var w3 := Next(w2, steps[2]);
    assert w3 == SessionUp();
    hide Next, Allowed;
    RunFirst(w0, steps[0], [steps[1], steps[2]]);
    RunFirst(w1, steps[1], [steps[2]]);
    RunFirst(w2, steps[2], []);
    RunNone(w3);
    assert steps == [steps[0]] + [steps[1], steps[2]];
    assert [steps[1], steps[2]] == [steps[1]] + [steps[2]];
    assert [steps[2]] == [steps[2]] + [];
  }

  /** The worlds of that run. */
  function World1(): World {
    World(Session(Connected, 1001, 1, 1, false, "", Pipelining, [0], [], 1, [Opening(1000), Body(1001, false, "a")]),
        "a", 1)
  }

  function World2(): World {
    World1().(s := World1().s.(buffer := "b"), accepted := "ab")
  }

  function World3(): World {
    World2().(s := World2().s.(open := 0), answered := 2)
  }

  function World4(): World {
    World3().(s := World3().s.(rid := 1002, open := 1, buffer := "", wire := World3().s.wire + [Body(1002, true, "")]))
  }

  lemma FirstStanzaGoesOut()
    ensures Next(SessionUp(), SendData("a", UP)) == World1()
  {
    assert "" + "a" == "a";
    assert [Opening(1000)] + [Body(1001, false, "a")] == [Opening(1000), Body(1001, false, "a")];
  }

  lemma SecondStanzaWaits()
    ensures Next(World1(), SendData("b", UP)) == World2()
  {
    assert "" + "b" == "b" && "a" + "b" == "ab";
  }

  lemma FirstIsAnswered()
    ensures Allowed(World2(), NoBody(Tag(false, None, false)))
    ensures Next(World2(), NoBody(Tag(false, None, false))) == World3()
  {
    HandleOneTag(Respond(World2().s, Response("200", false, "<body/>")), Tag(false, None, false));
  }

  lemma HeaderGoesOut()
    ensures Next(World3(), SendData("<?", UP)) == World4()
  {
    assert "<?"[..2] == "<?" && "ab" + "" == "ab";
  }

  lemma NotConserved()
    ensures !Conserved(World4())
  {
    var opening, first, restart := Opening(1000), Body(1001, false, "a"), Body(1002, true, "");
    var none: seq<Request> := [];
    assert none + [opening] == [opening] && [opening] + [first] == [opening, first];
    PayloadsOn(none, opening);
    PayloadsOn([opening], first);
    PayloadsOn([opening, first], restart);
    hide Payloads;
  }

  /** The second stanza was accepted, is not buffered and was never sent. */
  lemma RestartDropsWaitingStanza()
    ensures AllowedRun(SessionUp(), RunDown())
    ensures Run(SessionUp(), RunDown()) == World4() && !Conserved(World4())
  {
    var steps := RunDown();
    FirstStanzaGoesOut();
    SecondStanzaWaits();
    FirstIsAnswered();
    HeaderGoesOut();
    NotConserved();
    hide Next, Conserved, Held, SessionUp, World1, World2, World3, World4;
    RunFirst(SessionUp(), steps[0], steps[1..]);
    RunFirst(World1(), steps[1], steps[2..]);
    RunFirst(World2(), steps[2], steps[3..]);
    RunFirst(World3(), steps[3], []);
    RunNone(World4());
    assert steps == [steps[0]] + steps[1..] && steps[1..] == [steps[1]] + steps[2..];
    assert steps[2..] == [steps[2]] + steps[3..] && steps[3..] == [steps[3]] + [];
  }
}
