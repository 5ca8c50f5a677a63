/**
 * Single calls on a BOSH connection, for any state it may be in: in which order links are
 * used, how the state, the mode and the limit move, and what becomes of the data sent.
 */
module BoshEffects {
  import opened Basics
  import opened Bosh
  import opened BoshSession
  import opened Http

  // ----- links

  predicate BelowLimit(s: Session) {
    s.open <= 0 || s.open < s.limit
  }

  /** Asking for a link `n` times without a request in between. */
  function TakeLinks(s: Session, net: Net, n: nat): Session
    decreases n
  {
    if n == 0 then s else GetConnection(TakeLinks(s, net, n - 1), net).0
  }

  function GiveLinks(s: Session, n: nat): Session
    requires n <= |s.active| || s.mode == Pipelining
    decreases n
  {
    if n == 0 || s.active == [] then s else GiveLinks(PutConnection(s), n - 1)
  }

  /** Links are taken from the front of the pool, one for each request. */
  lemma {:induction false} LinksAreTakenInTurn(s: Session, net: Net, n: nat)
    requires s.mode != Pipelining && BelowLimit(s) && n <= |s.pool|
    requires forall i :: 0 <= i < n ==> s.pool[i] in net.up
    ensures TakeLinks(s, net, n) == s.(active := s.active + s.pool[..n], pool := s.pool[n..])
    ensures n < |s.pool| && s.pool[n] in net.up ==> GetConnection(TakeLinks(s, net, n), net).1 == Some(s.pool[n])
    decreases n
  {
    if n == 0 {
      assert s.active + s.pool[..0] == s.active && s.pool[0..] == s.pool;
    } else {
      LinksAreTakenInTurn(s, net, n - 1);
      assert s.pool[..n] == s.pool[..n - 1] + [s.pool[n - 1]];
      assert s.active + s.pool[..n - 1] + [s.pool[n - 1]] == s.active + s.pool[..n];
    }
  }

  /** Answers release the links in the order in which they were taken, to the end of the pool. */
  lemma {:induction false} LinksAreGivenBackInTurn(s: Session, n: nat)
    requires s.mode != Pipelining && n <= |s.active|
    ensures GiveLinks(s, n) == s.(active := s.active[n..], pool := s.pool + s.active[..n])
    decreases n
  {
    if n == 0 {
      assert s.active[0..] == s.active && s.pool + s.active[..0] == s.pool;
    } else {
      LinksAreGivenBackInTurn(PutConnection(s), n - 1);
      assert s.active[1..][n - 1..] == s.active[n..];
      assert s.pool + [s.active[0]] + s.active[1..][..n - 1] == s.pool + s.active[..n];
    }
  }

  /** A pipelining connection stays on its first link; the others open one more when all they have are busy. */
  lemma LinkWithoutPool(s: Session, net: Net)
    requires BelowLimit(s) && s.active != []
    ensures s.mode == Pipelining ==> GetConnection(s, net) == (s, Some(s.active[0])) && PutConnection(s) == s
    ensures s.mode != Pipelining && s.pool == [] ==>
              GetConnection(s, net) == (s.(pool := [s.made], made := s.made + 1), None)
  {
    assert s.pool == [] ==> s.pool + [s.made] == [s.made];
  }

  /** Connecting tries one link: it is in use from then on if it is up, and the last in turn if not. */
  lemma OpeningTriesOneLink(s: Session, net: Net)
    requires s.state == Disconnected && BelowLimit(s) && s.pool != [] && (s.mode != Pipelining || s.active == [])
    ensures var t := Connect(s, net);
            && t.state == Connecting && t.wire == s.wire && t.rid == s.rid && t.buffer == s.buffer
            && if s.pool[0] in net.up then t.active == s.active + [s.pool[0]] && t.pool == s.pool[1..]
               else t.active == s.active && t.pool == s.pool[1..] + [s.pool[0]]
  {
  }

  lemma NoLinkAtLimit(s: Session, net: Net)
    requires !BelowLimit(s)
    ensures GetConnection(s, net) == (s, None)
  {
  }

  // ----- state, mode and limit

  /** What an incoming body changes: nothing but the restart, the state and the limit, which only falls. */
  lemma BodyTells(s: Session, tag: Tag)
    ensures var t := HandleTag(s, tag);
            && t == s.(restart := false, state := t.state, limit := t.limit)
            && t.state == (if tag.terminate then Disconnected else if tag.sid then Connected else s.state)
            && t.limit <= s.limit
            && (t.limit != s.limit ==> tag.sid && tag.requests == Some(t.limit))
            && (tag.sid && tag.requests.Some? ==> t.limit <= tag.requests.value)
  {
  }

  /** What a response changes: it closes a request, ends the session if it is an error, and may end pipelining. */
  lemma ResponseTells(s: Session, r: Response)
    requires s.active != []
    ensures var t := Respond(s, r);
            && t.open == s.open - 1
            && t.state == (if r.status == "200" then s.state else Disconnected)
            && t.mode == (if r.closing then LegacyHttp else s.mode)
            && t.wire == s.wire && t.rid == s.rid && t.buffer == s.buffer && t.restart == s.restart
            && (if t.mode == Pipelining then t.active == s.active && t.pool == s.pool
                else t.active == s.active[1..] && t.pool == s.pool + [s.active[0]])
  {
  }

  /** A complete header is acted on before its body is there; a length of nothing only ends the session on an error. */
  lemma HeaderTells(s: Session, buffer: string)
    requires ReadHead(buffer).Some?
    requires var head := ReadHead(buffer).value; head.length <= 0 || |buffer| < head.begin + head.length
    ensures var head, r := ReadHead(buffer).value, Received(s, buffer);
            && r.buffer == buffer && r.fed == []
            && r.session == s.(
                 state := if head.status == "200" then s.state else Disconnected,
                 mode := if head.length > 0 && head.closing then LegacyHttp else s.mode)
  {
    hide ReadHead;
  }

  /** How the state moves in all other steps. */
  lemma StateMoves(w: World, step: BoshSession.Step)
    requires Allowed(w, step) && !step.Answer?
    ensures Next(w, step).s.state ==
              match step
              case Open(_) => if w.s.state == Disconnected then Connecting else w.s.state
              case LinkDown => if w.s.state == Connecting then Disconnected else w.s.state
              case Close(_) =>
                if w.s.active != [] || (w.s.mode != Pipelining && w.s.pool != []) then Disconnected else w.s.state
              case HeaderOnly(status, _) => if status == "200" then w.s.state else Disconnected
              case _ => w.s.state
  {
    hide GetConnection, CanSend, Linked, BodyGoesOut, IsHeader;
    Effects(w, step);
    hide SendRequest, SendXml;
  }

  /** A connection gives up pipelining when its link is lost or an answer closes it, and takes up no mode again. */
  lemma ModeMoves(w: World, step: BoshSession.Step)
    requires Allowed(w, step) && !step.Answer?
    ensures Next(w, step).s.mode ==
              if step.LinkDown? && w.s.state != Connecting && w.s.mode == Pipelining then LegacyHttp
              else if step.HeaderOnly? && step.closing then LegacyHttp
              else w.s.mode
  {
    hide GetConnection, CanSend, Linked, BodyGoesOut, IsHeader;
    Effects(w, step);
    hide SendRequest, SendXml;
  }

  /** What requests and bodies leave alone. */
  lemma Effects(w: World, step: BoshSession.Step)
    ensures match step
            case Open(net) => SameButLinks(w.s.(state := Connecting), GetConnection(w.s.(state := Connecting), net).0)
            case LinkUp(rid, net) =>
              var t := SendRequest(w.s.(rid := rid), Opening(rid), net).0; t.state == w.s.state && t.mode == w.s.mode
            case SendData(data, net) =>
              && (var t := SendXml(w.s.(restart := true), net).0; t.state == w.s.state && t.mode == w.s.mode)
              && (var t := SendXml(w.s.(buffer := w.s.buffer + data), net).0;
                  t.state == w.s.state && t.mode == w.s.mode)
            case FinishRecv(net) => var t := SendXml(w.s, net).0; t.state == w.s.state && t.mode == w.s.mode
            case Close(net) =>
              var t := SendRequest(w.s.(rid := w.s.rid + 1, buffer := ""), Terminal(w.s.rid + 1, w.s.buffer), net).0;
              t.mode == w.s.mode
            case _ => true
  {
    hide GetConnection, SendRequest, SendXml, CanSend, Linked, BodyGoesOut;
    match step
    case Open(net) => GetConnectionEffect(w.s.(state := Connecting), net);
    case LinkUp(rid, net) => SendRequestEffect(w.s.(rid := rid), Opening(rid), net);
    case SendData(data, net) =>
      SendXmlEffect(w.s.(restart := true), net);
      SendXmlEffect(w.s.(buffer := w.s.buffer + data), net);
    case FinishRecv(net) => SendXmlEffect(w.s, net);
    case Close(net) =>
      SendRequestEffect(w.s.(rid := w.s.rid + 1, buffer := ""), Terminal(w.s.rid + 1, w.s.buffer), net);
    case _ =>
  }

  // ----- data

  /** The session request goes out under the random number, or nothing does and only the number is kept. */
  lemma OpeningTells(s: Session, rid: int, net: Net)
    requires s.state == Connecting
    ensures var t := HandleConnect(s, rid, net);
            && t.rid == rid && t.state == Connecting && t.buffer == s.buffer
            && (if t.open == s.open then t.wire == s.wire
                else t.open == s.open + 1 && t.wire == s.wire + [Opening(rid)])
  {
    hide SendRequest, CanSend, Linked;
    SendRequestEffect(s.(rid := rid), Opening(rid), net);
  }

  /** The closing body takes the buffer along under the next number, sent or not. */
  lemma ClosingTells(s: Session, net: Net)
    requires s.state != Disconnected && (s.active != [] || (s.mode != Pipelining && s.pool != []))
    ensures var t := Disconnect(s, net);
            && t.rid == s.rid + 1 && t.buffer == "" && t.state == Disconnected
            && (t.wire == s.wire + [Terminal(s.rid + 1, s.buffer)] || t.wire == s.wire)
  {
    hide SendRequest, CanSend, Linked;
    SendRequestEffect(s.(rid := s.rid + 1, buffer := ""), Terminal(s.rid + 1, s.buffer), net);
  }

  /** An XML declaration, with which a stream header begins. */
  predicate IsDeclaration(data: string) {
    |data| >= 2 && data[0] == '<' && data[1] == '?'
  }

  lemma HeaderIsDeclaration(data: string)
    ensures IsHeader(data) <==> IsDeclaration(data)
    ensures !IsDeclaration("</stream:stream>")
  {
    if |data| >= 2 {
      assert data[..2] == [data[0], data[1]];
    }
  }

  /** Data are refused without a session, and the end of the stream is swallowed. */
  lemma NothingIsSent(s: Session, data: string, net: Net)
    requires s.state == Disconnected || data == "</stream:stream>"
    ensures Send(s, data, net) == (s, s.state != Disconnected)
  {
    HeaderIsDeclaration(data);
    hide SendXml;
  }

  /** A declaration asks for a restart, which waits, or goes out in a body of its own while the buffer is cleared. */
  lemma RestartIsSent(s: Session, data: string, net: Net)
    requires s.state != Disconnected && IsDeclaration(data)
    ensures var (t, ok) := Send(s, data, net);
            && ok
            && if t.wire == s.wire then t.restart && t.buffer == s.buffer && t.rid == s.rid
               else
                 && t.wire == s.wire + [Body(s.rid + 1, true, "")]
                 && !t.restart && t.buffer == "" && t.rid == s.rid + 1
  {
    hide SendXml, BodyGoesOut, Linked, IsHeader, IsDeclaration;
    HeaderIsDeclaration(data);
    SendXmlEffect(s.(restart := true), net);
  }

  /** Anything else waits in the buffer, or goes out with what waited unless a restart takes its place. */
  lemma StanzaIsSent(s: Session, data: string, net: Net)
    requires s.state != Disconnected && !IsDeclaration(data) && data != "</stream:stream>"
    ensures var (t, ok) := Send(s, data, net);
            && ok
            && if t.wire == s.wire then t.restart == s.restart && t.buffer == s.buffer + data && t.rid == s.rid
               else
                 && t.wire == s.wire + [Body(s.rid + 1, s.restart, if s.restart then "" else s.buffer + data)]
                 && !t.restart && t.buffer == "" && t.rid == s.rid + 1
  {
    hide SendXml, BodyGoesOut, Linked, IsHeader, IsDeclaration;
    HeaderIsDeclaration(data);
    SendXmlEffect(s.(buffer := s.buffer + data), net);
  }
}
