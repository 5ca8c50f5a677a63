/**
 * Ending a stream without ending the bookkeeping: `disconnect()` and the next managed
 * session, `disconnect(reason)` and the resumption that follows.  Both restart the count of
 * sent stanzas and keep the queue; here is when that does no harm, and what it loses.
 */
module StreamEndings {
  import opened Basics
  import opened StreamManagement
  import opened StreamSession
  import opened StreamLimits

  // ----- the next session after `disconnect()`

  /** The application has asked for stream management again, and the server has a new session to offer. */
  function NextSession(c: Client, id: string, resume: bool): World {
    World(SetStreamManagement(UserDisconnect(c), true, resume).(notified := []), Down,
          Server(id, false, false, false, [], []), [], [], 0)
  }

  /** A client about to open a managed session. */
  ghost predicate Beginning(w: World) {
    && w.link == Down && w.down == [] && w.history == []
    && w.client.context == CtxSMInvalid && w.client.handled == 0 && w.client.wanted && w.client.wire == []
    && w.server == Server(w.server.id, false, false, false, [], [])
  }

  /** The same world with the session enabled. */
  function Enabled1(w: World): World {
    var c := w.client.(context := CtxSMEnabled, id := w.server.id, resumable := w.client.resumable && w.server.id != "",
                       transport := Connected, authed := true, bound := true);
    w.(client := c, link := Live, server := w.server.(active := true, attached := true))
  }

  lemma GoesLive(w: World)
    requires Beginning(w)
    ensures Reaches(w, Enabled1(w))
  {
    hide Reaches, HighestAck;
    var w1 := Next(w, Connect);
    ReachesNext(w, Connect);
    var w2 := Next(w1, Bind);
    ReachesThen(w, w1, Bind);
    assert w2.client.wire == [Enable(w.client.resumable)];
    var w3 := Next(w2, ServerReceives);
    ReachesThen(w, w2, ServerReceives);
    assert w3.client.wire == [] && w3.down == [Enabled(w.server.id, w.client.resumable)];
    ReachesThen(w, w3, ClientReceives([]));
    EnabledTaken(w3);
    assert Next(w3, ClientReceives([])) == Enabled1(w);
  }

  lemma EnabledTaken(w: World)
    requires w.link == Negotiating && w.down != [] && w.down[0].Enabled?
    ensures var tag := w.down[0];
            Next(w, ClientReceives([])) ==
              w.(client := w.client.(context := CtxSMEnabled, id := tag.id, resumable := tag.resume && tag.id != ""),
                 link := Live, down := w.down[1..])
  {
  }

  /** A client without a transport that will ask to resume, and a server that will grant it. */
  ghost predicate Resumable(w: World) {
    && w.link == Down && w.down == [] && w.client.wire == []
    && w.client.context == CtxSMEnabled && w.client.wanted && w.client.id == w.server.id
    && w.server.active && !w.server.attached && !w.server.expired
    && 0 <= w.client.handled <= |w.server.history|
  }

  /** The same world with the session resumed and the queue sent again. */
  ghost function Resumed1(w: World): World
    requires 0 <= w.client.handled <= |w.server.history|
  {
    var h := |w.server.received|;
    var c := w.client.(context := CtxSMResumed, transport := Connected, authed := true,
                       queue := DropUpTo(w.client.queue, h), wire := InOrder(w.client.queue, Some(h)));
    w.(client := c, link := Live, server := w.server.(attached := true),
       down := w.server.history[w.client.handled..], acked := if h > w.acked then h else w.acked)
  }

  lemma ResumesFromDown(w: World)
    requires Resumable(w)
    ensures Reaches(w, Resumed1(w))
  {
    hide Reaches, InOrder, DropUpTo;
    var w1 := Next(w, Connect);
    ReachesNext(w, Connect);
    var w2 := Next(w1, OfferFeatures);
    ReachesThen(w, w1, OfferFeatures);
    assert w2.client.wire == [Resume(w.client.handled, w.client.id)];
    var w3 := Next(w2, ServerReceives);
    ReachesThen(w, w2, ServerReceives);
    var rest := w.server.history[w.client.handled..];
    assert w3.client.wire == [] && w3.down == [Resumed(|w.server.received|, w.server.id)] + rest;
    ReachesThen(w, w3, ClientReceives([]));
    ResumedTaken(w3);
    assert w3.down[1..] == rest;
    assert [] + InOrder(w.client.queue, Some(|w.server.received|))
        == InOrder(w.client.queue, Some(|w.server.received|));
  }

  lemma ResumedTaken(w: World)
    requires w.link == Negotiating && w.client.transport == Connected && w.client.context == CtxSMResume
    requires w.down != [] && w.down[0].Resumed? && w.down[0].previd == w.client.id && w.down[0].h >= 0
    ensures var h := w.down[0].h;
            Next(w, ClientReceives([])) ==
              w.(client := w.client.(context := CtxSMResumed, queue := DropUpTo(w.client.queue, h),
                                     wire := w.client.wire + InOrder(w.client.queue, Some(h))),
                 link := Live, down := w.down[1..], acked := if h > w.acked then h else w.acked)
  {
    hide InOrder, DropUpTo;
  }

  /** If something is sent again although the server has everything, it has too much. */
  lemma ResendsTooMuch(w: World)
    requires Resumable(w) && w.server.received == w.history
    requires var resent := InOrder(w.client.queue, Some(|w.server.received|)); resent != [] && resent[0].Stanza?
    ensures !StaysRight(w)
  {
    hide Reaches, InOrder, DropUpTo, StaysRight, Next;
    ResumesFromDown(w);
    var w1 := Resumed1(w);
    StanzaIsReceived(w1);
    ReachesThen(w, w1, ServerReceives);
    assert |Next(w1, ServerReceives).server.received| == |w.history| + 1;
    WrongIsReached(w, Next(w1, ServerReceives));
  }

  lemma FirstInOrder(q: SendQueue, h: int, k: int)
    requires k in q && k > h && forall j :: j in q ==> q[j].Stanza?
    ensures InOrder(q, Some(h)) != [] && InOrder(q, Some(h))[0].Stanza?
  {
  }

  /** Once enabled, the transport goes and the queue holds stanzas of an earlier session. */
  lemma StaleQueueGoesWrong(w: World, k: int)
    requires Beginning(w) && k in w.client.queue && k > 0
    requires forall j :: j in w.client.queue ==> w.client.queue[j].Stanza?
    ensures !StaysRight(w)
  {
    hide Reaches, InOrder, StaysRight;
    GoesLive(w);
    var w1 := Enabled1(w);
    var w2 := Next(w1, Drop);
    ReachesThen(w, w1, Drop);
    FirstInOrder(w2.client.queue, 0, k);
    ResendsTooMuch(w2);
    WrongFrom(w, w2);
  }

  /** Once enabled, a stanza gets a number that the server's count does not reach. */
  lemma StaleCountGoesWrong(w: World)
    requires Beginning(w) && w.client.queue == map[] && w.client.sent > 0
    ensures !StaysRight(w)
  {
    hide Reaches, InOrder, StaysRight;
    var tag, n := Stanza(""), w.client.sent + 1;
    GoesLive(w);
    var w1 := Enabled1(w);
    assert !Waiting(w1);
    var w2 := Next(w1, ApplicationSends(tag));
    ReachesNext(w1, ApplicationSends(tag));
    ReachesOn(w, w1, w2);
    assert w2.client.wire == [tag] && w2.history == [tag] && w2.client.queue == map[n := tag];
    StanzaIsReceived(w2);
    var w3 := Next(w2, ServerReceives);
    ReachesThen(w, w2, ServerReceives);
    assert w3.server.received == [tag] == w3.history;
    var w4 := Next(w3, Drop);
    ReachesThen(w, w3, Drop);
    FirstInOrder(w4.client.queue, 1, n);
    ResendsTooMuch(w4);
    WrongFrom(w, w4);
  }

  /**
   * After `disconnect()`, the next managed session delivers in order and once, however it
   * goes, if and only if the queue was empty and the count of sent stanzas was 0 or there
   * was a transport, so that the count started again.
   */
  lemma NextSessionIsRightIff(c: Client, id: string, resume: bool)
    requires c.sent >= 0 && (c.transport == Unconnected ==> c.wire == [])
    requires forall k :: k in c.queue ==> k > 0 && c.queue[k].Stanza?
    ensures StaysRight(NextSession(c, id, resume)) <==> c.queue == map[] && (c.sent == 0 || c.transport != Unconnected)
  {
    var w := NextSession(c, id, resume);
    assert Beginning(w) && w.client.queue == c.queue;
    assert w.client.sent == if c.transport == Unconnected then c.sent else 0;
    hide StaysRight, NextSession;
    if c.queue != map[] {
      assert c.queue.Keys != {};
      LeastExists(c.queue.Keys);
      var k :| IsLeast(k, c.queue.Keys);
      StaleQueueGoesWrong(w, k);
    } else if w.client.sent > 0 {
      StaleCountGoesWrong(w);
    } else {
      BeginningKeeps(w);
      InvIsRight(w);
    }
  }

  lemma BeginningKeeps(w: World)
    requires Beginning(w) && w.client.queue == map[] && w.client.sent == 0 && w.acked == 0
    requires w.client.notified == [] && w.client.transport == Unconnected && !w.client.authed
    ensures Inv(w)
  {
  }

  /** An application that sends `old`, disconnects and opens another session before the server has acknowledged it. */
  function SendAndLeave(old1: Tag): seq<Step> {
    [Connect, Bind, ServerReceives, ClientReceives([]), ApplicationSends(old1)]
  }

  /** The world when the stanza has gone out. */
  function OneSent(id: string, resume: bool, old1: Tag): World {
    var c := Client(CtxSMEnabled, 1, 0, map[1 := old1],
                    true, resume && id != "", id, Connected, true, true, [old1], []);
    World(c, Live, Server(id, true, true, false, [], []), [], [old1], 0)
  }

  lemma EnabledFirst(id: string, resume: bool, rest: seq<Step>)
    ensures var w := Enabled1(Init(id, resume));
            Run(Init(id, resume), [Connect] + ([Bind] + ([ServerReceives] + ([ClientReceives([])] + rest))))
              == Run(w, rest)
  {
    var w0 := Init(id, resume);
    var w1 := Next(w0, Connect);
    var w2 := Next(w1, Bind);
    assert w2.client.wire == [Enable(resume)];
    var w3 := Next(w2, ServerReceives);
    assert w3.client.wire == [] && w3.down == [Enabled(id, resume)];
    EnabledTaken(w3);
    assert Next(w3, ClientReceives([])) == Enabled1(w0);
    hide Next;
    RunOne(w0, Connect, [Bind] + ([ServerReceives] + ([ClientReceives([])] + rest)));
    RunOne(w1, Bind, [ServerReceives] + ([ClientReceives([])] + rest));
    RunOne(w2, ServerReceives, [ClientReceives([])] + rest);
    RunOne(w3, ClientReceives([]), rest);
  }

  lemma LeavesOneBehind(id: string, resume: bool, old1: Tag)
    requires old1.Stanza?
    ensures Run(Init(id, resume), SendAndLeave(old1)) == OneSent(id, resume, old1)
  {
    var w := Enabled1(Init(id, resume));
    assert Next(w, ApplicationSends(old1)) == OneSent(id, resume, old1);
    hide Next, OneSent;
    EnabledFirst(id, resume, [ApplicationSends(old1)] + []);
    RunOne(w, ApplicationSends(old1), []);
    RunNone(OneSent(id, resume, old1));
    assert SendAndLeave(old1)
        == [Connect] + ([Bind] + ([ServerReceives] + ([ClientReceives([])] + ([ApplicationSends(old1)] + []))));
  }

  /** Such a run, and the session after it, which does not deliver what it should in all that may follow. */
  lemma DisconnectStrandsNextSession(id: string, resume: bool, old1: Tag)
    requires old1.Stanza?
    ensures var w := Run(Init(id, resume), SendAndLeave(old1));
            !StaysRight(NextSession(w.client, id, resume))
  {
    LeavesOneBehind(id, resume, old1);
    var w := Run(Init(id, resume), SendAndLeave(old1));
    hide Run, StaysRight, NextSession;
    NextSessionIsRightIff(w.client, id, resume);
    assert 1 in w.client.queue;
  }

  // ----- resuming after `disconnect(reason)`

  /** The client has a transport again and has been offered stream management. */
  function Reconnected(c: Client): Client {
    HandleTag(c.(transport := Connected, authed := true), Features(true), [])
  }

  lemma {:induction false} SendAllWhileDown(c: Client, tags: seq<Tag>)
    requires AtLeastEnabled(c.context) && c.transport != Connected
    ensures var c' := SendAll(c, tags);
            && c' == c.(sent := c.sent + |tags|, queue := c'.queue)
            && (forall k :: k in c'.queue <==> k in c.queue || c.sent < k <= c.sent + |tags|)
            && forall k :: k in c'.queue ==> c'.queue[k] == if k in c.queue then c.queue[k] else tags[k - c.sent - 1]
    decreases |tags|
  {
    if tags != [] {
      var c1 := c.(sent := c.sent + 1, queue := Insert(c.queue, c.sent + 1, tags[0]));
      assert SendTag(c, tags[0], true) == c1;
      SendAllWhileDown(c1, tags[1..]);
      hide SendTag, SendString;
      var q := SendAll(c1, tags[1..]).queue;
      forall k | k in q ensures q[k] == if k in c.queue then c.queue[k] else tags[k - c.sent - 1] {
        assert k !in c1.queue ==> tags[1..][k - c1.sent - 1] == tags[k - c.sent - 1];
      }
    }
  }

  /** How many of `n` stanzas sent since the numbers started again are lost when `m` were sent before. */
  function Lost(n: nat, m: nat): (lost: nat)
    ensures lost <= n && lost <= m
  {
    if n < m then n else m
  }

  /**
   * Above `h`, the old queue with the new stanzas put into free places continues the old stanzas with those
   * not lost.
   */
  lemma MergedQueue(q: SendQueue, q1: SendQueue, history: seq<Tag>, acked: nat, h: nat, tags: seq<Tag>)
    requires QueueIsUnacknowledged(q, history, acked) && acked <= h <= |history|
    requires forall k :: k in q1 <==> k in q || 0 < k <= |tags|
    requires forall k :: k in q1 ==> q1[k] == if k in q then q[k] else tags[k - 1]
    ensures QueueBeyond(q1, history + tags[Lost(|tags|, |history|)..], h)
  {
    var kept := tags[Lost(|tags|, |history|)..];
    var all := history + kept;
    forall k | k > h
      ensures k in q1 <==> k <= |all|
      ensures k in q1 ==> q1[k] == all[k - 1]
    {
      if k <= |history| {
        assert k in q && q[k] == history[k - 1] == all[k - 1];
      } else if k <= |tags| {
        assert k !in q && all[k - 1] == kept[k - 1 - |history|] == tags[k - 1];
      }
    }
  }

  lemma QueueAfterDisconnect(c: Client, history: seq<Tag>, acked: nat, h: nat, tags: seq<Tag>)
    requires AtLeastEnabled(c.context) && c.transport != Unconnected
    requires QueueIsUnacknowledged(c.queue, history, acked) && acked <= h <= |history|
    ensures var c1 := SendAll(DisconnectReason(c), tags);
            && QueueBeyond(c1.queue, history + tags[Lost(|tags|, |history|)..], h)
            && c1 == c.(transport := Unconnected, authed := false, bound := false, wire := [],
                        sent := |tags|, queue := c1.queue)
  {
    SendAllWhileDown(DisconnectReason(c), tags);
    var q1 := SendAll(DisconnectReason(c), tags).queue;
    hide QueueIsUnacknowledged, QueueBeyond, SendAll;
    MergedQueue(c.queue, q1, history, acked, h, tags);
  }

  /** Being offered stream management again, and being granted the resumption. */
  lemma ResumptionSteps(c: Client, h: nat)
    requires c.context == CtxSMEnabled && c.wanted && c.wire == []
    ensures var c1 := Reconnected(c);
            && c1 == c.(transport := Connected, authed := true, context := CtxSMResume,
                        wire := [Resume(c.handled, c.id)])
            && HandleTag(c1, Resumed(h, c.id), [])
            == c1.(context := CtxSMResumed, queue := DropUpTo(c.queue, h), wire := c1.wire + InOrder(c.queue, Some(h)))
  {
    hide InOrder, DropUpTo;
    assert [] + [Resume(c.handled, c.id)] == [Resume(c.handled, c.id)];
  }

  lemma KeptParts(first: seq<Tag>, history: seq<Tag>, h: nat, tags: seq<Tag>)
    requires h <= |history|
    ensures var lost := Lost(|tags|, |history|);
            var all := history + tags[lost..];
            && first + all[h..] == first + history[h..] + tags[lost..]
            && (first + history[h..] + tags[lost..] == first + history[h..] + tags <==> tags == [] || history == [])
  {
    var lost := Lost(|tags|, |history|);
    var all := history + tags[lost..];
    assert all[h..] == history[h..] + tags[lost..];
    if lost == 0 {
      assert tags[lost..] == tags;
    } else {
      assert |first + history[h..] + tags[lost..]| != |first + history[h..] + tags|;
    }
  }

  /**
   * After `disconnect(reason)` the context is kept and the numbers start again.  Of the
   * stanzas sent until the stream is resumed, as many are lost as had been sent before: their
   * numbers are taken or acknowledged already.  Nothing is lost if and only if nothing was
   * sent since or nothing before; the numbers are in step again if and only if at least as
   * many were sent since as before.
   */
  lemma ResumptionAfterDisconnect(c: Client, history: seq<Tag>, acked: nat, h: nat, tags: seq<Tag>)
    requires c.context == CtxSMEnabled && c.wanted && c.transport != Unconnected
    requires QueueIsUnacknowledged(c.queue, history, acked) && acked <= h <= |history|
    ensures var c1 := Reconnected(SendAll(DisconnectReason(c), tags));
            var c2 := HandleTag(c1, Resumed(h, c.id), []);
            var kept := tags[Lost(|tags|, |history|)..];
            && c1.wire == [Resume(c.handled, c.id)]
            && c2.wire == c1.wire + history[h..] + kept
            && (c2.wire == c1.wire + history[h..] + tags <==> tags == [] || history == [])
            && (c2.sent == |history + kept| <==> |tags| >= |history|)
            && (forall k :: k in c2.queue <==> h < k <= |history + kept|)
  {
    var all := history + tags[Lost(|tags|, |history|)..];
    var c0 := SendAll(DisconnectReason(c), tags);
    QueueAfterDisconnect(c, history, acked, h, tags);
    ResumptionSteps(c0, h);
    ResentInOrder(c0.queue, all, h);
    KeptParts([Resume(c.handled, c.id)], history, h, tags);
    BeyondIsAll(c0.queue, all, h);
    hide QueueIsUnacknowledged, QueueBeyond, SendAll, DisconnectReason, InOrder, DropUpTo, HandleTag, Reconnected;
  }

  lemma BeyondIsAll(q: SendQueue, history: seq<Tag>, h: nat)
    requires QueueBeyond(q, history, h)
    ensures forall k :: k in DropUpTo(q, h) <==> h < k <= |history|
  {
  }

  /**
   * A stanza sent behind five acknowledged ones, once the server has closed the stream: it is neither resent
   * nor kept.
   */
  lemma StanzaLostAfterStreamClosed(id: string, tag: Tag, history: seq<Tag>)
    requires |history| == 5
    ensures var c := Client(CtxSMEnabled, 5, 0, map[], true, true, id, Connected, true, true, [], []);
            var c0 := SendTag(DisconnectReason(c), tag, true);
            var c2 := HandleTag(Reconnected(c0), Resumed(5, id), []);
            c0.queue == map[1 := tag] && c2.queue == map[] && c2.wire == [Resume(0, id)]
  {
    var c := Client(CtxSMEnabled, 5, 0, map[], true, true, id, Connected, true, true, [], []);
    var c0 := SendTag(DisconnectReason(c), tag, true);
    assert c0.queue == map[1 := tag];
    assert SendAll(DisconnectReason(c), [tag]) == SendAll(c0, []) == c0;
    ResumptionAfterDisconnect(c, history, 5, 5, [tag]);
    var c2 := HandleTag(Reconnected(c0), Resumed(5, id), []);
    assert [tag][1..] == [];
    assert forall k :: k !in c2.queue;
    assert [Resume(0, id)] + history[5..] + [] == [Resume(0, id)];
  }

  /**
   * A stanza is resent by the next `<resumed/>` under its number if and only if the number is above `h` and
   * was free or held it.
   */
  lemma ResentIffNumberIsFree(c: Client, tag: Tag, h: nat)
    requires AtLeastEnabled(c.context)
    ensures var n, q := c.sent + 1, DropUpTo(SendTag(c, tag, true).queue, h);
            (n in q && q[n] == tag) <==> n > h && (n in c.queue ==> c.queue[n] == tag)
  {
  }

  /** The world after `disconnect(reason)`. */
  function StreamClosed(w: World): World {
    w.(client := DisconnectReason(w.client), link := Down, server := w.server.(attached := false), down := [])
  }

  lemma ClosedWhileDown(w: World)
    requires Inv(w) && w.link == Down
    ensures StaysRight(StreamClosed(w))
  {
    hide StaysRight, QueueIsUnacknowledged, OnlyStanzas;
    InvIsRight(StreamClosed(w));
  }

  lemma ClosedBeforeAnySend(w: World)
    requires Inv(w) && w.history == []
    ensures StaysRight(StreamClosed(w))
  {
    hide StaysRight, QueueIsUnacknowledged, OnlyStanzas;
    InvIsRight(StreamClosed(w));
  }

  /** The server has no session on this stream and none can come about. */
  ghost predicate Stuck(w: World) {
    && Idle(w) && Delivered(w)
    && w.client.context != CtxSMInvalid
    && (w.client.context == CtxSMEnabled ==> w.server.expired)
  }

  lemma StuckSends(w: World, tag: Tag)
    requires Stuck(w) && tag.Stanza?
    ensures Stuck(Next(w, ApplicationSends(tag)))
  {
    IdleWrites(w, tag);
    hide Idle;
  }

  lemma StuckServer(w: World)
    requires Stuck(w)
    ensures Stuck(Next(w, ServerReceives))
  {
    if w.client.wire != [] && IsOrdinary(w.client.wire[0]) {
      Unnoticed(w);
    }
  }

  lemma StuckStays(w: World, step: Step)
    requires Stuck(w)
    ensures Stuck(Next(w, step))
  {
    match step {
      case ApplicationSends(tag) =>
        if tag.Stanza? { StuckSends(w, tag); }
      case ApplicationAsks => IdleWrites(w, Request);
      case ServerReceives => StuckServer(w);
      case _ => hide IsOrdinary;
    }
  }

  lemma {:induction false} StuckIsRight(w: World, steps: seq<Step>)
    requires Stuck(w)
    ensures Delivered(Run(w, steps))
    decreases |steps|
  {
    if steps != [] {
      StuckStays(w, steps[0]);
      hide Next, Stuck;
      StuckIsRight(Next(w, steps[0]), steps[1..]);
    }
  }

  lemma NeverAttachedAgain(w: World)
    requires Inv(w) && w.history != [] && (w.client.context != CtxSMEnabled || w.server.expired)
    ensures StaysRight(StreamClosed(w))
  {
    var w1 := StreamClosed(w);
    assert Stuck(w1);
    hide Stuck, StreamClosed, Run, CarefulRun, Delivered;
    forall steps | CarefulRun(w1, steps)
      ensures Delivered(Run(w1, steps))
    {
      StuckIsRight(w1, steps);
    }
  }

  /** The first number is taken or acknowledged, so a stanza sent under it is not resent. */
  lemma FirstNumberIsUsed(q: SendQueue, history: seq<Tag>, acked: nat, h: nat, tag: Tag)
    requires QueueIsUnacknowledged(q, history, acked) && acked <= h <= |history| && history != []
    ensures QueueBeyond(Insert(q, 1, tag), history, h)
  {
  }

  lemma SentAfterClosing(w: World, tag: Tag)
    requires Inv(w) && w.link != Down && w.history != [] && tag.Stanza?
    requires w.client.context == CtxSMEnabled && !w.server.expired
    ensures var w1, h := Next(StreamClosed(w), ApplicationSends(tag)), |w.server.received|;
            && Resumable(w1) && w1.history == w.history + [tag] && w1.server.received == w.server.received
            && h <= |w.history| && QueueBeyond(w1.client.queue, w.history, h)
            && OnlyStanzas(w.history[h..]) && w.server.received + w.history[h..] == w.history
  {
    hide QueueBeyond, Insert;
    var h := |w.server.received|;
    var w1 := Next(StreamClosed(w), ApplicationSends(tag));
    FirstNumberIsUsed(w.client.queue, w.history, w.acked, h, tag);
    assert w1.client.queue == Insert(w.client.queue, 1, tag);
    hide QueueIsUnacknowledged;
    assert OnlyStanzas(w.history[h..]);
  }

  /** The stream is closed by the server and a stanza is sent: once resumed, the server holds all but this stanza. */
  lemma ResumedWithoutOne(w: World, tag: Tag)
    requires Inv(w) && w.link != Down && w.history != [] && tag.Stanza?
    requires w.client.context == CtxSMEnabled && !w.server.expired
    ensures var w1 := Next(StreamClosed(w), ApplicationSends(tag));
            exists v ::
              && Reaches(w1, v) && v.link == Live
              && v.client.context == CtxSMResumed && v.client.transport == Connected && v.client.wire == []
              && v.server.attached && v.server.received == w.history && v.history == w.history + [tag]
  {
    hide Reaches, QueueBeyond, QueueIsUnacknowledged, OnlyStanzas, Inv, Next, StreamClosed, InOrder, Insert, DropUpTo;
    var h := |w.server.received|;
    var w1 := Next(StreamClosed(w), ApplicationSends(tag));
    SentAfterClosing(w, tag);
    ResentInOrder(w1.client.queue, w.history, h);
    ResumesFromDown(w1);
    var w2 := Resumed1(w1);
    DrainReceived(w2);
    var w3 := w2.(client := w2.client.(wire := []),
                  server := w2.server.(received := w2.server.received + w2.client.wire));
    ReachesOn(w1, w2, w3);
  }

  lemma ClosedAfterSends(w: World)
    requires Inv(w) && w.link != Down && w.history != [] && w.client.context == CtxSMEnabled && !w.server.expired
    ensures !StaysRight(StreamClosed(w))
  {
    var a, b := Stanza("a"), Stanza("b");
    var w0 := StreamClosed(w);
    assert !Waiting(w0);
    var w1 := Next(w0, ApplicationSends(a));
    ResumedWithoutOne(w, a);
    hide Reaches, StaysRight, Inv, StreamClosed;
    ReachesNext(w0, ApplicationSends(a));
    var v :| Reaches(w1, v) && v.link == Live && v.client.context == CtxSMResumed && v.client.transport == Connected
             && v.client.wire == [] && v.server.attached && v.server.received == w.history
               && v.history == w.history + [a];
    SentAfterGap(v, w.history, a, b);
    WrongFrom(w1, v);
    WrongFrom(w0, w1);
  }

  /** The next stanza arrives where the lost one should be. */
  lemma SentAfterGap(v: World, history: seq<Tag>, a: Tag, b: Tag)
    requires v.link == Live && v.client.context == CtxSMResumed && v.client.transport == Connected
    requires v.client.wire == [] && v.server.attached && v.server.received == history && v.history == history + [a]
    requires a != b && b.Stanza?
    ensures !StaysRight(v)
  {
    hide Reaches, StaysRight;
    assert !Waiting(v);
    var v1 := Next(v, ApplicationSends(b));
    ReachesNext(v, ApplicationSends(b));
    assert v1.client.wire == [b] && v1.history == history + [a] + [b];
    StanzaIsReceived(v1);
    var v2 := Next(v1, ServerReceives);
    ReachesThen(v, v1, ServerReceives);
    assert v2.server.received == history + [b];
    assert v2.server.received[|history|] == b && v2.history[|history|] == a;
    WrongIsReached(v, v2);
  }

  /**
   * The results on runs go on to hold after `disconnect(reason)` if and only if there was no
   * transport, nothing had been sent in the session, or the session cannot be resumed.
   */
  lemma StreamClosedIsRightIff(w: World)
    requires Inv(w)
    ensures StaysRight(StreamClosed(w)) <==>
            w.link == Down || w.history == [] || w.client.context != CtxSMEnabled || w.server.expired
  {
    hide StaysRight;
    if w.link == Down {
      ClosedWhileDown(w);
    } else if w.history == [] {
      ClosedBeforeAnySend(w);
    } else if w.client.context != CtxSMEnabled || w.server.expired {
      NeverAttachedAgain(w);
    } else {
      ClosedAfterSends(w);
    }
  }
}
