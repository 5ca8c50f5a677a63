/**
 * Where the results on runs end: which sends, which ways of ending a stream and which calls
 * from inside `connected()` break them, each with the exact condition, and what a client can
 * still do after it has resumed once.
 */
module StreamLimits {
  import opened Basics
  import opened StreamManagement
  import opened StreamSession

  /** However a careful run goes on, both sides receive what was sent, in order and once. */
  ghost predicate StaysRight(w: World) {
    forall steps :: CarefulRun(w, steps) ==> Delivered(Run(w, steps))
  }

  ghost predicate Reaches(w: World, v: World) {
    exists steps :: CarefulRun(w, steps) && Run(w, steps) == v
  }

  lemma {:induction false} RunAppend(w: World, a: seq<Step>, b: seq<Step>)
    ensures CarefulRun(w, a + b) <==> CarefulRun(w, a) && CarefulRun(Run(w, a), b)
    ensures Run(w, a + b) == Run(Run(w, a), b)
    decreases |a|
  {
    hide Next, Careful;
    if a == [] {
      assert a + b == b;
    } else {
      assert (a + b)[0] == a[0] && (a + b)[1..] == a[1..] + b;
      RunAppend(Next(w, a[0]), a[1..], b);
    }
  }

  lemma ReachesSelf(w: World)
    ensures Reaches(w, w)
  {
    assert CarefulRun(w, []) && Run(w, []) == w;
  }

  lemma ReachesOn(w: World, v: World, u: World)
    requires Reaches(w, v) && Reaches(v, u)
    ensures Reaches(w, u)
  {
    hide Next, Careful, CarefulRun, Run;
    var a :| CarefulRun(w, a) && Run(w, a) == v;
    var b :| CarefulRun(v, b) && Run(v, b) == u;
    RunAppend(w, a, b);
  }

  lemma ReachesNext(w: World, step: Step)
    requires Careful(w, step)
    ensures Reaches(w, Next(w, step))
  {
    hide Next, Careful;
    var steps := [step];
    assert steps[1..] == [];
    assert CarefulRun(w, steps) && Run(w, steps) == Next(w, step);
  }

  lemma ReachesThen(w: World, v: World, step: Step)
    requires Reaches(w, v) && Careful(v, step)
    ensures Reaches(w, Next(v, step))
  {
    hide Next, Reaches;
    ReachesNext(v, step);
    ReachesOn(w, v, Next(v, step));
  }

  lemma InvIsRight(w: World)
    requires Inv(w)
    ensures StaysRight(w)
  {
    hide Inv, Run, CarefulRun, Delivered;
    forall steps | CarefulRun(w, steps)
      ensures Delivered(Run(w, steps))
    {
      RunKeeps(w, steps);
      InvDelivers(Run(w, steps));
    }
  }

  lemma InvDelivers(w: World)
    requires Inv(w)
    ensures Delivered(w)
  {
  }

  lemma WrongIsReached(w: World, v: World)
    requires Reaches(w, v) && !Delivered(v)
    ensures !StaysRight(w)
  {
    hide CarefulRun, Run, Delivered;
  }

  // ----- draining the channel

  lemma {:induction false} DrainUnnoticed(w: World, front: seq<Tag>, rest: seq<Tag>)
    requires !w.server.attached && w.client.wire == front + rest && Ordinary(front)
    ensures Reaches(w, w.(client := w.client.(wire := rest)))
    decreases |front|
  {
    hide Next, Reaches;
    if front == [] {
      assert front + rest == rest;
      ReachesSelf(w);
    } else {
      Unnoticed(w);
      var w1 := w.(client := w.client.(wire := front[1..] + rest));
      assert w.client.wire[1..] == front[1..] + rest;
      ReachesNext(w, ServerReceives);
      DrainUnnoticed(w1, front[1..], rest);
      ReachesOn(w, w1, w.(client := w.client.(wire := rest)));
    }
  }

  /** The server that has a session takes one stanza off the wire. */
  lemma StanzaIsReceived(w: World)
    requires w.server.attached && w.client.wire != [] && w.client.wire[0].Stanza?
    ensures Next(w, ServerReceives) == w.(client := w.client.(wire := w.client.wire[1..]),
                                          server := w.server.(received := w.server.received + [w.client.wire[0]]))
  {
    assert w.down + [] == w.down;
  }

  lemma {:induction false} DrainReceived(w: World)
    requires w.server.attached && OnlyStanzas(w.client.wire)
    ensures var server := w.server.(received := w.server.received + w.client.wire);
            Reaches(w, w.(client := w.client.(wire := []), server := server))
    decreases |w.client.wire|
  {
    hide Next, Reaches;
    var wire, r := w.client.wire, w.server.received;
    var end := w.(client := w.client.(wire := []), server := w.server.(received := r + wire));
    if wire == [] {
      assert r + wire == r;
      ReachesSelf(w);
    } else {
      StanzaIsReceived(w);
      var w1 := Next(w, ServerReceives);
      assert r + wire == r + [wire[0]] + wire[1..];
      ReachesNext(w, ServerReceives);
      DrainReceived(w1);
      ReachesOn(w, w1, end);
    }
  }

  // ----- stanzas sent while the client waits

  /** The client waits for `<resumed/>`, the server holds the first `h` stanzas and has another one coming. */
  ghost predicate OneTooMany(w: World, h: nat, tag: Tag) {
    && w.link == Negotiating && w.client.transport == Connected && w.client.context == CtxSMResume
    && w.client.wire == [tag] && tag.Stanza?
    && w.server.attached
    && w.down != [] && w.down[0] == Resumed(h, w.client.id)
    && OnlyStanzas(w.history) && h <= |w.history| && w.server.received == w.history[..h]
    && QueueBeyond(w.client.queue, w.history, h)
  }

  lemma OneTooManyGoesWrong(w: World, h: nat, tag: Tag)
    requires OneTooMany(w, h, tag)
    ensures !StaysRight(w)
  {
    hide Next, Reaches, QueueBeyond, StaysRight;
    StanzaIsReceived(w);
    var w1 := Next(w, ServerReceives);
    assert [tag][1..] == [];
    ReachesNext(w, ServerReceives);
    ResumedStep(w1, h);
    var w2 := Next(w1, ClientReceives([]));
    ReachesThen(w, w1, ClientReceives([]));
    assert w2.client.wire == w.history[h..];
    DrainReceived(w2);
    var w3 := w2.(client := w2.client.(wire := []),
                  server := w2.server.(received := w2.server.received + w.history[h..]));
    ReachesOn(w, w2, w3);
    assert |w3.server.received| == |w3.history| + 1;
    WrongIsReached(w, w3);
  }

  lemma SendWhileResumingGoesWrong(w: World, tag: Tag)
    requires Inv(w) && w.link == Negotiating && Resuming(w) && tag.Stanza?
    ensures !StaysRight(Next(w, ApplicationSends(tag)))
  {
    var h := |w.server.received|;
    QueueBeyondAck(w.client.queue, w.history, w.acked, h);
    assert w.server.received == w.history[..h];
    var w1 := Next(w, ApplicationSends(tag));
    assert w1 == w.(client := w.client.(wire := w.client.wire + [tag]));
    hide Next, Reaches, QueueBeyond, QueueIsUnacknowledged, StaysRight, Ordinary, OnlyStanzas;
    if w.client.wire == [] {
      assert w1.client.wire == [tag];
      OneTooManyGoesWrong(w1, h, tag);
    } else {
      var wire := w.client.wire;
      var front, ask := wire[..|wire| - 1], wire[|wire| - 1];
      assert wire + [tag] == front + [ask, tag];
      DrainUnnoticed(w1, front, [ask, tag]);
      var w2 := w1.(client := w1.client.(wire := [ask, tag]));
      RequestGranted(w2, tag);
      var w3 := Next(w2, ServerReceives);
      ReachesThen(w1, w2, ServerReceives);
      OneTooManyGoesWrong(w3, h, tag);
      WrongFrom(w1, w3);
    }
  }

  /** The server grants the request in front of a stanza. */
  lemma RequestGranted(w: World, tag: Tag)
    requires w.client.wire == [Resume(w.client.handled, w.client.id), tag] && w.down == []
    requires w.server.active && !w.server.attached && !w.server.expired && w.client.id == w.server.id
    requires 0 <= w.client.handled <= |w.server.history|
    ensures Next(w, ServerReceives) ==
              w.(client := w.client.(wire := [tag]), server := w.server.(attached := true),
                 down := [Resumed(|w.server.received|, w.server.id)] + w.server.history[w.client.handled..])
  {
  }

  lemma WrongFrom(w: World, v: World)
    requires Reaches(w, v) && !StaysRight(v)
    ensures !StaysRight(w)
  {
    hide CarefulRun, Run, Delivered, Reaches;
    var steps :| CarefulRun(v, steps) && !Delivered(Run(v, steps));
    assert Reaches(v, Run(v, steps)) by { RunIsReached(v, steps); }
    ReachesOn(w, v, Run(v, steps));
    WrongIsReached(w, Run(v, steps));
  }

  lemma RunIsReached(w: World, steps: seq<Step>)
    requires CarefulRun(w, steps)
    ensures Reaches(w, Run(w, steps))
  {
    hide CarefulRun, Run;
  }

  lemma SendWhileEnablingGoesWrong(w: World, tag: Tag)
    requires Inv(w) && w.link == Negotiating && Enabling(w) && tag.Stanza?
    ensures !StaysRight(Next(w, ApplicationSends(tag)))
  {
    var w1 := Next(w, ApplicationSends(tag));
    assert w1 == w.(client := w.client.(wire := w.client.wire + [tag])) && w.history == [];
    hide Reaches, QueueIsUnacknowledged, StaysRight, Ordinary, OnlyStanzas;
    if w.client.wire == [] {
      assert w1.client.wire == [tag];
      StanzaIsReceived(w1);
      ReachesNext(w1, ServerReceives);
      WrongIsReached(w1, Next(w1, ServerReceives));
    } else {
      var wire := w.client.wire;
      var front, ask := wire[..|wire| - 1], wire[|wire| - 1];
      assert wire + [tag] == front + [ask, tag];
      DrainUnnoticed(w1, front, [ask, tag]);
      var w2 := w1.(client := w1.client.(wire := [ask, tag]));
      var w3 := Next(w2, ServerReceives);
      ReachesThen(w1, w2, ServerReceives);
      assert w3.client.wire == [tag] && w3.server.attached && w3.server.received == [];
      StanzaIsReceived(w3);
      ReachesThen(w1, w3, ServerReceives);
      WrongIsReached(w1, Next(w3, ServerReceives));
    }
  }

  /**
   * A stanza sent at any time keeps the results, in all that may follow, if and only if the
   * client is not waiting for a request to be granted; it waits only on a live transport with
   * context `CtxSMEnable` or `CtxSMResume`.
   */
  lemma SendIsRightIffNotWaiting(w: World, tag: Tag)
    requires Inv(w) && tag.Stanza?
    ensures StaysRight(Next(w, ApplicationSends(tag))) <==> !Waiting(w)
    ensures Waiting(w) ==> w.client.transport == Connected && w.client.context in {CtxSMEnable, CtxSMResume}
  {
    hide Next, StaysRight, Histories, Idle;
    if !Waiting(w) {
      SendKeeps(w, tag);
      InvIsRight(Next(w, ApplicationSends(tag)));
    } else if Enabling(w) {
      SendWhileEnablingGoesWrong(w, tag);
    } else {
      SendWhileResumingGoesWrong(w, tag);
    }
  }

  /** The client answers a ping of the server between `<enable/>` and `<enabled/>`. */
  function PingWhileEnabling(pong: Tag): seq<Step> {
    [Connect, Bind, ApplicationSends(pong), ServerReceives, ServerReceives, ClientReceives([])]
  }

  lemma {:induction false} RunOne(w: World, step: Step, rest: seq<Step>)
    ensures Run(w, [step] + rest) == Run(Next(w, step), rest)
  {
    hide Next;
    assert ([step] + rest)[1..] == rest;
  }

  lemma RunNone(w: World)
    ensures Run(w, []) == w
  {
  }

  /** The world when the answer has gone out behind the request. */
  function PongSent(id: string, resume: bool, pong: Tag): World {
    var c := Client(CtxSMEnable, 0, 0, map[], true, resume, "", Connected, true, true, [Enable(resume), pong], []);
    World(c, Negotiating, Server(id, false, false, false, [], []), [], [], 0)
  }

  lemma PongGoesOut(id: string, resume: bool, pong: Tag, rest: seq<Step>)
    requires pong.Stanza?
    ensures Run(Init(id, resume), [Connect] + ([Bind] + ([ApplicationSends(pong)] + rest)))
         == Run(PongSent(id, resume, pong), rest)
  {
    var w0 := Init(id, resume);
    var w1 := Next(w0, Connect);
    var w2 := Next(w1, Bind);
    assert w2.client.wire == [Enable(resume)];
    assert Next(w2, ApplicationSends(pong)) == PongSent(id, resume, pong);
    hide Next;
    RunOne(w0, Connect, [Bind] + ([ApplicationSends(pong)] + rest));
    RunOne(w1, Bind, [ApplicationSends(pong)] + rest);
    RunOne(w2, ApplicationSends(pong), rest);
  }

  /** The server has counted the answer, the client has not, and the stream is live. */
  lemma PingAnswerIsMiscounted(id: string, resume: bool, pong: Tag)
    requires pong.Stanza?
    ensures var w := Run(Init(id, resume), PingWhileEnabling(pong));
            && w.link == Live
            && w.server.received == [pong] && w.history == []
            && w.client.sent == 0 && w.client.queue == map[]
            && !Delivered(w)
  {
    var w3 := PongSent(id, resume, pong);
    var w4 := Next(w3, ServerReceives);
    assert w4.client.wire == [pong] && w4.down == [Enabled(id, resume)];
    StanzaIsReceived(w4);
    var w5 := w4.(client := w4.client.(wire := []), server := w4.server.(received := [pong]));
    assert Next(w4, ServerReceives) == w5;
    var w6 := Next(w5, ClientReceives([]));
    assert w6.link == Live && w6.server.received == [pong];
    hide Next, PongSent;
    PongGoesOut(id, resume, pong, [ServerReceives] + ([ServerReceives] + ([ClientReceives([])] + [])));
    RunOne(w3, ServerReceives, [ServerReceives] + ([ClientReceives([])] + []));
    RunOne(w4, ServerReceives, [ClientReceives([])] + []);
    RunOne(w5, ClientReceives([]), []);
    RunNone(w6);
    JoinPing(pong);
  }

  lemma JoinPing(pong: Tag)
    ensures PingWhileEnabling(pong)
         == [Connect] + ([Bind] + ([ApplicationSends(pong)]
            + ([ServerReceives] + ([ServerReceives] + ([ClientReceives([])] + [])))))
  {
  }

  // ----- stanzas sent from inside `connected()`

  /**
   * `connected()` runs before the queue is sent again.  The server, which holds the
   * first `h` stanzas, is sent exactly what it misses if and only if nothing is sent
   * from inside `connected()`; whatever is sent there arrives early and then again.
   */
  lemma ResumeIsExactIffCallbackIsSilent(c: Client, h: nat, onConnect: seq<Tag>, history: seq<Tag>, acked: nat)
    requires c.context == CtxSMResume && c.transport == Connected && c.sent == |history|
    requires QueueIsUnacknowledged(c.queue, history, acked) && acked <= h <= |history|
    ensures var c' := HandleNormalNode(c, Resumed(h, c.id), onConnect).0;
            && c'.wire == c.wire + onConnect + (history + onConnect)[h..]
            && (c'.wire == c.wire + (history + onConnect)[h..] <==> onConnect == [])
  {
    var c1 := c.(context := CtxSMResumed);
    SendAllQueues(c1, onConnect, history, acked);
    QueueBeyondAck(SendAll(c1, onConnect).queue, history + onConnect, acked, h);
    ResentInOrder(SendAll(c1, onConnect).queue, history + onConnect, h);
    if onConnect == [] {
      assert c.wire + onConnect == c.wire;
    }
  }

  /** In a run, a resumption keeps the results, in all that may follow, if and only if the callback is silent. */
  lemma CallbackOnResumeIsRightIffSilent(w: World, onConnect: seq<Tag>)
    requires Inv(w) && w.link == Negotiating && Resuming(w) && w.client.wire == [] && OnlyStanzas(onConnect)
    ensures StaysRight(Next(w, ClientReceives(onConnect))) <==> onConnect == []
  {
    hide Reaches, StaysRight, Histories, Enabling, Idle;
    if onConnect == [] {
      ResumedKeeps(w);
      InvIsRight(Next(w, ClientReceives([])));
    } else {
      CallbackSendsTwice(w, onConnect);
      var w1 := Next(w, ClientReceives(onConnect));
      DrainReceived(w1);
      var w2 := w1.(client := w1.client.(wire := []),
                    server := w1.server.(received := w1.server.received + w1.client.wire));
      assert |w2.server.received| == |w2.history| + |onConnect|;
      WrongIsReached(w1, w2);
    }
  }

  lemma CallbackSendsTwice(w: World, onConnect: seq<Tag>)
    requires Inv(w) && w.link == Negotiating && Resuming(w) && w.client.wire == [] && OnlyStanzas(onConnect)
    ensures var w1 := Next(w, ClientReceives(onConnect));
            && w1.server == w.server && w1.server.attached && |w.server.received| <= |w.history|
            && w1.history == w.history + onConnect
            && w1.client.wire == onConnect + (w.history + onConnect)[|w.server.received|..]
            && OnlyStanzas(w1.client.wire)
  {
    var h, all := |w.server.received|, w.history + onConnect;
    ResumeIsExactIffCallbackIsSilent(w.client, h, onConnect, w.history, w.acked);
    hide QueueIsUnacknowledged, Idle, Enabling, Stanzas, HandleNormalNode;
    var sent := onConnect + all[h..];
    assert [] + onConnect == onConnect;
    assert forall i :: 0 <= i < |sent| ==>
             sent[i] == if i < |onConnect| then onConnect[i] else all[i - |onConnect| + h];
  }

  // ----- after the first resumption

  /** A session that has been resumed: unless the stream is live nothing that is under way can revive it. */
  ghost predicate Spent(w: World) {
    && Inv(w) && w.client.context == CtxSMResumed && Ordinary(w.client.wire)
    && (w.link != Live ==> w.down == [] && !w.server.attached)
  }

  lemma ResumingSpends(w: World, step: Step)
    requires Inv(w) && Careful(w, step)
    requires w.client.context != CtxSMResumed && Next(w, step).client.context == CtxSMResumed
    ensures Spent(Next(w, step))
  {
    StepKeeps(w, step);
    hide Histories, Enabling, Idle, Ordinary;
    assert step.ClientReceives?;
  }

  lemma SpentIsNotWaiting(w: World, step: Step)
    requires Spent(w)
    ensures Careful(w, step)
  {
  }

  lemma SpentStays(w: World, step: Step)
    requires Spent(w)
    ensures Spent(Next(w, step))
    ensures w.link != Live ==> Next(w, step).link != Live
  {
    SpentIsNotWaiting(w, step);
    StepKeeps(w, step);
    if w.link == Live {
      SpentWhileLive(w, step);
    } else {
      SpentOffline(w, step);
    }
  }

  lemma SpentWhileLive(w: World, step: Step)
    requires Spent(w) && w.link == Live && Inv(Next(w, step))
    ensures Spent(Next(w, step))
  {
    hide Histories, Enabling, Resuming, Idle, Ordinary, Stanzas, AcksWithin;
    if step.ClientReceives? && w.down != [] {
      LiveTag(w);
    } else if step.Drop? {
      OrdinaryNothing();
    }
  }

  /** What a live client may find on its way up. */
  lemma LiveTag(w: World)
    requires Inv(w) && w.link == Live && w.down != []
    ensures IsOrdinary(w.down[0])
  {
  }

  lemma SpentOffline(w: World, step: Step)
    requires Spent(w) && w.link != Live && Inv(Next(w, step))
    ensures Spent(Next(w, step)) && Next(w, step).link != Live
  {
    hide Histories, Enabling, Resuming, Idle, Ordinary, Calm, Inv;
    var wire := w.client.wire;
    match step {
      case ApplicationSends(tag) =>
        if tag.Stanza? { OrdinaryWrites(wire, tag); }
      case ApplicationAsks => OrdinaryWrites(wire, Request);
      case ServerReceives =>
        if wire != [] {
          OrdinaryRest(wire);
          Unnoticed(w);
        }
      case _ => OrdinaryNothing();
    }
  }

  lemma OrdinaryRest(tags: seq<Tag>)
    requires Ordinary(tags) && tags != []
    ensures IsOrdinary(tags[0]) && Ordinary(tags[1..])
  {
  }

  lemma OrdinaryNothing()
    ensures Ordinary([])
  {
  }

  /** In every careful run, a resumed client is spent. */
  lemma {:induction false} ResumedIsSpent(w: World, steps: seq<Step>)
    requires Inv(w) && CarefulRun(w, steps) && (w.client.context == CtxSMResumed ==> Spent(w))
    ensures Run(w, steps).client.context == CtxSMResumed ==> Spent(Run(w, steps))
    decreases |steps|
  {
    hide Inv, Careful, Next, Spent;
    if steps != [] {
      var w1 := Next(w, steps[0]);
      StepKeeps(w, steps[0]);
      if w.client.context == CtxSMResumed {
        SpentStays(w, steps[0]);
      } else if w1.client.context == CtxSMResumed {
        ResumingSpends(w, steps[0]);
      }
      ResumedIsSpent(w1, steps[1..]);
    }
  }

  lemma {:induction false} SpentForGood(w: World, steps: seq<Step>)
    requires Spent(w)
    ensures Spent(Run(w, steps)) && (w.link != Live ==> Run(w, steps).link != Live)
    decreases |steps|
  {
    hide Next, Spent;
    if steps != [] {
      SpentStays(w, steps[0]);
      SpentForGood(Next(w, steps[0]), steps[1..]);
    }
  }

  /**
   * Once a client has resumed, it stays resumed whatever happens, never has another request
   * to enable or resume on the wire, and after the next drop is never live again.
   */
  lemma ResumesOnlyOnce(id: string, resume: bool, steps: seq<Step>, more: seq<Step>)
    requires CarefulRun(Init(id, resume), steps)
    requires Run(Init(id, resume), steps).client.context == CtxSMResumed
    ensures var w := Run(Init(id, resume), steps);
            var v := Run(w, more);
            && v.client.context == CtxSMResumed
            && (forall i :: 0 <= i < |v.client.wire| ==> !v.client.wire[i].Enable? && !v.client.wire[i].Resume?)
            && (w.link != Live ==> v.link != Live)
  {
    InitKeeps(id, resume);
    ResumedIsSpent(Init(id, resume), steps);
    var w := Run(Init(id, resume), steps);
    SpentForGood(w, more);
    SpentWritesNoRequest(Run(w, more));
    hide Run, CarefulRun, Inv;
  }

  lemma SpentWritesNoRequest(w: World)
    requires Spent(w)
    ensures w.client.context == CtxSMResumed
    ensures forall i :: 0 <= i < |w.client.wire| ==> !w.client.wire[i].Enable? && !w.client.wire[i].Resume?
  {
    forall i | 0 <= i < |w.client.wire|
      ensures !w.client.wire[i].Enable? && !w.client.wire[i].Resume?
    {
      assert IsOrdinary(w.client.wire[i]);
    }
  }
}
