/**
 * Runs of a client, a server that follows sections 4 and 5 of XEP-0198, and a
 * FIFO channel each way that loses its contents when the transport drops.
 */
module StreamSession {
  import opened Basics
  import opened StreamManagement

  /** `received` and `history` are the stanzas of the managed session, each way in order. */
  datatype Server = Server(
    id: string, active: bool, attached: bool, expired: bool, received: seq<Tag>, history: seq<Tag>)

  /**
   * How far the client has got with its stream.  `Live` is the time between the
   * client's own `connected()` and the next drop.
   */
  datatype Link = Down | Authenticated | Negotiating | Live

  /** `client.wire` is the channel to the server and `down` the channel back. */
  datatype World = World(client: Client, link: Link, server: Server, down: seq<Tag>, history: seq<Tag>, acked: nat)

  datatype Step =
    | Connect                      // transport up and authenticated
    | OfferFeatures                // stream features after authentication
    | Bind                         // the resource bind exchange
    | Drop
    | ApplicationSends(tag: Tag)
    | ApplicationAsks
    | ClientReceives(onConnect: seq<Tag>)   // with the stanzas sent if `connected()` runs
    | ServerReceives
    | ServerSends(tag: Tag)
    | ServerAcknowledges
    | ServerAsks
    | ServerExpires                // a detached session times out

  function Stanzas(tags: seq<Tag>): seq<Tag> {
    if tags == [] then [] else (if tags[0].Stanza? then [tags[0]] else []) + Stanzas(tags[1..])
  }

  /** The server's reaction to one tag: its new state and what it writes. */
  function React(s: Server, tag: Tag): (Server, seq<Tag>) {
    match tag
    case Stanza(_) =>
      (if s.attached then s.(received := s.received + [tag]) else s, [])
    case Enable(resume) =>
      if s.active then (s, [Failed])
      else (s.(active := true, attached := true, received := [], history := []), [Enabled(s.id, resume)])
    case Resume(h, previd) =>
      if s.active && !s.attached && !s.expired && previd == s.id && 0 <= h <= |s.history|
      then (s.(attached := true), [Resumed(|s.received|, s.id)] + s.history[h..])
      else (s, [Failed])
    case Request =>
      (s, if s.attached then [Answer(|s.received|)] else [])
    case _ => (s, [])
  }

  function Init(id: string, resume: bool): World {
    World(Client(CtxSMInvalid, 0, 0, map[], true, resume, "", Unconnected, false, false, [], []),
          Down, Server(id, false, false, false, [], []), [], [], 0)
  }

  function HighestAck(w: World, tag: Tag): nat {
    match tag
    case Answer(h) => if AtLeastEnabled(w.client.context) && h > w.acked then h else w.acked
    case Resumed(h, previd) =>
      if w.client.context == CtxSMResume && previd == w.client.id && h > w.acked then h else w.acked
    case _ => w.acked
  }

  /** `connected()` is reached from `<enabled/>` and from the matching `<resumed/>`. */
  predicate Connects(c: Client, tag: Tag) {
    tag.Enabled? || (tag.Resumed? && c.context == CtxSMResume && tag.previd == c.id)
  }

  predicate OnlyStanzas(tags: seq<Tag>) {
    forall i :: 0 <= i < |tags| ==> tags[i].Stanza?
  }

  /** A step that is not possible in `w` leaves it as it is. */
  function Next(w: World, step: Step): World {
    match step
    case Connect =>
      if w.link != Down then w
      else
        w.(client := w.client.(transport := Connected, authed := true, wire := []), link := Authenticated, down := [])
    case OfferFeatures =>
      if w.link != Authenticated || !AtLeastEnabled(w.client.context) then w
      else w.(client := HandleTag(w.client, Features(true), []), link := Negotiating)
    case Bind =>
      if w.link != Authenticated || AtLeastEnabled(w.client.context) then w
      else w.(client := ProcessResourceBind(w.client, true, true, []), link := Negotiating)
    case Drop =>
      w.(client := HandleDisconnect(w.client), link := Down, server := w.server.(attached := false), down := [])
    case ApplicationSends(tag) =>
      if !tag.Stanza? then w
      else w.(client := SendTag(w.client, tag, true),
              history := if AtLeastEnabled(w.client.context) then w.history + [tag] else w.history)
    case ApplicationAsks =>
      w.(client := ReqStreamManagement(w.client))
    case ClientReceives(onConnect) =>
      if w.link == Down || w.down == [] || !OnlyStanzas(onConnect) then w
      else
        var connects := Connects(w.client, w.down[0]);
        w.(client := HandleTag(w.client, w.down[0], onConnect), link := if connects then Live else w.link,
           down := w.down[1..], acked := HighestAck(w, w.down[0]),
           history := if connects then w.history + onConnect else w.history)
    case ServerReceives =>
      if w.client.wire == [] then w
      else
        var (server, answer) := React(w.server, w.client.wire[0]);
        w.(server := server, client := w.client.(wire := w.client.wire[1..]), down := w.down + answer)
    case ServerSends(tag) =>
      if !tag.Stanza? || !w.server.active || w.server.expired then w
      else w.(server := w.server.(history := w.server.history + [tag]),
              down := w.down + if w.server.attached then [tag] else [])
    case ServerAcknowledges =>
      if w.server.attached then w.(down := w.down + [Answer(|w.server.received|)]) else w
    case ServerAsks =>
      if w.server.attached then w.(down := w.down + [Request]) else w
    case ServerExpires =>
      if w.server.attached || !w.server.active then w else w.(server := w.server.(expired := true))
  }

  function Run(w: World, steps: seq<Step>): World
    decreases |steps|
  {
    if steps == [] then w else Run(Next(w, steps[0]), steps[1..])
  }

  // ----- the invariant

  /** The unacknowledged queue: exactly the keys acked + 1 .. sent, each with the stanza first sent under it. */
  ghost predicate QueueIsUnacknowledged(q: SendQueue, history: seq<Tag>, acked: nat) {
    && (forall k :: k in q <==> acked < k <= |history|)
    && forall k :: k in q ==> q[k] == history[k - 1]
  }

  /** What a settled client may find on its way up: stanzas, acknowledgement requests and answers. */
  ghost predicate Ordinary(tags: seq<Tag>) {
    forall i :: 0 <= i < |tags| ==> IsOrdinary(tags[i])
  }

  predicate IsOrdinary(tag: Tag) {
    tag.Stanza? || tag.Request? || tag.Answer?
  }

  /** No acknowledgement on its way to the client promises more than `n`, nor less than was promised before. */
  ghost predicate AcksWithin(tags: seq<Tag>, n: nat) {
    forall i :: 0 <= i < |tags| && tags[i].Answer? ==> 0 <= tags[i].h <= n
  }

  ghost predicate Histories(w: World) {
    && w.client.sent == |w.history|
    && OnlyStanzas(w.history) && OnlyStanzas(w.server.history)
    && QueueIsUnacknowledged(w.client.queue, w.history, w.acked)
    && w.acked <= |w.server.received|
    && w.server.received <= w.history
    && w.client.notified <= w.server.history
    && w.client.handled == |w.client.notified|
    && w.client.wanted && (w.server.expired ==> w.server.active)
    && (Rank(w.client.context) >= Rank(CtxSMResume) ==> w.server.active && w.client.id == w.server.id)
    && (w.client.context == CtxSMInvalid ==> !w.server.active)
    && (w.client.context in {CtxSMInvalid, CtxSMEnable} ==> w.history == [] && w.client.notified == [])
  }

  ghost predicate Quiet(w: World) {
    w.client.wire == [] && w.down == [] && !w.server.attached
  }

  /** What is on its way to a server without a session on this stream leaves it without one. */
  ghost predicate Idle(w: World) {
    && !w.server.attached
    && (forall i :: 0 <= i < |w.client.wire| ==>
        IsOrdinary(w.client.wire[i]) || (w.client.wire[i].Resume? && w.server.expired))
    && (forall i :: 0 <= i < |w.down| ==> w.down[i].Failed?)
  }

  /** Nothing but ordinary tags has been written on this stream yet. */
  ghost predicate Calm(w: World) {
    !w.server.attached && w.down == [] && Ordinary(w.client.wire)
  }

  /** Everything the client wrote is received or under way, and likewise what the server wrote. */
  ghost predicate InStep(w: World, down: seq<Tag>) {
    && w.server.attached && w.server.active && !w.server.expired
    && Ordinary(w.client.wire) && Ordinary(down)
    && AcksWithin(down, |w.server.received|)
    && w.client.notified + Stanzas(down) == w.server.history
  }

  /** `tag` has been written last and has not reached the server. */
  ghost predicate Asked(w: World, tag: Tag) {
    var wire := w.client.wire;
    wire != [] && wire[|wire| - 1] == tag && Ordinary(wire[..|wire| - 1]) && w.down == [] && !w.server.attached
  }

  ghost predicate Enabling(w: World) {
    && w.client.context == CtxSMEnable && w.client.handled == 0
    && if w.client.wire != [] then
         Asked(w, Enable(w.client.resumable)) && !w.server.active
       else
         && w.down != [] && w.down[0].Enabled? && w.down[0].id == w.server.id
         && InStep(w, w.down[1..]) && w.server.received == []
  }

  ghost predicate Resuming(w: World) {
    && w.client.context == CtxSMResume && !w.server.expired
    && if w.client.wire != [] then
         Asked(w, Resume(w.client.handled, w.client.id))
       else
         w.down != [] && w.down[0] == Resumed(|w.server.received|, w.server.id) && InStep(w, w.down[1..])
  }

  /** The client waits for the answer to a request that the server grants. */
  ghost predicate Waiting(w: World) {
    w.link == Negotiating && (Enabling(w) || Resuming(w))
  }

  ghost predicate Inv(w: World) {
    && Histories(w)
    && w.client.transport == (if w.link == Down then Unconnected else Connected)
    && (w.client.authed <==> w.link != Down)
    && match w.link
       case Down => Quiet(w)
       case Authenticated => Calm(w)
       case Negotiating => Idle(w) || Enabling(w) || Resuming(w)
       case Live =>
         && AtLeastEnabled(w.client.context) && InStep(w, w.down)
         && w.server.received + Stanzas(w.client.wire) == w.history
  }

  /**
   * No stanza is sent while the client waits, which the server would count and the client would
   * not, nor from inside `connected()` during a resumption, which would go out twice.
   */
  ghost predicate Careful(w: World, step: Step) {
    && (step.ApplicationSends? && step.tag.Stanza? ==> !Waiting(w))
    && (step.ClientReceives? && w.down != [] && w.down[0].Resumed? ==> step.onConnect == [])
  }

  ghost predicate CarefulRun(w: World, steps: seq<Step>)
    decreases |steps|
  {
    steps == [] || (Careful(w, steps[0]) && CarefulRun(Next(w, steps[0]), steps[1..]))
  }

  // ----- the invariant holds in every run

  lemma {:induction false} StanzasAppend(a: seq<Tag>, b: seq<Tag>)
    ensures Stanzas(a + b) == Stanzas(a) + Stanzas(b)
  {
    if a == [] {
      assert a + b == b;
      assert Stanzas(a) + Stanzas(b) == Stanzas(b);
    } else {
      assert (a + b)[0] == a[0] && (a + b)[1..] == a[1..] + b;
      StanzasAppend(a[1..], b);
      var first := if a[0].Stanza? then [a[0]] else [];
      assert first + (Stanzas(a[1..]) + Stanzas(b)) == first + Stanzas(a[1..]) + Stanzas(b);
    }
  }

  lemma {:induction false} StanzasOfStanzas(a: seq<Tag>)
    requires OnlyStanzas(a)
    ensures Stanzas(a) == a
  {
    if a != [] {
      StanzasOfStanzas(a[1..]);
    }
  }

  /** Above `h` the queue holds exactly the rest of the stanzas, each under its number. */
  ghost predicate QueueBeyond(q: SendQueue, history: seq<Tag>, h: nat) {
    && (forall k :: k > h ==> (k in q <==> k <= |history|))
    && forall k :: k > h && k in q ==> q[k] == history[k - 1]
  }

  lemma {:induction false} ResentInOrder(q: SendQueue, history: seq<Tag>, h: nat)
    requires QueueBeyond(q, history, h) && h <= |history|
    ensures InOrder(q, Some(h)) == history[h..]
    decreases |history| - h
  {
    NextInQueue(q, history, h);
    hide Successor;
    if h < |history| {
      ResentInOrder(q, history, h + 1);
      assert [history[h]] + history[h + 1..] == history[h..];
    }
  }

  lemma NextInQueue(q: SendQueue, history: seq<Tag>, h: nat)
    requires QueueBeyond(q, history, h) && h <= |history|
    ensures Successor(q, Some(h)) == if h < |history| then Some(h + 1) else None
    ensures h < |history| ==> h + 1 in q && q[h + 1] == history[h]
  {
    if h < |history| {
      assert h + 1 in q;
    }
  }

  lemma SendKeepsHistories(w: World, tag: Tag)
    requires Histories(w) && tag.Stanza?
    ensures Histories(w.(client := SendTag(w.client, tag, true),
                         history := if AtLeastEnabled(w.client.context) then w.history + [tag] else w.history))
  {
    var q := SendTag(w.client, tag, true).queue;
    if AtLeastEnabled(w.client.context) {
      assert |w.history| + 1 !in w.client.queue;
      assert QueueIsUnacknowledged(q, w.history + [tag], w.acked);
    }
  }

  lemma IdleWrites(w: World, tag: Tag)
    requires Idle(w) && IsOrdinary(tag)
    ensures Idle(w.(client := w.client.(wire := w.client.wire + [tag])))
  {
  }

  lemma OrdinaryWrites(tags: seq<Tag>, tag: Tag)
    requires Ordinary(tags) && IsOrdinary(tag)
    ensures Ordinary(tags + [tag])
  {
  }

  lemma SendKeeps(w: World, tag: Tag)
    requires Inv(w) && tag.Stanza? && !Waiting(w)
    ensures Inv(Next(w, ApplicationSends(tag)))
  {
    SendKeepsHistories(w, tag);
    if w.link == Live {
      LiveSendKeeps(w, tag);
    } else {
      if w.link == Negotiating {
        IdleWrites(w, tag);
      } else if w.link == Authenticated {
        OrdinaryWrites(w.client.wire, tag);
      }
      hide Ordinary, Stanzas, QueueIsUnacknowledged, OnlyStanzas, Enabling, Resuming, Histories, Idle, InStep;
    }
  }

  lemma LiveSendKeeps(w: World, tag: Tag)
    requires Inv(w) && tag.Stanza? && w.link == Live && Histories(Next(w, ApplicationSends(tag)))
    ensures Inv(Next(w, ApplicationSends(tag)))
  {
    StanzasAppend(w.client.wire, [tag]);
    assert Stanzas([tag]) == [tag];
    OrdinaryWrites(w.client.wire, tag);
    Regroup(w.server.received, Stanzas(w.client.wire), [tag]);
    hide Ordinary, Stanzas, Histories, AcksWithin, Idle, Enabling, Resuming;
  }

  /** The server writes one more tag to a client it is in step with. */
  lemma InStepWrites(w: World, down: seq<Tag>, tag: Tag)
    requires InStep(w, down)
    requires tag.Stanza? || tag.Request? || tag == Answer(|w.server.received|)
    ensures InStep(w.(server := w.server.(history := w.server.history + Stanzas([tag]))), down + [tag])
  {
    StanzasAppend(down, [tag]);
    assert forall i :: 0 <= i < |down + [tag]| ==> (down + [tag])[i] == if i < |down| then down[i] else tag;
  }

  lemma WriteDownKeeps(w: World, tag: Tag)
    requires Inv(w) && w.server.attached
    requires tag.Stanza? || tag.Request? || tag == Answer(|w.server.received|)
    ensures Inv(w.(server := w.server.(history := w.server.history + Stanzas([tag])), down := w.down + [tag]))
  {
    if w.link == Live {
      InStepWrites(w, w.down, tag);
    } else {
      assert w.down != [];
      assert (w.down + [tag])[1..] == w.down[1..] + [tag];
      InStepWrites(w, w.down[1..], tag);
    }
  }

  lemma ServerWritesKeep(w: World, step: Step)
    requires Inv(w)
    requires step.ServerSends? || step.ServerAcknowledges? || step.ServerAsks?
    ensures Inv(Next(w, step))
  {
    var tag :=
      match step
      case ServerSends(t) => t
      case ServerAcknowledges => Answer(|w.server.received|)
      case _ => Request;
    if w.server.attached && (step.ServerSends? ==> tag.Stanza?) {
      WriteDownKeeps(w, tag);
      assert w.server.history + Stanzas([tag]) == Next(w, step).server.history;
    }
  }

  /** The request reaches the server, which takes the session up again. */
  lemma ResumeStep(w: World)
    requires Inv(w) && w.link == Negotiating && Resuming(w) && |w.client.wire| == 1
    ensures Next(w, ServerReceives) ==
              w.(client := w.client.(wire := []), server := w.server.(attached := true),
                 down := [Resumed(|w.server.received|, w.server.id)] + w.server.history[w.client.handled..])
  {
    hide Stanzas, QueueIsUnacknowledged;
  }

  lemma ServerResumes(w: World)
    requires Inv(w) && w.link == Negotiating && Resuming(w) && |w.client.wire| == 1
    ensures Inv(Next(w, ServerReceives)) && Resuming(Next(w, ServerReceives))
  {
    var rest := w.server.history[w.client.handled..];
    ResumeStep(w);
    var resumed := [Resumed(|w.server.received|, w.server.id)] + rest;
    var w1 := w.(client := w.client.(wire := []), server := w.server.(attached := true), down := resumed);
    InStepAfterResume(w, w1);
    assert w1.down[1..] == rest;
    hide Next, Stanzas, QueueIsUnacknowledged, InStep;
  }

  /** What the server sends again completes what the client has handed on. */
  lemma InStepAfterResume(w: World, w1: World)
    requires Inv(w) && w.server.active && !w.server.expired
    requires w1.client.wire == [] && w1.client.notified == w.client.notified
    requires w1.server == w.server.(attached := true)
    ensures InStep(w1, w.server.history[w.client.handled..])
  {
    hide QueueIsUnacknowledged, Quiet, Enabling, Resuming;
    var all, n := w.server.history, w.client.handled;
    assert OnlyStanzas(all[n..]);
    StanzasOfStanzas(all[n..]);
    hide Stanzas;
    assert w.client.notified == all[..n];
    assert all[..n] + all[n..] == all;
  }

  /** Taking one ordinary tag off the wire of a live client, without the answer if it asks for one. */
  ghost function Taken(w: World): World
    requires w.client.wire != []
  {
    var tag := w.client.wire[0];
    w.(client := w.client.(wire := w.client.wire[1..]),
       server := if tag.Stanza? then w.server.(received := w.server.received + [tag]) else w.server)
  }

  lemma TakenKeeps(w: World)
    requires Inv(w) && w.link == Live && w.client.wire != []
    ensures Inv(Taken(w))
  {
    var wire := w.client.wire;
    TakenHistories(w);
    OrdinaryFirst(wire);
    Regroup(w.server.received, if wire[0].Stanza? then [wire[0]] else [], Stanzas(wire[1..]));
    assert w.server.received + [] == w.server.received;
    hide Stanzas, Histories, Ordinary, Idle, Enabling, Resuming;
  }

  lemma OrdinaryFirst(wire: seq<Tag>)
    requires wire != [] && Ordinary(wire)
    ensures Ordinary(wire[1..])
    ensures Stanzas(wire) == (if wire[0].Stanza? then [wire[0]] else []) + Stanzas(wire[1..])
  {
  }

  lemma TakenHistories(w: World)
    requires Inv(w) && w.link == Live && w.client.wire != []
    ensures Histories(Taken(w)) && AcksWithin(w.down, |Taken(w).server.received|)
  {
    var wire, r := w.client.wire, w.server.received;
    assert wire[0].Stanza? ==> r + ([wire[0]] + Stanzas(wire[1..])) == r + [wire[0]] + Stanzas(wire[1..]);
    OrdinaryFirst(wire);
    hide Stanzas, QueueIsUnacknowledged, OnlyStanzas, Ordinary;
  }

  lemma TakenNext(w: World)
    requires Inv(w) && w.link == Live && w.client.wire != []
    ensures Next(w, ServerReceives) ==
              Taken(w).(down := w.down + if w.client.wire[0].Request? then [Answer(|w.server.received|)] else [])
  {
    hide Stanzas, QueueIsUnacknowledged, OnlyStanzas, AcksWithin;
    assert w.down + [] == w.down;
  }

  lemma ServerCountsKeeps(w: World)
    requires Inv(w) && w.link == Live && w.client.wire != []
    ensures Inv(Next(w, ServerReceives))
  {
    TakenNext(w);
    TakenKeeps(w);
    var w1 := Taken(w);
    if w.client.wire[0].Request? {
      var answer := Answer(|w.server.received|);
      assert w1.server.attached && w1.server == w.server && w1.down == w.down;
      WriteDownKeeps(w1, answer);
      assert w.server.history + Stanzas([answer]) == w.server.history;
    } else {
      assert w.down + [] == w.down;
    }
    hide Next, Inv;
  }

  lemma ServerEnables(w: World)
    requires Inv(w) && w.link == Negotiating && Enabling(w) && |w.client.wire| == 1
    ensures Inv(Next(w, ServerReceives))
  {
    var w' := Next(w, ServerReceives);
    assert w'.down == [Enabled(w.server.id, w.client.resumable)] && w'.down[1..] == [];
  }

  /** A server without a session on this stream takes no notice of an ordinary tag. */
  lemma Unnoticed(w: World)
    requires !w.server.attached && w.client.wire != [] && IsOrdinary(w.client.wire[0])
    ensures Next(w, ServerReceives) == w.(client := w.client.(wire := w.client.wire[1..]))
  {
    assert w.down + [] == w.down;
  }

  lemma UnnoticedKeeps(w: World)
    requires Inv(w) && !w.server.attached && w.client.wire != [] && IsOrdinary(w.client.wire[0])
    ensures Inv(Next(w, ServerReceives))
  {
    hide Next, Histories;
    Unnoticed(w);
    var w' := w.(client := w.client.(wire := w.client.wire[1..]));
    assert Histories(w') == Histories(w) by {
      HistoriesAlike(w, w');
    }
    if w.link == Negotiating && (Enabling(w) || Resuming(w)) {
      AskedFirst(w, w.client.wire[|w.client.wire| - 1]);
    }
  }

  lemma HistoriesAlike(w: World, w': World)
    requires w' == w.(client := w.client.(wire := w'.client.wire), down := w'.down)
    ensures Histories(w') == Histories(w)
  {
  }

  lemma AskedFirst(w: World, tag: Tag)
    requires Asked(w, tag) && IsOrdinary(w.client.wire[0]) && !IsOrdinary(tag)
    ensures Asked(w.(client := w.client.(wire := w.client.wire[1..])), tag)
  {
    var wire := w.client.wire;
    assert |wire| > 1;
    assert wire[1..][..|wire| - 2] == wire[..|wire| - 1][1..];
  }

  lemma RefusalKeeps(w: World)
    requires Inv(w) && w.link == Negotiating && Idle(w) && w.client.wire != [] && w.client.wire[0].Resume?
    ensures Inv(Next(w, ServerReceives))
  {
    assert w.server.expired;
    var w' := Next(w, ServerReceives);
    assert w' == w.(client := w.client.(wire := w.client.wire[1..]), down := w.down + [Failed]);
    hide Next, Histories, Ordinary;
    HistoriesAlike(w, w');
  }

  lemma ServerReceivesKeeps(w: World)
    requires Inv(w)
    ensures Inv(Next(w, ServerReceives))
  {
    if w.client.wire != [] {
      if w.link == Live {
        ServerCountsKeeps(w);
      } else if IsOrdinary(w.client.wire[0]) {
        UnnoticedKeeps(w);
      } else if Idle(w) {
        RefusalKeeps(w);
      } else {
        var wire := w.client.wire;
        assert |wire| == 1;
        if w.client.context == CtxSMResume {
          ServerResumes(w);
        } else {
          ServerEnables(w);
        }
      }
    }
  }

  lemma DropKeeps(w: World)
    requires Inv(w)
    ensures Inv(Next(w, Drop))
  {
  }

  /** The client sends again what the server misses, behind whatever it has written since. */
  lemma ResumedStep(w: World, h: nat)
    requires w.link == Negotiating && w.client.transport == Connected && w.client.context == CtxSMResume
    requires w.down != [] && w.down[0] == Resumed(h, w.client.id)
    requires QueueBeyond(w.client.queue, w.history, h) && h <= |w.history|
    ensures Next(w, ClientReceives([])) ==
              w.(client := w.client.(context := CtxSMResumed, queue := DropUpTo(w.client.queue, h),
                  wire := w.client.wire + w.history[h..]),
                 link := Live, down := w.down[1..], acked := if h > w.acked then h else w.acked)
  {
    ResentInOrder(w.client.queue, w.history, h);
  }

  /** The world in which the client has taken `<resumed/>`. */
  ghost function AfterResumed(w: World, h: nat): World
    requires w.down != [] && h <= |w.history|
  {
    w.(client := w.client.(context := CtxSMResumed, queue := DropUpTo(w.client.queue, h), wire := w.history[h..]),
       link := Live, down := w.down[1..], acked := h)
  }

  lemma ResumedHistories(w: World, h: nat)
    requires Histories(w) && w.client.context == CtxSMResume && w.down != [] && w.acked <= h <= |w.server.received|
    ensures Histories(AfterResumed(w, h))
  {
    DropKeepsUnacknowledged(w.client.queue, w.history, w.acked, h);
    hide QueueIsUnacknowledged, DropUpTo, OnlyStanzas;
  }

  lemma ResumedInStep(w: World, h: nat)
    requires OnlyStanzas(w.history) && h <= |w.history| && w.down != [] && InStep(w, w.down[1..])
    ensures InStep(AfterResumed(w, h), w.down[1..]) && Stanzas(w.history[h..]) == w.history[h..]
  {
    AllStanzas(w.history, h);
    hide Stanzas, Ordinary, AcksWithin;
  }

  lemma QueueBeyondAck(q: SendQueue, history: seq<Tag>, acked: nat, h: nat)
    requires QueueIsUnacknowledged(q, history, acked) && acked <= h
    ensures QueueBeyond(q, history, h)
  {
  }

  lemma ResumedNext(w: World)
    requires Inv(w) && w.link == Negotiating && Resuming(w) && w.client.wire == []
    ensures Next(w, ClientReceives([])) == AfterResumed(w, |w.server.received|)
  {
    var h := |w.server.received|;
    QueueBeyondAck(w.client.queue, w.history, w.acked, h);
    hide Next, QueueIsUnacknowledged, QueueBeyond, InStep, Stanzas, OnlyStanzas, DropUpTo, Enabling, Idle;
    ResumedStep(w, h);
    assert w.client.wire + w.history[h..] == w.history[h..];
  }

  lemma ResumedIsLive(w: World)
    requires Inv(w) && w.link == Negotiating && Resuming(w) && w.client.wire == []
    ensures Inv(AfterResumed(w, |w.server.received|))
  {
    hide Histories, InStep, Stanzas, DropUpTo, Enabling, Idle, Ordinary, OnlyStanzas;
    var h := |w.server.received|;
    WhenResuming(w);
    ResumedHistories(w, h);
    ResumedInStep(w, h);
    assert w.server.received + w.history[h..] == w.history;
  }

  /** What the histories say of a client that waits for `<resumed/>`. */
  lemma WhenResuming(w: World)
    requires Histories(w)
    ensures OnlyStanzas(w.history) && w.acked <= |w.server.received| && w.server.received <= w.history
  {
  }

  lemma ResumedKeeps(w: World)
    requires Inv(w) && w.link == Negotiating && Resuming(w) && w.client.wire == []
    ensures Inv(Next(w, ClientReceives([])))
  {
    ResumedNext(w);
    ResumedIsLive(w);
    hide Next, Inv, AfterResumed;
  }

  lemma AllStanzas(tags: seq<Tag>, h: nat)
    requires OnlyStanzas(tags) && h <= |tags|
    ensures Stanzas(tags[h..]) == tags[h..] && Ordinary(tags[h..])
  {
    StanzasOfStanzas(tags[h..]);
  }

  lemma NotifiedKeeps(w: World)
    requires Inv(w) && w.link == Live && w.down != [] && w.down[0].Stanza?
    ensures Inv(Next(w, ClientReceives([])))
  {
    var tag := w.down[0];
    var w' := Next(w, ClientReceives([]));
    assert w.down == [tag] + w'.down;
    assert w'.client == w.client.(notified := w.client.notified + [tag], handled := w.client.handled + 1);
    assert w.client.notified + Stanzas(w.down) == w'.client.notified + Stanzas(w'.down);
  }

  lemma AnsweredStep(w: World)
    requires Inv(w) && w.link == Live && w.down != [] && w.down[0].Answer?
    ensures var h := w.down[0].h;
            Next(w, ClientReceives([])) ==
              w.(client := w.client.(queue := DropUpTo(w.client.queue, h)),
                down := w.down[1..], acked := if h > w.acked then h else w.acked)
  {
    assert w.client.wire + [] == w.client.wire;
  }

  lemma AnsweredKeeps(w: World)
    requires Inv(w) && w.link == Live && w.down != [] && w.down[0].Answer?
    ensures Inv(Next(w, ClientReceives([])))
  {
    hide Next;
    AnsweredStep(w);
    FirstIsNoStanza(w, w.down);
    var h := w.down[0].h;
    assert 0 <= h <= |w.server.received|;
    DropKeepsUnacknowledged(w.client.queue, w.history, w.acked, h);
    hide QueueIsUnacknowledged, Ordinary, AcksWithin, OnlyStanzas, Stanzas, DropUpTo;
  }

  lemma DropKeepsUnacknowledged(q: SendQueue, history: seq<Tag>, acked: nat, h: nat)
    requires QueueIsUnacknowledged(q, history, acked) && h <= |history|
    ensures QueueIsUnacknowledged(DropUpTo(q, h), history, if h > acked then h else acked)
  {
  }

  /** A client in step stays so when it takes a tag that is not a stanza. */
  lemma FirstIsNoStanza(w: World, down: seq<Tag>)
    requires InStep(w, down) && down != [] && !down[0].Stanza?
    ensures InStep(w, down[1..])
  {
  }

  lemma AskedStep(w: World)
    requires Inv(w) && w.link == Live && w.down != [] && w.down[0].Request?
    ensures Next(w, ClientReceives([])) ==
              w.(client := w.client.(wire := w.client.wire + [Answer(w.client.handled)]), down := w.down[1..])
  {
  }

  lemma AskedKeeps(w: World)
    requires Inv(w) && w.link == Live && w.down != [] && w.down[0].Request?
    ensures Inv(Next(w, ClientReceives([])))
  {
    hide Next;
    AskedStep(w);
    FirstIsNoStanza(w, w.down);
    StanzasAppend(w.client.wire, [Answer(w.client.handled)]);
  }

  lemma FailedKeeps(w: World)
    requires Inv(w) && w.link == Negotiating && Idle(w) && w.down != []
    ensures Inv(Next(w, ClientReceives([])))
  {
    hide Ordinary, QueueIsUnacknowledged, OnlyStanzas;
  }

  lemma {:induction false} SendAllQueues(c: Client, tags: seq<Tag>, history: seq<Tag>, acked: nat)
    requires AtLeastEnabled(c.context) && c.transport == Connected && c.sent == |history|
    requires QueueIsUnacknowledged(c.queue, history, acked) && acked <= |history|
    ensures var c' := SendAll(c, tags);
            && c'.wire == c.wire + tags
            && QueueIsUnacknowledged(c'.queue, history + tags, acked)
            && c' == c.(wire := c'.wire, queue := c'.queue, sent := |history + tags|)
    decreases |tags|
  {
    if tags == [] {
      assert history + tags == history && c.wire + tags == c.wire;
    } else {
      var c1 := SendTag(c, tags[0], true);
      assert |history| + 1 !in c.queue;
      assert QueueIsUnacknowledged(c1.queue, history + [tags[0]], acked);
      hide QueueIsUnacknowledged;
      SendAllQueues(c1, tags[1..], history + [tags[0]], acked);
      assert history + [tags[0]] + tags[1..] == history + tags;
      assert c.wire + [tags[0]] + tags[1..] == c.wire + tags;
    }
  }

  /**
   * `connected()` runs inside the managed session that `<enabled/>` opens: what is sent there
   * goes out in order and every stanza of it is numbered and kept.
   */
  lemma CallbackOnEnabledIsCounted(
      c: Client, id: string, resume: bool, onConnect: seq<Tag>, history: seq<Tag>, acked: nat)
    requires c.transport == Connected && c.sent == |history| && acked <= |history|
    requires QueueIsUnacknowledged(c.queue, history, acked)
    ensures var c' := HandleTag(c, Enabled(id, resume), onConnect);
            && c'.wire == c.wire + onConnect
            && c'.sent == |history + onConnect|
            && QueueIsUnacknowledged(c'.queue, history + onConnect, acked)
            && c' == c.(context := CtxSMEnabled, id := id, resumable := resume && id != "",
                        wire := c'.wire, sent := c'.sent, queue := c'.queue)
  {
    SendAllQueues(c.(context := CtxSMEnabled, id := id, resumable := resume && id != ""), onConnect, history, acked);
    hide QueueIsUnacknowledged, SendAll;
  }

  /** The world in which the client has taken `<enabled/>`. */
  ghost function AfterEnabled(w: World, onConnect: seq<Tag>, queue: SendQueue): World
    requires w.down != [] && w.down[0].Enabled?
  {
    var tag := w.down[0];
    w.(client := w.client.(context := CtxSMEnabled, id := tag.id, resumable := tag.resume && tag.id != "",
                           wire := onConnect, sent := |onConnect|, queue := queue),
       link := Live, down := w.down[1..], history := onConnect)
  }

  lemma EnabledNext(w: World, onConnect: seq<Tag>)
    requires Inv(w) && w.link == Negotiating && Enabling(w) && w.client.wire == [] && OnlyStanzas(onConnect)
    ensures var w' := Next(w, ClientReceives(onConnect));
            && w' == AfterEnabled(w, onConnect, w'.client.queue)
            && QueueIsUnacknowledged(w'.client.queue, onConnect, w.acked)
  {
    var tag := w.down[0];
    assert w.history == [] && w.acked == 0;
    CallbackOnEnabledIsCounted(w.client, tag.id, tag.resume, onConnect, [], 0);
    assert [] + onConnect == onConnect;
    hide QueueIsUnacknowledged, HandleTag, InStep;
  }

  lemma EnabledIsLive(w: World, onConnect: seq<Tag>, queue: SendQueue)
    requires Inv(w) && w.link == Negotiating && Enabling(w) && w.client.wire == [] && OnlyStanzas(onConnect)
    requires QueueIsUnacknowledged(queue, onConnect, w.acked)
    ensures Inv(AfterEnabled(w, onConnect, queue))
  {
    EnabledHistories(w, onConnect, queue);
    EnabledInStep(w, onConnect, queue);
    hide Histories, InStep, Stanzas, Enabling, Resuming, Idle, QueueIsUnacknowledged, OnlyStanzas;
    assert [] + onConnect == onConnect;
  }

  lemma EnabledHistories(w: World, onConnect: seq<Tag>, queue: SendQueue)
    requires Inv(w) && w.link == Negotiating && Enabling(w) && w.client.wire == [] && OnlyStanzas(onConnect)
    requires QueueIsUnacknowledged(queue, onConnect, w.acked)
    ensures Histories(AfterEnabled(w, onConnect, queue)) && w.server.received == []
  {
    hide Stanzas, Ordinary, AcksWithin, QueueIsUnacknowledged, Idle, Resuming, OnlyStanzas;
  }

  lemma EnabledInStep(w: World, onConnect: seq<Tag>, queue: SendQueue)
    requires Inv(w) && w.link == Negotiating && Enabling(w) && w.client.wire == [] && OnlyStanzas(onConnect)
    ensures InStep(AfterEnabled(w, onConnect, queue), w.down[1..]) && Stanzas(onConnect) == onConnect
  {
    AllStanzas(onConnect, 0);
    assert onConnect[0..] == onConnect;
    hide Stanzas, Ordinary, AcksWithin, QueueIsUnacknowledged, Idle, Resuming, Histories, OnlyStanzas;
  }

  lemma EnabledKeeps(w: World, onConnect: seq<Tag>)
    requires Inv(w) && w.link == Negotiating && Enabling(w) && w.client.wire == [] && OnlyStanzas(onConnect)
    ensures Inv(Next(w, ClientReceives(onConnect)))
  {
    EnabledNext(w, onConnect);
    EnabledIsLive(w, onConnect, Next(w, ClientReceives(onConnect)).client.queue);
    hide Next, Inv, AfterEnabled;
  }

  /** Only a tag that leads to `connected()` makes a difference to what is sent there. */
  lemma NoCallback(w: World, onConnect: seq<Tag>)
    requires OnlyStanzas(onConnect) && (w.down == [] || !(w.down[0].Enabled? || w.down[0].Resumed?))
    ensures Next(w, ClientReceives(onConnect)) == Next(w, ClientReceives([]))
  {
  }

  lemma ClientReceivesKeeps(w: World, onConnect: seq<Tag>)
    requires Inv(w) && OnlyStanzas(onConnect) && Careful(w, ClientReceives(onConnect))
    ensures Inv(Next(w, ClientReceives(onConnect)))
  {
    if w.link == Live && w.down != [] {
      NoCallback(w, onConnect);
      match w.down[0] {
        case Stanza(_) => NotifiedKeeps(w);
        case Answer(_) => AnsweredKeeps(w);
        case Request => AskedKeeps(w);
      }
    } else if w.link == Negotiating && w.down != [] {
      match w.down[0] {
        case Resumed(_, _) => ResumedKeeps(w);
        case Enabled(_, _) => EnabledKeeps(w, onConnect);
        case Failed =>
          NoCallback(w, onConnect);
          FailedKeeps(w);
      }
    }
  }

  /** A request written behind ordinary tags. */
  lemma AskedNow(w: World, tag: Tag)
    requires Calm(w)
    ensures Asked(w.(client := w.client.(wire := w.client.wire + [tag])), tag)
  {
    assert (w.client.wire + [tag])[..|w.client.wire|] == w.client.wire;
  }

  lemma BindKeeps(w: World)
    requires Inv(w)
    ensures Inv(Next(w, Bind))
  {
    if w.link == Authenticated && w.client.context == CtxSMInvalid {
      AskedNow(w, Enable(w.client.resumable));
    }
    hide QueueIsUnacknowledged, OnlyStanzas, Ordinary, InStep;
  }

  lemma OfferKeeps(w: World)
    requires Inv(w)
    ensures Inv(Next(w, OfferFeatures))
  {
    hide QueueIsUnacknowledged, OnlyStanzas, InStep;
    if w.link == Authenticated && w.client.context == CtxSMEnabled {
      AskedNow(w, Resume(w.client.handled, w.client.id));
    }
  }

  lemma ConnectKeeps(w: World)
    requires Inv(w)
    ensures Inv(Next(w, Connect))
  {
    hide QueueIsUnacknowledged, OnlyStanzas, InStep;
  }

  lemma AsksKeeps(w: World)
    requires Inv(w)
    ensures Inv(Next(w, ApplicationAsks))
  {
    hide QueueIsUnacknowledged, OnlyStanzas;
    if AtLeastEnabled(w.client.context) && w.link != Down {
      StanzasAppend(w.client.wire, [Request]);
      if w.link == Negotiating {
        IdleWrites(w, Request);
      } else {
        OrdinaryWrites(w.client.wire, Request);
      }
    }
    hide Stanzas, Ordinary;
  }

  lemma StepKeeps(w: World, step: Step)
    requires Inv(w) && Careful(w, step)
    ensures Inv(Next(w, step))
  {
    hide Next, Inv;
    match step {
      case Connect => ConnectKeeps(w);
      case OfferFeatures => OfferKeeps(w);
      case Bind => BindKeeps(w);
      case Drop => DropKeeps(w);
      case ApplicationSends(tag) =>
        if tag.Stanza? { SendKeeps(w, tag); } else { OnlyStanzasAreSent(w, tag); }
      case ApplicationAsks => AsksKeeps(w);
      case ClientReceives(onConnect) =>
        if OnlyStanzas(onConnect) {
          ClientReceivesKeeps(w, onConnect);
        } else {
          OnlyStanzasAreCalledBack(w, onConnect);
        }
      case ServerReceives => ServerReceivesKeeps(w);
      case ServerSends(_) => ServerWritesKeep(w, step);
      case ServerAcknowledges => ServerWritesKeep(w, step);
      case ServerAsks => ServerWritesKeep(w, step);
      case ServerExpires => ExpiryKeeps(w);
    }
  }

  lemma OnlyStanzasAreSent(w: World, tag: Tag)
    requires !tag.Stanza?
    ensures Next(w, ApplicationSends(tag)) == w
  {
  }

  lemma OnlyStanzasAreCalledBack(w: World, onConnect: seq<Tag>)
    requires !OnlyStanzas(onConnect)
    ensures Next(w, ClientReceives(onConnect)) == w
  {
  }

  lemma ExpiryKeeps(w: World)
    requires Inv(w)
    ensures Inv(Next(w, ServerExpires))
  {
  }

  lemma {:induction false} RunKeeps(w: World, steps: seq<Step>)
    requires Inv(w) && CarefulRun(w, steps)
    ensures Inv(Run(w, steps))
    decreases |steps|
  {
    hide Inv, Careful, Next;
    if steps != [] {
      StepKeeps(w, steps[0]);
      RunKeeps(Next(w, steps[0]), steps[1..]);
    }
  }

  lemma InitKeeps(id: string, resume: bool)
    ensures Inv(Init(id, resume))
  {
  }

  // ----- what every run delivers

  /** Both sides have received beginnings of what was sent, and the client counts what it has handed on. */
  ghost predicate Delivered(w: World) {
    && w.server.received <= w.history
    && w.client.notified <= w.server.history
    && w.client.handled == |w.client.notified|
  }

  /**
   * Over every careful run, with any stanzas sent when the session is enabled: what the server has
   * received is a prefix, in order and without repetition, of what the client queued, what
   * the client has handed to its handlers is a prefix of what the server sent, and
   * `handled` counts exactly those.
   */
  lemma DeliversInOrderOnce(id: string, resume: bool, steps: seq<Step>)
    requires CarefulRun(Init(id, resume), steps)
    ensures Delivered(Run(Init(id, resume), steps))
  {
    InitKeeps(id, resume);
    RunKeeps(Init(id, resume), steps);
  }

  /** Once a live stream has drained, at first or after a resumption, nothing is missing either way. */
  lemma DrainedIsComplete(id: string, resume: bool, steps: seq<Step>)
    requires CarefulRun(Init(id, resume), steps) && Run(Init(id, resume), steps).link == Live
    ensures var w := Run(Init(id, resume), steps);
            && (Stanzas(w.client.wire) == [] ==> w.server.received == w.history)
            && (Stanzas(w.down) == [] ==> w.client.notified == w.server.history)
  {
    InitKeeps(id, resume);
    RunKeeps(Init(id, resume), steps);
  }

  /** The queue holds exactly the stanzas after the highest acknowledgement, and no acknowledged one was lost. */
  lemma QueueIsExact(id: string, resume: bool, steps: seq<Step>)
    requires CarefulRun(Init(id, resume), steps)
    ensures var w := Run(Init(id, resume), steps);
            && w.client.sent == |w.history|
            && QueueIsUnacknowledged(w.client.queue, w.history, w.acked)
            && w.acked <= |w.server.received|
  {
    InitKeeps(id, resume);
    RunKeeps(Init(id, resume), steps);
  }
}
