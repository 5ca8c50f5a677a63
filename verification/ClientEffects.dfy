/**
 * What a client does about one tag or one call, field by field and for every state: how its
 * context moves, which stanzas it forgets, what it hands on and what it writes.  The run
 * theorems speak of a server that keeps to the protocol; these results do not.
 */
module ClientEffects {
  import opened Basics
  import opened StreamManagement
  import opened StreamSession

  // ----- one tag

  lemma {:induction false} SendAllKeeps(c: Client, tags: seq<Tag>)
    ensures var c' := SendAll(c, tags);
            && c' == c.(wire := c'.wire, sent := c'.sent, queue := c'.queue)
            && forall k :: k in c.queue ==> k in c'.queue && c'.queue[k] == c.queue[k]
    decreases |tags|
  {
    if tags != [] {
      SendTagKeeps(c, tags[0]);
      hide SendTag;
      SendAllKeeps(SendTag(c, tags[0], true), tags[1..]);
    }
  }

  lemma SendTagKeeps(c: Client, tag: Tag)
    ensures var c' := SendTag(c, tag, true);
            && c' == c.(wire := c'.wire, sent := c'.sent, queue := c'.queue)
            && forall k :: k in c.queue ==> k in c'.queue && c'.queue[k] == c.queue[k]
  {
    var c', wire := SendTag(c, tag, true), SendString(c, tag).wire;
    if AtLeastEnabled(c.context) {
      assert c' == c.(wire := wire, sent := c.sent + 1, queue := Insert(c.queue, c.sent + 1, tag));
    } else {
      assert c' == c.(wire := wire);
    }
    hide SendTag, SendString;
  }

  lemma SendNothing(c: Client)
    ensures SendAll(c, []) == c
  {
  }

  /** Six contexts and five ways to leave one. */
  lemma ContextAfterTag(c: Client, tag: Tag, onConnect: seq<Tag>)
    ensures HandleTag(c, tag, onConnect).context ==
              match tag
              case Features(true) =>
                if c.authed && c.wanted && c.context == CtxSMEnabled then CtxSMResume else c.context
              case Enabled(_, _) => CtxSMEnabled
              case Resumed(_, previd) =>
                if c.context == CtxSMResume && previd == c.id then CtxSMResumed else c.context
              case Failed => CtxSMFailed
              case _ => c.context
  {
    hide SendAll, InOrder, DropUpTo;
    SendAllBehind(c, tag, onConnect);
  }

  /** What the stanzas sent from inside `connected()` leave alone. */
  lemma SendAllBehind(c: Client, tag: Tag, onConnect: seq<Tag>)
    ensures tag.Enabled? ==>
              var c0 := c.(context := CtxSMEnabled, id := tag.id, resumable := tag.resume && tag.id != "");
              var c1 := SendAll(c0, onConnect);
              && c1 == c0.(wire := c1.wire, sent := c1.sent, queue := c1.queue)
              && forall k :: k in c.queue ==> k in c1.queue && c1.queue[k] == c.queue[k]
    ensures tag.Resumed? ==>
              var c0 := c.(context := CtxSMResumed);
              var c1 := SendAll(c0, onConnect);
              && c1 == c0.(wire := c1.wire, sent := c1.sent, queue := c1.queue)
              && forall k :: k in c.queue ==> k in c1.queue && c1.queue[k] == c.queue[k]
  {
    hide SendAll;
    if tag.Enabled? {
      SendAllKeeps(c.(context := CtxSMEnabled, id := tag.id, resumable := tag.resume && tag.id != ""), onConnect);
    }
    SendAllKeeps(c.(context := CtxSMResumed), onConnect);
  }

  /** A stanza is forgotten for one reason only: an acknowledgement that counts and reaches its number. */
  lemma ForgottenIffAcknowledged(c: Client, tag: Tag, onConnect: seq<Tag>, k: int)
    requires k in c.queue
    ensures var q := HandleTag(c, tag, onConnect).queue;
            && (k in q ==> q[k] == c.queue[k])
            && (k !in q <==>
                match tag
                case Answer(h) => 0 <= h && k <= h && c.context in {CtxSMEnabled, CtxSMResumed}
                case Resumed(h, previd) => 0 <= h && k <= h && c.context == CtxSMResume && previd == c.id
                case _ => false)
  {
    hide SendAll, InOrder;
    SendAllBehind(c, tag, onConnect);
  }

  /** Every stanza is handed on, and counted if and only if the session is managed; nothing else is either. */
  lemma HandedOnIffStanza(c: Client, tag: Tag, onConnect: seq<Tag>)
    ensures var c' := HandleTag(c, tag, onConnect);
            && c'.notified == (if tag.Stanza? then c.notified + [tag] else c.notified)
            && c'.handled
            == (if tag.Stanza? && c.context in {CtxSMEnabled, CtxSMResumed} then c.handled + 1 else c.handled)
  {
    hide SendAll, InOrder, DropUpTo;
    SendAllBehind(c, tag, onConnect);
  }

  /** What a tag makes the client write if `connected()` sends nothing. */
  lemma WrittenAfterTag(c: Client, tag: Tag)
    ensures HandleTag(c, tag, []).wire == c.wire +
              if c.transport != Connected then []
              else
                match tag
                case Features(true) =>
                  if c.authed && c.wanted && c.context == CtxSMEnabled then [Resume(c.handled, c.id)] else []
                case Request => if c.context in {CtxSMEnabled, CtxSMResumed} then [Answer(c.handled)] else []
                case Resumed(h, previd) =>
                  if 0 <= h && c.context == CtxSMResume && previd == c.id then InOrder(c.queue, Some(h)) else []
                case _ => []
  {
    hide SendAll, InOrder, DropUpTo;
    SendNothing(c.(context := CtxSMResumed));
    if tag.Enabled? {
      SendNothing(c.(context := CtxSMEnabled, id := tag.id, resumable := tag.resume && tag.id != ""));
    }
    assert c.wire + [] == c.wire;
  }

  /** Only `<enabled/>` says which session it is; no tag touches the stream's own state. */
  lemma SessionAfterTag(c: Client, tag: Tag, onConnect: seq<Tag>)
    ensures var c' := HandleTag(c, tag, onConnect);
            && c'.id == (if tag.Enabled? then tag.id else c.id)
            && (c'.resumable <==> if tag.Enabled? then tag.resume && tag.id != "" else c.resumable)
            && c'.wanted == c.wanted && c'.transport == c.transport && c'.authed == c.authed && c'.bound == c.bound
            && (onConnect == [] ==> c'.sent == c.sent)
  {
    hide SendAll, InOrder, DropUpTo;
    SendAllBehind(c, tag, onConnect);
    SendNothing(c.(context := CtxSMResumed));
    if tag.Enabled? {
      SendNothing(c.(context := CtxSMEnabled, id := tag.id, resumable := tag.resume && tag.id != ""));
    }
  }

  // ----- binding and asking

  lemma {:induction false} SendAllUnmanaged(c: Client, tags: seq<Tag>)
    requires c.transport == Connected && c.context !in {CtxSMEnabled, CtxSMResumed}
    ensures SendAll(c, tags) == c.(wire := c.wire + tags)
    decreases |tags|
  {
    if tags == [] {
      assert c.wire + tags == c.wire;
    } else {
      SendAllUnmanaged(c.(wire := c.wire + [tags[0]]), tags[1..]);
      assert c.wire + [tags[0]] + tags[1..] == c.wire + tags;
    }
  }

  /**
   * A bound client asks for a managed session if it wants one and is offered one; otherwise it
   * is connected, and what it sends then is numbered only if its session was managed already.
   */
  lemma BoundThenEnabling(c: Client, offered: bool, onConnect: seq<Tag>)
    requires c.transport == Connected
    ensures ProcessResourceBind(c, false, offered, onConnect) == c
    ensures var c' := ProcessResourceBind(c, true, offered, onConnect);
            && (offered && c.wanted && c.context == CtxSMInvalid ==>
                c' == c.(bound := true, context := CtxSMEnable, handled := 0, wire := c.wire + [Enable(c.resumable)]))
            && (!(offered && c.wanted) && c.context !in {CtxSMEnabled, CtxSMResumed} ==>
                c' == c.(bound := true, wire := c.wire + onConnect))
  {
    if c.context !in {CtxSMEnabled, CtxSMResumed} {
      SendAllUnmanaged(c.(bound := true), onConnect);
    }
    hide SendAll;
  }

  /** `setStreamManagement` speaks to the server only when the resource is bound. */
  lemma AsksAtOnceIffBound(c: Client, resume: bool)
    requires c.transport == Connected
    ensures SetStreamManagement(c, false, resume) == c.(wanted := false, id := "", resumable := false)
    ensures var c1, c' := c.(wanted := true, resumable := resume), SetStreamManagement(c, true, resume);
            && (c.context == CtxSMInvalid && c.bound ==>
                c' == c1.(context := CtxSMEnable, handled := 0, wire := c.wire + [Enable(resume)]))
            && (c.context == CtxSMEnabled && c.bound ==>
                c' == c1.(context := CtxSMResume, wire := c.wire + [Resume(c.handled, c.id)]))
            && (!c.bound || c.context !in {CtxSMInvalid, CtxSMEnabled} ==> c' == c1)
  {
  }

  /** An acknowledgement is asked for, or given, only in a managed session. */
  lemma RequestsNeedManagedSession(c: Client)
    requires c.transport == Connected
    ensures ReqStreamManagement(c)
         == if c.context in {CtxSMEnabled, CtxSMResumed} then c.(wire := c.wire + [Request]) else c
    ensures AckStreamManagement(c)
         == if c.context in {CtxSMEnabled, CtxSMResumed} then c.(wire := c.wire + [Answer(c.handled)]) else c
  {
  }

  // ----- ending

  /**
   * `disconnect()` forgets the session and the count of what was handled, and nothing of what
   * the client kept for the server; the count of what was sent goes with a transport only.
   */
  lemma ForgottenByDisconnect(c: Client)
    ensures var c' := UserDisconnect(c);
            && c'.context == CtxSMInvalid && c'.handled == 0 && c'.id == "" && !c'.wanted && !c'.resumable
            && c'.transport == Unconnected && !c'.authed && !c'.bound
            && c'.queue == c.queue && c'.notified == c.notified
            && c'.sent == (if c.transport == Unconnected then c.sent else 0)
            && (c.transport != Unconnected ==> c'.wire == [])
  {
  }
}
