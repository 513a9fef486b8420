/** Each step of the macOS system keeps its invariant. */
module MacSystemSafety {
  import opened Wire
  import opened Messages
  import opened Frames
  import opened Dispatch
  import opened FifoSocket
  import opened MacServer
  import opened MacSystem

  // ----- the server

  lemma IdleRequests(s: Srv)
    requires Idle(s) && ReqEnabled(s, [])
    ensures var (s', rin) := ReqStep(s, []); Idle(s') && rin == []
  {
    hide ParseMsg, ReadInto;
  }

  /** A whole frame alone in a pipe is taken apart by the two reads. */
  lemma FrameReads(buf: Bytes, m: Msg)
    requires Sendable(m)
    ensures var body := EncodeMsg(m); var pipe := [Frame(m)]; var h := ReadInto(buf, HEADER, Head(pipe, HEADER));
            h == Frames.Header(|body|) && ReadSize(h) == |body| > 1 && Behead(pipe, HEADER) == [body] &&
            Head([body], |body|) == body && ReadInto(h, |body|, body) == body && Behead([body], |body|) == []
  {
    hide EncodeMsg;
    BodySize(m);
    HeaderOfWrap(EncodeMsg(m));
    var h := Frame(m)[..HEADER];
    assert ReadInto(buf, HEADER, h) == h;
  }

  lemma TakeHeader(s: Srv, m: Msg)
    requires CallShape(m) && Idle(s) && ReqEnabled(s, [Frame(m)])
    ensures var (s', rin) := ReqStep(s, [Frame(m)]); (Idle(s') && rin == [Frame(m)]) || Taking(s', rin, m)
  {
    hide EncodeMsg, ParseMsg, ReadInto, ReadSize, Frame, Frames.Header, Sendable;
    FrameReads([], m);
  }

  lemma RequestParses(m: Msg)
    requires CallShape(m)
    ensures ParseMsg(EncodeMsg(m), 0, CALL_HEADS, Aborted) == Done((m, |EncodeMsg(m)|))
  {
    hide EncodeMsg, ParseMsg;
    BodySize(m);
    assert Has(EncodeMsg(m), 0, EncodeMsg(m));
    ParseEncodeFitting(EncodeMsg(m), 0, m, Aborted);
  }

  lemma TakeRequest(s: Srv, rin: Pipe, m: Msg)
    requires CallShape(m) && Taking(s, rin, m) && ReqEnabled(s, rin)
    ensures var (s', rin') := ReqStep(s, rin); Taking(s', rin', m)
  {
    hide EncodeMsg, ParseMsg, ReadInto, ReadSize, Frames.Header, Sendable, Finishable, Frame;
    if s.req.ReqBody? {
      FrameReads(s.rbuf, m);
      assert |Frame(m)| == HEADER + |EncodeMsg(m)|;
    } else if s.req.ReqParse? {
      RequestParses(m);
    }
  }

  lemma RequestsKeepFlow(reg: Registry, s: Sys, c: Client)
    requires Flow(reg, s, c) && CallShape(c.call) && Holds(c.at) && Enabled(reg, s, Requests)
    ensures Flow(reg, Next(reg, s, Requests), c)
  {
    hide ReqStep, ReqEnabled, Answered, Unanswered, Frame, EncodeMsg, ReplyTo, CallShape, View, Frames.Header;
    if Idle(s.sv) && s.rin == [] {
      IdleRequests(s.sv);
    } else if Running(s.sv, s.rin) {
      RunningRequests(s.sv);
    } else if Idle(s.sv) {
      TakeHeader(s.sv, c.call);
    } else {
      TakeRequest(s.sv, s.rin, c.call);
    }
  }

  lemma RunningRequests(s: Srv)
    requires Running(s, []) && ReqEnabled(s, [])
    ensures var (s', rin) := ReqStep(s, []); Running(s', rin) && s'.rep == s.rep && rin == []
  {
    hide ParseMsg, ReadInto;
  }

  lemma IdleReplies(s: Srv, out: Pipe, v: Verdict)
    requires Idle(s) && RepEnabled(s)
    ensures var (s', out') := RepStep(s, out, v); Idle(s') && out' == out
  {
    hide ReplyTo, Frame;
  }

  lemma TakeReplies(s: Srv, rin: Pipe, m: Msg, out: Pipe, v: Verdict)
    requires Taking(s, rin, m) && RepEnabled(s)
    ensures var (s', out') := RepStep(s, out, v);
            (Taking(s', rin, m) || (Running(s', rin) && s'.rep == RepRun(m))) && out' == out
  {
    hide ReplyTo, Frame, EncodeMsg, Frames.Header;
  }

  lemma RunReplies(reg: Registry, s: Sys, c: Client, v: Verdict)
    requires c.at.Header? && HeaderFlow(reg, s, c.call) && Running(s.sv, s.rin) && Enabled(reg, s, Replies(v))
    ensures HeaderFlow(reg, Next(reg, s, Replies(v)), c.call)
  {
    hide Dispatched, Frame, EncodeMsg, ReplyTo;
    if s.sv.rep.RepRun? {
      var handled := s.handled + [(c.call, v)];
      assert Calls(handled) == Calls(s.handled) + [c.call];
      assert !Unanswered(handled, s.finished) by { assert |Calls(handled)| == |s.finished| + 1; }
      assert Answered(reg, handled, s.finished, c.call);
    }
  }

  lemma RepliesKeepFlow(reg: Registry, s: Sys, c: Client, v: Verdict)
    requires Flow(reg, s, c) && Holds(c.at) && Enabled(reg, s, Replies(v))
    ensures Flow(reg, Next(reg, s, Replies(v)), c)
  {
    hide Dispatched, Frame, EncodeMsg, ReplyTo, View, Frames.Header, RepStep, RepEnabled, Answered, Unanswered;
    if Idle(s.sv) {
      IdleReplies(s.sv, s.rout, v);
    } else if Running(s.sv, s.rin) {
      hide HeaderFlow;
      RunReplies(reg, s, c, v);
    } else {
      TakeReplies(s.sv, s.rin, c.call, s.rout, v);
    }
  }

  // ----- the registry and the token

  /** A thread that moves inside its call, or leaves it, disturbs nobody. */
  lemma MoveBooks(counter: nat, cb: map<u64, Tid>, cs: seq<Client>, t: Tid, c: Client)
    requires Books(counter, cb, cs) && t < |cs| && !cs[t].at.Away? && c.uid == cs[t].uid
    requires c.at.Away? || ClientOk(counter, cb, t, c)
    requires Registered(c) == Registered(cs[t])
    ensures Books(counter, cb, cs[t := c])
  {
    hide ClientOk, Registered;
  }

  lemma EnterBooks(counter: nat, cb: map<u64, Tid>, cs: seq<Client>, t: Tid, c: Client)
    requires Books(counter, cb, cs) && t < |cs| && cs[t].at.Away? && counter + 1 < P64
    requires c.uid == counter + 1 && Numbers(c.call, c.uid) && c.call == AskMsg(c.uid, c.asked) && c.slot == EMPTY
    requires c.at == if c.sync then Register else Acquire
    ensures Books(counter + 1, cb, cs[t := c])
  {
    hide Numbers;
  }

  /** Each registered uid belongs to its own thread, so the uid of a thread that did not register
      is not there. */
  lemma NotRegistered(counter: nat, cb: map<u64, Tid>, cs: seq<Client>, t: Tid)
    requires Books(counter, cb, cs) && t < |cs| && !cs[t].at.Away? && !Registered(cs[t])
    ensures cs[t].uid !in cb
  {
    hide ClientOk;
  }

  lemma RegisterBooks(counter: nat, cb: map<u64, Tid>, cs: seq<Client>, t: Tid)
    requires Books(counter, cb, cs) && t < |cs| && cs[t].at.Register?
    ensures cs[t].uid !in cb && Books(counter, cb[cs[t].uid := t], cs[t := cs[t].(at := Acquire)])
  {
    NotRegistered(counter, cb, cs, t);
    hide Numbers, AskMsg;
    var uid, c := cs[t].uid, cs[t].(at := Acquire);
    assert ClientOk(counter, cb, t, cs[t]);
    forall u | 0 <= u < |cs| && u != t && !cs[u].at.Away?
      ensures ClientOk(counter, cb[uid := t], u, cs[u])
    {
      assert ClientOk(counter, cb, u, cs[u]);
    }
  }

  lemma DecodeBooks(counter: nat, cb: map<u64, Tid>, cs: seq<Client>, t: Tid, slot: Slot)
    requires Books(counter, cb, cs) && t < |cs| && cs[t].at.Decode? && cs[t].sync
    ensures Books(counter, cb - {cs[t].uid}, cs[t := cs[t].(at := Await, slot := slot)])
  {
    hide Numbers;
    var uid, c := cs[t].uid, cs[t].(at := Await, slot := slot);
    assert ClientOk(counter, cb, t, cs[t]);
    forall u | 0 <= u < |cs| && u != t && !cs[u].at.Away?
      ensures ClientOk(counter, cb - {uid}, u, cs[u])
    {
      assert ClientOk(counter, cb, u, cs[u]);
      assert u < t || t < u;
    }
  }

  lemma AcquireOwned(sem: nat, holder: Option<Tid>, cs: seq<Client>, t: Tid, c: Client)
    requires Owned(sem, holder, cs) && sem > 0 && t < |cs| && Holds(c.at)
    ensures Owned(sem - 1, Some(t), cs[t := c]) && holder.None?
  {}

  lemma ReleaseOwned(sem: nat, holder: Option<Tid>, cs: seq<Client>, t: Tid, c: Client)
    requires Owned(sem, holder, cs) && t < |cs| && Holds(cs[t].at) && !Holds(c.at)
    ensures Owned(sem + 1, None, cs[t := c]) && holder == Some(t)
  {}

  // ----- the holder of the token

  lemma ReplyRead(m: Msg)
    requires Sendable(m) && |m.heads| == REPLY_HEADS
    ensures ParseMsg(EncodeMsg(m), 0, REPLY_HEADS, Thrown) == Done((m, |EncodeMsg(m)|))
  {
    hide EncodeMsg, ParseMsg;
    assert Has(EncodeMsg(m), 0, EncodeMsg(m));
    ParseEncodeFitting(EncodeMsg(m), 0, m, Thrown);
  }

  /** A step that moves its thread on and otherwise touches the buffer and the pipes only. */
  predicate Advances(s: Sys, s': Sys, t: Tid, c: Client) {
    t < |s.clients| && s' == s.(clients := s.clients[t := c], buf := s'.buf, rin := s'.rin, rout := s'.rout)
  }

  lemma WriteFlows(reg: Registry, s: Sys, t: Tid)
    requires s.holder == Some(t) && Flows(reg, s) && s.clients[t].at.Write?
    ensures Flows(reg, Moved(s, t)) && Advances(s, Moved(s, t), t, s.clients[t].(at := Header))
  {
    hide Idle, Frame, EncodeMsg, Unanswered;
  }

  lemma HeaderFlows(reg: Registry, s: Sys, t: Tid)
    requires s.holder == Some(t) && Flows(reg, s) && s.clients[t].at.Header? && s.rout != []
    ensures Flows(reg, Moved(s, t)) && Advances(s, Moved(s, t), t, s.clients[t].(at := Body))
  {
    FrameReads(s.buf, Answer(s.handled));
    hide Idle, Frame, EncodeMsg, ReadInto, ReadSize, ReplyTo, Taking, Running, Frames.Header, Head, Behead;
  }

  ghost predicate IsAnswer(handled: seq<(Msg, Verdict)>, reply: Msg) {
    handled != [] && |handled[|handled| - 1].0.heads| == CALL_HEADS && reply == Answer(handled) && reply.Shaped()
  }

  /** The reply whose body the holder is about to read. */
  lemma BodyWaits(reg: Registry, s: Sys, c: Client) returns (reply: Msg)
    requires Flow(reg, s, c) && c.at.Body?
    ensures IsAnswer(s.handled, reply) && Sendable(reply)
    ensures s.rout == [EncodeMsg(reply)] && s.buf == Frames.Header(|EncodeMsg(reply)|)
  {
    hide EncodeMsg, Idle, Frames.Header;
    reply := Answer(s.handled);
  }

  lemma BodyFlows(reg: Registry, s: Sys, t: Tid)
    requires s.holder == Some(t) && Flows(reg, s) && s.clients[t].at.Body? && s.rout != []
    ensures Flows(reg, Moved(s, t))
    ensures Advances(s, Moved(s, t), t, s.clients[t].(at := if CanRead(s.rout) then Decode else More))
  {
    hide EncodeMsg, Idle, Frames.Header, Frame, ReadInto, ReadSize, ReplyTo, Finishable, Head, Behead, Sendable;
    var reply := BodyWaits(reg, s, s.clients[t]);
    FrameReads(s.buf, reply);
    BodyReadable(reply);
  }

  lemma BodyReadable(m: Msg)
    ensures Readable(m) <==> Finishable(HEADER + |EncodeMsg(m)|)
  {}

  /** A reply that cannot be finished is the last thing in the pipe. */
  lemma MoreFlows(reg: Registry, s: Sys, t: Tid)
    requires s.holder == Some(t) && Flows(reg, s) && s.clients[t].at.More?
    ensures s.rout == []
  {
    hide Idle, Frame, EncodeMsg, ReplyTo, Finishable;
  }

  /** The buffer holds a reply to the call of the thread t, whose callback is in the registry. */
  ghost predicate Replied(s: Sys, t: Tid, reply: Msg) {
    && t < |s.clients| && s.clients[t].at.Decode?
    && ParseMsg(s.buf, 0, REPLY_HEADS, Thrown) == Done((reply, |s.buf|)) && reply.Shaped()
    && reply.heads[0].Shaped() && UidOf(reply.heads[0]) == s.clients[t].uid
    && if s.clients[t].sync then s.clients[t].uid in s.cb && s.cb[s.clients[t].uid] == t && s.clients[t].slot == EMPTY
       else s.clients[t].uid !in s.cb
  }

  /** The parse of reply moves the thread t on: with a callback its slot is filled, without one the
      token is posted at once. */
  ghost function ReplyTaken(s: Sys, t: Tid, reply: Msg): Sys
    requires Replied(s, t, reply)
  {
    var c := s.clients[t];
    if c.sync then With(s, t, c.(at := Await, slot := Slot(true, View(reply), 1))).(cb := s.cb - {c.uid})
    else With(Posted(s, c.call), t, c.(at := Away))
  }

  lemma DecodeEffect(s: Sys, t: Tid, reply: Msg)
    requires Replied(s, t, reply)
    ensures Moved(s, t) == ReplyTaken(s, t, reply)
  {
    hide ParseMsg, View, UidOf;
    var c := s.clients[t];
    if c.sync {
      var slot := Slot(true, View(reply), 1);
      assert Called(EMPTY, View(reply)) == slot;
      var c' := c.(at := Await, slot := slot);
      assert s.clients[t := c.(slot := slot)][t := c'] == s.clients[t := c'];
    }
  }

  lemma TakenFlows(reg: Registry, s: Sys, t: Tid, reply: Msg)
    requires s.holder == Some(t) && Flows(reg, s) && Replied(s, t, reply) && IsAnswer(s.handled, reply)
    ensures Flows(reg, ReplyTaken(s, t, reply))
  {
    hide EncodeMsg, ParseMsg, View, UidOf, ReplyTo, Dispatched, Idle;
  }

  lemma DecodedReply(reg: Registry, s: Sys, t: Tid)
    requires s.holder == Some(t) && Flows(reg, s) && s.clients[t].at.Decode?
    requires Books(s.counter, s.cb, s.clients)
    ensures exists reply :: Replied(s, t, reply) && IsAnswer(s.handled, reply)
  {
    hide EncodeMsg, ParseMsg, View, Idle;
    var c, reply := s.clients[t], Answer(s.handled);
    ReplyRead(reply);
    assert reply.heads[0] in reply.heads;
    assert ClientOk(s.counter, s.cb, t, c);
    AnsweredLast(s.handled, s.finished, c.call);
    UidRoundTrip(c.uid);
    if !c.sync {
      NotRegistered(s.counter, s.cb, s.clients, t);
    }
    assert Replied(s, t, reply) && IsAnswer(s.handled, reply);
  }

  /** The reply in the buffer is the one to the holder's own call. */
  lemma DecodeFlows(reg: Registry, s: Sys, t: Tid)
    requires s.holder == Some(t) && Flows(reg, s) && s.clients[t].at.Decode?
    requires Books(s.counter, s.cb, s.clients)
    ensures Flows(reg, Moved(s, t))
    ensures exists reply :: Replied(s, t, reply) && Moved(s, t) == ReplyTaken(s, t, reply)
  {
    DecodedReply(reg, s, t);
    hide Flows, Moved, ReplyTaken, Replied, Books;
    var reply :| Replied(s, t, reply) && IsAnswer(s.handled, reply);
    DecodeEffect(s, t, reply);
    TakenFlows(reg, s, t, reply);
  }

  lemma AnsweredLast(handled: seq<(Msg, Verdict)>, finished: seq<Msg>, m: Msg)
    requires handled != [] && Calls(handled) == finished + [m]
    ensures handled[|handled| - 1].0 == m && |finished| == |handled| - 1
  {
    assert Calls(handled)[|handled| - 1] == m;
  }

  lemma AwaitFlows(reg: Registry, s: Sys, t: Tid)
    requires s.holder == Some(t) && Flows(reg, s) && s.clients[t].at.Await? && s.clients[t].slot.sem > 0
    ensures Flows(reg, Moved(s, t))
    ensures Advances(s, Moved(s, t), t, s.clients[t].(at := Release, slot := s.clients[t].slot.(sem := 0)))
  {
    hide Idle, EncodeMsg, ReplyTo, View, Dispatched;
  }

  /** The step with which a helper posts the token and returns. */
  predicate Ends(s: Sys, s': Sys, t: Tid) {
    t < |s.clients| && var c := s.clients[t];
    s' == s.(clients := s.clients[t := c.(at := Away)], sem := s.sem + 1, holder := None, finished := s'.finished,
             returned := s.returned + [Result(c.uid, c.asked, c.slot.values)])
  }

  lemma ReleaseFlows(reg: Registry, s: Sys, t: Tid)
    requires s.holder == Some(t) && Flows(reg, s) && s.clients[t].at.Release?
    ensures Flows(reg, Moved(s, t)) && Ends(s, Moved(s, t), t)
    ensures s.clients[t].call == AskMsg(s.clients[t].uid, s.clients[t].asked) ==>
              Own(reg, s.handled, Result(s.clients[t].uid, s.clients[t].asked, s.clients[t].slot.values))
  {
    hide Idle, EncodeMsg, ReplyTo, View, Dispatched;
    AnsweredLast(s.handled, s.finished, s.clients[t].call);
    assert s.handled[|s.handled| - 1] in s.handled;
  }
}
