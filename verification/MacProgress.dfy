/** The macOS system: the way of a thread through a call, each call dispatched once, and what the
    lengths of its frames must be for a call to end. */
module MacProgress {
  import opened Wire
  import opened Messages
  import opened Frames
  import opened Dispatch
  import opened FifoSocket
  import opened MacServer
  import opened MacSystem
  import opened MacSystemSafety
  import opened MacSystemRuns

  // ----- the way of a thread

  function NextAt(s: Sys, c: Client): At {
    match c.at
    case Away => Away
    case Register => Acquire
    case Acquire => Write
    case Write => Header
    case Header => Body
    case Body => if CanRead(s.rout) then Decode else More
    case More => Decode
    case Decode => if c.sync then Await else Away
    case Await => Release
    case Release => Away
  }

  predicate Posts(c: Client) { c.at.Release? || (c.at.Decode? && !c.sync) }

  /** The thread t goes one place on; the last step posts the token and finishes the call. */
  predicate Goes(s: Sys, s': Sys, t: Tid) {
    t < |s.clients| == |s'.clients| && !s.clients[t].at.More? && var c, c' := s.clients[t], s'.clients[t];
    && s'.clients == s.clients[t := c'] && c'.at == NextAt(s, c) && c'.call == c.call
    && s'.handled == s.handled && s'.sv == s.sv && s'.counter == s.counter
    && s'.finished == (if Posts(c) then s.finished + [c.call] else s.finished)
    && s'.rin == (if c.at.Write? then s.rin + [Frame(c.call)] else s.rin)
    && s'.holder == (if Posts(c) then None else if c.at.Acquire? then Some(t) else s.holder)
  }

  /** No call returns early, gives up, throws or posts twice. */
  lemma MoveGoes(reg: Registry, s: Sys, t: Tid)
    requires Inv(reg, s) && t < |s.clients| && CanMove(s, s.clients[t])
    ensures Goes(s, Moved(s, t), t)
  {
    hide Inv, Flows, Books, Own, Moved;
    var c := s.clients[t];
    if Holds(c.at) {
      HolderFacts(reg, s, t);
      match c.at
      case Header => HeaderFlows(reg, s, t); AdvanceGoes(s, t, c.(at := Body));
      case More => MoreFlows(reg, s, t);
      case Decode => DecodeGoes(reg, s, t);
      case Await =>
        AwaitFlows(reg, s, t);
        AdvanceGoes(s, t, c.(at := Release, slot := c.slot.(sem := 0)));
      case _ => PlainGoes(s, t);
    } else {
      PlainGoes(s, t);
    }
  }

  lemma AdvanceGoes(s: Sys, t: Tid, c: Client)
    requires t < |s.clients| && CanMove(s, s.clients[t])
    requires Advances(s, Moved(s, t), t, c) && c.call == s.clients[t].call
    requires (s.clients[t].at.Header? && c.at.Body?) || (s.clients[t].at.Await? && c.at.Release?)
    ensures Goes(s, Moved(s, t), t)
  {
    hide ReadInto, Head, Behead, ReadSize, Decoded;
  }

  lemma PlainGoes(s: Sys, t: Tid)
    requires t < |s.clients| && CanMove(s, s.clients[t])
    requires var at := s.clients[t].at; at.Register? || at.Acquire? || at.Write? || at.Body? || at.Release?
    ensures Goes(s, Moved(s, t), t)
  {
    hide ReadInto, Head, Behead, ReadSize, Decoded, Frame;
  }

  lemma DecodeGoes(reg: Registry, s: Sys, t: Tid)
    requires s.holder == Some(t) && Flows(reg, s) && s.clients[t].at.Decode? && Books(s.counter, s.cb, s.clients)
    ensures Goes(s, Moved(s, t), t)
  {
    hide Flow, Moved, Books, View, UidOf, ParseMsg;
    DecodeFlows(reg, s, t);
    hide Flows;
    var reply :| Replied(s, t, reply) && Moved(s, t) == ReplyTaken(s, t, reply);
  }

  // ----- exactly once

  ghost predicate Once(counter: nat, cs: seq<Client>, finished: seq<Msg>) {
    && (forall m <- finished :: exists uid: u64 :: uid <= counter && Numbers(m, uid))
    && (forall t :: 0 <= t < |cs| && !cs[t].at.Away? ==> cs[t].call !in finished)
    && (forall i, j :: 0 <= i < j < |finished| ==> finished[i] != finished[j])
  }

  lemma EnterOnce(counter: nat, cs: seq<Client>, finished: seq<Msg>, t: Tid, c: Client)
    requires Once(counter, cs, finished) && t < |cs| && counter + 1 < P64 && Numbers(c.call, counter + 1)
    ensures Once(counter + 1, cs[t := c], finished)
  {
    hide Numbers;
    forall m <- finished
      ensures m != c.call && exists uid: u64 :: uid <= counter + 1 && Numbers(m, uid)
    {
      var uid: u64 :| uid <= counter && Numbers(m, uid);
      if m == c.call {
        SameUid(m, uid, counter + 1);
      }
    }
  }

  lemma FinishOnce(counter: nat, cb: map<u64, Tid>, cs: seq<Client>, finished: seq<Msg>, t: Tid, c: Client)
    requires Once(counter, cs, finished) && Books(counter, cb, cs)
    requires t < |cs| && !cs[t].at.Away? && c.at.Away?
    ensures Once(counter, cs[t := c], finished + [cs[t].call])
  {
    hide Numbers;
    var m := cs[t].call;
    assert ClientOk(counter, cb, t, cs[t]);
    forall u | 0 <= u < |cs| && u != t && !cs[u].at.Away?
      ensures cs[u].call != m
    {
      assert ClientOk(counter, cb, u, cs[u]);
      assert u < t || t < u;
      if cs[u].call == m {
        SameUid(m, cs[u].uid, cs[t].uid);
      }
    }
  }

  lemma MoveOnce(reg: Registry, s: Sys, t: Tid)
    requires Inv(reg, s) && t < |s.clients| && CanMove(s, s.clients[t]) && Once(s.counter, s.clients, s.finished)
    ensures Once(s.counter, Moved(s, t).clients, Moved(s, t).finished)
  {
    hide Books, Flow, Own, Numbers, Moved, Owned, Flows;
    MoveGoes(reg, s, t);
    if Posts(s.clients[t]) {
      FinishOnce(s.counter, s.cb, s.clients, s.finished, t, Moved(s, t).clients[t]);
    }
  }

  // ----- the frames that can be read

  /** Call and reply of a dispatch both have frames whose body the read loop can finish. */
  predicate Carried(h: (Msg, Verdict)) {
    |h.0.heads| == CALL_HEADS && Readable(h.0) && Readable(ReplyTo(h.0, h.1))
  }

  ghost predicate TakenReadable(s: Srv, handled: seq<(Msg, Verdict)>) {
    && (s.req.ReqPush? ==> Readable(s.req.call)) && (forall m <- s.msgs :: Readable(m))
    && (s.rep.RepRun? ==> Readable(s.rep.call)) && (forall h <- handled :: Readable(h.0))
  }

  /** The reply of the holder was read. */
  predicate HasReply(s: Sys) {
    s.holder.Some? && s.holder.value < |s.clients| &&
    var at := s.clients[s.holder.value].at; at.Decode? || at.Await? || at.Release?
  }

  ghost predicate ReadReadable(handled: seq<(Msg, Verdict)>, n: nat) {
    n <= |handled| && forall i :: 0 <= i < n ==> Carried(handled[i])
  }

  function Got(s: Sys): nat { |s.finished| + (if HasReply(s) then 1 else 0) }

  ghost predicate Full(reg: Registry, s: Sys) {
    && Inv(reg, s) && Once(s.counter, s.clients, s.finished)
    && TakenReadable(s.sv, s.handled) && ReadReadable(s.handled, Got(s))
  }

  lemma ReqReadable(s: Srv, rin: Pipe, m: Msg, handled: seq<(Msg, Verdict)>)
    requires TakenReadable(s, handled) && ReqEnabled(s, rin) && CallShape(m)
    requires Taking(s, rin, m) || Running(s, rin)
    ensures TakenReadable(ReqStep(s, rin).0, handled)
  {
    hide ParseMsg, EncodeMsg, ReadInto, ReadSize, Finishable, GoesOn, Sendable, Frame;
    if Taking(s, rin, m) && s.req.ReqParse? {
      RequestParses(m);
    }
  }

  lemma Located(reg: Registry, s: Sys) returns (m: Msg)
    requires Inv(reg, s)
    ensures Idle(s.sv) || (CallShape(m) && (Taking(s.sv, s.rin, m) || Running(s.sv, s.rin)))
  {
    hide Idle, Taking, Running, Answered, Unanswered, Books, Own, View, EncodeMsg, CallShape;
    m := Msg([], []);
    if s.holder.Some? {
      OneOk(s, s.holder.value);
      m := s.clients[s.holder.value].call;
    }
  }

  lemma GotGoes(s: Sys, s': Sys, t: Tid)
    requires Owned(s.sem, s.holder, s.clients) && Goes(s, s', t) && !s.clients[t].at.Away?
    requires s.clients[t].at.Acquire? ==> s.sem > 0
    ensures Got(s') == Got(s) + (if s.clients[t].at.Body? && CanRead(s.rout) then 1 else 0)
  {}

  lemma BodyCarried(reg: Registry, s: Sys, t: Tid)
    requires s.holder == Some(t) && Flows(reg, s) && s.clients[t].at.Body? && CanRead(s.rout)
    requires TakenReadable(s.sv, s.handled) && ReadReadable(s.handled, |s.finished|)
    ensures ReadReadable(s.handled, |s.finished| + 1)
  {
    hide EncodeMsg, Finishable, Idle, Sendable, Allowed, ReplyTo;
    AnsweredLast(s.handled, s.finished, s.clients[t].call);
    assert s.handled[|s.finished|] in s.handled;
    assert Readable(Answer(s.handled));
  }

  lemma MoveFull(reg: Registry, s: Sys, t: Tid)
    requires Full(reg, s) && t < |s.clients| && CanMove(s, s.clients[t])
    ensures Full(reg, Moved(s, t))
  {
    StepKeeps(reg, s, Move(t));
    MoveOnce(reg, s, t);
    MoveGoes(reg, s, t);
    InvOwned(reg, s);
    GotGoes(s, Moved(s, t), t);
    if s.clients[t].at.Body? && CanRead(s.rout) {
      HolderFacts(reg, s, t);
      hide Inv, Moved, Flows, Books, Once, TakenReadable;
      BodyCarried(reg, s, t);
    }
  }

  lemma EnterFull(reg: Registry, s: Sys, a: Action)
    requires Full(reg, s) && a.Enter? && Enabled(reg, s, a)
    ensures Full(reg, Next(reg, s, a))
  {
    StepKeeps(reg, s, a);
    InvOwned(reg, s);
    hide Inv, Once, TakenReadable, Sendable;
    EnterOnce(s.counter, s.clients, s.finished, a.t, Next(reg, s, a).clients[a.t]);
  }

  lemma RequestsReadable(reg: Registry, s: Sys)
    requires Inv(reg, s) && TakenReadable(s.sv, s.handled) && ReqEnabled(s.sv, s.rin)
    ensures TakenReadable(ReqStep(s.sv, s.rin).0, s.handled)
  {
    var m := Located(reg, s);
    hide Inv, ReqStep, TakenReadable, ReqEnabled, Idle;
    if Idle(s.sv) {
      IdleReadable(s.sv, s.rin, s.handled);
    } else {
      ReqReadable(s.sv, s.rin, m, s.handled);
    }
  }

  lemma RepReadable(s: Srv, out: Pipe, handled: seq<(Msg, Verdict)>, v: Verdict)
    requires TakenReadable(s, handled) && RepEnabled(s) && (s.rep.RepRun? ==> |s.rep.call.heads| == CALL_HEADS)
    ensures TakenReadable(RepStep(s, out, v).0, if s.rep.RepRun? then handled + [(s.rep.call, v)] else handled)
  {
    hide Readable, Frame, ReplyTo;
  }

  lemma RequestsFull(reg: Registry, s: Sys)
    requires Full(reg, s) && Enabled(reg, s, Requests)
    ensures Full(reg, Next(reg, s, Requests))
  {
    StepKeeps(reg, s, Requests);
    RequestsReadable(reg, s);
    hide Inv, Once, TakenReadable, ReqStep, ReqEnabled, Carried;
  }

  lemma RepliesFull(reg: Registry, s: Sys, v: Verdict)
    requires Full(reg, s) && Enabled(reg, s, Replies(v))
    ensures Full(reg, Next(reg, s, Replies(v)))
  {
    StepKeeps(reg, s, Replies(v));
    hide Inv, Once, Sendable, Allowed;
    RepReadable(s.sv, s.rout, s.handled, v);
    hide TakenReadable, RepStep, Carried;
  }

  lemma IdleReadable(s: Srv, rin: Pipe, handled: seq<(Msg, Verdict)>)
    requires TakenReadable(s, handled) && ReqEnabled(s, rin) && Idle(s)
    ensures TakenReadable(ReqStep(s, rin).0, handled)
  {
    hide ReadInto, ReadSize, Finishable;
  }

  lemma StepFull(reg: Registry, s: Sys, a: Action)
    requires Full(reg, s) && Enabled(reg, s, a)
    ensures Full(reg, Next(reg, s, a))
  {
    hide Full;
    match a
    case Enter(_, _, _, _, _) => EnterFull(reg, s, a);
    case Move(t) => hide Moved; MoveFull(reg, s, t);
    case Requests => RequestsFull(reg, s);
    case Replies(v) => RepliesFull(reg, s, v);
  }
}
