/** Every run of the macOS system: one token, one message, own results. */
module MacSystemRuns {
  import opened Wire
  import opened Values
  import opened Messages
  import opened Frames
  import opened Dispatch
  import opened MacServer
  import opened MacSystem
  import opened MacSystemSafety

  lemma EnterKeeps(reg: Registry, s: Sys, a: Action)
    requires Inv(reg, s) && a.Enter? && Enabled(reg, s, a)
    ensures Inv(reg, Next(reg, s, a))
  {
    hide Flow, Books, Own, Unanswered, Idle;
    var s', t := Next(reg, s, a), a.t;
    EnterBooks(s.counter, s.cb, s.clients, t, s'.clients[t]);
    if s.holder.Some? {
      SameFlow(reg, s, s', s.clients[s.holder.value]);
    }
  }

  lemma SameFlow(reg: Registry, s: Sys, s': Sys, c: Client)
    requires Flow(reg, s, c)
    requires s' == s.(counter := s'.counter, clients := s'.clients, cb := s'.cb)
    ensures Flow(reg, s', c)
  {
    hide Idle, Taking, Running, Answered, Unanswered, Answer, EncodeMsg;
  }

  /** The steps of a thread that does not hold the token. */
  lemma OutsideKeeps(reg: Registry, s: Sys, t: Tid)
    requires Inv(reg, s) && t < |s.clients| && CanMove(s, s.clients[t]) && !Holds(s.clients[t].at)
    ensures Inv(reg, Moved(s, t))
  {
    hide Flow, Books, Own, Unanswered, Idle;
    var s' := Moved(s, t);
    var c := s'.clients[t];
    if s.clients[t].at.Register? {
      RegisterBooks(s.counter, s.cb, s.clients, t);
      if s.holder.Some? {
        SameFlow(reg, s, s', s.clients[s.holder.value]);
      }
    } else {
      AcquireOwned(s.sem, s.holder, s.clients, t, c);
      OneOk(s, t);
      MoveBooks(s.counter, s.cb, s.clients, t, c);
      assert Flow(reg, s', c) by { AcquireFlow(reg, s', c); }
    }
  }

  lemma AcquireFlow(reg: Registry, s: Sys, c: Client)
    requires c.at.Write? && Unanswered(s.handled, s.finished) && Idle(s.sv) && s.rin == [] && s.rout == []
    ensures Flow(reg, s, c)
  {}

  lemma OneOk(s: Sys, t: Tid)
    requires Books(s.counter, s.cb, s.clients) && t < |s.clients| && !s.clients[t].at.Away?
    ensures ClientOk(s.counter, s.cb, t, s.clients[t]) && CallShape(s.clients[t].call)
  {}

  lemma HolderFacts(reg: Registry, s: Sys, t: Tid)
    requires Inv(reg, s) && t < |s.clients| && Holds(s.clients[t].at)
    ensures s.holder == Some(t) && Flows(reg, s) && ClientOk(s.counter, s.cb, t, s.clients[t])
    ensures Books(s.counter, s.cb, s.clients)
  {
    hide Flows, ClientOk;
  }

  lemma AdvanceKeeps(reg: Registry, s: Sys, s': Sys, t: Tid, c: Client)
    requires Inv(reg, s) && Advances(s, s', t, c) && Flows(reg, s')
    requires Holds(s.clients[t].at) && Holds(c.at) && ClientOk(s.counter, s.cb, t, c) && c.uid == s.clients[t].uid
    requires Registered(c) == Registered(s.clients[t])
    ensures Inv(reg, s')
  {
    hide Books, Own, Flows, Registered, ClientOk;
    MoveBooks(s.counter, s.cb, s.clients, t, c);
  }

  /** The steps of the holder up to the parse, and the one that finds its slot filled. */
  lemma HolderKeeps(reg: Registry, s: Sys, t: Tid)
    requires Inv(reg, s) && t < |s.clients| && CanMove(s, s.clients[t])
    requires !s.clients[t].at.Decode? && !s.clients[t].at.Release? && Holds(s.clients[t].at)
    ensures Inv(reg, Moved(s, t))
  {
    hide Inv, Flows, Moved, Numbers, CanRead, Books, Owned;
    var c := s.clients[t];
    HolderFacts(reg, s, t);
    match c.at
    case Write => WriteFlows(reg, s, t); AdvanceKeeps(reg, s, Moved(s, t), t, c.(at := Header));
    case Header => HeaderFlows(reg, s, t); AdvanceKeeps(reg, s, Moved(s, t), t, c.(at := Body));
    case Body =>
      BodyFlows(reg, s, t);
      AdvanceKeeps(reg, s, Moved(s, t), t, c.(at := if CanRead(s.rout) then Decode else More));
    case More => MoreFlows(reg, s, t);
    case Await =>
      AwaitFlows(reg, s, t);
      AdvanceKeeps(reg, s, Moved(s, t), t, c.(at := Release, slot := c.slot.(sem := 0)));
  }

  lemma DecodeKeeps(reg: Registry, s: Sys, t: Tid)
    requires Inv(reg, s) && t < |s.clients| && s.clients[t].at.Decode?
    ensures Inv(reg, Moved(s, t))
  {
    var c := s.clients[t];
    OneOk(s, t);
    assert s.holder == Some(t);
    hide Books, Own, Flow, Flows, Unanswered, Idle, Numbers, Moved, Replied, View;
    DecodeFlows(reg, s, t);
    var reply :| Replied(s, t, reply) && Moved(s, t) == ReplyTaken(s, t, reply);
    TakenKeeps(reg, s, t, reply);
  }

  lemma TakenKeeps(reg: Registry, s: Sys, t: Tid, reply: Msg)
    requires Inv(reg, s) && Replied(s, t, reply) && Flows(reg, ReplyTaken(s, t, reply))
    ensures Inv(reg, ReplyTaken(s, t, reply))
  {
    hide Books, Own, Flows, Numbers, View, ParseMsg;
    var c, c' := s.clients[t], ReplyTaken(s, t, reply).clients[t];
    OneOk(s, t);
    if c.sync {
      DecodeBooks(s.counter, s.cb, s.clients, t, c'.slot);
    } else {
      MoveBooks(s.counter, s.cb, s.clients, t, c');
      ReleaseOwned(s.sem, s.holder, s.clients, t, c');
    }
  }

  lemma ReleaseKeeps(reg: Registry, s: Sys, t: Tid)
    requires Inv(reg, s) && t < |s.clients| && s.clients[t].at.Release?
    ensures Inv(reg, Moved(s, t))
  {
    hide Moved, Flows, Books, Own, Numbers, Owned, CallShape, Inv;
    HolderFacts(reg, s, t);
    ReleaseFlows(reg, s, t);
    EndKeeps(reg, s, Moved(s, t), t);
  }

  lemma EndKeeps(reg: Registry, s: Sys, s': Sys, t: Tid)
    requires Inv(reg, s) && Ends(s, s', t) && s.clients[t].at.Release? && Flows(reg, s')
    requires Own(reg, s.handled, Result(s.clients[t].uid, s.clients[t].asked, s.clients[t].slot.values))
    ensures Inv(reg, s')
  {
    hide Books, Own, Flows, Owned;
    MoveBooks(s.counter, s.cb, s.clients, t, s'.clients[t]);
    ReleaseOwned(s.sem, s.holder, s.clients, t, s'.clients[t]);
  }

  lemma OwnGrows(reg: Registry, handled: seq<(Msg, Verdict)>, h: (Msg, Verdict), r: Result)
    requires Own(reg, handled, r)
    ensures Own(reg, handled + [h], r)
  {
    hide Dispatched, View, ReplyTo;
  }

  lemma ServerKeeps(reg: Registry, s: Sys, a: Action)
    requires Inv(reg, s) && Enabled(reg, s, a) && (a.Requests? || a.Replies?)
    ensures Inv(reg, Next(reg, s, a))
  {
    hide Books, Own;
    var s' := Next(reg, s, a);
    if s.holder.Some? {
      var c := s.clients[s.holder.value];
      assert CallShape(c.call) by { OneOk(s, s.holder.value); }
      hide ReqStep, RepStep, Flow, CallShape;
      if a.Requests? {
        RequestsKeepFlow(reg, s, c);
      } else {
        RepliesKeepFlow(reg, s, c, a.v);
      }
    } else {
      hide ReqStep, RepStep, Flow, CallShape;
      if a.Requests? {
        IdleRequests(s.sv);
      } else {
        IdleReplies(s.sv, s.rout, a.v);
      }
    }
    forall r <- s.returned
      ensures Own(reg, s'.handled, r)
    {
      if s'.handled != s.handled {
        OwnGrows(reg, s.handled, s'.handled[|s.handled|], r);
      }
    }
  }

  lemma StepKeeps(reg: Registry, s: Sys, a: Action)
    requires Inv(reg, s) && Enabled(reg, s, a)
    ensures Inv(reg, Next(reg, s, a))
  {
    match a
    case Enter(_, _, _, _, _) => hide Inv; EnterKeeps(reg, s, a);
    case Move(t) =>
      hide Inv, Moved;
      var at := s.clients[t].at;
      if !Holds(at) {
        OutsideKeeps(reg, s, t);
      } else if at.Decode? {
        DecodeKeeps(reg, s, t);
      } else if at.Release? {
        ReleaseKeeps(reg, s, t);
      } else {
        HolderKeeps(reg, s, t);
      }
    case _ => hide Inv; ServerKeeps(reg, s, a);
  }

  // ----- runs

  ghost predicate IsStep(reg: Registry, s: Sys, a: Action, s': Sys) { Enabled(reg, s, a) && s' == Next(reg, s, a) }

  ghost predicate IsRun(reg: Registry, run: seq<Sys>, acts: seq<Action>) {
    |run| == |acts| + 1 && forall i :: 0 <= i < |acts| ==> IsStep(reg, run[i], acts[i], run[i + 1])
  }

  ghost predicate Reachable(reg: Registry, s: Sys) {
    exists n: nat, run: seq<Sys>, acts: seq<Action> :: IsRun(reg, run, acts) && run[0] == Begin(n) && run[|acts|] == s
  }

  lemma {:induction false} RunKeeps(reg: Registry, run: seq<Sys>, acts: seq<Action>)
    requires IsRun(reg, run, acts) && Inv(reg, run[0])
    ensures Inv(reg, run[|acts|])
    decreases |acts|
  {
    hide Inv, Enabled, Next;
    if |acts| > 0 {
      var n := |acts| - 1;
      RunKeeps(reg, run[..n + 1], acts[..n]);
      assert IsStep(reg, run[n], acts[n], run[n + 1]);
      StepKeeps(reg, run[n], acts[n]);
    }
  }

  lemma BeginInv(reg: Registry, n: nat)
    ensures Inv(reg, Begin(n))
  {}

  lemma ReachableInv(reg: Registry, s: Sys)
    requires Reachable(reg, s)
    ensures Inv(reg, s)
  {
    hide Inv, Enabled, Next;
    var n: nat, run: seq<Sys>, acts: seq<Action> :| IsRun(reg, run, acts) && run[0] == Begin(n) && run[|acts|] == s;
    BeginInv(reg, n);
    RunKeeps(reg, run, acts);
  }

  // ----- what holds in every reachable state

  function Holders(cs: seq<Client>): set<Tid> {
    set t | 0 <= t < |cs| && Holds(cs[t].at)
  }

  predicate UsesBuffer(c: Client) { c.at.Header? || c.at.Body? || c.at.More? || c.at.Decode? }

  /** The writer semaphore and the threads between its wait and its post make one; so the shared
      buffer has one user, and no reply fails to parse. */
  lemma OneHolder(reg: Registry, s: Sys)
    requires Reachable(reg, s)
    ensures s.sem + |Holders(s.clients)| == 1 && !s.thrown && !s.sv.broken
    ensures forall t, u :: (0 <= t < |s.clients| && 0 <= u < |s.clients| &&
              UsesBuffer(s.clients[t]) && UsesBuffer(s.clients[u])) ==> t == u
  {
    hide Inv, Flows, Books, Own, Owned, Reachable;
    ReachableInv(reg, s);
    ServerUp(reg, s);
    InvOwned(reg, s);
    OwnedOnce(s.sem, s.holder, s.clients);
  }

  lemma InvOwned(reg: Registry, s: Sys)
    requires Inv(reg, s)
    ensures Owned(s.sem, s.holder, s.clients) && !s.thrown
  {
    hide Flows, Books, Own, Owned;
  }

  lemma OwnedOnce(sem: nat, holder: Option<Tid>, cs: seq<Client>)
    requires Owned(sem, holder, cs)
    ensures sem + |Holders(cs)| == 1
    ensures forall t :: 0 <= t < |cs| && Holds(cs[t].at) ==> holder == Some(t)
  {
    assert Holders(cs) == if holder.Some? then {holder.value} else {};
  }

  lemma ServerUp(reg: Registry, s: Sys)
    requires Inv(reg, s)
    ensures !s.sv.broken && !s.sv.stop && InFlight(s) <= 1 && s.sv.reader + s.sv.writer <= 1
  {
    hide Books, Own, Owned, Answered, EncodeMsg, View, Frame, Frames.Header, Unanswered;
  }

  /** The messages in the request pipe, the server and the reply pipe. A pipe whose header was read
      still holds its message; the server has one in its buffer behind the body read, at the push, in
      its queue, in the handler and at the write. */
  function InFlight(s: Sys): nat {
    |s.rin| + (if s.sv.req.ReqMore? || s.sv.req.ReqParse? || s.sv.req.ReqPush? then 1 else 0) + |s.sv.msgs|
    + (if s.sv.rep.RepRun? || s.sv.rep.RepWrite? then 1 else 0) + |s.rout|
  }

  /** A reply in the shared buffer, from the body read to the parse. */
  function InBuffer(s: Sys): set<Tid> {
    set t | 0 <= t < |s.clients| && (s.clients[t].at.More? || s.clients[t].at.Decode?)
  }

  /** At most one message is on its way or in the client's buffer, and only while a thread holds the
      token. The dispatches are those of the finished calls, in order, and perhaps that of the call
      in progress. */
  lemma OneMessage(reg: Registry, s: Sys)
    requires Reachable(reg, s)
    ensures s.sem + InFlight(s) + |InBuffer(s)| <= 1
    ensures Calls(s.handled) == s.finished ||
            (s.holder.Some? && s.holder.value < |s.clients| &&
             Calls(s.handled) == s.finished + [s.clients[s.holder.value].call])
  {
    ReachableInv(reg, s);
    ServerUp(reg, s);
    BufferUp(reg, s);
    hide Books, Own, EncodeMsg, View, Frame, Frames.Header, Taking, Running, InBuffer;
  }

  lemma BufferUp(reg: Registry, s: Sys)
    requires Inv(reg, s)
    ensures |InBuffer(s)| <= 1 && (InBuffer(s) != {} ==> InFlight(s) == 0 && s.sem == 0)
  {
    hide Books, Own, Answered, EncodeMsg, View, Frame, Frames.Header, Unanswered;
    if InBuffer(s) != {} {
      var t :| t in InBuffer(s);
      assert s.holder == Some(t);
      assert InBuffer(s) == {t};
    }
  }

  /** Every helper returned what its caller is due for what it asked, and that request was dispatched. */
  lemma OwnResults(reg: Registry, s: Sys, r: Result)
    requires Reachable(reg, s) && r in s.returned
    ensures Due(reg, r.asked, r.values)
    ensures exists v :: (AskMsg(r.uid, r.asked), v) in s.handled
  {
    hide Reachable, View, Sendable, Judged, Sees, ReplyTo, Due;
    OwnFact(reg, s, r);
    var h :| h in s.handled && h.0 == AskMsg(r.uid, r.asked) && Dispatched(reg, h) &&
             ReplyTo(h.0, h.1).Shaped() && r.values == View(ReplyTo(h.0, h.1));
    SeesVerdict(reg, h);
    assert h == (AskMsg(r.uid, r.asked), h.1);
    DueVerdict(reg, r.uid, r.asked, h.1, r.values);
  }

  lemma OwnFact(reg: Registry, s: Sys, r: Result)
    requires Reachable(reg, s) && r in s.returned
    ensures Own(reg, s.handled, r)
  {
    hide Books, Owned, Flows, Own;
    ReachableInv(reg, s);
  }
}
