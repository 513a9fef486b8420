/** The macOS system does not deadlock: the call that holds the token comes to its end, unless one
    of its frames has a length whose body the read loop cannot finish. */
module MacDeadlock {
  import opened Wire
  import opened Messages
  import opened Frames
  import opened Dispatch
  import opened FifoSocket
  import opened MacServer
  import opened MacSystem
  import opened MacSystemSafety
  import opened MacSystemRuns
  import opened MacProgress

  // ----- full invariant over runs

  lemma {:induction false} RunFull(reg: Registry, run: seq<Sys>, acts: seq<Action>)
    requires IsRun(reg, run, acts) && Full(reg, run[0])
    ensures Full(reg, run[|acts|])
    decreases |acts|
  {
    hide Full, Enabled, Next;
    if |acts| > 0 {
      var n := |acts| - 1;
      RunFull(reg, run[..n + 1], acts[..n]);
      assert IsStep(reg, run[n], acts[n], run[n + 1]);
      StepFull(reg, run[n], acts[n]);
    }
  }

  lemma ReachableFull(reg: Registry, s: Sys)
    requires Reachable(reg, s)
    ensures Full(reg, s)
  {
    hide Inv, Enabled, Next;
    var n: nat, run: seq<Sys>, acts: seq<Action> :| IsRun(reg, run, acts) && run[0] == Begin(n) && run[|acts|] == s;
    BeginInv(reg, n);
    assert Full(reg, Begin(n));
    hide Full;
    RunFull(reg, run, acts);
  }

  /** No call is dispatched or finished twice, and a finished call is one whose frames could both
      be read. */
  lemma EachOnce(reg: Registry, s: Sys)
    requires Reachable(reg, s)
    ensures forall i, j :: 0 <= i < j < |s.handled| ==> s.handled[i].0 != s.handled[j].0
    ensures |s.finished| <= |s.handled|
    ensures forall i :: 0 <= i < |s.finished| ==> s.handled[i].0 == s.finished[i] && Carried(s.handled[i])
  {
    ReachableFull(reg, s);
    hide Inv, Carried, TakenReadable, Once, Calls, Reachable, Books, Flows;
    OneMessage(reg, s);
    if s.holder.Some? {
      HolderInside(reg, s);
    }
    Different(s.counter, s.clients, s.finished, s.handled, s.holder);
  }

  lemma Different(counter: nat, cs: seq<Client>, finished: seq<Msg>, handled: seq<(Msg, Verdict)>, holder: Option<Tid>)
    requires Once(counter, cs, finished)
    requires Calls(handled) == finished ||
             (holder.Some? && holder.value < |cs| && !cs[holder.value].at.Away? &&
              Calls(handled) == finished + [cs[holder.value].call])
    ensures forall i, j :: 0 <= i < j < |handled| ==> handled[i].0 != handled[j].0
    ensures |finished| <= |handled| && forall i :: 0 <= i < |finished| ==> handled[i].0 == finished[i]
  {
    var calls := Calls(handled);
    assert forall i :: 0 <= i < |handled| ==> handled[i].0 == calls[i];
  }

  lemma HolderInside(reg: Registry, s: Sys)
    requires Inv(reg, s) && s.holder.Some?
    ensures s.holder.value < |s.clients| && Holds(s.clients[s.holder.value].at)
  {
    InvOwned(reg, s);
  }

  // ----- rank

  function ClientRank(at: At): nat {
    match at
    case Write => 21 case Header => 6 case Body => 5 case More => 4 case Decode => 4 case Await => 3 case Release => 2
    case _ => 0
  }

  function ServerRank(s: Srv, rin: Pipe): nat {
    var req: nat := match s.req
      case ReqBody => 13 case ReqMore => 12 case ReqParse => 12 case ReqPush(_) => 11 case ReqPost => 10
      case ReqTop => 2 case ReqWait => 1 case _ => 0;
    var rep: nat := match s.rep
      case RepCheck => 6 case RepPop => 5 case RepRun(_) => 4 case RepWrite(_) => 3 case RepPost => 2
      case RepTop => 1 case _ => 0;
    req + rep + 7 * s.writer + (if rin != [] && !s.req.ReqBody? then 14 else 0)
  }

  /** How far the call in progress is from its end: pipe, queue, token and program counters. */
  function Rank(s: Sys): nat {
    ServerRank(s.sv, s.rin) +
    if s.holder.Some? && s.holder.value < |s.clients| then ClientRank(s.clients[s.holder.value].at) else 0
  }

  /** Where the server and the request pipe can stand. */
  ghost predicate Standing(s: Srv, rin: Pipe, m: Msg) {
    || (Idle(s) && rin == [])
    || (CallShape(m) && ((Idle(s) && rin == [Frame(m)]) || Taking(s, rin, m) || Running(s, rin)))
  }

  lemma Stands(reg: Registry, s: Sys) returns (m: Msg)
    requires Inv(reg, s)
    ensures Standing(s.sv, s.rin, m)
  {
    hide Idle, Taking, Running, Answered, Unanswered, Books, Own, View, EncodeMsg, CallShape, Frame;
    m := Msg([], []);
    if s.holder.Some? {
      OneOk(s, s.holder.value);
      m := s.clients[s.holder.value].call;
    }
  }

  lemma RequestRank(s: Srv, rin: Pipe, m: Msg)
    requires Standing(s, rin, m) && ReqEnabled(s, rin)
    ensures var (s', rin') := ReqStep(s, rin); ServerRank(s', rin') < ServerRank(s, rin)
  {
    hide ParseMsg, EncodeMsg, ReadInto, ReadSize, Finishable, Sendable, Frames.Header;
    if rin != [] {
      FrameReads(s.rbuf, m);
    } else if s.req.ReqParse? {
      RequestParses(m);
    }
  }

  lemma ReplyRank(s: Srv, rin: Pipe, m: Msg, out: Pipe, v: Verdict)
    requires Standing(s, rin, m) && RepEnabled(s) && (s.rep.RepRun? ==> |s.rep.call.heads| == CALL_HEADS)
    ensures ServerRank(RepStep(s, out, v).0, rin) < ServerRank(s, rin)
  {
    hide EncodeMsg, Finishable, CallShape, Frames.Header, Frame, ReplyTo;
  }

  /** A step of the call in progress: one of its thread or of the server. */
  ghost predicate Core(s: Sys, a: Action) {
    a.Requests? || a.Replies? || (a.Move? && s.holder == Some(a.t))
  }

  lemma MoveRank(reg: Registry, s: Sys, t: Tid)
    requires Inv(reg, s) && t < |s.clients| && CanMove(s, s.clients[t]) && s.holder.Some?
    ensures var s' := Moved(s, t);
            if s.holder == Some(t) then s'.holder.None? || (s'.holder == s.holder && Rank(s') < Rank(s))
            else s'.holder == s.holder && Rank(s') == Rank(s)
  {
    hide Inv, Moved, Rank, Flows, Owned, Goes;
    MoveGoes(reg, s, t);
    InvOwned(reg, s);
    if s.clients[t].at.Write? {
      HolderFacts(reg, s, t);
      WriteEmpty(reg, s, t);
    }
    GoesRank(s, Moved(s, t), t);
  }

  lemma GoesRank(s: Sys, s': Sys, t: Tid)
    requires Owned(s.sem, s.holder, s.clients) && Goes(s, s', t) && CanMove(s, s.clients[t]) && s.holder.Some?
    requires s.clients[t].at.Write? ==> s.rin == [] && !s.sv.req.ReqBody?
    ensures if s.holder == Some(t) then s'.holder.None? || (s'.holder == s.holder && Rank(s') < Rank(s))
            else s'.holder == s.holder && Rank(s') == Rank(s)
  {
    hide Frame;
  }

  lemma WriteEmpty(reg: Registry, s: Sys, t: Tid)
    requires s.holder == Some(t) && Flows(reg, s) && s.clients[t].at.Write?
    ensures s.rin == [] && !s.sv.req.ReqBody?
  {}

  /** Every step of the call in progress ends it or brings its end nearer; no other step puts the
      end further away. */
  lemma StepRank(reg: Registry, s: Sys, a: Action)
    requires Inv(reg, s) && Enabled(reg, s, a) && s.holder.Some?
    ensures var s' := Next(reg, s, a);
            s'.holder.None? || (s'.holder == s.holder && Rank(s') + (if Core(s, a) then 1 else 0) <= Rank(s))
  {
    match a
    case Enter(_, _, _, _, _) => InvOwned(reg, s); hide Inv, ServerRank;
    case Move(t) => MoveRank(reg, s, t); hide Inv, Moved, Rank;
    case Requests =>
      var m := Stands(reg, s);
      RequestRank(s.sv, s.rin, m);
      hide Inv, ReqStep, ServerRank, Standing;
    case Replies(v) =>
      var m := Stands(reg, s);
      ReplyRank(s.sv, s.rin, m, s.rout, v);
      hide Inv, RepStep, ServerRank, Standing;
  }

  lemma RankBound(reg: Registry, s: Sys)
    requires Inv(reg, s)
    ensures Rank(s) <= 25
  {
    var m := Stands(reg, s);
    if s.holder.Some? {
      HolderInside(reg, s);
      var t := s.holder.value;
      HolderFacts(reg, s, t);
      hide Inv, Idle, Taking, Running, Answered, Unanswered, Frame, EncodeMsg, View;
      if s.clients[t].at.Write? {
        assert Idle(s.sv) && s.rin == [];
      }
      hide Flows;
    }
    hide Inv;
    StandingRank(s.sv, s.rin, m);
  }

  lemma StandingRank(s: Srv, rin: Pipe, m: Msg)
    requires Standing(s, rin, m)
    ensures ServerRank(s, rin) <= if Idle(s) && rin == [] then 4 else 19
  {
    hide CallShape, Frame, EncodeMsg, Frames.Header;
  }

  // ----- no deadlock

  /** The read loop of the server waits for more behind the body it read. */
  predicate ServerJams(s: Sys) { s.sv.req.ReqMore? && s.rin == [] }

  predicate ClientJams(s: Sys) {
    s.holder.Some? && s.holder.value < |s.clients| && s.clients[s.holder.value].at.More? && s.rout == []
  }

  ghost predicate Unanswerable(reg: Registry, s: Sys) {
    s.sv.rep.RepRun? && forall v :: !Dispatched(reg, (s.sv.rep.call, v))
  }

  lemma ServerMoves(s: Srv, rin: Pipe, m: Msg)
    requires Standing(s, rin, m) && !(Idle(s) && rin == [])
    ensures ReqEnabled(s, rin) || RepEnabled(s) || (s.req.ReqMore? && rin == [])
  {
    hide CallShape, Frame, EncodeMsg, Frames.Header, Finishable;
  }

  /** While a thread holds the token it or the server can move, unless a read cannot finish or no
      frame can carry the reply. */
  lemma SomebodyMoves(reg: Registry, s: Sys)
    requires Inv(reg, s) && s.holder.Some?
    ensures (exists a :: Core(s, a) && Enabled(reg, s, a)) || ServerJams(s) || ClientJams(s) || Unanswerable(reg, s)
  {
    hide Inv, Flows, Idle, Standing, CanMove, Unanswerable, ServerJams, ClientJams;
    var t := s.holder.value;
    HolderInside(reg, s);
    HolderFacts(reg, s, t);
    var m := Stands(reg, s);
    if CanMove(s, s.clients[t]) {
      assert Core(s, Move(t)) && Enabled(reg, s, Move(t));
    } else if !(Idle(s.sv) && s.rin == []) {
      ServerSteps(reg, s, m);
    } else {
      HolderWaits(reg, s, t);
    }
  }

  lemma ServerSteps(reg: Registry, s: Sys, m: Msg)
    requires Standing(s.sv, s.rin, m) && !(Idle(s.sv) && s.rin == [])
    ensures (exists a :: Core(s, a) && Enabled(reg, s, a)) || ServerJams(s) || Unanswerable(reg, s)
  {
    hide Idle, Standing, ReqEnabled, RepEnabled, CanRead, Dispatched;
    ServerMoves(s.sv, s.rin, m);
    if ReqEnabled(s.sv, s.rin) {
      assert Core(s, Requests) && Enabled(reg, s, Requests);
    } else if RepEnabled(s.sv) && !Unanswerable(reg, s) {
      var v :| s.sv.rep.RepRun? ==> Dispatched(reg, (s.sv.rep.call, v));
      assert Core(s, Replies(v)) && Enabled(reg, s, Replies(v));
    }
  }

  lemma HolderWaits(reg: Registry, s: Sys, t: Tid)
    requires s.holder == Some(t) && Flows(reg, s) && Holds(s.clients[t].at)
    requires !CanMove(s, s.clients[t]) && Idle(s.sv) && s.rin == []
    ensures ClientJams(s)
  {
    hide EncodeMsg, View, Frame, Frames.Header, Answered, Finishable, Unanswered;
  }

  /** A frame of the call that a read cannot finish, of the request or of the reply. */
  predicate Unreadable(handled: seq<(Msg, Verdict)>, call: Msg) {
    !Readable(call) || (handled != [] && handled[|handled| - 1].0 == call && !Carried(handled[|handled| - 1]))
  }

  lemma ServerJamReason(reg: Registry, s: Sys, t: Tid)
    requires s.holder == Some(t) && Flows(reg, s) && Holds(s.clients[t].at) && ServerJams(s)
    ensures !Readable(s.clients[t].call)
  {
    hide EncodeMsg, View, Frames.Header, Answered, Finishable, Unanswered;
  }

  lemma ClientJamReason(reg: Registry, s: Sys, t: Tid)
    requires s.holder == Some(t) && Flows(reg, s) && Holds(s.clients[t].at) && ClientJams(s)
    ensures Unreadable(s.handled, s.clients[t].call)
  {
    hide EncodeMsg, View, Frames.Header, Finishable, Sendable, Allowed, Idle;
    AnsweredLast(s.handled, s.finished, s.clients[t].call);
  }

  ghost function Cores(run: seq<Sys>, acts: seq<Action>): nat
    requires |run| == |acts| + 1
  {
    if acts == [] then 0
    else var n := |acts| - 1; Cores(run[..n + 1], acts[..n]) + (if Core(run[n], acts[n]) then 1 else 0)
  }

  lemma {:induction false} CoresBounded(reg: Registry, run: seq<Sys>, acts: seq<Action>, t: Tid)
    requires IsRun(reg, run, acts) && Inv(reg, run[0])
    requires forall i :: 0 <= i < |run| ==> run[i].holder == Some(t)
    ensures Inv(reg, run[|acts|]) && Cores(run, acts) + Rank(run[|acts|]) <= Rank(run[0])
    decreases |acts|
  {
    hide Inv, Enabled, Next, Rank, Core;
    if |acts| > 0 {
      var n := |acts| - 1;
      CoresBounded(reg, run[..n + 1], acts[..n], t);
      assert IsStep(reg, run[n], acts[n], run[n + 1]);
      StepKeeps(reg, run[n], acts[n]);
      StepRank(reg, run[n], acts[n]);
    }
  }

  /** The call that holds the token takes at most 25 steps, and until it has posted the token one of
      them can be taken, unless one of its frames cannot be read or its reply not be sent. */
  lemma CallEnds(reg: Registry, run: seq<Sys>, acts: seq<Action>, t: Tid)
    requires IsRun(reg, run, acts) && Reachable(reg, run[0])
    requires forall i :: 0 <= i < |run| ==> run[i].holder == Some(t)
    ensures var s := run[|acts|];
            Cores(run, acts) <= 25 && t < |s.clients| &&
            (Unreadable(s.handled, s.clients[t].call) || Unanswerable(reg, s) ||
             exists a :: Core(s, a) && Enabled(reg, s, a))
  {
    hide Inv, Enabled, Next, Rank, Core, Reachable, Unreadable, Unanswerable, ServerJams, ClientJams;
    var s := run[|acts|];
    ReachableInv(reg, run[0]);
    CoresBounded(reg, run, acts, t);
    RankBound(reg, run[0]);
    HolderInside(reg, s);
    HolderFacts(reg, s, t);
    SomebodyMoves(reg, s);
    hide IsRun, Flows;
    if ServerJams(s) {
      ServerJamReason(reg, s, t);
      assert Unreadable(s.handled, s.clients[t].call) by { Unread(s, t); }
    } else if ClientJams(s) {
      ClientJamReason(reg, s, t);
    }
  }

  lemma Unread(s: Sys, t: Tid)
    requires t < |s.clients| && !Readable(s.clients[t].call)
    ensures Unreadable(s.handled, s.clients[t].call)
  {}

  /** While nobody holds the token, a thread inside a call can move. */
  lemma SomebodyStarts(reg: Registry, s: Sys, t: Tid)
    requires Reachable(reg, s) && s.holder.None? && t < |s.clients| && !s.clients[t].at.Away?
    ensures CanMove(s, s.clients[t])
  {
    ReachableInv(reg, s);
    InvOwned(reg, s);
    hide Inv;
  }
}
