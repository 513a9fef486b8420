/** A call of the macOS system that never ends: its frame has 8192 bytes, so the body read takes a
    last piece of 8184 and waits for more. */
module MacJam {
  import opened Wire
  import opened Values
  import opened Messages
  import opened Frames
  import opened Dispatch
  import opened FifoSocket
  import opened MacServer
  import opened MacSystem
  import opened MacSystemSafety
  import opened MacSystemRuns
  import opened MacDeadlock
  import H = MacShutdown

  /** A class name that fills the frame of a call up to 8192 bytes. */
  function LongName(): (s: Bytes)
    ensures |s| == 8144
  {
    seq(8144, i => 65)
  }

  function LongCall(uid: u64): Msg { CallMsg(uid, LongName(), [], []) }

  lemma Encoded(uid: u64)
    ensures |EncodeMsg(LongCall(uid))| == 8184
    ensures LongCall(uid).Shaped() && LongCall(uid).Fits()
  {
    hide Put32, Put64;
    var a, b, c := UInt64(uid), Text(LongName()), Text([]);
    assert EncodeAll([a, b, c]) == Encode(a) + EncodeAll([b, c]) by { assert [a, b, c][1..] == [b, c]; }
    assert EncodeAll([b, c]) == Encode(b) + EncodeAll([c]) by { assert [b, c][1..] == [c]; }
    assert EncodeAll([c]) == Encode(c) + EncodeAll([]) by { assert [c][1..] == []; }
  }

  /** There is a call that a client may send and whose frame the read loop cannot finish. */
  lemma UnfinishableCall(uid: u64)
    ensures CallShape(LongCall(uid)) && |Frame(LongCall(uid))| == 8192 && !Readable(LongCall(uid))
  {
    Encoded(uid);
    hide EncodeMsg, Put64;
  }

  // ----- a run into it

  lemma {:induction false} ReachableNext(reg: Registry, s: Sys, a: Action)
    requires Reachable(reg, s) && Enabled(reg, s, a)
    ensures Reachable(reg, Next(reg, s, a))
  {
    hide Enabled, Next;
    var n: nat, run: seq<Sys>, acts: seq<Action> :| IsRun(reg, run, acts) && run[0] == Begin(n) && run[|acts|] == s;
    var run', acts' := run + [Next(reg, s, a)], acts + [a];
    forall i | 0 <= i < |acts'|
      ensures IsStep(reg, run'[i], acts'[i], run'[i + 1])
    {
      if i < |acts| {
        assert IsStep(reg, run[i], acts[i], run[i + 1]);
      }
    }
    assert IsRun(reg, run', acts') && run'[0] == Begin(n) && run'[|acts'|] == Next(reg, s, a);
  }

  lemma BeginReachable(reg: Registry, n: nat)
    ensures Reachable(reg, Begin(n))
  {
    var run, acts := [Begin(n)], [];
    assert IsRun(reg, run, acts) && run[0] == Begin(n) && run[|acts|] == Begin(n);
  }

  /** The first thread has written the call. */
  lemma Written(reg: Registry, n: nat) returns (s: Sys)
    requires n > 0
    ensures Reachable(reg, s) && |s.clients| == n && s.clients[0].at.Header? && s.clients[0].call == LongCall(1)
    ensures s.holder == Some(0) && s.rin == [Frame(LongCall(1))] && s.rout == [] && s.sv == START
  {
    hide Frame, Sendable, Reachable, LongCall, LongName;
    BeginReachable(reg, n);
    UnfinishableCall(1);
    var enter := Enter(0, LongName(), [], [], true);
    s := Begin(n);
    assert Enabled(reg, s, enter) by { IsLongCall(); }
    ReachableNext(reg, s, enter);
    s := Next(reg, s, enter);
    assert s.clients[0].call == LongCall(1) by { IsLongCall(); }
    ReachableNext(reg, s, Move(0));
    s := Next(reg, s, Move(0));
    ReachableNext(reg, s, Move(0));
    s := Next(reg, s, Move(0));
    ReachableNext(reg, s, Move(0));
    s := Next(reg, s, Move(0));
  }

  lemma IsLongCall()
    ensures CallMsg(1, LongName(), [], []) == LongCall(1) && Sendable(LongCall(1))
  {
    UnfinishableCall(1);
  }

  /** The call is in the buffer, and both workers and the thread wait. */
  ghost predicate Stuck(s: Sys, t: Tid) {
    && s.holder == Some(t) && t < |s.clients| && s.clients[t].at.Header?
    && s.rin == [] && s.rout == [] && s.sv.req.ReqMore? && s.sv.rep.RepWait? && s.sv.writer == 0
  }

  lemma Jams(reg: Registry, n: nat) returns (s: Sys)
    requires n > 0
    ensures Reachable(reg, s) && Stuck(s, 0) && s.clients[0].call == LongCall(1) && |s.clients| == n
  {
    hide Frame, EncodeMsg, Reachable, LongCall, ReadInto, ReadSize, Finishable, ParseMsg, Head, Behead,
      Frames.Header, Sendable;
    s := Written(reg, n);
    var m := LongCall(1);
    UnfinishableCall(1);
    FrameReads([], m);
    BodyReadable(m);
    var v := Refused([]);
    ReachableNext(reg, s, Replies(v));
    s := Next(reg, s, Replies(v));
    ReachableNext(reg, s, Requests);
    s := Next(reg, s, Requests);
    ReachableNext(reg, s, Requests);
    s := Next(reg, s, Requests);
    ReachableNext(reg, s, Requests);
    s := Next(reg, s, Requests);
    assert s.sv.req.ReqBody? && s.rin == [EncodeMsg(m)];
    ReachableNext(reg, s, Requests);
    s := Next(reg, s, Requests);
  }

  lemma NoCore(reg: Registry, s: Sys, t: Tid, a: Action)
    requires Stuck(s, t) && Core(s, a)
    ensures !Enabled(reg, s, a)
  {
    hide Dispatched, Finishable;
  }

  lemma StuckStays(reg: Registry, s: Sys, t: Tid, a: Action)
    requires Owned(s.sem, s.holder, s.clients) && Stuck(s, t) && Enabled(reg, s, a)
    ensures Stuck(Next(reg, s, a), t) && Next(reg, s, a).finished == s.finished
  {
    hide Dispatched, Sendable;
    if Core(s, a) {
      NoCore(reg, s, t, a);
    }
    hide ReqStep, RepStep;
  }

  lemma {:induction false} StuckForever(reg: Registry, run: seq<Sys>, acts: seq<Action>, t: Tid)
    requires IsRun(reg, run, acts) && Inv(reg, run[0]) && Stuck(run[0], t)
    ensures Inv(reg, run[|acts|]) && Stuck(run[|acts|], t) && run[|acts|].finished == run[0].finished
    decreases |acts|
  {
    hide Inv, Enabled, Next, Stuck, Owned;
    if |acts| > 0 {
      var n := |acts| - 1;
      StuckForever(reg, run[..n + 1], acts[..n], t);
      assert IsStep(reg, run[n], acts[n], run[n + 1]);
      StepKeeps(reg, run[n], acts[n]);
      InvOwned(reg, run[n]);
      StuckStays(reg, run[n], t, acts[n]);
    }
  }

  /** Whatever happens from here, neither the holder's thread nor the server ever moves, and no call
      is finished. */
  ghost predicate Dead(reg: Registry, s: Sys) {
    forall run: seq<Sys>, acts: seq<Action> :: IsRun(reg, run, acts) && run[0] == s ==>
      run[|acts|].finished == s.finished && forall a :: Core(run[|acts|], a) ==> !Enabled(reg, run[|acts|], a)
  }

  lemma StuckDead(reg: Registry, s: Sys, t: Tid)
    requires Inv(reg, s) && Stuck(s, t)
    ensures Dead(reg, s)
  {
    hide Inv, Enabled, Next, Core, Stuck;
    forall run: seq<Sys>, acts: seq<Action> | IsRun(reg, run, acts) && run[0] == s
      ensures run[|acts|].finished == s.finished
      ensures forall a :: Core(run[|acts|], a) ==> !Enabled(reg, run[|acts|], a)
    {
      StuckForever(reg, run, acts, t);
      forall a | Core(run[|acts|], a)
        ensures !Enabled(reg, run[|acts|], a)
      {
        NoCore(reg, run[|acts|], t, a);
      }
    }
  }

  /** With any number of threads there is a reachable state in which a thread holds the token for a
      call that can never end. */
  lemma Deadlocks(reg: Registry, n: nat)
    requires n > 0
    ensures exists s :: Reachable(reg, s) && |s.clients| == n && s.holder == Some(0) && Dead(reg, s)
  {
    var s := Jams(reg, n);
    ReachableInv(reg, s);
    assert s.holder == Some(0);
    hide Inv, Dead, Reachable, Stuck;
    StuckDead(reg, s, 0);
  }

  // ----- a server whose body read takes the destructor's byte

  lemma ServerNext(s: H.Sys, a: H.Action)
    requires H.Reachable(s) && H.Enabled(s, a)
    ensures H.Reachable(H.Next(s, a))
  {
    hide H.Enabled, H.Next;
    var run: seq<H.Sys>, acts: seq<H.Action> :| H.IsRun(run, acts) && run[0] == H.BEGIN && run[|acts|] == s;
    var run', acts' := run + [H.Next(s, a)], acts + [a];
    forall i | 0 <= i < |acts'|
      ensures H.IsStep(run'[i], acts'[i], run'[i + 1])
    {
      if i < |acts| {
        assert H.IsStep(run[i], acts[i], run[i + 1]);
      }
    }
    assert H.IsRun(run', acts') && run'[0] == H.BEGIN && run'[|acts'|] == H.Next(s, a);
  }

  lemma ServerBegins()
    ensures H.Reachable(H.BEGIN)
  {
    var run: seq<H.Sys>, acts: seq<H.Action> := [H.BEGIN], [];
    assert H.IsRun(run, acts) && run[0] == H.BEGIN && run[|acts|] == H.BEGIN;
  }

  /** The server has read the long call and waits for more. */
  lemma ServerWaits() returns (s: H.Sys)
    ensures H.Reachable(s) && s.sv == START.(req := ReqMore, reader := 0, rbuf := EncodeMsg(LongCall(1)))
    ensures s.pipe == [] && !s.sent
  {
    hide Frame, EncodeMsg, H.Reachable, LongCall, ReadInto, ReadSize, Finishable, ParseMsg, Head, Behead,
      Frames.Header, Sendable;
    var m := LongCall(1);
    UnfinishableCall(1);
    FrameReads([], m);
    BodyReadable(m);
    ServerBegins();
    ServerNext(H.BEGIN, H.ClientWrite(m));
    s := H.Next(H.BEGIN, H.ClientWrite(m));
    assert s.pipe == [Frame(m)] && s.sv == START;
    ServerNext(s, H.Requests);
    s := H.Next(s, H.Requests);
    ServerNext(s, H.Requests);
    s := H.Next(s, H.Requests);
    assert s.sv == START.(req := ReqHeader, reader := 0) && s.pipe == [Frame(m)];
    ServerNext(s, H.Requests);
    s := H.Next(s, H.Requests);
    assert s.sv.req.ReqBody? && s.pipe == [EncodeMsg(m)];
    ServerNext(s, H.Requests);
    s := H.Next(s, H.Requests);
  }

  /** There is a reachable state in which the byte of the destructor lies behind the buffer. */
  lemma Overruns()
    ensures exists s :: H.Reachable(s) && s.sv.past == [49] && s.sv.req.ReqParse?
  {
    hide EncodeMsg, H.Reachable, LongCall;
    var s := ServerWaits();
    ServerNext(s, H.Stop);
    s := H.Next(s, H.Stop);
    ServerNext(s, H.SendDummy);
    s := H.Next(s, H.SendDummy);
    H.DummyEnds();
    ServerNext(s, H.Requests);
    s := H.Next(s, H.Requests);
    assert s.sv.past == [] + DUMMY;
  }
}
