/** The Windows pipeline makes progress: while the connection is up and a written request has no
    delivered reply, a step of the server, the client or the system is possible that brings the
    pipeline nearer to having delivered everything. */
module WinProgress {
  import opened Wire
  import opened Messages
  import opened Frames
  import opened AsyncOps
  import opened Dispatch
  import opened FrameReader
  import opened WinPipeline
  import opened WinPipelineSafety
  import opened WinPipelineRuns
  import S = WinServer
  import C = WinClient

  /** Nobody has seen the connection fail, and both workers are in their loops. */
  predicate Up(s: Sys) {
    && !s.srv.lost && (s.srv.pc.Top? || s.srv.pc.Waiting? || s.srv.pc.Handling?)
    && !s.cli.lost && (s.cli.pc.Top? || s.cli.pc.Waiting?)
  }

  // ----- the rank

  function ReaderRank(r: Reader): nat {
    if InHeader(r) then (if r.op.value.completed then 5 else 6)
    else if InBody(r) then (if r.op.value.completed then 3 else 4)
    else 7
  }

  /** From the handler through the queue and the write back to the reads. */
  function ServerPhase(s: S.Srv): nat {
    if s.pc.Handling? then 22
    else if s.queue != [] then 20
    else if S.WriteInFlight(s) then (if s.wop.value.completed then 16 else 18)
    else ReaderRank(s.r)
  }

  function ServerRank(written: nat, handled: nat, s: S.Srv): int {
    20 * (written - handled - (if s.pc.Handling? then 1 else 0)) + ServerPhase(s)
  }

  function ClientRank(written: nat, delivered: nat, c: C.Cli): int {
    10 * (written - delivered) + ReaderRank(c.r)
  }

  /** The work left: requests not fetched, replies not delivered, and where the two readers, the
      queue and the write are. */
  function Work(s: Sys): int {
    ServerRank(|s.written|, |s.handled|, s.srv) + ClientRank(|s.written|, |s.delivered|, s.cli)
  }

  // ----- the server's steps

  lemma IssueWorks(s: S.Srv, stop: bool, c: S.Conn)
    requires S.Phase(s) && s.pc.Top? && c.Possible(s.lost) && S.Issue(s, stop, c).pc.Waiting?
    ensures var t := S.Issue(s, stop, c);
            ServerPhase(t) + (if Idle(s.r) || s.queue != [] then 1 else 0) <= ServerPhase(s)
  {
    hide S.Announce;
  }

  lemma FillWorks(s: S.Srv, wire: Bytes)
    requires S.Phase(s) && CanFill(s.r, wire)
    ensures ServerPhase(s.(r := Fill(s.r, wire).0)) < ServerPhase(s)
  {}

  lemma WrittenWorks(s: S.Srv)
    requires S.Phase(s) && s.wop.Some? && Locked(s.wop.value)
    ensures ServerPhase(S.WriteFinished(s)) < ServerPhase(s)
  {}

  lemma WriteDoneWorks(s: S.Srv)
    requires S.Phase(s) && s.pc.Waiting? && S.WriteSignalled(s)
    ensures ServerPhase(S.WriteDelivered(s)) < ServerPhase(s) && S.WriteDelivered(s).pc.Top?
  {}

  lemma ReadWorks(written: seq<Msg>, handled: seq<(Msg, Verdict)>, wire: Bytes, s: S.Srv, connected: bool, now: int)
    requires RequestSide(written, handled, wire, s) && S.Phase(s) && s.pc.Waiting? && S.ReadSignalled(s)
    ensures var t := S.ReadDone(s, connected, now);
            !t.lost ==> ServerRank(|written|, |handled|, t) < ServerRank(|written|, |handled|, s)
  {
    hide RequestSide, OnHeader, Aligned;
    ReadKeepsRequests(written, handled, wire, s, connected, now);
  }

  lemma AnswerWorks(s: S.Srv, v: Verdict)
    requires S.Phase(s) && s.pc.Handling?
    ensures ServerPhase(S.Answer(s, v)) < ServerPhase(s) && !S.Answer(s, v).pc.Handling?
  {
    hide ReplyTo, EncodeMsg, S.Blank;
  }

  // ----- the client's steps

  lemma ClientIssueWorks(c: C.Cli)
    requires ClientPhase(c) && c.pc.Top? && !c.lost
    ensures var d := C.Issue(c, true);
            d.pc.Waiting? && ReaderRank(d.r) + (if Idle(c.r) then 1 else 0) <= ReaderRank(c.r)
  {}

  lemma ClientFillWorks(c: C.Cli, wire: Bytes)
    requires ClientPhase(c) && CanFill(c.r, wire)
    ensures ReaderRank(Fill(c.r, wire).0) < ReaderRank(c.r)
  {}

  lemma ClientReadWorks(reg: Registry, handled: seq<(Msg, Verdict)>, delivered: seq<Msg>, srv: S.Srv, c: C.Cli,
                        connected: bool, written: nat)
    requires ReplySide(reg, handled, delivered, srv, c) && ClientPhase(c) && c.pc.Waiting? && C.ReadSignalled(c)
    ensures var d := C.ReadDone(c, connected);
            !d.lost ==> ClientRank(written, |delivered + Arriving(c)|, d) < ClientRank(written, |delivered|, c)
  {
    hide ReplySide, C.ReadDone, C.Answered, Dispatched, ReplyTo, Arriving;
    ClientReads(reg, handled, delivered, srv, c, connected);
    var d := C.ReadDone(c, connected);
    SideShapes(reg, handled, delivered, srv, c);
    if InBody(c.r) {
      ReadDown(c, connected);
    } else {
      HeaderDown(reg, handled, delivered, srv, c, connected);
    }
  }

  /** A body read that was delivered leaves the reader idle. */
  lemma ReadDown(c: C.Cli, connected: bool)
    requires InBody(c.r) && C.ReadSignalled(c) && !C.ReadDone(c, connected).pc.Dead?
    ensures ReaderRank(c.r) == 3 && Idle(C.ReadDone(c, connected).r)
  {
    hide ParseMsg, C.Answered;
    AnsweredReader(c, connected);
  }

  lemma AnsweredReader(c: C.Cli, connected: bool)
    requires InBody(c.r) && C.ReadSignalled(c) && !C.ReadDone(c, connected).pc.Dead?
    ensures C.ReadDone(c, connected).r == c.r.(op := Some(Invalidated(Deliver(c.r.op.value).0)))
  {
    hide ParseMsg, View, UidOf;
  }

  lemma HeaderDown(reg: Registry, handled: seq<(Msg, Verdict)>, delivered: seq<Msg>, srv: S.Srv, c: C.Cli,
                   connected: bool)
    requires ReplySide(reg, handled, delivered, srv, c) && InHeader(c.r) && C.ReadSignalled(c) && !c.lost
    ensures var d := C.ReadDone(c, connected); ReaderRank(c.r) == 5 && (!d.lost ==> InBody(d.r))
  {
    hide EncodeMsg, Dispatched, Encodings, ReplyTo, Flatten, ParseMsg, View, UidOf, C.Answered;
    Shapes(reg, handled);
    HeaderAligned(c.r, srv.out, Encodings(Replies(handled)[|delivered|..|handled| - |srv.queue|]));
    hide Aligned;
    HeaderStays(c, connected);
  }

  lemma HeaderStays(c: C.Cli, connected: bool)
    requires InHeader(c.r) && C.ReadSignalled(c) && !c.lost
    requires InBody(OnHeader(c.r.(op := Some(Deliver(c.r.op.value).0)), true))
    ensures ReaderRank(c.r) == 5 && (!C.ReadDone(c, connected).lost ==> InBody(C.ReadDone(c, connected).r))
  {
    hide ParseMsg, View, UidOf, C.Answered;
  }

  // ----- every step

  /** The steps that do some of the work. */
  predicate Works(s: Sys, a: Action) {
    || a.ServerFill? || a.ServerRead? || a.ServerAnswer? || a.ServerWritten? || a.ServerWrite?
    || a.ClientFill? || a.ClientRead?
    || (a.ServerIssue? && (Idle(s.srv.r) || s.srv.queue != [])) || (a.ClientIssue? && Idle(s.cli.r))
  }

  lemma ServerLoopWorks(reg: Registry, s: Sys, a: Action)
    requires Inv(reg, s) && Enabled(reg, s, a) && Up(s) && Up(Next(reg, s, a))
    requires a.ServerIssue? || a.ServerRead? || a.ServerWrite?
    ensures Work(Next(reg, s, a)) + (if Works(s, a) then 1 else 0) <= Work(s)
  {
    hide RequestSide, ReplySide, Outcomes, Ids, C.Ledger, S.Watched, S.Phase, ServerPhase, ReaderRank,
      S.IssueRead, S.IssueWrite,
      S.Issue, S.ReadDone, S.WriteDelivered;
    match a
    case ServerIssue(stop, conn) => IssueFetches(s.srv, stop, conn); IssueWorks(s.srv, stop, conn);
    case ServerRead(connected, now) => ReadWorks(s.written, s.handled, s.wire, s.srv, connected, now);
    case ServerWrite => WriteDoneWorks(s.srv);
  }

  lemma ServerStepWorks(reg: Registry, s: Sys, a: Action)
    requires Inv(reg, s) && Enabled(reg, s, a) && Up(s) && Up(Next(reg, s, a))
    requires a.ServerFill? || a.ServerAnswer? || a.ServerWritten? || a.ServerTimeout?
    ensures Work(Next(reg, s, a)) + (if Works(s, a) then 1 else 0) <= Work(s)
  {
    hide RequestSide, ReplySide, Outcomes, Ids, C.Ledger, S.Watched, S.Phase, ServerPhase, ReaderRank,
      Sendable, Allowed;
    match a
    case ServerFill => FillWorks(s.srv, s.wire);
    case ServerAnswer(v) => AnswerWorks(s.srv, v);
    case ServerWritten => WrittenWorks(s.srv);
    case ServerTimeout => TimeoutWorks(s.srv);
  }

  lemma IssueFetches(s: S.Srv, stop: bool, c: S.Conn)
    requires s.pc.Top?
    ensures !S.Issue(s, stop, c).pc.Handling? && !S.Issue(s, stop, c).pc.Top?
  {
    hide S.Announce, ArmHeader, Resized;
  }

  lemma TimeoutWorks(s: S.Srv)
    requires s.pc.Waiting?
    ensures ServerPhase(s.(pc := S.Top)) == ServerPhase(s)
  {}

  lemma OtherStepWorks(reg: Registry, s: Sys, a: Action)
    requires Inv(reg, s) && Enabled(reg, s, a) && Up(s) && Up(Next(reg, s, a))
    requires !a.ServerIssue? && !a.ServerFill? && !a.ServerRead?
    requires !a.ServerAnswer? && !a.ServerWritten? && !a.ServerWrite? && !a.ServerTimeout?
    ensures Work(Next(reg, s, a)) + (if Works(s, a) then 1 else 0) <= Work(s) + (if a.Write? then 30 else 0)
  {
    hide RequestSide, ReplySide, Outcomes, Ids, C.Ledger, S.Watched, S.Phase, ServerPhase, ReaderRank, Sendable, Frame;
    match a
    case ClientIssue(read) =>
      ClientIssueWorks(s.cli);
      assert read || C.Issue(s.cli, read) == C.Issue(s.cli, true);
    case ClientFill => ClientFillWorks(s.cli, s.srv.out); OutPhase(s.srv, Next(reg, s, a).srv);
    case ClientRead(connected) => ClientReadWorks(reg, s.handled, s.delivered, s.srv, s.cli, connected, |s.written|);
    case _ =>
  }

  lemma OutPhase(s: S.Srv, t: S.Srv)
    requires t == s.(out := t.out)
    ensures ServerPhase(t) == ServerPhase(s)
  {}

  /** Every step of a worker or the system that does some work lowers the work left, and no step but
      the write of another request raises it. */
  lemma StepWorks(reg: Registry, s: Sys, a: Action)
    requires Inv(reg, s) && Enabled(reg, s, a) && Up(s) && Up(Next(reg, s, a))
    ensures Work(Next(reg, s, a)) + (if Works(s, a) then 1 else 0) <= Work(s) + (if a.Write? then 30 else 0)
  {
    hide Inv, Enabled, Next, Up, Work, Works;
    if a.ServerIssue? || a.ServerRead? || a.ServerWrite? {
      ServerLoopWorks(reg, s, a);
    } else if a.ServerFill? || a.ServerAnswer? || a.ServerWritten? || a.ServerTimeout? {
      ServerStepWorks(reg, s, a);
    } else {
      OtherStepWorks(reg, s, a);
    }
  }

  // ----- some step

  function Rank(s: Sys): int {
    3 * Work(s) + (if s.srv.pc.Top? then 1 else 0) + (if s.cli.pc.Top? then 1 else 0)
  }

  /** A possible step that brings the end nearer. */
  ghost predicate Helps(reg: Registry, s: Sys, a: Action) {
    Enabled(reg, s, a) && Up(Next(reg, s, a)) && Rank(Next(reg, s, a)) < Rank(s)
  }

  const GOOD := S.Conn(true, true, true)

  /** A step that works, or takes a worker from its loop head to its wait, helps. */
  lemma StepHelps(reg: Registry, s: Sys, a: Action)
    requires Inv(reg, s) && Enabled(reg, s, a) && Up(s) && Up(Next(reg, s, a)) && !a.Write?
    requires a.ServerIssue? || a.ClientIssue? || Works(s, a)
    requires a.ClientIssue? ==> Next(reg, s, a).cli.pc.Waiting?
    ensures Helps(reg, s, a)
  {
    StepWorks(reg, s, a);
    hide Inv, Work, Up, Works;
    Tops(reg, s, a);
  }

  lemma Tops(reg: Registry, s: Sys, a: Action)
    requires Enabled(reg, s, a) && Up(Next(reg, s, a))
    ensures a.ServerIssue? ==> s.srv.pc.Top? && Next(reg, s, a).srv.pc.Waiting? && Next(reg, s, a).cli.pc == s.cli.pc
    ensures a.ClientIssue? ==> s.cli.pc.Top? && Next(reg, s, a).srv.pc == s.srv.pc
    ensures Works(s, a) ==> Next(reg, s, a).cli.pc == s.cli.pc || Next(reg, s, a).srv.pc == s.srv.pc
  {
    hide Arriving, Sendable, Allowed, S.ReadDone, C.ReadDone, S.Answer, S.WriteDelivered, S.IssueRead,
      S.IssueWrite, Works, C.Issue, Fill;
    if a.ServerIssue? {
      IssueFetches(s.srv, a.stop, a.conn);
    }
  }

  lemma ClientIssueHelps(reg: Registry, s: Sys)
    requires Inv(reg, s) && Up(s) && s.cli.pc.Top?
    ensures Helps(reg, s, ClientIssue(true))
  {
    hide RequestSide, ReplySide, Outcomes, Ids, C.Ledger, S.Watched, S.Phase, ArmHeader;
    assert Up(Next(reg, s, ClientIssue(true)));
    ClientWaits(reg, s);
    hide Inv, Enabled, Next, Helps;
    StepHelps(reg, s, ClientIssue(true));
  }

  lemma ClientFillHelps(reg: Registry, s: Sys)
    requires Inv(reg, s) && Up(s) && CanFill(s.cli.r, s.srv.out)
    ensures Helps(reg, s, ClientFill)
  {
    hide Inv, Fill, CanFill;
    assert Enabled(reg, s, ClientFill) && Up(Next(reg, s, ClientFill)) && Works(s, ClientFill);
    hide Enabled, Next, Helps, Up;
    StepHelps(reg, s, ClientFill);
  }

  lemma ClientReadHelps(reg: Registry, s: Sys)
    requires Inv(reg, s) && Up(s) && s.cli.pc.Waiting? && C.ReadSignalled(s.cli)
    ensures Helps(reg, s, ClientRead(true))
  {
    hide RequestSide, ReplySide, Outcomes, Ids, C.Ledger, S.Watched, S.Phase, Arriving, C.ReadDone;
    assert !C.ReadDone(s.cli, true).lost by { ClientUp(s.cli); }
    ClientReads(reg, s.handled, s.delivered, s.srv, s.cli, true);
    assert Enabled(reg, s, ClientRead(true)) && Up(Next(reg, s, ClientRead(true)));
    hide Inv, Enabled, Next, Helps, Up;
    StepHelps(reg, s, ClientRead(true));
  }

  /** While a reply is with the client's reader or on its pipe, the client or its reads can go on. */
  lemma ClientHelps(reg: Registry, s: Sys)
    requires Inv(reg, s) && Up(s) && |s.delivered| < |s.handled| - |s.srv.queue|
    ensures exists a :: Helps(reg, s, a)
  {
    hide RequestSide, ReplySide, Outcomes, Ids, C.Ledger, S.Watched, S.Phase, Helps;
    ReplyWaits(reg, s.handled, s.delivered, s.srv, s.cli);
    ClientUp(s.cli);
    hide Inv;
    if s.cli.pc.Top? {
      ClientIssueHelps(reg, s);
    } else if s.cli.r.op.value.completed {
      ClientReadHelps(reg, s);
    } else {
      ClientFillHelps(reg, s);
    }
  }

  lemma ClientWaits(reg: Registry, s: Sys)
    requires Enabled(reg, s, ClientIssue(true))
    ensures Next(reg, s, ClientIssue(true)).cli.pc.Waiting?
  {
    hide ArmHeader;
  }

  /** A reader in flight with pending bodies finds what it asks for. */
  lemma Fillable(r: Reader, wire: Bytes, pending: seq<Bytes>)
    requires Aligned(r, wire, pending) && pending != [] && (InHeader(r) || InBody(r)) && !r.op.value.completed
    ensures CanFill(r, wire)
  {
    hide Frameable;
  }

  lemma ReplyWaits(reg: Registry, handled: seq<(Msg, Verdict)>, delivered: seq<Msg>, srv: S.Srv, c: C.Cli)
    requires ReplySide(reg, handled, delivered, srv, c) && !c.lost && |delivered| < |handled| - |srv.queue|
    ensures (InHeader(c.r) || InBody(c.r)) && !c.r.op.value.completed ==> CanFill(c.r, srv.out)
  {
    hide EncodeMsg, Dispatched, ReplyTo, Aligned;
    Shapes(reg, handled);
    var pending := Encodings(Replies(handled)[|delivered|..|handled| - |srv.queue|]);
    assert |pending| == |handled| - |srv.queue| - |delivered|;
    hide Encodings;
    if (InHeader(c.r) || InBody(c.r)) && !c.r.op.value.completed {
      Fillable(c.r, srv.out, pending);
    }
  }

  lemma ClientUp(c: C.Cli)
    requires ClientPhase(c) && !c.lost && (c.pc.Top? || c.pc.Waiting?)
    ensures c.pc.Waiting? ==> InHeader(c.r) || InBody(c.r)
    ensures c.pc.Waiting? && c.r.op.value.completed ==> C.ReadSignalled(c)
    ensures C.ReadSignalled(c) ==> !C.ReadDone(c, true).lost
  {
    hide ParseMsg, View, UidOf;
  }

  // ----- the server

  lemma ServerIssueHelps(reg: Registry, s: Sys)
    requires Inv(reg, s) && Up(s) && s.srv.pc.Top?
    ensures Helps(reg, s, ServerIssue(false, GOOD))
  {
    hide RequestSide, ReplySide, Outcomes, Ids, C.Ledger, S.Watched, S.Phase, ArmHeader, S.Announce, Arm;
    var a := ServerIssue(false, GOOD);
    assert Enabled(reg, s, a) && Up(Next(reg, s, a));
    hide Inv, Enabled, Next, Helps, Up;
    StepHelps(reg, s, a);
  }

  lemma ServerFillHelps(reg: Registry, s: Sys)
    requires Inv(reg, s) && Up(s) && CanFill(s.srv.r, s.wire)
    ensures Helps(reg, s, ServerFill)
  {
    hide Inv, Fill, CanFill;
    assert Enabled(reg, s, ServerFill) && Up(Next(reg, s, ServerFill)) && Works(s, ServerFill);
    hide Enabled, Next, Helps, Up;
    StepHelps(reg, s, ServerFill);
  }

  lemma ServerReadHelps(reg: Registry, s: Sys)
    requires Inv(reg, s) && Up(s) && s.srv.pc.Waiting? && S.ReadSignalled(s.srv)
    ensures Helps(reg, s, ServerRead(true, 0))
  {
    hide RequestSide, ReplySide, Outcomes, Ids, C.Ledger, S.Watched, S.ReadDone;
    var a := ServerRead(true, 0);
    ReadUp(s.srv);
    ReadKeepsRequests(s.written, s.handled, s.wire, s.srv, true, 0);
    assert Enabled(reg, s, a) && Up(Next(reg, s, a));
    hide Inv, Enabled, Next, Helps, Up;
    StepHelps(reg, s, a);
  }

  lemma ReadUp(s: S.Srv)
    requires S.Phase(s) && !s.lost && s.pc.Waiting? && S.ReadSignalled(s)
    ensures !S.ReadDone(s, true, 0).lost && (InHeader(s.r) || InBody(s.r))
  {
    hide ParseMsg;
  }

  lemma ServerAnswerHelps(reg: Registry, s: Sys, v: Verdict)
    requires Inv(reg, s) && Up(s) && s.srv.pc.Handling? && Dispatched(reg, (s.srv.pc.call, v))
    ensures Helps(reg, s, ServerAnswer(v))
  {
    hide Inv, Sendable, Allowed, EncodeMsg, ReplyTo, S.Blank;
    var a := ServerAnswer(v);
    assert |s.srv.pc.call.heads| == CALL_HEADS;
    assert Enabled(reg, s, a) && Up(Next(reg, s, a)) && Works(s, a);
    hide Enabled, Next, Helps, Up;
    StepHelps(reg, s, a);
  }

  lemma ServerWrittenHelps(reg: Registry, s: Sys)
    requires Inv(reg, s) && Up(s) && s.srv.wop.Some? && Locked(s.srv.wop.value)
    ensures Helps(reg, s, ServerWritten)
  {
    hide Inv;
    assert Enabled(reg, s, ServerWritten) && Up(Next(reg, s, ServerWritten)) && Works(s, ServerWritten);
    hide Enabled, Next, Helps, Up;
    StepHelps(reg, s, ServerWritten);
  }

  lemma ServerWriteDoneHelps(reg: Registry, s: Sys)
    requires Inv(reg, s) && Up(s) && s.srv.pc.Waiting? && S.WriteSignalled(s.srv)
    ensures Helps(reg, s, ServerWrite)
  {
    hide Inv;
    assert Enabled(reg, s, ServerWrite) && Up(Next(reg, s, ServerWrite)) && Works(s, ServerWrite);
    hide Enabled, Next, Helps, Up;
    StepHelps(reg, s, ServerWrite);
  }

  lemma ServerWriteHelps(reg: Registry, s: Sys)
    requires Inv(reg, s) && Up(s) && S.WriteInFlight(s.srv) && !s.srv.pc.Handling?
    ensures exists a :: Helps(reg, s, a)
  {
    hide Inv, Helps;
    if !s.srv.wop.value.completed {
      ServerWrittenHelps(reg, s);
    } else if s.srv.pc.Top? {
      ServerIssueHelps(reg, s);
    } else {
      ServerWriteDoneHelps(reg, s);
    }
  }

  /** While a request is on the pipe or with the reader, a server that is free can go on. */
  lemma ServerReadsHelp(reg: Registry, s: Sys)
    requires Inv(reg, s) && Up(s) && |s.handled| < |s.written|
    requires !s.srv.pc.Handling? && s.srv.queue == [] && !S.WriteInFlight(s.srv)
    ensures exists a :: Helps(reg, s, a)
  {
    hide RequestSide, ReplySide, Outcomes, Ids, C.Ledger, S.Watched, Helps;
    if s.srv.pc.Top? {
      hide Inv, S.Phase;
      ServerIssueHelps(reg, s);
    } else {
      RequestWaits(s.written, s.handled, s.wire, s.srv);
      assert InHeader(s.srv.r) || InBody(s.srv.r);
      hide Inv, S.Phase;
      if s.srv.r.op.value.completed {
        ServerReadHelps(reg, s);
      } else {
        ServerFillHelps(reg, s);
      }
    }
  }

  lemma RequestWaits(written: seq<Msg>, handled: seq<(Msg, Verdict)>, wire: Bytes, s: S.Srv)
    requires RequestSide(written, handled, wire, s) && !s.lost && Fetched(handled, s) < |written|
    ensures (InHeader(s.r) || InBody(s.r)) && !s.r.op.value.completed ==> CanFill(s.r, wire)
  {
    hide EncodeMsg, CallShape, Aligned;
    var pending := Encodings(written[Fetched(handled, s)..]);
    assert |pending| == |written| - Fetched(handled, s);
    hide Encodings;
    if (InHeader(s.r) || InBody(s.r)) && !s.r.op.value.completed {
      Fillable(s.r, wire, pending);
    }
  }

  /** While the connection is up and a written request has no delivered reply, some step of a worker
      or the system helps, unless a handler's reply fits no frame. */
  lemma Progress(reg: Registry, s: Sys)
    requires Reachable(reg, s) && Up(s) && |s.delivered| < |s.written|
    requires s.srv.pc.Handling? ==> exists v :: Dispatched(reg, (s.srv.pc.call, v))
    ensures Rank(s) >= 0 && exists a :: Helps(reg, s, a)
  {
    hide RequestSide, ReplySide, Outcomes, Ids, C.Ledger, S.Watched, S.Phase, Helps, Dispatched, ServerPhase,
      ReaderRank;
    ReachableInv(reg, s);
    hide Reachable;
    Bounds(reg, s);
    hide Inv;
    if |s.delivered| < |s.handled| - |s.srv.queue| {
      ClientHelps(reg, s);
    } else if s.srv.pc.Handling? {
      var v :| Dispatched(reg, (s.srv.pc.call, v));
      ServerAnswerHelps(reg, s, v);
    } else if s.srv.queue != [] {
      assert s.srv.pc.Top? by { QueueTop(reg, s); }
      ServerIssueHelps(reg, s);
    } else if S.WriteInFlight(s.srv) {
      ServerWriteHelps(reg, s);
    } else {
      ServerReadsHelp(reg, s);
    }
  }

  lemma QueueTop(reg: Registry, s: Sys)
    requires Inv(reg, s) && Up(s) && s.srv.queue != [] && !s.srv.pc.Handling?
    ensures s.srv.pc.Top?
  {
    hide RequestSide, ReplySide, Outcomes, Ids, C.Ledger, S.Watched;
  }
}
