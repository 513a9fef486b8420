/** Every run of the Windows pipeline: safety, and refinement of a one-at-a-time RPC. */
module WinPipelineRuns {
  import opened Wire
  import opened Values
  import opened Messages
  import opened Frames
  import opened AsyncOps
  import opened Dispatch
  import opened FrameReader
  import opened WinPipeline
  import opened WinPipelineSafety
  import S = WinServer
  import C = WinClient

  // ----- uids

  type Book = map<u64, Msg>

  ghost predicate ThreadOk(counter: nat, h: Thread, calls: Book, cookies: set<u64>, written: seq<Msg>) {
    && 1 <= h.uid <= counter
    && (!h.Sent? ==> Numbers(h.call, h.uid) && h.uid in calls && calls[h.uid] == h.call && h.call !in written)
    && (h.Numbered? ==> h.uid !in cookies)
  }

  /** Each thread has a uid of its own, which it registers at most once and before its request is
      written. */
  ghost predicate ThreadsOk(counter: nat, threads: map<Tid, Thread>, calls: Book, cookies: set<u64>,
                            written: seq<Msg>) {
    && (forall t <- threads :: ThreadOk(counter, threads[t], calls, cookies, written))
    && (forall t <- threads, t' <- threads :: t != t' ==> threads[t].uid != threads[t'].uid)
  }

  /** A written request is the call with its number, and is written once. */
  ghost predicate CallsOk(counter: nat, calls: Book, written: seq<Msg>) {
    && (forall uid <- calls :: uid <= counter && Numbers(calls[uid], uid))
    && (forall m <- written :: exists uid :: uid in calls && calls[uid] == m)
    && (forall i, j :: 0 <= i < j < |written| ==> written[i] != written[j])
  }

  ghost predicate Ids(s: Sys) {
    ThreadsOk(s.counter, s.threads, s.calls, s.cli.cookies.Keys, s.written) && CallsOk(s.counter, s.calls, s.written) &&
    s.cli.cookies.Keys <= s.calls.Keys
  }

  lemma NumberIds(counter: nat, threads: map<Tid, Thread>, calls: Book, cookies: set<u64>, written: seq<Msg>,
                  t: Tid, call: Msg)
    requires ThreadsOk(counter, threads, calls, cookies, written) && CallsOk(counter, calls, written)
    requires cookies <= calls.Keys
    requires t !in threads && counter + 1 < P64 && Numbers(call, counter + 1)
    ensures var uid := counter + 1;
            ThreadsOk(uid, threads[t := Numbered(uid, call)], calls[uid := call], cookies, written) &&
            CallsOk(uid, calls[uid := call], written) && uid !in calls
  {
    hide Numbers;
    var uid: u64 := counter + 1;
    var calls' := calls[uid := call];
    forall m <- written
      ensures m != call && exists id :: id in calls' && calls'[id] == m
    {
      var id :| id in calls && calls[id] == m;
      assert calls'[id] == m;
      if m == call {
        SameUid(m, id, uid);
      }
    }
    forall t' <- threads
      ensures ThreadOk(uid, threads[t'], calls', cookies, written)
    {
      assert ThreadOk(counter, threads[t'], calls, cookies, written);
    }
  }

  lemma RegisterIds(counter: nat, threads: map<Tid, Thread>, calls: Book, cookies: set<u64>, written: seq<Msg>, t: Tid)
    requires ThreadsOk(counter, threads, calls, cookies, written) && t in threads && threads[t].Numbered?
    ensures var h := threads[t];
            h.uid !in cookies && h.uid in calls &&
            ThreadsOk(counter, threads[t := Registered(h.uid, h.call)], calls, cookies + {h.uid}, written)
  {
    hide Numbers;
    var h := threads[t];
    assert ThreadOk(counter, h, calls, cookies, written);
    forall t' | t' in threads && t' != t
      ensures ThreadOk(counter, threads[t'], calls, cookies + {h.uid}, written)
    {
      assert ThreadOk(counter, threads[t'], calls, cookies, written);
    }
  }

  lemma WriteIds(counter: nat, threads: map<Tid, Thread>, calls: Book, cookies: set<u64>, written: seq<Msg>, t: Tid)
    requires ThreadsOk(counter, threads, calls, cookies, written) && CallsOk(counter, calls, written)
    requires t in threads && !threads[t].Sent?
    ensures var h := threads[t];
            ThreadsOk(counter, threads[t := Sent(h.uid, h.Numbered?)], calls, cookies, written + [h.call]) &&
            CallsOk(counter, calls, written + [h.call]) && CallShape(h.call)
  {
    var h := threads[t];
    assert ThreadOk(counter, h, calls, cookies, written);
    assert CallShape(h.call);
    hide Numbers, CallShape;
    forall t' | t' in threads && t' != t
      ensures ThreadOk(counter, threads[t'], calls, cookies, written + [h.call])
    {
      assert ThreadOk(counter, threads[t'], calls, cookies, written);
      if !threads[t'].Sent? && threads[t'].call == h.call {
        SameUid(h.call, h.uid, threads[t'].uid);
      }
    }
  }

  lemma LeaveIds(counter: nat, threads: map<Tid, Thread>, calls: Book, cookies: set<u64>, written: seq<Msg>, t: Tid)
    requires ThreadsOk(counter, threads, calls, cookies, written)
    ensures ThreadsOk(counter, threads - {t}, calls, cookies, written)
  {
    hide ThreadOk;
  }

  // ----- outcomes

  /** The firing f shows the client's view of the reply to the dispatch h. */
  ghost predicate Shows(f: C.Firing, h: (Msg, Verdict)) {
    |h.0.heads| == CALL_HEADS &&
    var reply := ReplyTo(h.0, h.1);
    reply.Shaped() && f.reply == Some(reply) && f.values == View(reply)
  }

  /** A callback fired by a reply shows the dispatch of the very call that registered it; any
      other callback was fired by the drain. */
  ghost predicate Outcome(f: C.Firing, handled: seq<(Msg, Verdict)>, calls: Book) {
    if f.reply.None? then f.values == C.LOST_CONNECTION
    else f.uid in calls && exists h <- handled :: h.0 == calls[f.uid] && Shows(f, h)
  }

  ghost predicate Outcomes(fired: seq<C.Firing>, handled: seq<(Msg, Verdict)>, calls: Book) {
    forall f <- fired :: Outcome(f, handled, calls)
  }

  lemma OutcomesGrow(fired: seq<C.Firing>, handled: seq<(Msg, Verdict)>, calls: Book, handled': seq<(Msg,
                     Verdict)>, calls': Book)
    requires Outcomes(fired, handled, calls)
    requires handled <= handled' && forall uid <- calls :: uid in calls' && calls'[uid] == calls[uid]
    ensures Outcomes(fired, handled', calls')
  {
    hide Shows;
    forall f <- fired
      ensures Outcome(f, handled', calls')
    {
      assert Outcome(f, handled, calls);
      if f.reply.Some? {
        var h :| h in handled && h.0 == calls[f.uid] && Shows(f, h);
        assert h in handled';
      }
    }
  }

  // ----- the invariant

  ghost predicate Inv(reg: Registry, s: Sys) {
    && S.Phase(s.srv) && S.Watched(s.srv) && ClientPhase(s.cli)
    && RequestSide(s.written, s.handled, s.wire, s.srv)
    && ReplySide(reg, s.handled, s.delivered, s.srv, s.cli)
    && Ids(s) && C.Ledger(s.cli)
    && Outcomes(s.cli.fired, s.handled, s.calls)
  }

  lemma NumberStep(reg: Registry, s: Sys, a: Action)
    requires Inv(reg, s) && a.Number? && Enabled(reg, s, a)
    ensures Inv(reg, Next(reg, s, a))
  {
    hide RequestSide, ReplySide, Outcomes, ThreadsOk, CallsOk, S.Phase, S.Watched, C.Ledger, Numbers, Sendable;
    var uid: u64 := s.counter + 1;
    var call := CallMsg(uid, a.cname, a.fname, a.args);
    Fresh(uid, a.cname, a.fname, a.args);
    NumberIds(s.counter, s.threads, s.calls, s.cli.cookies.Keys, s.written, a.t, call);
    OutcomesGrow(s.cli.fired, s.handled, s.calls, s.handled, s.calls[uid := call]);
  }

  lemma RegisterStep(reg: Registry, s: Sys, t: Tid, cookie: nat)
    requires Inv(reg, s) && Enabled(reg, s, Register(t, cookie))
    ensures Inv(reg, Next(reg, s, Register(t, cookie)))
  {
    hide RequestSide, ReplySide, Outcomes, ThreadsOk, CallsOk, S.Phase, S.Watched, C.Ledger;
    var h, c := s.threads[t], C.Register(s.cli, s.threads[t].uid, cookie);
    RegisterIds(s.counter, s.threads, s.calls, s.cli.cookies.Keys, s.written, t);
    C.RegisterKeepsLedger(s.cli, h.uid, cookie);
    SameReader(reg, s.handled, s.delivered, s.srv, s.cli, c);
    assert h.uid !in s.cli.cb by { Unregistered(s.cli, h.uid); }
    assert c.cookies.Keys == s.cli.cookies.Keys + {h.uid};
  }

  lemma Unregistered(c: C.Cli, uid: u64)
    requires C.Ledger(c) && uid !in c.cookies
    ensures uid !in c.cb
  {}

  lemma WriteStep(reg: Registry, s: Sys, t: Tid)
    requires Inv(reg, s) && Enabled(reg, s, Write(t))
    ensures Inv(reg, Next(reg, s, Write(t)))
  {
    hide RequestSide, ReplySide, Outcomes, ThreadsOk, CallShape, CallsOk, S.Phase, S.Watched, C.Ledger, Frame;
    WriteIds(s.counter, s.threads, s.calls, s.cli.cookies.Keys, s.written, t);
    WriteKeepsRequests(s.written, s.handled, s.wire, s.srv, s.threads[t].call);
  }

  lemma LeaveStep(reg: Registry, s: Sys, a: Action)
    requires Inv(reg, s) && (a.GiveUp? || a.Return?) && Enabled(reg, s, a)
    ensures Inv(reg, Next(reg, s, a))
  {
    hide RequestSide, ReplySide, Outcomes, ThreadsOk, CallsOk, S.Phase, S.Watched, C.Ledger;
    LeaveIds(s.counter, s.threads, s.calls, s.cli.cookies.Keys, s.written, a.t);
    if a.GiveUp? {
      C.CancelKeepsLedger(s.cli, a.id);
      SameReader(reg, s.handled, s.delivered, s.srv, s.cli, C.Cancel(s.cli, a.id));
    }
  }

  lemma Fresh(uid: u64, cname: Bytes, fname: Bytes, args: seq<Datum>)
    requires Sendable(CallMsg(uid, cname, fname, args))
    ensures Numbers(CallMsg(uid, cname, fname, args), uid)
  {}

  lemma ServerIssueStep(reg: Registry, s: Sys, stop: bool, conn: S.Conn)
    requires Inv(reg, s) && Enabled(reg, s, ServerIssue(stop, conn))
    ensures Inv(reg, Next(reg, s, ServerIssue(stop, conn)))
  {
    hide RequestSide, ReplySide, Outcomes, ThreadsOk, CallsOk, C.Ledger, CallShape, Sendable, EncodeMsg,
      Allowed, S.Phase, S.Watched, S.Issue;
    S.IssueKeeps(s.srv, stop, conn);
    IssueKeepsRequests(s.written, s.handled, s.wire, s.srv, stop, conn);
    IssueKeepsReplies(reg, s.handled, s.delivered, s.srv, s.cli, stop, conn);
  }

  lemma ServerReadStep(reg: Registry, s: Sys, connected: bool, now: int)
    requires Inv(reg, s) && Enabled(reg, s, ServerRead(connected, now))
    ensures Inv(reg, Next(reg, s, ServerRead(connected, now)))
  {
    hide RequestSide, ReplySide, Outcomes, ThreadsOk, CallsOk, C.Ledger, CallShape, Sendable, EncodeMsg, Allowed;
    ReadKeepsRequests(s.written, s.handled, s.wire, s.srv, connected, now);
    ReadKeepsReplies(reg, s.handled, s.delivered, s.srv, s.cli, connected, now);
  }

  lemma HandlingShape(s: Sys)
    requires RequestSide(s.written, s.handled, s.wire, s.srv) && s.srv.pc.Handling?
    ensures CallShape(s.srv.pc.call) && s.written[|s.handled|] == s.srv.pc.call
  {
    assert s.written[|s.handled|] in s.written;
  }

  lemma ServerAnswerStep(reg: Registry, s: Sys, v: Verdict)
    requires Inv(reg, s) && Enabled(reg, s, ServerAnswer(v))
    ensures Inv(reg, Next(reg, s, ServerAnswer(v)))
  {
    hide RequestSide, ReplySide, Outcomes, ThreadsOk, CallsOk, C.Ledger, CallShape, Sendable, EncodeMsg,
      Allowed, S.Phase, S.Watched, S.Answer;
    S.AnswerKeeps(s.srv, v);
    HandlingShape(s);
    AnswerKeepsRequests(s.written, s.handled, s.wire, s.srv, v);
    AnswerKeepsReplies(reg, s.handled, s.delivered, s.srv, s.cli, v);
    OutcomesGrow(s.cli.fired, s.handled, s.calls, s.handled + [(s.srv.pc.call, v)], s.calls);
  }

  lemma ServerWriteStep(reg: Registry, s: Sys)
    requires Inv(reg, s) && Enabled(reg, s, ServerWrite)
    ensures Inv(reg, Next(reg, s, ServerWrite))
  {
    hide RequestSide, ReplySide, Outcomes, ThreadsOk, CallsOk, C.Ledger, CallShape, Sendable, EncodeMsg,
      Allowed, S.Phase, S.Watched, S.WriteDelivered;
    S.WriteKeeps(s.srv);
    WrittenKeepsRequests(s.written, s.handled, s.wire, s.srv);
    WrittenKeepsReplies(reg, s.handled, s.delivered, s.srv, s.cli);
  }

  /** The system's steps: it fills reads, finishes writes and lets waits time out. */
  lemma SystemStep(reg: Registry, s: Sys, a: Action)
    requires Inv(reg, s) && Enabled(reg, s, a)
    requires a.ServerFill? || a.ServerWritten? || a.ServerTimeout? || a.ClientFill? || a.ClientTimeout?
    ensures Inv(reg, Next(reg, s, a))
  {
    hide RequestSide, ReplySide, Outcomes, ThreadsOk, CallsOk, C.Ledger, CallShape, Sendable, EncodeMsg, Allowed;
    match a
    case ServerFill =>
      FillKeepsRequests(s.written, s.handled, s.wire, s.srv);
      SameServer(reg, s.handled, s.delivered, s.srv, Next(reg, s, a).srv, s.cli);
    case ClientFill =>
      FillKeepsReplies(reg, s.handled, s.delivered, s.srv, s.cli);
      SameServerReader(s.written, s.handled, s.wire, s.srv, Next(reg, s, a).srv);
      C.SameLedger(s.cli, Next(reg, s, a).cli);
    case ServerWritten =>
      SameServer(reg, s.handled, s.delivered, s.srv, Next(reg, s, a).srv, s.cli);
      SameServerReader(s.written, s.handled, s.wire, s.srv, Next(reg, s, a).srv);
    case ServerTimeout =>
      SameServer(reg, s.handled, s.delivered, s.srv, Next(reg, s, a).srv, s.cli);
      SameServerReader(s.written, s.handled, s.wire, s.srv, Next(reg, s, a).srv);
    case ClientTimeout =>
      SameReader(reg, s.handled, s.delivered, s.srv, s.cli, Next(reg, s, a).cli);
      C.SameLedger(s.cli, Next(reg, s, a).cli);
  }

  lemma ClientIssueStep(reg: Registry, s: Sys, read: bool)
    requires Inv(reg, s) && Enabled(reg, s, ClientIssue(read))
    ensures Inv(reg, Next(reg, s, ClientIssue(read)))
  {
    hide RequestSide, ReplySide, Outcomes, ThreadsOk, CallsOk, C.Ledger, CallShape, Sendable, EncodeMsg,
      Allowed, S.Phase, S.Watched;
    ClientArms(reg, s.handled, s.delivered, s.srv, s.cli, read);
    C.SameLedger(s.cli, C.Issue(s.cli, read));
  }

  lemma DrainOutcomes(c: C.Cli, fs: seq<C.Firing>, handled: seq<(Msg, Verdict)>, calls: Book)
    requires Outcomes(c.fired, handled, calls) && C.DrainOf(c.cb, fs)
    ensures Outcomes(c.fired + fs, handled, calls)
  {}

  lemma ClientDrainStep(reg: Registry, s: Sys, fs: seq<C.Firing>)
    requires Inv(reg, s) && Enabled(reg, s, ClientDrain(fs))
    ensures Inv(reg, Next(reg, s, ClientDrain(fs)))
  {
    hide RequestSide, ReplySide, Outcomes, ThreadsOk, CallsOk, C.Ledger, CallShape, Sendable, EncodeMsg,
      Allowed, S.Phase, S.Watched;
    C.DrainKeepsLedger(s.cli, fs);
    DrainOutcomes(s.cli, fs, s.handled, s.calls);
    SameReader(reg, s.handled, s.delivered, s.srv, s.cli, C.Drain(s.cli, fs));
  }

  lemma AnsweredOutcomes(c: C.Cli, h: (Msg, Verdict), handled: seq<(Msg, Verdict)>, calls: Book, uid: u64)
    requires Outcomes(c.fired, handled, calls) && h in handled
    requires uid in calls && calls[uid] == h.0 && Numbers(h.0, uid) && ReplyTo(h.0, h.1).Shaped()
    ensures Outcomes(C.Answered(c, ReplyTo(h.0, h.1)).fired, handled, calls)
  {
    hide View, EncodeMsg, Assign;
    UidRoundTrip(uid);
    var reply := ReplyTo(h.0, h.1);
    assert UidOf(reply.heads[0]) == uid;
    if uid in c.cb {
      var f := C.Firing(uid, c.cb[uid], View(reply), Some(reply));
      assert Shows(f, h);
    }
  }

  /** The callback of a reply is fired with the dispatch of its own call. */
  lemma ClientReadStep(reg: Registry, s: Sys, connected: bool)
    requires Inv(reg, s) && Enabled(reg, s, ClientRead(connected))
    ensures Inv(reg, Next(reg, s, ClientRead(connected)))
  {
    hide RequestSide, ReplySide, Outcomes, ThreadsOk, CallsOk, C.Ledger, CallShape, Sendable, EncodeMsg,
      Allowed, S.Phase, S.Watched, View, UidOf, C.Answered;
    var c, n := C.ReadDone(s.cli, connected), |s.delivered|;
    ClientReads(reg, s.handled, s.delivered, s.srv, s.cli, connected);
    SideShapes(reg, s.handled, s.delivered, s.srv, s.cli);
    if InBody(s.cli.r) {
      var h := s.handled[n];
      assert h in s.handled;
      var reply := Replies(s.handled)[n];
      var d := s.cli.(pc := C.Top, r := c.r);
      C.SameLedger(s.cli, d);
      C.AnswerKeepsLedger(d, reply);
      var uid := CallOf(s, n);
      AnsweredOutcomes(d, h, s.handled, s.calls, uid);
      AnsweredFrame(d, reply);
    } else {
      C.SameLedger(s.cli, c);
    }
  }

  lemma AnsweredFrame(c: C.Cli, reply: Msg)
    requires reply.Shaped() && |reply.heads| == REPLY_HEADS
    ensures C.Answered(c, reply).cookies == c.cookies
  {
    hide View, UidOf;
  }

  /** The uid under which the n-th dispatched call was registered. */
  lemma CallOf(s: Sys, n: nat) returns (uid: u64)
    requires RequestSide(s.written, s.handled, s.wire, s.srv) && CallsOk(s.counter, s.calls, s.written)
    requires n < |s.handled|
    ensures uid in s.calls && s.calls[uid] == s.handled[n].0 && Numbers(s.handled[n].0, uid)
  {
    assert Calls(s.handled)[n] == s.written[n];
    assert s.written[n] in s.written;
    uid :| uid in s.calls && s.calls[uid] == s.written[n];
  }

  // ----- runs

  lemma StepKeepsInv(reg: Registry, s: Sys, a: Action)
    requires Inv(reg, s) && Enabled(reg, s, a)
    ensures Inv(reg, Next(reg, s, a))
  {
    hide Inv, Enabled, Next;
    match a
    case ServerIssue(stop, conn) => ServerIssueStep(reg, s, stop, conn);
    case ServerRead(connected, now) => ServerReadStep(reg, s, connected, now);
    case ServerAnswer(v) => ServerAnswerStep(reg, s, v);
    case ServerWrite => ServerWriteStep(reg, s);
    case ClientIssue(read) => ClientIssueStep(reg, s, read);
    case ClientRead(connected) => ClientReadStep(reg, s, connected);
    case ClientDrain(fs) => ClientDrainStep(reg, s, fs);
    case Number(_, _, _, _) => NumberStep(reg, s, a);
    case Register(t, cookie) => RegisterStep(reg, s, t, cookie);
    case Write(t) => WriteStep(reg, s, t);
    case GiveUp(_, _) => LeaveStep(reg, s, a);
    case Return(_) => LeaveStep(reg, s, a);
    case _ => SystemStep(reg, s, a);
  }

  ghost predicate IsStep(reg: Registry, s: Sys, s': Sys) {
    exists a :: Enabled(reg, s, a) && s' == Next(reg, s, a)
  }

  /** A finite run: any number of threads, any interleaving, any behaviour of the system. */
  ghost predicate IsRun(reg: Registry, run: seq<Sys>) {
    run != [] && run[0] == START && forall i :: 0 <= i < |run| - 1 ==> IsStep(reg, run[i], run[i + 1])
  }

  ghost predicate Reachable(reg: Registry, s: Sys) {
    exists run :: IsRun(reg, run) && run[|run| - 1] == s
  }

  lemma Prefix(reg: Registry, run: seq<Sys>, n: nat)
    requires IsRun(reg, run) && 0 < n <= |run|
    ensures IsRun(reg, run[..n])
  {
    hide IsStep;
    forall i | 0 <= i < n - 1
      ensures IsStep(reg, run[..n][i], run[..n][i + 1])
    {
      assert IsStep(reg, run[i], run[i + 1]);
    }
  }

  lemma StartInv(reg: Registry)
    ensures Inv(reg, START)
  {}

  lemma {:induction false} RunKeepsInv(reg: Registry, run: seq<Sys>)
    requires IsRun(reg, run)
    ensures Inv(reg, run[|run| - 1])
    decreases |run|
  {
    hide Next, Enabled, Inv;
    var n := |run| - 1;
    if n > 0 {
      Prefix(reg, run, n);
      RunKeepsInv(reg, run[..n]);
      assert IsStep(reg, run[n - 1], run[n - 1 + 1]);
      var a :| Enabled(reg, run[n - 1], a) && run[n] == Next(reg, run[n - 1], a);
      StepKeepsInv(reg, run[n - 1], a);
    } else {
      StartInv(reg);
    }
  }

  lemma ReachableInv(reg: Registry, s: Sys)
    requires Reachable(reg, s)
    ensures Inv(reg, s)
  {
    hide Inv;
    var run :| IsRun(reg, run) && run[|run| - 1] == s;
    RunKeepsInv(reg, run);
  }

  // ----- what holds in every reachable state

  /** The bytes of the frame a reader has already taken off the pipe. */
  function Held(r: Reader): Bytes {
    if InHeader(r) && r.op.value.completed then r.buf
    else if InBody(r) then Header(|r.buf|) + (if r.op.value.completed then r.buf else [])
    else []
  }

  lemma NothingLost(r: Reader, wire: Bytes, pending: seq<Bytes>)
    requires Aligned(r, wire, pending)
    ensures Flatten(pending) == Held(r) + wire
  {
    hide Frameable;
    if pending != [] {
      HeaderOfWrap(pending[0]);
      assert Flatten(pending) == Header(|pending[0]|) + pending[0] + Flatten(pending[1..]);
    }
  }

  /** Handlers ran for the first requests written, in that order and each once; the next request
      is the one being handled; the replies delivered are those of the first handlers; and no
      worker aborts or throws. */
  lemma OrderedExactlyOnce(reg: Registry, s: Sys)
    requires Reachable(reg, s)
    ensures !s.srv.pc.Dead? && !s.cli.pc.Dead? && forall h <- s.handled :: Dispatched(reg, h)
    ensures |s.delivered| <= |s.handled| <= Fetched(s.handled, s.srv) <= |s.written|
    ensures Calls(s.handled) == s.written[..|s.handled|]
    ensures forall i, j :: 0 <= i < j < |s.written| ==> s.written[i] != s.written[j]
    ensures forall h <- s.handled :: |h.0.heads| == CALL_HEADS
    ensures s.delivered == Replies(s.handled)[..|s.delivered|]
    ensures s.srv.pc.Handling? ==> s.srv.pc.call == s.written[|s.handled|]
  {
    hide Aligned, Sendable, Outcomes, ThreadsOk, C.Ledger, S.Watched;
    ReachableInv(reg, s);
    SideShapes(reg, s.handled, s.delivered, s.srv, s.cli);
  }

  lemma RequestBytes(written: seq<Msg>, handled: seq<(Msg, Verdict)>, wire: Bytes, srv: S.Srv)
    requires RequestSide(written, handled, wire, srv) && !srv.lost
    ensures Flatten(Encodings(written[Fetched(handled, srv)..])) == Held(srv.r) + wire
  {
    hide Aligned, Held, Encodings, CallShape;
    NothingLost(srv.r, wire, Encodings(written[Fetched(handled, srv)..]));
  }

  lemma ReplyBytes(reg: Registry, handled: seq<(Msg, Verdict)>, delivered: seq<Msg>, srv: S.Srv, cli: C.Cli)
    requires ReplySide(reg, handled, delivered, srv, cli)
    ensures forall h <- handled :: |h.0.heads| == CALL_HEADS
    ensures !cli.lost ==>
              Flatten(Encodings(Replies(handled)[|delivered|..|handled| - |srv.queue|])) == Held(cli.r) + srv.out
  {
    hide Aligned, Held, Encodings, Dispatched, ReplyTo;
    SideShapes(reg, handled, delivered, srv, cli);
    if !cli.lost {
      NothingLost(cli.r, srv.out, Encodings(Replies(handled)[|delivered|..|handled| - |srv.queue|]));
    }
  }

  lemma Bounds(reg: Registry, s: Sys)
    requires Inv(reg, s)
    ensures Fetched(s.handled, s.srv) <= |s.written| && |s.delivered| + |s.srv.queue| <= |s.handled|
  {
    hide Aligned, Outcomes, Ids, C.Ledger, S.Watched, S.Phase, ClientPhase, Encodings, Dispatched, CallShape;
  }

  /** What is written and not yet fetched is held by the reader or on the pipe, byte for byte, in
      both directions. */
  lemma BytesConserved(reg: Registry, s: Sys)
    requires Reachable(reg, s)
    ensures Fetched(s.handled, s.srv) <= |s.written| && |s.delivered| + |s.srv.queue| <= |s.handled|
    ensures forall h <- s.handled :: |h.0.heads| == CALL_HEADS
    ensures !s.srv.lost ==> Flatten(Encodings(s.written[Fetched(s.handled, s.srv)..])) == Held(s.srv.r) + s.wire
    ensures !s.cli.lost ==>
              Flatten(Encodings(Replies(s.handled)[|s.delivered|..|s.handled| - |s.srv.queue|]))
                == Held(s.cli.r) + s.srv.out
  {
    hide Held, RequestSide, ReplySide, Outcomes, Ids, C.Ledger, S.Watched, S.Phase, ClientPhase, Encodings,
      Dispatched, Flatten;
    ReachableInv(reg, s);
    Bounds(reg, s);
    ReplyBytes(reg, s.handled, s.delivered, s.srv, s.cli);
    if !s.srv.lost {
      RequestBytes(s.written, s.handled, s.wire, s.srv);
    }
  }

  /** The server does one thing at a time, and giving up the read never loses one in flight. */
  lemma OneThingAtATime(reg: Registry, s: Sys)
    requires Reachable(reg, s)
    ensures S.Live(s.srv) <= 1 && |s.srv.queue| <= 1
    ensures S.WriteSignalled(s.srv) ==> Handled(s.srv.r) && !Locked(s.srv.r.op.value)
    ensures s.srv.pc.Waiting? ==> s.srv.r.op.Some?
  {
    hide RequestSide, ReplySide, Outcomes, Ids, C.Ledger;
    ReachableInv(reg, s);
  }

  /** The watchdog throws exactly when a request that arrived more than the timeout ago has no
      issued reply. */
  lemma WatchdogOnlyOverdue(reg: Registry, s: Sys, now: int, timeout: int)
    requires Reachable(reg, s)
    ensures S.Trips(s.srv, now, timeout) <==>
              (s.srv.issued < |s.srv.arrivals| && now - s.srv.arrivals[s.srv.issued] > timeout)
    ensures s.srv.waiting <==> s.srv.pc.Handling? || s.srv.queue != []
  {
    hide RequestSide, ReplySide, Outcomes, Ids, C.Ledger;
    ReachableInv(reg, s);
    S.WatchdogExact(s.srv, now, timeout);
  }

  /** Registered callbacks are pending, fired or cancelled, one of these, and none fired twice;
      what a reply fires is the outcome of its own call, what the drain fires is the loss. */
  lemma CallbacksExact(reg: Registry, s: Sys)
    requires Reachable(reg, s)
    ensures s.cli.cookies.Keys == s.cli.cb.Keys + C.FiredUids(s.cli.fired) + s.cli.cancelled
    ensures s.cli.cb.Keys !! C.FiredUids(s.cli.fired) !! s.cli.cancelled
    ensures C.OncePerUid(s.cli.fired)
    ensures forall f <- s.cli.fired ::
              f.uid in s.cli.cookies && f.cookie == s.cli.cookies[f.uid] && Outcome(f, s.handled, s.calls)
    ensures s.cli.cookies.Keys <= s.calls.Keys
  {
    hide RequestSide, ReplySide, Outcome, ThreadsOk, CallsOk, S.Phase, S.Watched;
    ReachableInv(reg, s);
  }

  // ----- refinement

  /** A remote procedure call one at a time: a queue of requests, a queue of replies, and a
      server that takes a request, runs it and queues its reply in one step. */
  datatype Rpc = Rpc(requests: seq<Msg>, handled: seq<(Msg, Verdict)>, replies: seq<Msg>, delivered: seq<Msg>)

  ghost predicate Serves(reg: Registry, a: Rpc, b: Rpc, v: Verdict)
    requires a.requests != []
  {
    var call := a.requests[0];
    Dispatched(reg, (call, v)) &&
    b == a.(requests := a.requests[1..], handled := a.handled + [(call, v)], replies := a.replies + [ReplyTo(call, v)])
  }

  ghost predicate RpcStep(reg: Registry, a: Rpc, b: Rpc) {
    || b == a
    || (exists m :: CallShape(m) && b == a.(requests := a.requests + [m]))
    || (a.requests != [] && exists v :: Serves(reg, a, b, v))
    || (a.replies != [] && b == a.(replies := a.replies[1..], delivered := a.delivered + [a.replies[0]]))
  }

  ghost function Abs(reg: Registry, s: Sys): Rpc
    requires Inv(reg, s)
  {
    SideShapes(reg, s.handled, s.delivered, s.srv, s.cli);
    Rpc(s.written[|s.handled|..], s.handled, Replies(s.handled)[|s.delivered|..], s.delivered)
  }

  lemma WriteRefines(reg: Registry, s: Sys, t: Tid)
    requires Inv(reg, s) && Enabled(reg, s, Write(t)) && Inv(reg, Next(reg, s, Write(t)))
    ensures RpcStep(reg, Abs(reg, s), Abs(reg, Next(reg, s, Write(t))))
  {
    hide RequestSide, ReplySide, Outcomes, ThreadsOk, CallsOk, C.Ledger, CallShape, S.Phase, S.Watched,
      Frame, Dispatched;
    var m, a := s.threads[t].call, Abs(reg, s);
    WriteIds(s.counter, s.threads, s.calls, s.cli.cookies.Keys, s.written, t);
    BehindHandled(reg, s);
    assert (s.written + [m])[|s.handled|..] == a.requests + [m];
    assert CallShape(m) && Abs(reg, Next(reg, s, Write(t))) == a.(requests := a.requests + [m]);
  }

  lemma BehindHandled(reg: Registry, s: Sys)
    requires Inv(reg, s)
    ensures |s.handled| <= |s.written| && |s.delivered| <= |s.handled|
  {}

  lemma AnswerRefines(reg: Registry, s: Sys, v: Verdict)
    requires Inv(reg, s) && Enabled(reg, s, ServerAnswer(v)) && Inv(reg, Next(reg, s, ServerAnswer(v)))
    ensures RpcStep(reg, Abs(reg, s), Abs(reg, Next(reg, s, ServerAnswer(v))))
  {
    hide RequestSide, ReplySide, Outcomes, ThreadsOk, CallsOk, C.Ledger, CallShape, S.Phase, S.Watched,
      Sendable, ReplyTo;
    var a, call := Abs(reg, s), s.srv.pc.call;
    BehindHandled(reg, s);
    BehindHandled(reg, Next(reg, s, ServerAnswer(v)));
    HandlingShape(s);
    SideShapes(reg, s.handled, s.delivered, s.srv, s.cli);
    RepliesAppend(s.handled, (call, v));
    assert a.requests[0] == call && a.requests[1..] == s.written[|s.handled| + 1..];
    assert (Replies(s.handled) + [ReplyTo(call, v)])[|s.delivered|..] == a.replies + [ReplyTo(call, v)];
    assert Serves(reg, a, Abs(reg, Next(reg, s, ServerAnswer(v))), v);
  }

  lemma ReadAdds(reg: Registry, s: Sys, connected: bool)
    requires Inv(reg, s) && Enabled(reg, s, ClientRead(connected))
    ensures forall h <- s.handled :: |h.0.heads| == CALL_HEADS
    ensures Arriving(s.cli) == [] ||
            (|s.delivered| < |s.handled| && Arriving(s.cli) == [Replies(s.handled)[|s.delivered|]])
  {
    hide RequestSide, ReplySide, Outcomes, ThreadsOk, CallsOk, C.Ledger, CallShape, S.Phase, S.Watched,
      Dispatched, ReplyTo, Arriving;
    SideShapes(reg, s.handled, s.delivered, s.srv, s.cli);
    ClientReads(reg, s.handled, s.delivered, s.srv, s.cli, connected);
  }

  lemma ReadRefines(reg: Registry, s: Sys, connected: bool)
    requires Inv(reg, s) && Enabled(reg, s, ClientRead(connected)) && Inv(reg, Next(reg, s, ClientRead(connected)))
    ensures RpcStep(reg, Abs(reg, s), Abs(reg, Next(reg, s, ClientRead(connected))))
  {
    hide Inv, RequestSide, ReplySide, Dispatched, ReplyTo, Arriving, C.ReadDone, Serves;
    var a, n := Abs(reg, s), |s.delivered|;
    BehindHandled(reg, s);
    BehindHandled(reg, Next(reg, s, ClientRead(connected)));
    ReadAdds(reg, s, connected);
    if Arriving(s.cli) == [] {
      assert s.delivered + [] == s.delivered;
    } else {
      assert Replies(s.handled)[n..][1..] == Replies(s.handled)[n + 1..];
    }
  }

  /** Every step of the pipeline is one step of the simple machine, or none. */
  lemma StepRefines(reg: Registry, s: Sys, a: Action)
    requires Inv(reg, s) && Enabled(reg, s, a)
    ensures Inv(reg, Next(reg, s, a)) && RpcStep(reg, Abs(reg, s), Abs(reg, Next(reg, s, a)))
  {
    hide Inv, Enabled, RpcStep, Abs, Next;
    StepKeepsInv(reg, s, a);
    match a
    case Write(t) => WriteRefines(reg, s, t);
    case ServerAnswer(v) => AnswerRefines(reg, s, v);
    case ClientRead(connected) => ReadRefines(reg, s, connected);
    case _ => Stutters(reg, s, a);
  }

  lemma Stutters(reg: Registry, s: Sys, a: Action)
    requires Inv(reg, s) && Enabled(reg, s, a) && Inv(reg, Next(reg, s, a))
    requires !a.Write? && !a.ServerAnswer? && !a.ClientRead?
    ensures RpcStep(reg, Abs(reg, s), Abs(reg, Next(reg, s, a)))
  {
    hide Inv, CallShape, Dispatched;
  }

  /** A run of the pipeline is a run of the simple machine. */
  lemma RunRefines(reg: Registry, run: seq<Sys>, i: nat)
    requires IsRun(reg, run) && i + 1 < |run|
    ensures Inv(reg, run[i]) && Inv(reg, run[i + 1]) && RpcStep(reg, Abs(reg, run[i]), Abs(reg, run[i + 1]))
    ensures Inv(reg, START) && Abs(reg, START) == Rpc([], [], [], [])
  {
    hide Inv, Enabled, RpcStep, Next;
    Prefix(reg, run, 1);
    RunKeepsInv(reg, run[..1]);
    Prefix(reg, run, i + 1);
    RunKeepsInv(reg, run[..i + 1]);
    assert IsStep(reg, run[i], run[i + 1]);
    var a :| Enabled(reg, run[i], a) && run[i + 1] == Next(reg, run[i], a);
    StepRefines(reg, run[i], a);
  }
}
