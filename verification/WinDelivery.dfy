/** What the callers of the Windows pipeline get: each delivered reply runs the callback of its own
    call, and that callback gets what its caller is due. */
module WinDelivery {
  import opened Wire
  import opened Values
  import opened Messages
  import opened Frames
  import opened Dispatch
  import opened FrameReader
  import opened WinPipeline
  import opened WinPipelineSafety
  import opened WinPipelineRuns
  import S = WinServer
  import C = WinClient

  /** Each number stands for the call its caller asked for; a thread behind its registration is
      in the registry's history. */
  ghost predicate Books(threads: map<Tid, Thread>, calls: Book, asked: map<u64, Request>, cookies: set<u64>) {
    && asked.Keys == calls.Keys && (forall uid <- calls :: calls[uid] == AskMsg(uid, asked[uid]))
    && (forall t <- threads :: HasCallback(threads[t]) ==> threads[t].uid in cookies)
  }

  /** The uid a delivered reply carries. */
  function ReplyUid(m: Msg): u64 {
    if m.heads != [] && m.heads[0].Shaped() then UidOf(m.heads[0]) else 0
  }

  /** No delivered reply's call is still pending. */
  ghost predicate Rung(delivered: seq<Msg>, pending: set<u64>) {
    forall m <- delivered :: ReplyUid(m) !in pending
  }

  /** What the drain fired was not delivered, and nothing is delivered any more. */
  ghost predicate Drained(delivered: seq<Msg>, fired: seq<C.Firing>, pc: C.Pc) {
    forall f <- fired :: f.reply.None? ==> pc.Drained? && forall m <- delivered :: ReplyUid(m) != f.uid
  }

  ghost predicate Full(reg: Registry, s: Sys) {
    Inv(reg, s) && Books(s.threads, s.calls, s.asked, s.cli.cookies.Keys) && Rung(s.delivered, s.cli.cb.Keys) &&
    Drained(s.delivered, s.cli.fired, s.cli.pc)
  }

  /** What the steps of a calling thread do: a number of its own for what it asks, the registration,
      the frame on the pipe, and on failure the cancellation. */
  lemma ThreadEffects(reg: Registry, s: Sys, a: Action)
    requires Full(reg, s) && Enabled(reg, s, a)
    ensures a.Number? ==> var s' := Next(reg, s, a); var uid := s.counter + 1;
              s'.asked == s.asked[uid := Request(a.cname, a.fname, a.args)] && uid !in s.asked &&
              s'.threads[a.t] == Numbered(uid, AskMsg(uid, s'.asked[uid]))
    ensures a.Register? ==> var uid := s.threads[a.t].uid;
              Next(reg, s, a).cli.cb == s.cli.cb[uid := a.cookie] && uid !in s.cli.cb
    ensures a.Write? ==> var m := s.threads[a.t].call;
              Next(reg, s, a).wire == s.wire + Frame(m) && Next(reg, s, a).written == s.written + [m]
    ensures a.GiveUp? ==>
              a.id !in Next(reg, s, a).cli.cb && Next(reg, s, a).cli.cb.Keys == s.cli.cb.Keys - {a.id}
  {
    hide RequestSide, ReplySide, Outcomes, S.Phase, S.Watched, ClientPhase, C.Ledger, Rung, Drained,
      ThreadsOk, Frame, Sendable;
    if a.Number? {
      assert forall uid <- s.calls :: uid <= s.counter;
    } else if a.Register? {
      RegisterIds(s.counter, s.threads, s.calls, s.cli.cookies.Keys, s.written, a.t);
      Unregistered(s.cli, s.threads[a.t].uid);
    }
  }

  // ----- the uid of a reply

  /** A reply carries the uid of the call it answers, and that call has its own number. */
  lemma UidOfDelivered(reg: Registry, s: Sys, i: nat) returns (uid: u64)
    requires Inv(reg, s) && i < |s.delivered|
    ensures i < |s.handled| && |s.handled[i].0.heads| == CALL_HEADS
    ensures s.delivered[i] == ReplyTo(s.handled[i].0, s.handled[i].1) && s.handled[i].0 in s.written
    ensures uid in s.calls && s.calls[uid] == s.handled[i].0 && ReplyUid(s.delivered[i]) == uid
  {
    hide RequestSide, ReplySide, Outcomes, C.Ledger, S.Phase, S.Watched, ClientPhase, ReplyTo, UidOf;
    DeliveredReply(reg, s.handled, s.delivered, s.srv, s.cli, i);
    uid := CallOf(s, i);
    WasWritten(s.written, s.handled, s.wire, s.srv, i);
    UidBack(s.handled[i].0, s.handled[i].1, uid);
  }

  lemma DeliveredReply(reg: Registry, handled: seq<(Msg, Verdict)>, delivered: seq<Msg>, srv: S.Srv, cli: C.Cli, i: nat)
    requires ReplySide(reg, handled, delivered, srv, cli) && i < |delivered|
    ensures i < |handled| && |handled[i].0.heads| == CALL_HEADS
    ensures delivered[i] == ReplyTo(handled[i].0, handled[i].1)
  {
    hide Aligned, Encodings, ReplyTo;
    Shapes(reg, handled);
    assert handled[i] in handled;
    assert delivered[i] == Replies(handled)[..|delivered|][i] == Replies(handled)[i];
  }

  lemma WasWritten(written: seq<Msg>, handled: seq<(Msg, Verdict)>, wire: Bytes, srv: S.Srv, i: nat)
    requires RequestSide(written, handled, wire, srv) && i < |handled|
    ensures handled[i].0 in written
  {
    hide Aligned, Encodings, CallShape;
    assert Calls(handled)[i] == written[..|handled|][i] == written[i];
  }

  lemma UidBack(m: Msg, v: Verdict, uid: u64)
    requires Numbers(m, uid)
    ensures ReplyUid(ReplyTo(m, v)) == uid
  {
    UidRoundTrip(uid);
  }

  // ----- every step

  /** What a step does to the registry. */
  lemma CookiesStep(reg: Registry, s: Sys, a: Action)
    requires Enabled(reg, s, a)
    ensures a.Register? || Next(reg, s, a).cli.cookies == s.cli.cookies
    ensures a.Register? || Next(reg, s, a).cli.cb.Keys <= s.cli.cb.Keys
  {
    hide Sendable, Judged, Frame, S.Issue, S.ReadDone, S.Answer, S.WriteDelivered, C.ReadDone, C.Issue, Arriving, Fill,
      S.WriteFinished, Parsed, ReplyTo;
    match a
    case ClientRead(connected) => ReadCookies(s.cli, connected);
    case ClientIssue(read) => IssueCookies(s.cli, read);
    case _ =>
  }

  lemma ReadCookies(c: C.Cli, connected: bool)
    requires C.ReadSignalled(c)
    ensures C.ReadDone(c, connected).cookies == c.cookies && C.ReadDone(c, connected).cb.Keys <= c.cb.Keys
  {
    hide ParseMsg, View, UidOf;
  }

  lemma IssueCookies(c: C.Cli, read: bool)
    ensures C.Issue(c, read).cookies == c.cookies && C.Issue(c, read).cb == c.cb
  {}

  /** A number that is about to be registered belongs to no delivered reply. */
  lemma RegisterRings(reg: Registry, s: Sys, t: Tid, cookie: nat)
    requires Full(reg, s) && Enabled(reg, s, Register(t, cookie))
    ensures Rung(s.delivered, s.cli.cb.Keys + {s.threads[t].uid})
  {
    hide RequestSide, ReplySide, Outcomes, C.Ledger, S.Phase, S.Watched, ClientPhase, ReplyTo, UidOf, Numbers;
    var h := s.threads[t];
    assert ThreadOk(s.counter, h, s.calls, s.cli.cookies.Keys, s.written);
    forall i | 0 <= i < |s.delivered|
      ensures ReplyUid(s.delivered[i]) != h.uid
    {
      var uid := UidOfDelivered(reg, s, i);
    }
  }

  /** A delivered reply takes its call off the registry. */
  lemma ReadRings(reg: Registry, s: Sys, connected: bool)
    requires Full(reg, s) && Enabled(reg, s, ClientRead(connected))
    ensures Rung(s.delivered + Arriving(s.cli), C.ReadDone(s.cli, connected).cb.Keys)
  {
    hide RequestSide, ReplySide, Outcomes, C.Ledger, S.Phase, S.Watched, Ids, ReplyTo, UidOf, Arriving,
      Dispatched, View, ParseMsg;
    ClientReads(reg, s.handled, s.delivered, s.srv, s.cli, connected);
    ReadCookies(s.cli, connected);
    SideShapes(reg, s.handled, s.delivered, s.srv, s.cli);
    if InBody(s.cli.r) {
      var got := Arriving(s.cli)[0];
      ArrivingParse(s.cli, got);
      C.ReplyFires(s.cli, connected, got);
    }
  }

  lemma ArrivingParse(c: C.Cli, got: Msg)
    requires InBody(c.r) && C.ReadSignalled(c) && Arriving(c) == [got]
    ensures var p := ParseMsg(c.r.buf, 0, REPLY_HEADS, Thrown); p.Done? && p.value.0 == got
  {
    hide ParseMsg;
  }

  /** Workers and the system leave the threads' books alone. */
  lemma WorkersStep(reg: Registry, s: Sys, a: Action)
    requires Enabled(reg, s, a) && !a.Number? && !a.Register? && !a.Write? && !a.GiveUp? && !a.Return?
    ensures var s' := Next(reg, s, a); s'.threads == s.threads && s'.calls == s.calls && s'.asked == s.asked
  {
    hide Sendable, Judged, Frame, S.Issue, S.ReadDone, S.Answer, S.WriteDelivered, C.ReadDone, C.Issue, Arriving, Fill,
      S.WriteFinished, ReplyTo, C.DrainOf;
  }

  lemma NumberBooks(reg: Registry, s: Sys, a: Action)
    requires Full(reg, s) && Enabled(reg, s, a) && a.Number?
    ensures var s' := Next(reg, s, a); Books(s'.threads, s'.calls, s'.asked, s'.cli.cookies.Keys)
  {
    hide Inv, Sendable, Rung;
    var uid: u64 := s.counter + 1;
    assert Next(reg, s, a).calls[uid] == AskMsg(uid, Request(a.cname, a.fname, a.args));
  }

  lemma RegisterBooks(reg: Registry, s: Sys, t: Tid, cookie: nat)
    requires Full(reg, s) && Enabled(reg, s, Register(t, cookie))
    ensures var s' := Next(reg, s, Register(t, cookie)); Books(s'.threads, s'.calls, s'.asked, s'.cli.cookies.Keys)
  {
    hide RequestSide, ReplySide, Outcomes, CallsOk, S.Phase, S.Watched, ClientPhase, C.Ledger, Rung, ThreadsOk;
    var uid := s.threads[t].uid;
    RegisterIds(s.counter, s.threads, s.calls, s.cli.cookies.Keys, s.written, t);
    Unregistered(s.cli, uid);
    hide Inv;
    assert C.Register(s.cli, uid, cookie).cookies.Keys == s.cli.cookies.Keys + {uid};
  }

  lemma ThreadBooks(reg: Registry, s: Sys, a: Action)
    requires Full(reg, s) && Enabled(reg, s, a) && (a.Write? || a.GiveUp? || a.Return?)
    ensures var s' := Next(reg, s, a); Books(s'.threads, s'.calls, s'.asked, s'.cli.cookies.Keys)
  {
    hide Inv, Rung, Frame;
  }

  lemma BooksStep(reg: Registry, s: Sys, a: Action)
    requires Full(reg, s) && Enabled(reg, s, a)
    ensures var s' := Next(reg, s, a); Books(s'.threads, s'.calls, s'.asked, s'.cli.cookies.Keys)
  {
    hide Next, Enabled, Books;
    match a
    case Number(_, _, _, _) => NumberBooks(reg, s, a);
    case Register(t, cookie) => RegisterBooks(reg, s, t, cookie);
    case Write(_) => ThreadBooks(reg, s, a);
    case GiveUp(_, _) => ThreadBooks(reg, s, a);
    case Return(_) => ThreadBooks(reg, s, a);
    case _ =>
      hide Full;
      WorkersStep(reg, s, a);
      CookiesStep(reg, s, a);
      assert Books(s.threads, s.calls, s.asked, s.cli.cookies.Keys) by { FullBooks(reg, s); }
  }

  lemma FullBooks(reg: Registry, s: Sys)
    requires Full(reg, s)
    ensures Inv(reg, s) && Books(s.threads, s.calls, s.asked, s.cli.cookies.Keys) && Rung(s.delivered, s.cli.cb.Keys)
  {
    hide Inv, Books, Rung, Drained;
  }

  lemma ReadFires(reg: Registry, s: Sys, connected: bool)
    requires Inv(reg, s) && Enabled(reg, s, ClientRead(connected)) && Drained(s.delivered, s.cli.fired, s.cli.pc)
    ensures var c := C.ReadDone(s.cli, connected); Drained(s.delivered + Arriving(s.cli), c.fired, c.pc)
  {
    hide RequestSide, ReplySide, Outcomes, C.Ledger, S.Phase, S.Watched, Ids, ReplyTo, UidOf, Arriving,
      Dispatched, View, ParseMsg;
    ClientReads(reg, s.handled, s.delivered, s.srv, s.cli, connected);
    SideShapes(reg, s.handled, s.delivered, s.srv, s.cli);
    if InBody(s.cli.r) {
      var got := Arriving(s.cli)[0];
      ArrivingParse(s.cli, got);
      C.ReplyFires(s.cli, connected, got);
      FiredReplies(s.cli, connected);
    }
  }

  /** A read fires no callback without a reply. */
  lemma FiredReplies(c: C.Cli, connected: bool)
    requires C.ReadSignalled(c)
    ensures forall f <- C.ReadDone(c, connected).fired :: f in c.fired || f.reply.Some?
  {
    hide ParseMsg, View, UidOf;
  }

  lemma DrainedStep(reg: Registry, s: Sys, a: Action)
    requires Full(reg, s) && Enabled(reg, s, a)
    ensures var s' := Next(reg, s, a); Drained(s'.delivered, s'.cli.fired, s'.cli.pc)
  {
    hide Inv, Books, ReplyUid, Sendable, Judged, Frame, S.Issue, S.ReadDone, S.Answer, S.WriteDelivered, C.ReadDone,
      Arriving, Fill, S.WriteFinished, ReplyTo, ArmHeader;
    if a.ClientRead? {
      hide Drained;
      ReadFires(reg, s, a.connected);
    }
  }

  lemma RungStep(reg: Registry, s: Sys, a: Action)
    requires Full(reg, s) && Enabled(reg, s, a)
    ensures Rung(Next(reg, s, a).delivered, Next(reg, s, a).cli.cb.Keys)
  {
    hide Inv, Books, ReplyUid, Sendable, Judged, Frame, S.Issue, S.ReadDone, S.Answer, S.WriteDelivered,
      C.ReadDone, C.Issue,
      Drained, Arriving, Fill, S.WriteFinished, ReplyTo, C.DrainOf;
    match a
    case Register(t, cookie) => RegisterRings(reg, s, t, cookie);
    case ClientRead(connected) => ReadRings(reg, s, connected);
    case _ => CookiesStep(reg, s, a);
  }

  lemma StepFull(reg: Registry, s: Sys, a: Action)
    requires Full(reg, s) && Enabled(reg, s, a)
    ensures Full(reg, Next(reg, s, a))
  {
    FullBooks(reg, s);
    BooksStep(reg, s, a);
    RungStep(reg, s, a);
    DrainedStep(reg, s, a);
    StepKeepsInv(reg, s, a);
    hide Inv, Books, Rung, Drained, Next, Enabled;
  }

  // ----- every run

  lemma {:induction false} RunFull(reg: Registry, run: seq<Sys>)
    requires IsRun(reg, run)
    ensures Full(reg, run[|run| - 1])
    decreases |run|
  {
    var n := |run| - 1;
    if n > 0 {
      hide Next, Enabled, Full;
      Prefix(reg, run, n);
      RunFull(reg, run[..n]);
      assert IsStep(reg, run[n - 1], run[n - 1 + 1]);
      var a :| Enabled(reg, run[n - 1], a) && run[n] == Next(reg, run[n - 1], a);
      StepFull(reg, run[n - 1], a);
    } else {
      hide Next, Enabled, Inv;
      RunKeepsInv(reg, run);
    }
  }

  lemma ReachableFull(reg: Registry, s: Sys)
    requires Reachable(reg, s)
    ensures Full(reg, s)
  {
    hide Full, IsStep;
    var run :| IsRun(reg, run) && run[|run| - 1] == s;
    RunFull(reg, run);
  }

  // ----- what callers get

  /** A callback that a reply fired got what its caller is due: what the named function returns for
      the caller's own arguments, or the notice that it is not registered. */
  lemma OwnVerdict(reg: Registry, s: Sys, f: C.Firing)
    requires Reachable(reg, s) && f in s.cli.fired && f.reply.Some?
    ensures f.uid in s.asked && Due(reg, s.asked[f.uid], f.values)
    ensures f.uid in s.cli.cookies && f.cookie == s.cli.cookies[f.uid]
    ensures exists v :: (AskMsg(f.uid, s.asked[f.uid]), v) in s.handled
  {
    hide Reachable, Inv, View, Sendable, Judged, Sees, ReplyTo, Rung, Due;
    ReachableFull(reg, s);
    CallbacksExact(reg, s);
    assert WinPipelineRuns.Outcome(f, s.handled, s.calls);
    var h :| h in s.handled && h.0 == s.calls[f.uid] && Shows(f, h);
    OrderedExactlyOnce(reg, s);
    SeesVerdict(reg, h);
    assert h == (AskMsg(f.uid, s.asked[f.uid]), h.1);
    DueVerdict(reg, f.uid, s.asked[f.uid], h.1, f.values);
  }

  /** Once the reply of a call is delivered, the callback that was registered for it is not pending
      any more: this very reply fired it, unless it was cancelled before. */
  lemma DeliveredFires(reg: Registry, s: Sys, i: nat) returns (uid: u64)
    requires Reachable(reg, s) && i < |s.delivered|
    ensures i < |s.written| && uid in s.asked && s.written[i] == AskMsg(uid, s.asked[uid])
    ensures uid in s.cli.cookies ==>
              uid !in s.cli.cb &&
              (uid in s.cli.cancelled ||
               exists f <- s.cli.fired :: f.uid == uid && f.reply == Some(s.delivered[i]))
  {
    hide Reachable, Inv, View, Sendable, Judged, ReplyTo, Shows, ReplyUid;
    ReachableFull(reg, s);
    OrderedExactlyOnce(reg, s);
    uid := UidOfDelivered(reg, s, i);
    assert Calls(s.handled)[i] == s.written[i];
    CallbacksExact(reg, s);
    assert s.delivered[i] in s.delivered;
    if uid in s.cli.cookies && uid !in s.cli.cancelled {
      assert uid in C.FiredUids(s.cli.fired);
      var f :| f in s.cli.fired && f.uid == uid;
      FiredBy(reg, s, f, i);
    }
  }

  /** The reply that fired the callback of a call is the one to that call. */
  lemma FiredBy(reg: Registry, s: Sys, f: C.Firing, i: nat)
    requires Inv(reg, s) && i < |s.delivered| && f in s.cli.fired && f.reply.Some?
    requires i < |s.handled| && f.uid in s.calls && s.calls[f.uid] == s.handled[i].0
    ensures f.reply == Some(s.delivered[i])
  {
    hide RequestSide, ReplySide, ThreadsOk, C.Ledger, S.Phase, S.Watched, ClientPhase, ReplyTo, View, Numbers;
    DeliveredReply(reg, s.handled, s.delivered, s.srv, s.cli, i);
    assert WinPipelineRuns.Outcome(f, s.handled, s.calls);
    var h :| h in s.handled && h.0 == s.calls[f.uid] && Shows(f, h);
    var j :| 0 <= j < |s.handled| && s.handled[j] == h;
    FirstOnce(s.written, s.handled, s.wire, s.srv, i, j);
  }

  lemma FirstOnce(written: seq<Msg>, handled: seq<(Msg, Verdict)>, wire: Bytes, srv: S.Srv, i: nat, j: nat)
    requires RequestSide(written, handled, wire, srv) && i < |handled| && j < |handled|
    requires forall k, l :: 0 <= k < l < |written| ==> written[k] != written[l]
    requires handled[i].0 == handled[j].0
    ensures i == j
  {
    hide Aligned, Encodings, CallShape;
    assert Calls(handled)[i] == written[..|handled|][i] == written[i];
    assert Calls(handled)[j] == written[..|handled|][j] == written[j];
  }
}
