/** The inductive invariant of the Windows pipeline, one lemma for each part and kind of step. */
module WinPipelineSafety {
  import opened Wire
  import opened Messages
  import opened Frames
  import opened AsyncOps
  import opened Dispatch
  import opened FrameReader
  import opened WinPipeline
  import S = WinServer
  import C = WinClient

  // ----- lists of encodings

  lemma EncodingsAppend(ms: seq<Msg>, m: Msg)
    ensures Encodings(ms + [m]) == Encodings(ms) + [EncodeMsg(m)]
  {
    hide EncodeMsg;
  }

  lemma EncodingsTail(ms: seq<Msg>)
    requires ms != []
    ensures Encodings(ms) != [] && Encodings(ms)[0] == EncodeMsg(ms[0]) && Encodings(ms)[1..] == Encodings(ms[1..])
  {
    hide EncodeMsg;
  }

  /** A buffer that holds one encoded message parses to it. */
  lemma ParseBody(m: Msg, short: Outcome<(Msg, nat)>)
    requires Sendable(m) && !short.Done?
    ensures ParseMsg(EncodeMsg(m), 0, |m.heads|, short) == Done((m, |EncodeMsg(m)|))
  {
    hide EncodeMsg, ParseMsg;
    assert Has(EncodeMsg(m), 0, EncodeMsg(m));
    ParseEncodeFitting(EncodeMsg(m), 0, m, short);
  }

  /** make_sendable turns a queued reply into its frame. */
  lemma AnnounceBlank(body: Bytes)
    ensures S.Announce(S.Blank(body)) == Wrap(body)
  {
    hide Put32;
    var b := S.Blank(body);
    assert b[..4] == [0, 0, 0, 0] && b[8..] == body;
  }

  // ----- the request side

  lemma WriteKeepsRequests(written: seq<Msg>, handled: seq<(Msg, Verdict)>, wire: Bytes, srv: S.Srv, m: Msg)
    requires RequestSide(written, handled, wire, srv) && CallShape(m)
    ensures RequestSide(written + [m], handled, wire + Frame(m), srv)
  {
    hide EncodeMsg, Aligned, CallShape, Encodings;
    var n := Fetched(handled, srv);
    assert (written + [m])[n..] == written[n..] + [m];
    EncodingsAppend(written[n..], m);
    assert (written + [m])[..|handled|] == written[..|handled|];
    assert CallShape(m) ==> Frameable(EncodeMsg(m)) by { Framed(m); }
    if !srv.lost {
      WrittenAligned(srv.r, wire, Encodings(written[n..]), EncodeMsg(m));
    }
  }

  lemma Framed(m: Msg)
    ensures CallShape(m) ==> Frameable(EncodeMsg(m)) && m.Shaped()
  {}

  lemma IssueKeepsRequests(written: seq<Msg>, handled: seq<(Msg, Verdict)>, wire: Bytes, srv: S.Srv,
                           stop: bool, c: S.Conn)
    requires RequestSide(written, handled, wire, srv) && S.Phase(srv) && srv.pc.Top? && c.Possible(srv.lost)
    ensures RequestSide(written, handled, wire, S.Issue(srv, stop, c))
  {
    hide EncodeMsg, Aligned, CallShape, Encodings, ArmHeader, S.Announce;
    if Armable(srv.r) && !srv.lost {
      ArmAligned(srv.r, wire, Encodings(written[Fetched(handled, srv)..]));
    }
  }

  lemma FillKeepsRequests(written: seq<Msg>, handled: seq<(Msg, Verdict)>, wire: Bytes, srv: S.Srv)
    requires RequestSide(written, handled, wire, srv) && CanFill(srv.r, wire)
    ensures var (r, wire') := Fill(srv.r, wire); RequestSide(written, handled, wire', srv.(r := r))
  {
    hide EncodeMsg, Aligned, CallShape, Encodings, Fill;
    if !srv.lost {
      FillAligned(srv.r, wire, Encodings(written[Fetched(handled, srv)..]));
    }
  }

  /** A delivered header leads to the read of its body, a delivered body to its handler. */
  lemma ReadKeepsRequests(written: seq<Msg>, handled: seq<(Msg, Verdict)>, wire: Bytes, srv: S.Srv,
                          connected: bool, now: int)
    requires RequestSide(written, handled, wire, srv) && S.Phase(srv) && srv.pc.Waiting? && S.ReadSignalled(srv)
    ensures var s := S.ReadDone(srv, connected, now);
            RequestSide(written, handled, wire, s) && !s.pc.Dead? &&
            (InBody(srv.r) ==> (s.pc.Handling? && Handled(s.r) && s.arrivals == srv.arrivals + [now] &&
                                s.waiting && s.last == now)) &&
            (InHeader(srv.r) ==> (s.pc.Top? && (if s.lost then Idle(s.r) else InBody(s.r)) &&
              s == srv.(pc := s.pc, r := s.r, lost := s.lost)))
  {
    hide EncodeMsg, CallShape, Encodings, ParseMsg;
    var n := Fetched(handled, srv);
    var pending := Encodings(written[n..]);
    if InHeader(srv.r) {
      HeaderAligned(srv.r, wire, pending);
    } else {
      assert InBody(srv.r);
      BodyAligned(srv.r, wire, pending);
      PendingHead(written, n);
      assert written[n] in written;
      assert CallShape(written[n]);
      CallParses(written[n]);
    }
  }

  lemma PendingHead(written: seq<Msg>, n: nat)
    requires n <= |written| && Encodings(written[n..]) != []
    ensures n < |written| && Encodings(written[n..])[0] == EncodeMsg(written[n])
    ensures Encodings(written[n..])[1..] == Encodings(written[n + 1..])
  {
    hide EncodeMsg;
    assert written[n..] != [];
    EncodingsTail(written[n..]);
    assert written[n..][1..] == written[n + 1..];
  }

  lemma CallParses(m: Msg)
    requires CallShape(m)
    ensures ParseMsg(EncodeMsg(m), 0, CALL_HEADS, Aborted) == Done((m, |EncodeMsg(m)|)) && |m.heads| == CALL_HEADS
  {
    hide EncodeMsg, ParseMsg;
    ParseBody(m, Aborted);
  }

  lemma AnswerKeepsRequests(written: seq<Msg>, handled: seq<(Msg, Verdict)>, wire: Bytes, srv: S.Srv, v: Verdict)
    requires RequestSide(written, handled, wire, srv) && srv.pc.Handling? && |srv.pc.call.heads| == CALL_HEADS
    ensures RequestSide(written, handled + [(srv.pc.call, v)], wire, S.Answer(srv, v))
  {
    hide EncodeMsg, Aligned, CallShape, Encodings, ReplyTo;
    var h := (srv.pc.call, v);
    assert Calls(handled + [h]) == Calls(handled) + [srv.pc.call] == written[..|handled| + 1];
  }

  lemma WrittenKeepsRequests(written: seq<Msg>, handled: seq<(Msg, Verdict)>, wire: Bytes, srv: S.Srv)
    requires RequestSide(written, handled, wire, srv) && S.Phase(srv) && srv.pc.Waiting? && S.WriteSignalled(srv)
    ensures RequestSide(written, handled, wire, S.WriteDelivered(srv))
  {
    hide EncodeMsg, Aligned, CallShape, Encodings;
    S.NoReadDiscarded(srv);
    if !srv.lost {
      RevokeAligned(srv.r, wire, Encodings(written[Fetched(handled, srv)..]));
    }
  }

  // ----- the reply side

  /** The client's own phases: it never keeps a handled read. */
  predicate ClientPhase(c: C.Cli) {
    && !c.pc.Dead?
    && (Idle(c.r) || InHeader(c.r) || InBody(c.r))
    && (c.pc.Waiting? ==> !c.lost && !Idle(c.r))
    && (c.lost ==> Idle(c.r))
  }

  lemma RepliesAppend(hs: seq<(Msg, Verdict)>, h: (Msg, Verdict))
    requires (forall g <- hs :: |g.0.heads| == CALL_HEADS) && |h.0.heads| == CALL_HEADS
    ensures forall g <- hs + [h] :: |g.0.heads| == CALL_HEADS
    ensures Replies(hs + [h]) == Replies(hs) + [ReplyTo(h.0, h.1)]
  {
    hide ReplyTo;
  }

  lemma AnswerKeepsReplies(reg: Registry, handled: seq<(Msg, Verdict)>, delivered: seq<Msg>, srv: S.Srv,
                           cli: C.Cli, v: Verdict)
    requires ReplySide(reg, handled, delivered, srv, cli) && S.Phase(srv) && srv.pc.Handling?
    requires Dispatched(reg, (srv.pc.call, v))
    ensures ReplySide(reg, handled + [(srv.pc.call, v)], delivered, S.Answer(srv, v), cli)
  {
    hide EncodeMsg, Aligned, Dispatched, Encodings, ReplyTo, S.Blank;
    var h := (srv.pc.call, v);
    Shapes(reg, handled);
    RepliesAppend(handled, h);
    assert Replies(handled + [h])[|delivered|..|handled|] == Replies(handled)[|delivered|..|handled|];
    assert Replies(handled + [h])[..|delivered|] == Replies(handled)[..|delivered|];
  }

  lemma Shapes(reg: Registry, handled: seq<(Msg, Verdict)>)
    requires forall h <- handled :: Dispatched(reg, h)
    ensures forall h <- handled :: |h.0.heads| == CALL_HEADS && Sendable(ReplyTo(h.0, h.1)) && h.0.Shaped()
  {}

  lemma IssueKeepsReplies(reg: Registry, handled: seq<(Msg, Verdict)>, delivered: seq<Msg>, srv: S.Srv,
                          cli: C.Cli, stop: bool, c: S.Conn)
    requires ReplySide(reg, handled, delivered, srv, cli) && S.Phase(srv) && srv.pc.Top?
    ensures ReplySide(reg, handled, delivered, S.Issue(srv, stop, c), cli)
  {
    hide EncodeMsg, Aligned, Dispatched, Encodings, ReplyTo, S.Blank, S.Announce, ArmHeader, Wrap, Arm;
    var s := S.Issue(srv, stop, c);
    if s.queue != srv.queue && s.queue == [] {
      assert |srv.queue| == 1 && s.out == srv.out + S.Announce(srv.queue[0]);
      hide S.Issue, S.Phase;
      ReplyWritten(reg, handled, delivered, srv, s, cli);
    } else {
      Shapes(reg, handled);
    }
  }

  /** The queued reply, the last one, is put on the pipe as a frame. */
  lemma ReplyWritten(reg: Registry, handled: seq<(Msg, Verdict)>, delivered: seq<Msg>, srv: S.Srv, s: S.Srv, cli: C.Cli)
    requires ReplySide(reg, handled, delivered, srv, cli) && |srv.queue| == 1 && !srv.pc.Exited?
    requires s.queue == [] && s.out == srv.out + S.Announce(srv.queue[0])
    ensures ReplySide(reg, handled, delivered, s, cli)
  {
    hide EncodeMsg, Aligned, Dispatched, Encodings, ReplyTo, S.Blank, S.Announce, Wrap;
    Shapes(reg, handled);
    var n, replies := |handled| - 1, Replies(handled);
    assert handled[n] in handled;
    var last := replies[n];
    AnnounceBlank(EncodeMsg(last));
    assert s.out == srv.out + Wrap(EncodeMsg(last));
    assert replies[|delivered|..n + 1] == replies[|delivered|..n] + [last];
    EncodingsAppend(replies[|delivered|..n], last);
    if !cli.lost {
      WrittenAligned(cli.r, srv.out, Encodings(replies[|delivered|..n]), EncodeMsg(last));
    }
  }

  lemma ReadKeepsReplies(reg: Registry, handled: seq<(Msg, Verdict)>, delivered: seq<Msg>, srv: S.Srv,
                         cli: C.Cli, connected: bool, now: int)
    requires ReplySide(reg, handled, delivered, srv, cli) && S.ReadSignalled(srv) && srv.pc.Waiting?
    ensures ReplySide(reg, handled, delivered, S.ReadDone(srv, connected, now), cli)
  {
    hide EncodeMsg, Aligned, Dispatched, Encodings, ReplyTo, S.Blank, ParseMsg, OnHeader;
  }

  lemma FillKeepsReplies(reg: Registry, handled: seq<(Msg, Verdict)>, delivered: seq<Msg>, srv: S.Srv, cli: C.Cli)
    requires ReplySide(reg, handled, delivered, srv, cli) && CanFill(cli.r, srv.out) && ClientPhase(cli)
    ensures var (r, out) := Fill(cli.r, srv.out);
            ReplySide(reg, handled, delivered, srv.(out := out), cli.(r := r)) && ClientPhase(cli.(r := r))
  {
    hide EncodeMsg, Aligned, Dispatched, Encodings, ReplyTo, S.Blank, Fill;
    Shapes(reg, handled);
    if !cli.lost {
      FillAligned(cli.r, srv.out, Encodings(Replies(handled)[|delivered|..|handled| - |srv.queue|]));
    }
  }

  /** Only the client's reader matters to the reply side. */
  lemma SameReader(reg: Registry, handled: seq<(Msg, Verdict)>, delivered: seq<Msg>, srv: S.Srv, c: C.Cli, d: C.Cli)
    requires ReplySide(reg, handled, delivered, srv, c) && d.r == c.r && (d.lost == c.lost || d.lost)
    ensures ReplySide(reg, handled, delivered, srv, d)
  {
    hide Aligned, Dispatched, Encodings, ReplyTo;
  }

  lemma SameServer(reg: Registry, handled: seq<(Msg, Verdict)>, delivered: seq<Msg>, srv: S.Srv, t: S.Srv, c: C.Cli)
    requires ReplySide(reg, handled, delivered, srv, c)
    requires t.queue == srv.queue && t.out == srv.out && (t.pc.Exited? || t.pc.Exited? == srv.pc.Exited?)
    ensures ReplySide(reg, handled, delivered, t, c)
  {
    hide Aligned, Dispatched, Encodings, ReplyTo;
  }

  lemma SameServerReader(written: seq<Msg>, handled: seq<(Msg, Verdict)>, wire: Bytes, srv: S.Srv, t: S.Srv)
    requires RequestSide(written, handled, wire, srv)
    requires t.r == srv.r && t.lost == srv.lost
    requires t.pc.Handling? == srv.pc.Handling? && (t.pc.Handling? ==> t.pc == srv.pc)
    ensures RequestSide(written, handled, wire, t)
  {
    hide Aligned, CallShape, Encodings;
  }

  lemma WrittenKeepsReplies(reg: Registry, handled: seq<(Msg, Verdict)>, delivered: seq<Msg>, srv: S.Srv, cli: C.Cli)
    requires ReplySide(reg, handled, delivered, srv, cli) && S.WriteSignalled(srv) && srv.pc.Waiting?
    ensures ReplySide(reg, handled, delivered, S.WriteDelivered(srv), cli)
  {
    SameServer(reg, handled, delivered, srv, S.WriteDelivered(srv), cli);
  }

  lemma ClientArms(reg: Registry, handled: seq<(Msg, Verdict)>, delivered: seq<Msg>, srv: S.Srv, cli: C.Cli, read: bool)
    requires ReplySide(reg, handled, delivered, srv, cli) && ClientPhase(cli) && cli.pc.Top? && !cli.lost
    ensures ReplySide(reg, handled, delivered, srv, C.Issue(cli, read)) && ClientPhase(C.Issue(cli, read))
  {
    hide EncodeMsg, Aligned, Dispatched, Encodings, ReplyTo, ArmHeader;
    Shapes(reg, handled);
    if Armable(cli.r) {
      ArmAligned(cli.r, srv.out, Encodings(Replies(handled)[|delivered|..|handled| - |srv.queue|]));
    }
  }

  lemma SideShapes(reg: Registry, handled: seq<(Msg, Verdict)>, delivered: seq<Msg>, srv: S.Srv, c: C.Cli)
    requires ReplySide(reg, handled, delivered, srv, c)
    ensures forall h <- handled ::
              Dispatched(reg, h) && |h.0.heads| == CALL_HEADS && Sendable(ReplyTo(h.0, h.1)) && h.0.Shaped()
  {}

  lemma ReplyParses(m: Msg)
    requires Sendable(m) && |m.heads| == REPLY_HEADS
    ensures ParseMsg(EncodeMsg(m), 0, REPLY_HEADS, Thrown) == Done((m, |EncodeMsg(m)|))
  {
    hide EncodeMsg, ParseMsg;
    ParseBody(m, Thrown);
  }

  /** What the client parses is the next reply in the order of the dispatches. */
  lemma ClientReads(reg: Registry, handled: seq<(Msg, Verdict)>, delivered: seq<Msg>, srv: S.Srv, cli: C.Cli,
                    connected: bool)
    requires ReplySide(reg, handled, delivered, srv, cli) && ClientPhase(cli) && cli.pc.Waiting? && C.ReadSignalled(cli)
    ensures var c := C.ReadDone(cli, connected); var got := Arriving(cli);
            ReplySide(reg, handled, delivered + got, srv, c) && ClientPhase(c) && c.pc.Top? &&
            (if InBody(cli.r)
             then |delivered| < |handled| && got == [Replies(handled)[|delivered|]] && got[0].Shaped() &&
                  c == C.Answered(cli.(pc := C.Top, r := c.r), got[0])
             else got == [] && c == cli.(pc := C.Top, r := c.r, lost := c.lost))
  {
    hide EncodeMsg, Dispatched, Encodings, ReplyTo, S.Blank, ParseMsg, UidOf, View, Flatten;
    if InHeader(cli.r) {
      ClientHeader(reg, handled, delivered, srv, cli, connected);
    } else {
      ClientBody(reg, handled, delivered, srv, cli, connected);
    }
  }

  lemma ClientHeader(reg: Registry, handled: seq<(Msg, Verdict)>, delivered: seq<Msg>, srv: S.Srv, cli: C.Cli,
                     connected: bool)
    requires ReplySide(reg, handled, delivered, srv, cli) && ClientPhase(cli) && cli.pc.Waiting? && C.ReadSignalled(cli)
    requires InHeader(cli.r)
    ensures var c := C.ReadDone(cli, connected);
            Arriving(cli) == [] && ReplySide(reg, handled, delivered, srv, c) && ClientPhase(c) && c.pc.Top? &&
            c == cli.(pc := C.Top, r := c.r, lost := c.lost)
  {
    hide EncodeMsg, Dispatched, Encodings, ReplyTo, S.Blank, ParseMsg, UidOf, View, Flatten;
    Shapes(reg, handled);
    HeaderAligned(cli.r, srv.out, Encodings(Replies(handled)[|delivered|..|handled| - |srv.queue|]));
  }

  lemma ClientBody(reg: Registry, handled: seq<(Msg, Verdict)>, delivered: seq<Msg>, srv: S.Srv, cli: C.Cli,
                   connected: bool)
    requires ReplySide(reg, handled, delivered, srv, cli) && ClientPhase(cli) && cli.pc.Waiting? && C.ReadSignalled(cli)
    requires InBody(cli.r)
    ensures var c := C.ReadDone(cli, connected); var got := Arriving(cli);
            ReplySide(reg, handled, delivered + got, srv, c) && ClientPhase(c) && c.pc.Top? &&
            |delivered| < |handled| && got == [Replies(handled)[|delivered|]] && got[0].Shaped() &&
            c == C.Answered(cli.(pc := C.Top, r := c.r), got[0])
  {
    hide EncodeMsg, Dispatched, Encodings, ReplyTo, S.Blank, ParseMsg, UidOf, View, Flatten;
    Shapes(reg, handled);
    var replies, n := Replies(handled), |handled| - |srv.queue|;
    var pending := Encodings(replies[|delivered|..n]);
    BodyAligned(cli.r, srv.out, pending);
    assert replies[|delivered|..n] == replies[..n][|delivered|..];
    PendingHead(replies[..n], |delivered|);
    assert handled[|delivered|] in handled;
    var m := replies[|delivered|];
    ReplyParses(m);
    assert replies[..n][|delivered| + 1..] == replies[|delivered| + 1..n];
    assert replies[..|delivered| + 1] == delivered + [m];
    var (op, b) := Deliver(cli.r.op.value);
    RevokeAligned(cli.r.(op := Some(op)), srv.out, pending[1..]);
  }
}
