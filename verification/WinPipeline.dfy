/** Client threads, client worker, pipes and server worker together, at every interleaving. */
module WinPipeline {
  import opened Wire
  import opened Values
  import opened Messages
  import opened Frames
  import opened AsyncOps
  import opened Dispatch
  import opened FrameReader
  import S = WinServer
  import C = WinClient

  type Tid = nat

  /** Where a thread is in client::call. A call without a callback is written without having been
      registered; bare tells so. */
  datatype Thread = Numbered(uid: u64, call: Msg) | Registered(uid: u64, call: Msg) | Sent(uid: u64, bare: bool)

  /** threads holds the calls in progress. wire is the request pipe; the reply pipe is srv.out.
      The rest is history: the requests written, the dispatches made, the replies the client
      parsed, the call behind each number and what its caller asked for. */
  datatype Sys = Sys(counter: nat, threads: map<Tid, Thread>, wire: Bytes, srv: S.Srv, cli: C.Cli,
                     written: seq<Msg>, handled: seq<(Msg, Verdict)>, delivered: seq<Msg>, calls: map<u64, Msg>,
                     asked: map<u64, Request>)

  const START := Sys(0, map[], [], S.START, C.START, [], [], [], map[], map[])

  datatype Action =
    | Number(t: Tid, cname: Bytes, fname: Bytes, args: seq<Datum>)
    | Register(t: Tid, cookie: nat)
    | Write(t: Tid)
    | GiveUp(t: Tid, id: u64)
    | Return(t: Tid)
    | ServerIssue(stop: bool, conn: S.Conn)
    | ServerFill
    | ServerRead(connected: bool, now: int)
    | ServerAnswer(v: Verdict)
    | ServerWritten
    | ServerWrite
    | ServerTimeout
    | ClientIssue(read: bool)
    | ClientFill
    | ClientRead(connected: bool)
    | ClientTimeout
    | ClientDrain(fs: seq<C.Firing>)

  predicate HasCallback(h: Thread) { h.Registered? || (h.Sent? && !h.bare) }

  /** Which steps can happen. Calls and replies fit their length fields; is_connected() does not
      recover; a thread is busy with one call at a time. A failing call cancels the number in its
      caller's variable: its own if it registered a callback, otherwise any. */
  ghost predicate Enabled(reg: Registry, s: Sys, a: Action) {
    match a
    case Number(t, cname, fname, args) =>
      t !in s.threads && s.counter + 1 < P64 && Sendable(CallMsg(s.counter + 1, cname, fname, args))
    case Register(t, _) => t in s.threads && s.threads[t].Numbered?
    case Write(t) => t in s.threads && !s.threads[t].Sent?
    case GiveUp(t, id) => t in s.threads && (HasCallback(s.threads[t]) ==> id == s.threads[t].uid)
    case Return(t) => t in s.threads && s.threads[t].Sent?
    case ServerIssue(_, conn) => s.srv.pc.Top? && conn.Possible(s.srv.lost)
    case ServerFill => CanFill(s.srv.r, s.wire)
    case ServerRead(connected, _) => s.srv.pc.Waiting? && S.ReadSignalled(s.srv)
    case ServerAnswer(v) =>
      s.srv.pc.Handling? && |s.srv.pc.call.heads| == CALL_HEADS &&
      Judged(reg, s.srv.pc.call, v) &&
      Sendable(ReplyTo(s.srv.pc.call, v))
    case ServerWritten => s.srv.wop.Some? && Locked(s.srv.wop.value)
    case ServerWrite => s.srv.pc.Waiting? && S.WriteSignalled(s.srv)
    case ServerTimeout => s.srv.pc.Waiting?
    case ClientIssue(read) => s.cli.pc.Top? && !s.cli.lost
    case ClientFill => CanFill(s.cli.r, s.srv.out)
    case ClientRead(connected) => s.cli.pc.Waiting? && C.ReadSignalled(s.cli)
    case ClientTimeout => s.cli.pc.Waiting?
    case ClientDrain(fs) => !s.cli.pc.Drained? && !s.cli.pc.Dead? && C.DrainOf(s.cli.cb, fs)
  }

  /** The reply a client worker is about to parse, if any. */
  function Arriving(c: C.Cli): seq<Msg>
    requires C.ReadSignalled(c)
  {
    if Deliver(c.r.op.value).1 == Some(ReadMsg) then
      var p := ParseMsg(c.r.buf, 0, REPLY_HEADS, Thrown);
      if p.Done? then [p.value.0] else []
    else []
  }

  ghost function Next(reg: Registry, s: Sys, a: Action): Sys
    requires Enabled(reg, s, a)
  {
    match a
    case Number(t, cname, fname, args) =>
      var uid, call := s.counter + 1, CallMsg(s.counter + 1, cname, fname, args);
      s.(counter := uid, threads := s.threads[t := Numbered(uid, call)], calls := s.calls[uid := call],
         asked := s.asked[uid := Request(cname, fname, args)])
    case Register(t, cookie) =>
      var h := s.threads[t];
      s.(threads := s.threads[t := Registered(h.uid, h.call)], cli := C.Register(s.cli, h.uid, cookie))
    case Write(t) =>
      var h := s.threads[t];
      s.(threads := s.threads[t := Sent(h.uid, h.Numbered?)], wire := s.wire + Frame(h.call),
         written := s.written + [h.call])
    case GiveUp(t, id) => s.(threads := s.threads - {t}, cli := C.Cancel(s.cli, id))
    case Return(t) => s.(threads := s.threads - {t})
    case ServerIssue(stop, conn) => s.(srv := S.Issue(s.srv, stop, conn))
    case ServerFill =>
      var (r, wire) := Fill(s.srv.r, s.wire);
      s.(srv := s.srv.(r := r), wire := wire)
    case ServerRead(connected, now) => s.(srv := S.ReadDone(s.srv, connected, now))
    case ServerAnswer(v) => s.(srv := S.Answer(s.srv, v), handled := s.handled + [(s.srv.pc.call, v)])
    case ServerWritten => s.(srv := S.WriteFinished(s.srv))
    case ServerWrite => s.(srv := S.WriteDelivered(s.srv))
    case ServerTimeout => s.(srv := s.srv.(pc := S.Top))
    case ClientIssue(read) => s.(cli := C.Issue(s.cli, read))
    case ClientFill =>
      var (r, out) := Fill(s.cli.r, s.srv.out);
      s.(cli := s.cli.(r := r), srv := s.srv.(out := out))
    case ClientRead(connected) => s.(cli := C.ReadDone(s.cli, connected), delivered := s.delivered + Arriving(s.cli))
    case ClientTimeout => s.(cli := s.cli.(pc := C.Top))
    case ClientDrain(fs) => s.(cli := C.Drain(s.cli, fs))
  }

  // ----- the invariant

  function Replies(hs: seq<(Msg, Verdict)>): seq<Msg>
    requires forall h <- hs :: |h.0.heads| == CALL_HEADS
  {
    seq(|hs|, i requires 0 <= i < |hs| => assert hs[i] in hs; ReplyTo(hs[i].0, hs[i].1))
  }

  /** How many requests the server took off its reader. */
  function Fetched(hs: seq<(Msg, Verdict)>, srv: S.Srv): nat {
    |hs| + (if srv.pc.Handling? then 1 else 0)
  }

  /** The dispatches are the first requests written, in order; the rest is with the reader. */
  ghost predicate RequestSide(written: seq<Msg>, handled: seq<(Msg, Verdict)>, wire: Bytes, srv: S.Srv) {
    var n := Fetched(handled, srv);
    && (forall m <- written :: CallShape(m))
    && n <= |written| && Calls(handled) == written[..|handled|]
    && (srv.pc.Handling? ==> srv.pc.call == written[|handled|])
    && (!srv.lost ==> Aligned(srv.r, wire, Encodings(written[n..])))
  }

  /** The replies are delivered in the order of the dispatches; the rest is with the client's
      reader, and the last one may still be queued. */
  ghost predicate ReplySide(reg: Registry, handled: seq<(Msg, Verdict)>, delivered: seq<Msg>, srv: S.Srv, cli: C.Cli) {
    && (forall h <- handled :: Dispatched(reg, h))
    && var replies := Replies(handled);
    && |srv.queue| <= 1 && |delivered| + |srv.queue| <= |handled|
    && delivered == replies[..|delivered|]
    && (srv.queue != [] && !srv.pc.Exited? ==> srv.queue[0] == S.Blank(EncodeMsg(replies[|handled| - 1])))
    && (!cli.lost ==> Aligned(cli.r, srv.out, Encodings(replies[|delivered|..|handled| - |srv.queue|])))
  }
}
