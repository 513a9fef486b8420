/** Any number of macOS client threads that share a writer semaphore and a buffer, and one
    server instance, at every interleaving of their semaphore, pipe and queue operations. */
module MacSystem {
  import opened Wire
  import opened Values
  import opened Messages
  import opened Frames
  import opened Dispatch
  import opened FifoSocket
  import opened MacServer

  type Tid = nat

  /** Where a thread is: outside; about to register its callback; at sem_wait(m_writer_sem); at the
      write; at the header read; at the body read; still in its loop behind the body; at the parse;
      at sem_wait(cd.sem); at sem_post(m_writer_sem). */
  datatype At = Away | Register | Acquire | Write | Header | Body | More | Decode | Await | Release

  /** The CallData of a synchronous call. */
  datatype Slot = Slot(called: bool, values: seq<Fields>, sem: nat)

  const EMPTY := Slot(false, [], 0)

  /** sync: the call passes a callback and comes from call_synchronous_helper. */
  datatype Client = Client(at: At, uid: u64, call: Msg, sync: bool, slot: Slot, asked: Request)

  /** What a helper returned, for which number and request. */
  datatype Result = Result(uid: u64, asked: Request, values: seq<Fields>)

  /** cb maps a uid to the thread whose slot its callback fills; past: everything the body reads
      stored behind the end of the buffer; thrown: a parse of a reply failed. The rest is history:
      the thread that passed the writer semaphore last and has not posted it, the dispatches, the
      calls whose token was posted, and what the helpers returned. */
  datatype Sys = Sys(counter: nat, clients: seq<Client>, sem: nat, cb: map<u64, Tid>,
                     buf: Bytes, past: Bytes, thrown: bool,
                     rin: Pipe, rout: Pipe, sv: Srv,
                     holder: Option<Tid>, handled: seq<(Msg, Verdict)>, finished: seq<Msg>,
                     returned: seq<Result>)

  const NOBODY := Client(Away, 0, Msg([], []), false, EMPTY, Request([], [], []))
  const BUFFER := 130000

  function Begin(n: nat): Sys {
    Sys(0, seq(n, _ => NOBODY), 1, map[], seq(BUFFER, _ => 0), [], false, [], [], START, None, [], [], [])
  }

  datatype Action =
    | Enter(t: Tid, cname: Bytes, fname: Bytes, args: seq<Datum>, sync: bool)
    | Move(t: Tid)
    | Requests
    | Replies(v: Verdict)

  /** The body read of the oldest frame ends with it. */
  predicate CanRead(pipe: Pipe) { pipe != [] && Finishable(HEADER + |pipe[0]|) }

  predicate CanMove(s: Sys, c: Client) {
    match c.at
    case Away => false
    case Acquire => s.sem > 0
    case Header => s.rout != []
    case Body => s.rout != []
    case More => s.rout != []
    case Await => c.slot.sem > 0
    case _ => true
  }

  /** Which steps can happen. Calls and replies fit their length fields. */
  ghost predicate Enabled(reg: Registry, s: Sys, a: Action) {
    match a
    case Enter(t, cname, fname, args, _) =>
      t < |s.clients| && s.clients[t].at.Away? && s.counter + 1 < P64 &&
      Sendable(CallMsg(s.counter + 1, cname, fname, args))
    case Move(t) => t < |s.clients| && CanMove(s, s.clients[t])
    case Requests => ReqEnabled(s.sv, s.rin)
    case Replies(v) => RepEnabled(s.sv) && (s.sv.rep.RepRun? ==> Dispatched(reg, (s.sv.rep.call, v)))
  }

  function With(s: Sys, t: Tid, c: Client): Sys
    requires t < |s.clients|
  {
    s.(clients := s.clients[t := c])
  }

  function Posted(s: Sys, call: Msg): Sys {
    s.(sem := s.sem + 1, holder := None, finished := s.finished + [call])
  }

  /** How call ends behind its reads. */
  function Left(s: Sys, t: Tid): Sys
    requires t < |s.clients|
  {
    var c := s.clients[t];
    With(s, t, c.(at := if c.sync then Await else Away))
  }

  /** The callback of the helper: fills the slot and posts its semaphore. */
  function Called(slot: Slot, values: seq<Fields>): Slot {
    Slot(true, slot.values + values, slot.sem + 1)
  }

  /** read_callback_msg behind the parse of a reply with these values. */
  function Settled(s: Sys, t: Tid, uid: u64, values: seq<Fields>): Sys
    requires t < |s.clients|
  {
    if uid !in s.cb then Left(Posted(s, s.clients[t].call), t) else
    var u := s.cb[uid];
    var filled := if u < |s.clients| then With(s, u, s.clients[u].(slot := Called(s.clients[u].slot, values))) else s;
    Left(filled.(cb := s.cb - {uid}), t)
  }

  /** read_callback_msg. */
  function Decoded(s: Sys, t: Tid): Sys
    requires t < |s.clients|
  {
    var p := ParseMsg(s.buf, 0, REPLY_HEADS, Thrown);
    if !p.Done? then s.(thrown := true) else
    var reply := p.value.0;
    assert reply.heads[0] in reply.heads;
    Settled(s, t, UidOf(reply.heads[0]), View(reply))
  }

  /** One step of a client thread. */
  function Moved(s: Sys, t: Tid): Sys
    requires t < |s.clients| && CanMove(s, s.clients[t])
  {
    var c := s.clients[t];
    match c.at
    case Register => With(s, t, c.(at := Acquire)).(cb := if c.uid in s.cb then s.cb else s.cb[c.uid := t])
    case Acquire => With(s, t, c.(at := Write)).(sem := s.sem - 1, holder := Some(t))
    case Write => With(s, t, c.(at := Header)).(rin := s.rin + [Frame(c.call)])
    case Header =>
      var buf := ReadInto(s.buf, HEADER, Head(s.rout, HEADER));
      var r := s.(buf := buf, rout := Behead(s.rout, HEADER));
      if ReadSize(buf) != 0 then With(r, t, c.(at := Body)) else Left(r, t)
    case Body =>
      var n := if |s.buf| >= HEADER then ReadSize(s.buf) else 0;
      With(s, t, c.(at := if CanRead(s.rout) then Decode else More))
        .(buf := ReadInto(s.buf, n, Head(s.rout, n)), rout := Behead(s.rout, n))
    case More =>
      With(s, t, c.(at := if GoesOn(|s.rout[0]|) then More else Decode))
        .(past := s.past + s.rout[0], rout := s.rout[1..])
    case Decode => Decoded(s, t)
    case Await =>
      var slot := c.slot.(sem := c.slot.sem - 1);
      if slot.called then With(s, t, c.(at := Release, slot := slot))
      else With(s, t, c.(at := Away, slot := slot))
             .(cb := s.cb - {c.uid}, returned := s.returned + [Result(c.uid, c.asked, [])])
    case Release =>
      With(Posted(s, c.call), t, c.(at := Away))
        .(returned := s.returned + [Result(c.uid, c.asked, c.slot.values)])
  }

  ghost function Next(reg: Registry, s: Sys, a: Action): Sys
    requires Enabled(reg, s, a)
  {
    match a
    case Enter(t, cname, fname, args, sync) =>
      var call := CallMsg(s.counter + 1, cname, fname, args);
      With(s, t, Client(if sync then Register else Acquire, s.counter + 1, call, sync, EMPTY,
                        Request(cname, fname, args)))
        .(counter := s.counter + 1)
    case Move(t) => Moved(s, t)
    case Requests =>
      var (sv, rin) := ReqStep(s.sv, s.rin);
      s.(sv := sv, rin := rin)
    case Replies(v) =>
      var (sv, rout) := RepStep(s.sv, s.rout, v);
      s.(sv := sv, rout := rout, handled := if s.sv.rep.RepRun? then s.handled + [(s.sv.rep.call, v)] else s.handled)
  }

  // ----- the invariant

  /** Between sem_wait and sem_post of the writer semaphore. */
  predicate Holds(at: At) { !at.Away? && !at.Register? && !at.Acquire? }

  predicate Registered(c: Client) {
    c.sync && (c.at.Acquire? || c.at.Write? || c.at.Header? || c.at.Body? || c.at.More? || c.at.Decode?)
  }

  ghost predicate ClientOk(counter: nat, cb: map<u64, Tid>, t: Tid, c: Client) {
    && 1 <= c.uid <= counter && Numbers(c.call, c.uid) && c.call == AskMsg(c.uid, c.asked)
    && (Registered(c) ==> c.uid in cb && cb[c.uid] == t)
    && (!c.at.Await? && !c.at.Release? ==> c.slot == EMPTY)
    && (c.at.Register? || c.at.Await? || c.at.Release? ==> c.sync)
  }

  /** Each thread in a call has a uid of its own, and the registry holds exactly the calls whose
      reply was not parsed. */
  ghost predicate Books(counter: nat, cb: map<u64, Tid>, cs: seq<Client>) {
    && (forall t :: 0 <= t < |cs| && !cs[t].at.Away? ==> ClientOk(counter, cb, t, cs[t]))
    && (forall t, u :: 0 <= t < u < |cs| && !cs[t].at.Away? && !cs[u].at.Away? ==> cs[t].uid != cs[u].uid)
    && (forall uid <- cb :: cb[uid] < |cs| && cs[cb[uid]].uid == uid && Registered(cs[cb[uid]]))
  }

  /** Nobody holds the token and the semaphore is up, or one thread does and it is down. */
  ghost predicate Owned(sem: nat, holder: Option<Tid>, cs: seq<Client>) {
    && sem == (if holder.None? then 1 else 0)
    && (holder.Some? ==> holder.value < |cs|)
    && forall t :: 0 <= t < |cs| ==> (Holds(cs[t].at) <==> holder == Some(t))
  }

  /** The server has no call. */
  predicate Idle(s: Srv) {
    && !s.stop && !s.broken && s.past == [] && s.msgs == [] && s.writer == 0 && s.rbuf == []
    && (s.req.ReqTop? || s.req.ReqWait? || s.req.ReqHeader?) && (s.rep.RepTop? || s.rep.RepWait? || s.rep.RepPost?)
    && s.reader + (if s.req.ReqHeader? then 1 else 0) + (if s.rep.RepPost? then 1 else 0) == 1
  }

  /** The frame of m has a length whose body the read loop can finish. */
  predicate Readable(m: Msg) { Finishable(|Frame(m)|) }

  /** The server reads the call m, queues it, or has it in the queue. */
  predicate Taking(s: Srv, rin: Pipe, m: Msg) {
    && !s.stop && !s.broken && s.past == [] && s.reader == 0
    && (s.rep.RepTop? || s.rep.RepWait? || ((s.rep.RepCheck? || s.rep.RepPop?) && s.writer == 0 && s.msgs == [m]))
    && if InRead(s.req) then
         s.msgs == [] && s.writer == 0 && RepAway(s) &&
         if s.req.ReqBody? then rin == [EncodeMsg(m)] && s.rbuf == Frames.Header(|EncodeMsg(m)|)
         else rin == [] && s.rbuf == EncodeMsg(m) && (s.req.ReqParse? <==> Readable(m))
       else rin == [] && s.rbuf == [] &&
            if s.req.ReqPush? then s.req.call == m && s.msgs == [] && s.writer == 0 && RepAway(s)
            else s.msgs == [m] &&
                 if s.req.ReqPost? then s.writer == 0 && RepAway(s)
                 else (s.req.ReqTop? || s.req.ReqWait?) && s.writer == (if RepAway(s) then 1 else 0)
  }

  predicate InRead(r: Req) { r.ReqBody? || r.ReqMore? || r.ReqParse? }
  predicate RepAway(s: Srv) { s.rep.RepTop? || s.rep.RepWait? }

  /** The reply worker runs the call m, or has its reply. */
  predicate Running(s: Srv, rin: Pipe) {
    && !s.stop && !s.broken && s.past == [] && s.reader == 0 && s.writer == 0
    && s.msgs == [] && s.rbuf == [] && rin == []
    && (s.req.ReqTop? || s.req.ReqWait?) && (s.rep.RepRun? || s.rep.RepWrite?)
  }

  ghost predicate Unanswered(handled: seq<(Msg, Verdict)>, finished: seq<Msg>) {
    Calls(handled) == finished
  }

  /** The last dispatch is that of m, the call in progress. */
  ghost predicate Answered(reg: Registry, handled: seq<(Msg, Verdict)>, finished: seq<Msg>, m: Msg) {
    handled != [] && Calls(handled) == finished + [m] && Dispatched(reg, handled[|handled| - 1])
  }

  function Answer(handled: seq<(Msg, Verdict)>): (reply: Msg)
    requires handled != [] && |handled[|handled| - 1].0.heads| == CALL_HEADS
  {
    var h := handled[|handled| - 1];
    ReplyTo(h.0, h.1)
  }

  /** The call m of the client waiting for its reply: in the request pipe, with the server, or
      answered. */
  ghost predicate HeaderFlow(reg: Registry, s: Sys, m: Msg) {
    if Unanswered(s.handled, s.finished) then
      s.rout == [] &&
      ((Idle(s.sv) && s.rin == [Frame(m)]) || Taking(s.sv, s.rin, m) || (Running(s.sv, s.rin) && s.sv.rep == RepRun(m)))
    else
      Answered(reg, s.handled, s.finished, m) &&
      var frame := Frame(Answer(s.handled));
      (Running(s.sv, s.rin) && s.sv.rep == RepWrite(frame) && s.rout == []) ||
      (Idle(s.sv) && s.rin == [] && s.rout == [frame])
  }

  /** Where the one message of the token's holder c is. */
  ghost predicate Flow(reg: Registry, s: Sys, c: Client) {
    if c.at.Write? then Unanswered(s.handled, s.finished) && Idle(s.sv) && s.rin == [] && s.rout == []
    else if c.at.Header? then HeaderFlow(reg, s, c.call)
    else
      Answered(reg, s.handled, s.finished, c.call) && Idle(s.sv) && s.rin == [] &&
      var reply := Answer(s.handled);
      match c.at
      case Body => s.rout == [EncodeMsg(reply)] && s.buf == Frames.Header(|EncodeMsg(reply)|)
      case More => s.rout == [] && !Readable(reply)
      case Decode => s.rout == [] && s.buf == EncodeMsg(reply)
      case _ => s.rout == [] && reply.Shaped() && c.slot == Slot(true, View(reply), if c.at.Await? then 1 else 0)
  }

  ghost predicate Flows(reg: Registry, s: Sys) {
    if s.holder.Some? then s.holder.value < |s.clients| && Flow(reg, s, s.clients[s.holder.value])
    else Unanswered(s.handled, s.finished) && Idle(s.sv) && s.rin == [] && s.rout == []
  }

  /** A helper returned what the one dispatch of its own request gave. */
  ghost predicate Own(reg: Registry, handled: seq<(Msg, Verdict)>, r: Result) {
    exists h <- handled ::
      h.0 == AskMsg(r.uid, r.asked) && Dispatched(reg, h) && ReplyTo(h.0, h.1).Shaped() &&
      r.values == View(ReplyTo(h.0, h.1))
  }

  ghost predicate Inv(reg: Registry, s: Sys) {
    && Books(s.counter, s.cb, s.clients) && Owned(s.sem, s.holder, s.clients) && !s.thrown && s.past == []
    && (forall r <- s.returned :: Own(reg, s.handled, r)) && Flows(reg, s)
  }
}
