/** The Windows server instance: one worker that reads a request, dispatches it and writes the
    reply, with two re-armable operations and a write queue. */
module WinServer {
  import opened Wire
  import opened Messages
  import opened Frames
  import opened AsyncOps
  import opened Dispatch
  import opened FrameReader

  /** Where the worker is: at the top of its loop, waiting, inside a request handler, out of the
      loop, or dead (abort, exception or undefined behaviour). */
  datatype Pc = Top | Waiting | Handling(call: Msg) | Exited | Dead

  /** lost: is_connected() was seen to fail. out: the bytes put on the reply pipe and not yet
      read. arrivals and issued are history: when each request arrived, how many replies were
      handed to the pipe. */
  datatype Srv = Srv(pc: Pc, lost: bool, r: Reader, wop: Option<Op<Callback>>, queue: seq<Bytes>,
                     waiting: bool, last: int, out: Bytes, arrivals: seq<int>, issued: nat)

  const START := Srv(Top, false, Reader(None, []), None, [], false, 0, [], [], 0)

  /** What is_connected() says when asked at the loop head, by read and by write. A pipe that
      was lost stays lost. */
  datatype Conn = Conn(loop: bool, read: bool, write: bool) {
    predicate Possible(lost: bool) {
      (loop ==> !lost) && (read ==> loop) && (write ==> read)
    }
  }

  /** make_sendable on a queued buffer. */
  function Announce(buf: Bytes): Bytes {
    if |buf| < HEADER then buf else Splice(buf, 4, Put32(|buf| - HEADER))
  }

  predicate Writing(s: Srv) { s.wop.Some? && s.wop.value.valid }

  /** worker(): a header read is issued unless a read is in use. */
  function IssueRead(s: Srv, c: Conn): Srv {
    if !Armable(s.r) then s
    else if c.read then s.(r := ArmHeader(s.r))
    else s.(pc := Exited, lost := true, r := s.r.(buf := Resized(s.r.buf, HEADER)))
  }

  /** worker(): a queued reply is written unless a write is in use. */
  function IssueWrite(s: Srv, c: Conn): Srv {
    if Writing(s) || s.queue == [] then s.(pc := Waiting)
    else if c.write then
      s.(pc := Waiting, wop := Some(Arm(s.wop, Some(WriteDone))), out := s.out + Announce(s.queue[0]),
         waiting := false, queue := s.queue[1..], issued := s.issued + 1)
    else s.(pc := Exited, lost := true, queue := s.queue[0 := Announce(s.queue[0])])
  }

  /** The part of worker() in front of the waits. */
  function Issue(s: Srv, stop: bool, c: Conn): Srv {
    if stop || !c.loop then s.(pc := Exited, lost := s.lost || !c.loop) else
    var s := IssueRead(s, c);
    if s.pc.Exited? then s else IssueWrite(s, c)
  }

  predicate ReadSignalled(s: Srv) { s.r.op.Some? && s.r.op.value.signalled }
  predicate WriteSignalled(s: Srv) { s.wop.Some? && s.wop.value.signalled }

  /** read_callback_msg up to the call of the handler. */
  function Arrive(s: Srv, now: int): Srv {
    var p := ParseMsg(s.r.buf, 0, CALL_HEADS, Aborted);
    s.(waiting := true, last := now, arrivals := s.arrivals + [now],
       pc := if p.Done? then Handling(p.value.0) else Dead)
  }

  /** What the callback of a read that succeeded does. */
  function Ran(s: Srv, c: Option<Callback>, connected: bool, now: int): Srv
    requires s.r.op.Some?
  {
    if c == Some(ReadInit) then
      if |s.r.buf| < HEADER then s.(pc := Dead)
      else s.(pc := Top, r := OnHeader(s.r, connected), lost := s.lost || (!connected && ReadSize(s.r.buf) != 0))
    else if c == Some(ReadMsg) then Arrive(s, now)
    else s.(pc := Top)
  }

  /** What the callback of a read that ended in an error does. */
  function RunFailed(s: Srv, c: Option<Callback>, now: int): Srv
    requires s.r.op.Some?
  {
    if c == Some(ReadInit) then s.(pc := Top, r := s.r.(op := Some(Invalidated(s.r.op.value))))
    else if c == Some(ReadMsg) then s.(pc := Dead, waiting := true, last := now, arrivals := s.arrivals + [now])
    else s.(pc := Top)
  }

  /** The read operation behind a wait that found its event. */
  function Waited(s: Srv): (Srv, Option<Callback>)
    requires ReadSignalled(s)
  {
    var (op, c) := Deliver(s.r.op.value);
    (s.(r := s.r.(op := Some(op))), c)
  }

  /** A wait that finds the read operation done: the header callback or the message callback. */
  function ReadDone(s: Srv, connected: bool, now: int): Srv
    requires ReadSignalled(s)
  {
    var (s, c) := Waited(s);
    Ran(s, c, connected, now)
  }

  /** The same wait when the transfer ended in an error. */
  function ReadFailed(s: Srv, now: int): Srv
    requires ReadSignalled(s)
  {
    var (s, c) := Waited(s);
    RunFailed(s, c, now)
  }

  /** The rest of read_callback_msg, once the handler is done. */
  function Answer(s: Srv, v: Verdict): Srv
    requires s.pc.Handling? && |s.pc.call.heads| == CALL_HEADS
  {
    s.(pc := Top, queue := s.queue + [Blank(EncodeMsg(ReplyTo(s.pc.call, v)))])
  }

  /** A reply buffer as it is queued: the header is still zero. */
  function Blank(body: Bytes): (b: Bytes)
    ensures |b| == HEADER + |body|
  {
    [0, 0, 0, 0, 0, 0, 0, 0] + body
  }

  /** A wait that finds the write operation done: write_callback gives up both operations. */
  function WriteDelivered(s: Srv): Srv
    requires WriteSignalled(s)
  {
    var (op, c) := Deliver(s.wop.value);
    if c == Some(WriteDone) then
      s.(pc := Top, wop := Some(Invalidated(op)),
         r := if s.r.op.Some? then s.r.(op := Some(Invalidated(s.r.op.value))) else s.r)
    else s.(pc := Top, wop := Some(op))
  }

  function WriteFinished(s: Srv): Srv
    requires s.wop.Some?
  {
    s.(wop := Some(s.wop.value.(completed := true, signalled := true)))
  }

  /** An iteration leaves the loop exactly if the server was stopped, the connection is gone, or a
      read or write that is due finds it gone. */
  lemma IssueEnds(s: Srv, stop: bool, c: Conn)
    requires s.pc.Top?
    ensures Issue(s, stop, c).pc.Exited? <==>
              stop || !c.loop || (Armable(s.r) && !c.read) || (!Writing(s) && s.queue != [] && !c.write)
  {}

  /** A reply that is due leaves the queue at its front, announced, and its write is armed. */
  lemma IssueWrites(s: Srv, c: Conn)
    requires s.pc.Top? && c.loop && c.read && c.write && !Writing(s) && s.queue != []
    ensures var t := Issue(s, false, c);
            t.out == s.out + Announce(s.queue[0]) && t.queue == s.queue[1..] &&
            !t.waiting && t.issued == s.issued + 1 &&
            t.wop.Some? && t.wop.value.valid && !t.wop.value.called && t.wop.value.callback == Some(WriteDone)
  {}

  /** Without a write in use or a reply to write, an iteration arms at most the header read. */
  lemma IssueReads(s: Srv, c: Conn)
    requires s.pc.Top? && c.loop && c.read && (Writing(s) || s.queue == [])
    ensures var t := Issue(s, false, c);
            t.out == s.out && t.queue == s.queue && t.wop == s.wop && t.waiting == s.waiting && t.pc.Waiting? &&
            if s.r.op.Some? && s.r.op.value.valid then t.r == s.r
            else InHeaderArmed(t.r)
  {}

  predicate InHeaderArmed(r: Reader) {
    r.op.Some? && r.op.value.valid && !r.op.value.called && !r.op.value.completed &&
    r.op.value.callback == Some(ReadInit) && |r.buf| == 8
  }

  /** A failed header read gives the operation up and changes nothing else; a failed body read ends
      the worker, with the watchdog told. */
  lemma FailedReads(s: Srv, now: int)
    requires ReadSignalled(s) && (InHeader(s.r) || InBody(s.r))
    ensures var t := ReadFailed(s, now);
            t.r.buf == s.r.buf && t.queue == s.queue && t.out == s.out && t.wop == s.wop && t.issued == s.issued &&
            (InHeader(s.r) ==> t.pc.Top? && Idle(t.r) && t.waiting == s.waiting && t.arrivals == s.arrivals) &&
            (InBody(s.r) ==> t.pc.Dead? && t.waiting && t.last == now && t.arrivals == s.arrivals + [now])
  {}

  /** A header that announces nothing leaves the reader idle; on a lost connection no read is armed. */
  lemma NothingAnnounced(r: Reader, connected: bool)
    requires r.op.Some? && |r.buf| >= HEADER && (ReadSize(r.buf) == 0 || !connected)
    ensures var t := OnHeader(r, connected);
            t.op.Some? && !t.op.value.valid && t.op.value.signalled == r.op.value.signalled &&
            |t.buf| == if ReadSize(r.buf) == 0 then |r.buf| else ReadSize(r.buf)
  {}

  // ----- the phases

  predicate WriteInFlight(s: Srv) {
    s.wop.Some? && var op := s.wop.value;
    op.valid && op.callback == Some(WriteDone) && !op.called && op.completed == op.signalled
  }

  predicate WriteIdle(s: Srv) { s.wop.None? || (!s.wop.value.valid && !s.wop.value.signalled) }

  /** How many of {header read, body read, running handler, queued reply, reply write} are live. */
  function Live(s: Srv): nat {
    (if InHeader(s.r) || InBody(s.r) then 1 else 0) + (if s.pc.Handling? then 1 else 0) + |s.queue| +
    (if WriteInFlight(s) then 1 else 0)
  }

  predicate Phase(s: Srv) {
    && !s.pc.Dead?
    && (Idle(s.r) || InHeader(s.r) || InBody(s.r) || Handled(s.r))
    && (WriteInFlight(s) || WriteIdle(s))
    && Live(s) <= 1
    && (Handled(s.r) <==> s.pc.Handling? || s.queue != [] || WriteInFlight(s))
    && (s.pc.Waiting? ==> s.r.op.Some? && s.queue == [] && !Idle(s.r) && !s.lost)
    && (s.pc.Handling? ==> |s.pc.call.heads| == CALL_HEADS)
    && (s.pc.Handling? ==> !s.lost)
  }

  /** The two watchdog fields against the history. */
  predicate Watched(s: Srv) {
    && |s.arrivals| == s.issued + (if s.waiting then 1 else 0)
    && (s.waiting <==> s.pc.Handling? || s.queue != [])
    && (s.waiting ==> s.last == s.arrivals[s.issued])
  }

  /** The worker's condition for the watchdog to throw. */
  predicate Trips(s: Srv, now: int, timeout: int) { s.waiting && now - s.last > timeout }

  /** The watchdog trips exactly on a request that arrived, has no issued reply and is overdue. */
  lemma WatchdogExact(s: Srv, now: int, timeout: int)
    requires Watched(s)
    ensures Trips(s, now, timeout) <==> (s.issued < |s.arrivals| && now - s.arrivals[s.issued] > timeout)
    ensures !s.pc.Handling? && s.queue == [] ==> !Trips(s, now, timeout)
  {}

  /** write_callback never discards an outstanding read: the read it gives up has completed. */
  lemma NoReadDiscarded(s: Srv)
    requires Phase(s) && WriteSignalled(s)
    ensures s.r.op.Some? && Handled(s.r) && !Locked(s.r.op.value)
  {}

  lemma IssueKeeps(s: Srv, stop: bool, c: Conn)
    requires Phase(s) && Watched(s) && s.pc.Top? && c.Possible(s.lost)
    ensures Phase(Issue(s, stop, c)) && Watched(Issue(s, stop, c))
  {}

  lemma WriteKeeps(s: Srv)
    requires Phase(s) && Watched(s) && s.pc.Waiting? && WriteSignalled(s)
    ensures Phase(WriteDelivered(s)) && Watched(WriteDelivered(s)) && Idle(WriteDelivered(s).r)
  {}

  lemma AnswerKeeps(s: Srv, v: Verdict)
    requires Phase(s) && Watched(s) && s.pc.Handling?
    ensures Phase(Answer(s, v)) && Watched(Answer(s, v))
  {}
}
