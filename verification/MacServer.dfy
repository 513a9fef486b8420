/** The macOS server instance: a request worker and a reply worker that pass one token to each
    other through two semaphores, and a queue of parsed calls. */
module MacServer {
  import opened Wire
  import opened Messages
  import opened Frames
  import opened Dispatch
  import opened FrameReader
  import opened FifoSocket

  /** Where worker_req is: at the loop head, at sem_wait(m_reader_sem), at the header read, at the
      body read, still in its loop behind the body, at the parse, about to push, about to post
      m_writer_sem, gone. */
  datatype Req = ReqTop | ReqWait | ReqHeader | ReqBody | ReqMore | ReqParse | ReqPush(call: Msg) | ReqPost | ReqExit

  /** Where worker_rep is: at the loop head, at sem_wait(m_writer_sem), at the stop check, at the
      pop, in the handler, at the write, about to post m_reader_sem, gone. */
  datatype Rep = RepTop | RepWait | RepCheck | RepPop | RepRun(call: Msg) | RepWrite(frame: Bytes) | RepPost | RepExit

  /** broken: a parse aborted, or front() was called on an empty queue. past: everything the body
      reads stored behind the end of m_rbuf, where the language promises nothing; the model goes on
      as if those bytes hit nothing. */
  datatype Srv = Srv(stop: bool, reader: nat, writer: nat, req: Req, rep: Rep, msgs: seq<Msg>,
                     rbuf: Bytes, past: Bytes, broken: bool)

  const START := Srv(false, 1, 0, ReqTop, RepTop, [], [], [], false)

  /** A named pipe holds the write calls not yet read, each whole or without what was read of it.
      A body read takes the rest of the oldest call piece by piece; as FifoSocket.EndOfFrame and
      EndOfCall show, it then ends, or goes on to take the next call whole. */
  type Pipe = seq<Bytes>

  function Head(pipe: Pipe, n: nat): Bytes
    requires pipe != []
  {
    if n <= |pipe[0]| then pipe[0][..n] else pipe[0]
  }

  function Behead(pipe: Pipe, n: nat): Pipe
    requires pipe != []
  {
    if n < |pipe[0]| then [pipe[0][n..]] + pipe[1..] else pipe[1..]
  }

  /** A read of n bytes takes the first bytes of the oldest call, at most n, and leaves the rest. */
  lemma HeadAndRest(pipe: Pipe, n: nat)
    requires pipe != []
    ensures |Head(pipe, n)| == if n < |pipe[0]| then n else |pipe[0]|
    ensures if n < |pipe[0]| then Behead(pipe, n) != [] && Head(pipe, n) + Behead(pipe, n)[0] == pipe[0] &&
                                  Behead(pipe, n)[1..] == pipe[1..]
            else Head(pipe, n) == pipe[0] && Behead(pipe, n) == pipe[1..]
  {}

  /** A read into a resized buffer leaves what it does not reach. */
  function ReadInto(buf: Bytes, n: nat, got: Bytes): (r: Bytes)
    requires |got| <= n
    ensures |r| == n && r[..|got|] == got
    ensures forall i :: |got| <= i < n ==> r[i] == if i < |buf| then buf[i] else 0
  {
    got + Resized(buf, n)[|got|..]
  }

  predicate ReqEnabled(s: Srv, pipe: Pipe) {
    match s.req
    case ReqWait => s.reader > 0
    case ReqHeader => pipe != []
    case ReqBody => pipe != []
    case ReqMore => pipe != []
    case ReqExit => false
    case _ => true
  }

  /** One step of worker_req. */
  function ReqStep(s: Srv, pipe: Pipe): (Srv, Pipe)
    requires ReqEnabled(s, pipe)
  {
    match s.req
    case ReqTop => (s.(req := if s.stop then ReqExit else ReqWait), pipe)
    case ReqWait => (s.(reader := s.reader - 1, req := ReqHeader), pipe)
    case ReqHeader =>
      var buf := ReadInto(s.rbuf, HEADER, Head(pipe, HEADER));
      (s.(rbuf := buf, req := if ReadSize(buf) > 1 then ReqBody else ReqPost), Behead(pipe, HEADER))
    case ReqBody =>
      var n := if |s.rbuf| >= HEADER then ReadSize(s.rbuf) else 0;
      var next := if Finishable(HEADER + |pipe[0]|) then ReqParse else ReqMore;
      (s.(rbuf := ReadInto(s.rbuf, n, Head(pipe, n)), req := next), Behead(pipe, n))
    case ReqMore => (s.(past := s.past + pipe[0], req := if GoesOn(|pipe[0]|) then ReqMore else ReqParse), pipe[1..])
    case ReqParse =>
      var p := ParseMsg(s.rbuf, 0, CALL_HEADS, Aborted);
      (if p.Done? then s.(rbuf := [], req := ReqPush(p.value.0)) else s.(broken := true), pipe)
    case ReqPush(call) => (s.(msgs := s.msgs + [call], req := ReqPost), pipe)
    case ReqPost => (s.(writer := s.writer + 1, req := ReqTop), pipe)
  }

  predicate RepEnabled(s: Srv) {
    match s.rep
    case RepWait => s.writer > 0
    case RepExit => false
    case _ => true
  }

  /** One step of worker_rep; v is the verdict if the handler runs in it. */
  function RepStep(s: Srv, out: Pipe, v: Verdict): (Srv, Pipe)
    requires RepEnabled(s) && (s.rep.RepRun? ==> |s.rep.call.heads| == CALL_HEADS)
  {
    match s.rep
    case RepTop => (s.(rep := if s.stop then RepExit else RepWait), out)
    case RepWait => (s.(writer := s.writer - 1, rep := RepCheck), out)
    case RepCheck => (s.(rep := if s.stop then RepExit else RepPop), out)
    case RepPop =>
      (if s.msgs == [] then s.(broken := true) else s.(msgs := s.msgs[1..], rep := RepRun(s.msgs[0])), out)
    case RepRun(call) => (s.(rep := RepWrite(Frame(ReplyTo(call, v)))), out)
    case RepWrite(frame) => (s.(rep := RepPost), out + [frame])
    case RepPost => (s.(reader := s.reader + 1, rep := RepTop), out)
  }

  // ----- the token

  predicate ReqHolds(r: Req) { r.ReqHeader? || r.ReqBody? || r.ReqMore? || r.ReqParse? || r.ReqPush? || r.ReqPost? }
  predicate RepHolds(r: Rep) { !r.RepTop? && !r.RepWait? && !r.RepExit? }

  function Tokens(s: Srv): nat {
    s.reader + s.writer + (if ReqHolds(s.req) then 1 else 0) + (if RepHolds(s.rep) then 1 else 0)
  }

  /** What the destructor writes to end the read in flight. */
  const DUMMY: Bytes := [49]
  const DUMMY_HEADER: Bytes := [49, 0, 0, 0, 0, 0, 0, 0]

  ghost predicate Whole(c: Bytes, stop: bool) {
    (c == DUMMY && stop) || exists m :: CallShape(m) && c == Frame(m)
  }

  /** One token; a queued call where the token is between the push and the pop, unless the
      server was told to stop. */
  ghost predicate TokenInv(s: Srv) {
    && !s.broken && |s.msgs| <= 1
    && Tokens(s) <= 1 && (Tokens(s) == 1 || (s.rep.RepExit? && s.stop))
    && (s.rep.RepExit? || s.req.ReqExit? ==> s.stop)
    && (s.req.ReqPost? || s.writer == 1 || s.rep.RepCheck? ==> s.msgs != [] || s.stop)
    && (s.rep.RepPop? ==> s.msgs != [])
    && (s.msgs != [] ==> s.req.ReqPost? || s.writer == 1 || s.rep.RepCheck? || s.rep.RepPop? || Tokens(s) == 0)
    && (s.rep.RepRun? ==> CallShape(s.rep.call)) && (s.req.ReqPush? ==> CallShape(s.req.call))
    && (forall m <- s.msgs :: CallShape(m))
  }

  ghost predicate IsBody(s: Bytes) { exists m :: CallShape(m) && s == EncodeMsg(m) }

  /** The pipe carries whole frames, except that the body being read lacks its header. */
  ghost predicate PipeInv(s: Srv, pipe: Pipe) {
    && (forall i :: 0 < i < |pipe| ==> Whole(pipe[i], s.stop))
    && if s.req.ReqBody? then pipe != [] && IsBody(pipe[0]) && s.rbuf == Header(|pipe[0]|)
       else (pipe != [] ==> Whole(pipe[0], s.stop)) &&
            if s.req.ReqMore? || s.req.ReqParse? then IsBody(s.rbuf) else s.rbuf == [] || s.rbuf == DUMMY_HEADER
  }

  /** The header of a whole frame tells its size, the one of the dummy a size of nothing. */
  lemma HeaderRead(buf: Bytes, c: Bytes, stop: bool)
    requires Whole(c, stop) && (buf == [] || buf == DUMMY_HEADER)
    ensures var h := if HEADER <= |c| then c[..HEADER] else c;
            var read := ReadInto(buf, HEADER, h);
            (c == DUMMY && stop && read == DUMMY_HEADER && ReadSize(read) == 0) ||
            (|c| > HEADER && ReadSize(read) > 1 && IsBody(c[HEADER..]) && c == Wrap(c[HEADER..]) &&
             read == Header(|c[HEADER..]|))
  {
    hide EncodeMsg, Sendable;
    if c == DUMMY && stop {
      DummyRead(buf);
    } else {
      var m :| CallShape(m) && c == Frame(m);
      BodySize(m);
      HeaderOfWrap(EncodeMsg(m));
      var h := c[..HEADER];
      assert ReadInto(buf, HEADER, h) == h;
    }
  }

  lemma DummyRead(buf: Bytes)
    requires buf == [] || buf == DUMMY_HEADER
    ensures ReadInto(buf, HEADER, DUMMY) == DUMMY_HEADER && ReadSize(DUMMY_HEADER) == 0
  {
    assert ReadInto(buf, HEADER, DUMMY) == DUMMY_HEADER;
    var zero: Bytes := [0, 0, 0, 0];
    assert DUMMY_HEADER[4..8] == zero;
    assert Num(zero) == 0 + 256 * Num(zero[1..]);
  }

  lemma BodySize(m: Msg)
    requires Sendable(m)
    ensures 8 <= |EncodeMsg(m)| < P32
  {}

  /** The read of a whole body fills the buffer with it, and it parses to its call. */
  lemma BodyRead(buf: Bytes, pipe: Pipe)
    requires pipe != [] && IsBody(pipe[0]) && buf == Header(|pipe[0]|)
    ensures |buf| >= HEADER && ReadSize(buf) == |pipe[0]|
    ensures ReadInto(buf, |pipe[0]|, Head(pipe, |pipe[0]|)) == pipe[0] && Behead(pipe, |pipe[0]|) == pipe[1..]
  {
    hide EncodeMsg, ReadSize, Header, Wrap;
    var m :| CallShape(m) && pipe[0] == EncodeMsg(m);
    BodySize(m);
    HeaderOfWrap(EncodeMsg(m));
  }

  lemma BodyParses(c: Bytes)
    requires IsBody(c)
    ensures var p := ParseMsg(c, 0, CALL_HEADS, Aborted);
            p.Done? && CallShape(p.value.0) && c == EncodeMsg(p.value.0)
  {
    hide EncodeMsg, ParseMsg;
    var m :| CallShape(m) && c == EncodeMsg(m);
    BodySize(m);
    assert Has(c, 0, EncodeMsg(m));
    ParseEncodeFitting(c, 0, m, Aborted);
  }

  lemma ReqKeeps(s: Srv, pipe: Pipe)
    requires TokenInv(s) && PipeInv(s, pipe) && ReqEnabled(s, pipe)
    ensures var (s', pipe') := ReqStep(s, pipe); TokenInv(s') && PipeInv(s', pipe')
  {
    hide ReqStep, ReqEnabled, TokenInv, PipeInv;
    if s.req.ReqHeader? || s.req.ReqBody? || s.req.ReqMore? {
      ReadKeeps(s, pipe);
    } else {
      PassKeeps(s, pipe);
    }
  }

  lemma PassKeeps(s: Srv, pipe: Pipe)
    requires TokenInv(s) && PipeInv(s, pipe) && ReqEnabled(s, pipe)
    requires !s.req.ReqHeader? && !s.req.ReqBody? && !s.req.ReqMore?
    ensures var (s', pipe') := ReqStep(s, pipe); TokenInv(s') && PipeInv(s', pipe')
  {
    hide CallShape, EncodeMsg, ParseMsg, IsBody, Whole, ReadInto, Finishable, GoesOn;
    if s.req.ReqParse? {
      BodyParses(s.rbuf);
    }
  }

  lemma ReadKeeps(s: Srv, pipe: Pipe)
    requires TokenInv(s) && PipeInv(s, pipe) && ReqEnabled(s, pipe)
    requires s.req.ReqHeader? || s.req.ReqBody? || s.req.ReqMore?
    ensures var (s', pipe') := ReqStep(s, pipe); TokenInv(s') && PipeInv(s', pipe')
  {
    hide CallShape, EncodeMsg, ParseMsg, Finishable, GoesOn, ReadSize, ReadInto, Header, IsBody, Whole, Head, Behead;
    match s.req
    case ReqHeader => HeaderStep(s.rbuf, pipe, s.stop);
    case ReqBody => BodyRead(s.rbuf, pipe);
    case ReqMore =>
  }

  lemma HeaderStep(buf: Bytes, pipe: Pipe, stop: bool)
    requires pipe != [] && Whole(pipe[0], stop) && (buf == [] || buf == DUMMY_HEADER)
    ensures var read := ReadInto(buf, HEADER, Head(pipe, HEADER)); var rest := Behead(pipe, HEADER);
            if ReadSize(read) > 1 then
              |pipe[0]| > HEADER && rest == [pipe[0][HEADER..]] + pipe[1..] && pipe[0] == Wrap(rest[0]) &&
              IsBody(rest[0]) && read == Header(|rest[0]|)
            else pipe[0] == DUMMY && stop && read == DUMMY_HEADER && rest == pipe[1..]
  {
    hide CallShape, EncodeMsg, IsBody, ReadSize, ReadInto, Header, Wrap;
    HeaderRead(buf, pipe[0], stop);
  }

  lemma RepKeeps(s: Srv, pipe: Pipe, out: Pipe, v: Verdict)
    requires TokenInv(s) && PipeInv(s, pipe) && RepEnabled(s)
    ensures s.rep.RepRun? ==> |s.rep.call.heads| == CALL_HEADS
    ensures var s' := RepStep(s, out, v).0; TokenInv(s') && PipeInv(s', pipe)
  {
    hide PipeInv;
    assert s.rep.RepRun? ==> |s.rep.call.heads| == CALL_HEADS;
    hide CallShape, Frame, ReplyTo;
    SamePipe(s, RepStep(s, out, v).0, pipe);
  }

  lemma SamePipe(s: Srv, s': Srv, pipe: Pipe)
    requires PipeInv(s, pipe) && s'.req == s.req && s'.stop == s.stop && s'.rbuf == s.rbuf
    ensures PipeInv(s', pipe)
  {
    hide Whole, IsBody;
  }
}
