/** The macOS server instance over its whole life: clients write frames, the two workers take
    turns, and at some moment the destructor stops them. */
module MacShutdown {
  import opened Wire
  import opened Messages
  import opened Frames
  import opened Dispatch
  import opened FifoSocket
  import opened MacServer

  /** sent: the destructor has written its dummy and waits for the workers. The rest is history:
      the write calls on the request pipe, how many of them were read, the calls parsed. */
  datatype Sys = Sys(sv: Srv, pipe: Pipe, out: Pipe, sent: bool, written: seq<Bytes>, gone: nat, calls: seq<Msg>)

  const BEGIN := Sys(START, [], [], false, [], 0, [])

  datatype Action = ClientWrite(call: Msg) | Stop | SendDummy | Requests | Replies(v: Verdict)

  ghost predicate Enabled(s: Sys, a: Action) {
    match a
    case ClientWrite(call) => CallShape(call)
    case Stop => !s.sv.stop
    case SendDummy => s.sv.stop && !s.sent
    case Requests => ReqEnabled(s.sv, s.pipe)
    case Replies(_) => RepEnabled(s.sv) && (s.sv.rep.RepRun? ==> |s.sv.rep.call.heads| == CALL_HEADS)
  }

  ghost function Next(s: Sys, a: Action): Sys
    requires Enabled(s, a)
  {
    match a
    case ClientWrite(call) => s.(pipe := s.pipe + [Frame(call)], written := s.written + [Frame(call)])
    case Stop => s.(sv := s.sv.(stop := true))
    case SendDummy => s.(pipe := s.pipe + [DUMMY], written := s.written + [DUMMY], sent := true)
    case Requests =>
      var (sv, pipe) := ReqStep(s.sv, s.pipe);
      s.(sv := sv, pipe := pipe, gone := if |pipe| < |s.pipe| then s.gone + 1 else s.gone,
         calls := if s.sv.req.ReqParse? && sv.req.ReqPush? then s.calls + [sv.req.call] else s.calls)
    case Replies(v) => var (sv, out) := RepStep(s.sv, s.out, v); s.(sv := sv, out := out)
  }

  // ----- the invariant

  /** The request worker has yet to finish a read. */
  predicate Reading(r: Req) { r.ReqWait? || r.ReqHeader? || r.ReqBody? || r.ReqMore? }

  ghost predicate Inv(s: Sys) {
    && TokenInv(s.sv) && PipeInv(s.sv, s.pipe)
    && (s.sent ==> s.sv.stop && (Reading(s.sv.req) ==> DUMMY in s.pipe))
  }

  lemma AppendKeeps(s: Sys, c: Bytes)
    requires Inv(s) && Whole(c, s.sv.stop)
    ensures PipeInv(s.sv, s.pipe + [c])
  {
    hide EncodeMsg, CallShape, IsBody, Whole;
  }

  lemma WriteKeeps(s: Sys, a: Action)
    requires Inv(s) && Enabled(s, a) && (a.ClientWrite? || a.SendDummy?)
    ensures Inv(Next(s, a))
  {
    hide EncodeMsg, CallShape, PipeInv, TokenInv;
    match a
    case ClientWrite(call) =>
      assert Whole(Frame(call), s.sv.stop);
      AppendKeeps(s, Frame(call));
    case SendDummy =>
      AppendKeeps(s, DUMMY);
      assert (s.pipe + [DUMMY])[|s.pipe|] == DUMMY;
  }

  /** A read that goes on leaves the dummy where it is. */
  lemma DummyStays(s: Srv, pipe: Pipe)
    requires TokenInv(s) && PipeInv(s, pipe) && ReqEnabled(s, pipe) && DUMMY in pipe && s.stop
    requires Reading(s.req) && Reading(ReqStep(s, pipe).0.req)
    ensures DUMMY in ReqStep(s, pipe).1
  {
    hide CallShape, EncodeMsg, Finishable, ReadSize, ReadInto, IsBody, TokenInv, Whole, Header, Head, Behead;
    match s.req
    case ReqWait =>
    case ReqHeader => HeaderStep(s.rbuf, pipe, s.stop);
    case ReqBody =>
      BodyRead(s.rbuf, pipe);
      assert pipe[0] != DUMMY by { BodyLong(pipe[0]); }
    case ReqMore =>
      assert pipe[0] != DUMMY;
  }

  lemma BodyLong(c: Bytes)
    requires IsBody(c)
    ensures |c| >= 8
  {}

  lemma RequestsKeep(s: Sys)
    requires Inv(s) && Enabled(s, Requests)
    ensures Inv(Next(s, Requests))
  {
    ReqKeeps(s.sv, s.pipe);
    hide TokenInv, PipeInv;
    if s.sent && Reading(s.sv.req) && Reading(ReqStep(s.sv, s.pipe).0.req) {
      DummyStays(s.sv, s.pipe);
    }
    hide ReadInto, ReadSize, Finishable, GoesOn, ParseMsg;
  }

  lemma StepKeeps(s: Sys, a: Action)
    requires Inv(s) && Enabled(s, a)
    ensures Inv(Next(s, a))
  {
    match a
    case ClientWrite(_) => hide Inv; WriteKeeps(s, a);
    case SendDummy => hide Inv; WriteKeeps(s, a);
    case Stop => hide CallShape, IsBody;
    case Requests => hide Inv; RequestsKeep(s);
    case Replies(v) => hide RepStep, TokenInv, PipeInv; RepKeeps(s.sv, s.pipe, s.out, v); RepSame(s.sv, s.out, v);
  }

  lemma RepSame(s: Srv, out: Pipe, v: Verdict)
    requires RepEnabled(s) && (s.rep.RepRun? ==> |s.rep.call.heads| == CALL_HEADS)
    ensures var s' := RepStep(s, out, v).0;
            s'.req == s.req && s'.stop == s.stop && s'.rbuf == s.rbuf && s'.past == s.past
  {
    hide ReplyTo, Frame;
  }

  // ----- what becomes of a write call

  /** Behind the last of these write calls the read loop goes on: a frame it took for itself has a
      length it cannot finish, or a call it swallowed ends in a piece that goes on. */
  predicate MoreAfter(ws: seq<Bytes>) {
    ws != [] && var n := |ws| - 1;
    if MoreAfter(ws[..n]) then GoesOn(|ws[n]|) else !Finishable(|ws[n]|)
  }

  /** The frames that are read as frames: not the dummy, and not what a loop that goes on swallows. */
  function Read(ws: seq<Bytes>): seq<Bytes> {
    if ws == [] then [] else
    var n := |ws| - 1;
    if MoreAfter(ws[..n]) || ws[n] == DUMMY then Read(ws[..n]) else Read(ws[..n]) + [ws[n]]
  }

  /** The bytes of the calls that are swallowed. */
  function Overrun(ws: seq<Bytes>): Bytes {
    if ws == [] then [] else
    var n := |ws| - 1;
    if MoreAfter(ws[..n]) then Overrun(ws[..n]) + ws[n] else Overrun(ws[..n])
  }

  function Framed(calls: seq<Msg>): seq<Bytes> { seq(|calls|, i requires 0 <= i < |calls| => Frame(calls[i])) }

  /** The pipe holds the calls not gone; of the oldest one the header may be missing. */
  ghost predicate Lined(pipe: Pipe, written: seq<Bytes>, gone: nat, headless: bool) {
    && gone <= |written| && |pipe| == |written| - gone
    && (forall i :: 0 <= i < |written| ==> written[i] != [])
    && (forall i :: 0 < i < |pipe| ==> pipe[i] == written[gone + i])
    && (pipe != [] ==> written[gone] == if headless then Wrap(pipe[0]) else pipe[0])
  }

  /** What the server has of the calls gone: past their end the swallowed ones; what was read as a
      frame was parsed, or is about to be. */
  ghost predicate Kept(sv: Srv, ws: seq<Bytes>, calls: seq<Msg>) {
    && (sv.req.ReqMore? <==> MoreAfter(ws)) && sv.past == Overrun(ws)
    && Read(ws) == Framed(calls) + (if sv.req.ReqMore? || sv.req.ReqParse? then [Wrap(sv.rbuf)] else [])
  }

  ghost predicate Fates(sv: Srv, pipe: Pipe, written: seq<Bytes>, gone: nat, calls: seq<Msg>) {
    Lined(pipe, written, gone, sv.req.ReqBody?) && Kept(sv, written[..gone], calls)
  }

  lemma LinedTail(pipe: Pipe, written: seq<Bytes>, gone: nat, headless: bool)
    requires Lined(pipe, written, gone, headless) && pipe != []
    ensures gone < |written| && Lined(pipe[1..], written, gone + 1, false)
  {
    hide Wrap;
    assert forall i :: 0 <= i < |pipe| - 1 ==> pipe[1..][i] == pipe[i + 1];
  }

  ghost predicate History(s: Sys) { Fates(s.sv, s.pipe, s.written, s.gone, s.calls) }

  /** One more call gone. */
  lemma OneGone(ws: seq<Bytes>, n: nat)
    requires n < |ws|
    ensures MoreAfter(ws[..n + 1]) == if MoreAfter(ws[..n]) then GoesOn(|ws[n]|) else !Finishable(|ws[n]|)
    ensures Read(ws[..n + 1]) == Read(ws[..n]) + (if MoreAfter(ws[..n]) || ws[n] == DUMMY then [] else [ws[n]])
    ensures Overrun(ws[..n + 1]) == Overrun(ws[..n]) + (if MoreAfter(ws[..n]) then ws[n] else [])
  {
    assert ws[..n + 1][..n] == ws[..n];
  }

  lemma FramedMore(calls: seq<Msg>, m: Msg)
    ensures Framed(calls + [m]) == Framed(calls) + [Frame(m)]
  {
    hide Frame;
  }

  lemma AppendHistory(s: Sys, c: Bytes)
    requires History(s) && c != []
    requires s.sv.req.ReqBody? ==> s.pipe != []
    ensures Fates(s.sv, s.pipe + [c], s.written + [c], s.gone, s.calls)
  {
    hide Wrap, Framed, Read, Overrun, MoreAfter;
    assert (s.written + [c])[..s.gone] == s.written[..s.gone];
  }

  /** The header of a frame is read: its call stays the oldest one. */
  lemma HeaderFates(sv: Srv, sv': Srv, pipe: Pipe, pipe': Pipe, written: seq<Bytes>, gone: nat, calls: seq<Msg>)
    requires Fates(sv, pipe, written, gone, calls) && sv.req.ReqHeader? && sv'.req.ReqBody? && sv'.past == sv.past
    requires pipe != [] && pipe' != [] && pipe'[1..] == pipe[1..] && pipe[0] == Wrap(pipe'[0])
    ensures Fates(sv', pipe', written, gone, calls)
  {
    hide Wrap, Framed, Read, Overrun, MoreAfter;
    assert forall i :: 0 < i < |pipe'| ==> pipe'[i] == pipe'[1..][i - 1] == pipe[i];
  }

  /** The dummy is read as a header. */
  lemma DummyFates(sv: Srv, sv': Srv, pipe: Pipe, written: seq<Bytes>, gone: nat, calls: seq<Msg>)
    requires Fates(sv, pipe, written, gone, calls) && sv.req.ReqHeader? && sv'.req.ReqPost? && sv'.past == sv.past
    requires pipe != [] && pipe[0] == DUMMY
    ensures Fates(sv', pipe[1..], written, gone + 1, calls)
  {
    LinedTail(pipe, written, gone, false);
    OneGone(written, gone);
    DummyEnds();
    hide Wrap, Framed, Read, Overrun, MoreAfter, Finishable, GoesOn;
  }

  lemma DummyEnds()
    ensures Finishable(|DUMMY|) && !GoesOn(|DUMMY|)
  {}

  lemma BodyFates(sv: Srv, sv': Srv, pipe: Pipe, written: seq<Bytes>, gone: nat, calls: seq<Msg>)
    requires Fates(sv, pipe, written, gone, calls) && sv.req.ReqBody? && sv'.past == sv.past
    requires pipe != [] && sv'.rbuf == pipe[0]
    requires sv'.req == if Finishable(HEADER + |pipe[0]|) then ReqParse else ReqMore
    ensures Fates(sv', pipe[1..], written, gone + 1, calls)
  {
    LinedTail(pipe, written, gone, true);
    assert |written[gone]| == HEADER + |pipe[0]| && written[gone] != DUMMY;
    hide Wrap;
    BodyKept(sv, sv', written, gone, calls);
  }

  lemma BodyKept(sv: Srv, sv': Srv, written: seq<Bytes>, gone: nat, calls: seq<Msg>)
    requires gone < |written| && Kept(sv, written[..gone], calls) && sv.req.ReqBody? && sv'.past == sv.past
    requires written[gone] == Wrap(sv'.rbuf) && written[gone] != DUMMY
    requires sv'.req == if Finishable(|written[gone]|) then ReqParse else ReqMore
    ensures Kept(sv', written[..gone + 1], calls)
  {
    OneGone(written, gone);
    hide Wrap, Framed, Read, Overrun, MoreAfter, Finishable, GoesOn;
  }

  lemma MoreFates(sv: Srv, sv': Srv, pipe: Pipe, written: seq<Bytes>, gone: nat, calls: seq<Msg>)
    requires Fates(sv, pipe, written, gone, calls) && sv.req.ReqMore? && pipe != []
    requires sv' == sv.(past := sv.past + pipe[0], req := if GoesOn(|pipe[0]|) then ReqMore else ReqParse)
    ensures Fates(sv', pipe[1..], written, gone + 1, calls)
  {
    LinedTail(pipe, written, gone, false);
    hide Wrap, Read, Overrun, MoreAfter, Framed, GoesOn;
    MoreKept(sv, sv', written, gone, calls);
  }

  lemma MoreKept(sv: Srv, sv': Srv, written: seq<Bytes>, gone: nat, calls: seq<Msg>)
    requires gone < |written| && Kept(sv, written[..gone], calls) && sv.req.ReqMore?
    requires sv' == sv.(past := sv.past + written[gone], req := if GoesOn(|written[gone]|) then ReqMore else ReqParse)
    ensures Kept(sv', written[..gone + 1], calls)
  {
    OneGone(written, gone);
    hide Wrap, Framed, Read, Overrun, MoreAfter, Finishable, GoesOn;
  }

  lemma ParseFates(sv: Srv, sv': Srv, pipe: Pipe, written: seq<Bytes>, gone: nat, calls: seq<Msg>, m: Msg)
    requires Fates(sv, pipe, written, gone, calls) && sv.req.ReqParse? && sv'.req == ReqPush(m) && sv'.past == sv.past
    requires Frame(m) == Wrap(sv.rbuf)
    ensures Fates(sv', pipe, written, gone, calls + [m])
  {
    FramedMore(calls, m);
    hide Wrap, Framed, Frame, Read, Overrun, MoreAfter;
  }

  lemma HeaderHistory(s: Sys)
    requires PipeInv(s.sv, s.pipe) && History(s) && s.sv.req.ReqHeader? && Enabled(s, Requests)
    ensures History(Next(s, Requests))
  {
    hide CallShape, EncodeMsg, IsBody, ReadSize, ReadInto, Frames.Header, Head, Behead, Whole, Wrap, Fates;
    HeaderStep(s.sv.rbuf, s.pipe, s.sv.stop);
    var (sv', pipe') := ReqStep(s.sv, s.pipe);
    if sv'.req.ReqBody? {
      HeaderFates(s.sv, sv', s.pipe, pipe', s.written, s.gone, s.calls);
    } else {
      DummyFates(s.sv, sv', s.pipe, s.written, s.gone, s.calls);
    }
  }

  lemma BodyHistory(s: Sys)
    requires PipeInv(s.sv, s.pipe) && History(s) && s.sv.req.ReqBody? && Enabled(s, Requests)
    ensures History(Next(s, Requests))
  {
    hide CallShape, EncodeMsg, IsBody, ReadSize, ReadInto, Frames.Header, Head, Behead, Whole, Finishable, Fates;
    BodyRead(s.sv.rbuf, s.pipe);
    BodyFates(s.sv, ReqStep(s.sv, s.pipe).0, s.pipe, s.written, s.gone, s.calls);
  }

  lemma PassHistory(s: Sys)
    requires PipeInv(s.sv, s.pipe) && History(s) && Enabled(s, Requests)
    requires !s.sv.req.ReqHeader? && !s.sv.req.ReqBody?
    ensures History(Next(s, Requests))
  {
    hide CallShape, EncodeMsg, IsBody, ParseMsg, ReadInto, ReadSize, Finishable, GoesOn, Whole, Wrap, Fates;
    var sv' := ReqStep(s.sv, s.pipe).0;
    if s.sv.req.ReqParse? {
      BodyParses(s.sv.rbuf);
      ParseFates(s.sv, sv', s.pipe, s.written, s.gone, s.calls, sv'.req.call);
    } else if s.sv.req.ReqMore? {
      MoreFates(s.sv, sv', s.pipe, s.written, s.gone, s.calls);
    } else {
      QuietFates(s.sv, sv', s.pipe, s.written, s.gone, s.calls);
    }
  }

  lemma QuietFates(sv: Srv, sv': Srv, pipe: Pipe, written: seq<Bytes>, gone: nat, calls: seq<Msg>)
    requires Fates(sv, pipe, written, gone, calls) && sv'.past == sv.past
    requires !sv.req.ReqMore? && !sv.req.ReqParse? && !sv.req.ReqBody?
    requires !sv'.req.ReqMore? && !sv'.req.ReqParse? && !sv'.req.ReqBody?
    ensures Fates(sv', pipe, written, gone, calls)
  {}

  lemma RequestsHistory(s: Sys)
    requires PipeInv(s.sv, s.pipe) && History(s) && Enabled(s, Requests)
    ensures History(Next(s, Requests))
  {
    hide PipeInv, History, Next, Enabled;
    match s.sv.req
    case ReqHeader => HeaderHistory(s);
    case ReqBody => BodyHistory(s);
    case _ => PassHistory(s);
  }

  lemma StepHistory(s: Sys, a: Action)
    requires Inv(s) && History(s) && Enabled(s, a)
    ensures History(Next(s, a))
  {
    hide TokenInv, ReqStep, RepStep, EncodeMsg, CallShape, IsBody, ReqEnabled, RepEnabled, Fates, Whole;
    assert s.sv.req.ReqBody? ==> s.pipe != [];
    hide PipeInv;
    match a
    case ClientWrite(call) => hide Wrap; AppendHistory(s, Frame(call));
    case SendDummy => AppendHistory(s, DUMMY);
    case Stop => SameFates(s.sv, Next(s, a).sv, s.pipe, s.written, s.gone, s.calls);
    case Requests => RequestsHistory(s);
    case Replies(v) =>
      RepSame(s.sv, s.out, v);
      SameFates(s.sv, Next(s, a).sv, s.pipe, s.written, s.gone, s.calls);
  }

  lemma SameFates(sv: Srv, sv': Srv, pipe: Pipe, written: seq<Bytes>, gone: nat, calls: seq<Msg>)
    requires Fates(sv, pipe, written, gone, calls) && sv'.req == sv.req && sv'.past == sv.past && sv'.rbuf == sv.rbuf
    ensures Fates(sv', pipe, written, gone, calls)
  {}

  // ----- runs

  ghost predicate IsStep(s: Sys, a: Action, s': Sys) { Enabled(s, a) && s' == Next(s, a) }

  ghost predicate IsRun(run: seq<Sys>, acts: seq<Action>) {
    |run| == |acts| + 1 && forall i :: 0 <= i < |acts| ==> IsStep(run[i], acts[i], run[i + 1])
  }

  ghost predicate Reachable(s: Sys) {
    exists run: seq<Sys>, acts: seq<Action> :: IsRun(run, acts) && run[0] == BEGIN && run[|acts|] == s
  }

  lemma {:induction false} RunKeeps(run: seq<Sys>, acts: seq<Action>)
    requires IsRun(run, acts) && Inv(run[0]) && History(run[0])
    ensures Inv(run[|acts|]) && History(run[|acts|])
    decreases |acts|
  {
    hide Inv, History, Enabled, Next;
    if |acts| > 0 {
      var n := |acts| - 1;
      RunKeeps(run[..n + 1], acts[..n]);
      assert IsStep(run[n], acts[n], run[n + 1]);
      StepKeeps(run[n], acts[n]);
      StepHistory(run[n], acts[n]);
    }
  }

  lemma BeginInv()
    ensures Inv(BEGIN) && History(BEGIN)
  {}

  lemma ReachableInv(s: Sys)
    requires Reachable(s)
    ensures Inv(s) && History(s)
  {
    hide Inv, History, Enabled, Next;
    var run, acts :| IsRun(run, acts) && run[0] == BEGIN && run[|acts|] == s;
    BeginInv();
    RunKeeps(run, acts);
  }

  /** In every reachable state, also during destruction, there is at most one token; it is lost
      only when the reply worker takes it and finds the server stopped; no pop meets an empty
      queue, no parse fails, and a token without a queued call means that the server was stopped. */
  lemma OneToken(s: Sys)
    requires Reachable(s)
    ensures var sv := s.sv;
            !sv.broken && |sv.msgs| <= 1 && Tokens(sv) <= 1 &&
            (Tokens(sv) == 0 ==> sv.stop && sv.rep.RepExit?) &&
            (sv.rep.RepPop? ==> sv.msgs != []) &&
            (sv.msgs == [] && (sv.writer == 1 || sv.req.ReqPost? || sv.rep.RepCheck?) ==> sv.stop)
  {
    hide PipeInv, History;
    ReachableInv(s);
  }

  /** Bytes are swallowed exactly if some call but the last has a length that cannot be finished. */
  lemma {:induction false} OverrunExact(ws: seq<Bytes>)
    requires forall i :: 0 <= i < |ws| ==> ws[i] != []
    ensures Overrun(ws) != [] <==> exists i :: 0 <= i < |ws| - 1 && !Finishable(|ws[i]|)
    ensures MoreAfter(ws) ==> exists i :: 0 <= i < |ws| && !Finishable(|ws[i]|)
    decreases |ws|
  {
    hide Finishable, GoesOn;
    if ws != [] {
      var n := |ws| - 1;
      OverrunExact(ws[..n]);
      assert forall i :: 0 <= i < n ==> ws[..n][i] == ws[i];
      if n > 0 && !Finishable(|ws[n - 1]|) && !MoreAfter(ws[..n]) {
        assert MoreAfter(ws[..n][..n - 1]);
        assert Overrun(ws[..n]) != [];
      }
    }
  }

  lemma WrittenOnce(s: Sys)
    requires Inv(s) && History(s)
    ensures s.gone <= |s.written| && forall i :: 0 <= i < |s.written| ==> s.written[i] != []
    ensures s.sv.past == Overrun(s.written[..s.gone])
    ensures !s.sv.req.ReqMore? && !s.sv.req.ReqParse? ==> Framed(s.calls) == Read(s.written[..s.gone])
  {
    hide TokenInv, PipeInv, Wrap, Framed, Read, Overrun, MoreAfter;
    if !s.sv.req.ReqMore? && !s.sv.req.ReqParse? {
      assert Framed(s.calls) + [] == Framed(s.calls);
    }
  }

  /** What became of the calls taken off the pipe: those read as frames were parsed, in order; the
      others are the dummy and the calls a body read swallowed, whose bytes all lie behind the end
      of its buffer. That happened exactly if some call but the last one taken has a length that
      cannot be finished. */
  lemma WritesExact(s: Sys)
    requires Reachable(s)
    ensures s.gone <= |s.written| && s.sv.past == Overrun(s.written[..s.gone])
    ensures !s.sv.req.ReqMore? && !s.sv.req.ReqParse? ==> Framed(s.calls) == Read(s.written[..s.gone])
    ensures s.sv.past != [] <==> exists i :: 0 <= i < s.gone - 1 && !Finishable(|s.written[i]|)
  {
    hide Inv, History, Overrun, Read, Framed, Finishable;
    ReachableInv(s);
    WrittenOnce(s);
    var ws := s.written[..s.gone];
    assert forall i :: 0 <= i < s.gone ==> ws[i] == s.written[i];
    OverrunExact(ws);
  }

  // ----- shutdown

  /** Once the server is stopped, a worker that waits will be woken. */
  predicate Safe(s: Srv) {
    && (s.req.ReqWait? ==> s.reader == 1 || s.rep.RepPop? || s.rep.RepRun? || s.rep.RepWrite? || s.rep.RepPost?)
    && (s.rep.RepWait? ==> s.writer == 1 || ReqHolds(s.req) || (s.reader == 1 && s.req.ReqWait?))
  }

  predicate Exited(s: Srv) { s.req.ReqExit? && s.rep.RepExit? }

  /** Neither worker nor the destructor can move. */
  predicate Quiet(s: Sys) {
    s.sv.stop && s.sent && !ReqEnabled(s.sv, s.pipe) && !RepEnabled(s.sv)
  }

  /** How many calls in the pipe the request worker can take before the dummy ends its reads. */
  function Ahead(pipe: Pipe): nat {
    if pipe == [] then 0 else if pipe[0] == DUMMY then 1 else 1 + Ahead(pipe[1..])
  }

  lemma {:induction false} AheadAppend(pipe: Pipe, c: Bytes)
    ensures Ahead(pipe + [c]) == if DUMMY in pipe then Ahead(pipe) else |pipe| + 1
    ensures Ahead(pipe) <= |pipe| && (DUMMY !in pipe ==> Ahead(pipe) == |pipe|)
  {
    if pipe != [] {
      AheadAppend(pipe[1..], c);
      assert (pipe + [c])[1..] == pipe[1..] + [c];
    } else {
      assert (pipe + [c])[1..] == [];
    }
  }

  function ReqRank(r: Req): nat {
    match r
    case ReqWait => 8 case ReqHeader => 7 case ReqBody => 6 case ReqMore => 5 case ReqParse => 4
    case ReqPush(_) => 3 case ReqPost => 2 case ReqTop => 1 case ReqExit => 0
  }

  function RepRank(r: Rep): nat {
    match r
    case RepWait => 7 case RepCheck => 6 case RepPop => 5 case RepRun(_) => 4
    case RepWrite(_) => 3 case RepPost => 2 case RepTop => 1 case RepExit => 0
  }

  /** What is left to do for the workers and the destructor. */
  function Rank(s: Sys): nat {
    ReqRank(s.sv.req) + (if Reading(s.sv.req) then Ahead(s.pipe) else 0) + RepRank(s.sv.rep) + (if s.sent then 0 else 2)
  }

  lemma ReqStopRank(s: Sys)
    requires Inv(s) && s.sv.stop && Enabled(s, Requests)
    ensures var s' := Next(s, Requests);
            ReqRank(s'.sv.req) + (if Reading(s'.sv.req) then Ahead(s'.pipe) else 0)
              < ReqRank(s.sv.req) + (if Reading(s.sv.req) then Ahead(s.pipe) else 0)
  {
    hide TokenInv, CallShape, EncodeMsg, IsBody, ParseMsg, ReadInto, ReadSize, Finishable, GoesOn, Whole,
      Head, Behead, Header;
    match s.sv.req
    case ReqHeader => HeaderStep(s.sv.rbuf, s.pipe, s.sv.stop);
    case ReqBody =>
      BodyRead(s.sv.rbuf, s.pipe);
      BodyLong(s.pipe[0]);
    case ReqMore => DummyEnds();
    case ReqParse => BodyParses(s.sv.rbuf);
    case _ =>
  }

  lemma RepStopRank(s: Srv, out: Pipe, v: Verdict)
    requires s.stop && TokenInv(s) && RepEnabled(s) && (s.rep.RepRun? ==> |s.rep.call.heads| == CALL_HEADS)
    ensures RepRank(RepStep(s, out, v).0.rep) < RepRank(s.rep)
  {
    hide ReplyTo, Frame, CallShape;
  }

  lemma StopRank(s: Sys, a: Action)
    requires Inv(s) && s.sv.stop && Enabled(s, a)
    ensures var s' := Next(s, a);
            Rank(s') + (if a.ClientWrite? then 0 else 1) <= Rank(s) + (if a.ClientWrite? && !s.sent then 1 else 0)
  {
    hide TokenInv, PipeInv, CallShape, Frame, ReqStep, RepStep, RepRank, ReqRank;
    match a
    case ClientWrite(call) => AheadAppend(s.pipe, Frame(call));
    case SendDummy => AheadAppend(s.pipe, DUMMY);
    case Requests => ReqSame(s.sv, s.pipe); ReqStopRank(s);
    case Replies(v) => RepSame(s.sv, s.out, v); RepStopRank(s.sv, s.out, v);
    case Stop =>
  }

  lemma ReqSame(s: Srv, pipe: Pipe)
    requires ReqEnabled(s, pipe)
    ensures var s' := ReqStep(s, pipe).0; s'.rep == s.rep && s'.stop == s.stop
  {
    hide ReadInto, ReadSize, Finishable, GoesOn, ParseMsg;
  }

  lemma ReqSafe(s: Srv, pipe: Pipe)
    requires TokenInv(s) && PipeInv(s, pipe) && s.stop && ReqEnabled(s, pipe)
    ensures Safe(ReqStep(s, pipe).0) <==> Safe(s)
  {
    hide PipeInv, CallShape, ReadInto, ReadSize, Finishable, GoesOn, ParseMsg, IsBody;
    if s.req.ReqParse? {
      assert ParseMsg(s.rbuf, 0, CALL_HEADS, Aborted).Done? by { ParsesBody(s, pipe); }
    }
  }

  lemma ParsesBody(s: Srv, pipe: Pipe)
    requires PipeInv(s, pipe) && s.req.ReqParse?
    ensures ParseMsg(s.rbuf, 0, CALL_HEADS, Aborted).Done?
  {
    hide ParseMsg, EncodeMsg, CallShape, Whole, IsBody;
    BodyParses(s.rbuf);
  }

  lemma RepSafe(s: Srv, out: Pipe, v: Verdict)
    requires TokenInv(s) && s.stop && RepEnabled(s) && (s.rep.RepRun? ==> |s.rep.call.heads| == CALL_HEADS)
    ensures Safe(RepStep(s, out, v).0) <==> Safe(s)
  {
    hide ReplyTo, Frame, CallShape;
  }

  lemma StopSafe(s: Sys, a: Action)
    requires Inv(s) && s.sv.stop && Enabled(s, a)
    ensures Next(s, a).sv.stop && (Safe(Next(s, a).sv) <==> Safe(s.sv))
  {
    hide TokenInv, PipeInv, CallShape, Frame, ReqStep, RepStep, Safe;
    match a
    case Requests => ReqSame(s.sv, s.pipe); ReqSafe(s.sv, s.pipe);
    case Replies(v) => RepSame(s.sv, s.out, v); RepSafe(s.sv, s.out, v);
    case _ =>
  }

  /** A stopped server that cannot move has ended, unless it was unsafe. */
  lemma QuietExited(s: Sys)
    requires Inv(s) && Quiet(s)
    ensures Exited(s.sv) <==> Safe(s.sv)
  {
    hide CallShape, Whole, IsBody, PipeInv;
  }

  function Moves(acts: seq<Action>): nat {
    if acts == [] then 0 else Moves(acts[..|acts| - 1]) + (if acts[|acts| - 1].ClientWrite? then 0 else 1)
  }

  /** How many client writes come before the dummy. */
  function Early(run: seq<Sys>, acts: seq<Action>): nat
    requires |run| == |acts| + 1
  {
    if acts == [] then 0 else
    var n := |acts| - 1;
    Early(run[..n + 1], acts[..n]) + (if acts[n].ClientWrite? && !run[n].sent then 1 else 0)
  }

  lemma {:induction false} StopRun(run: seq<Sys>, acts: seq<Action>)
    requires IsRun(run, acts) && Inv(run[0]) && run[0].sv.stop
    ensures var (first, last) := (run[0], run[|acts|]);
            Inv(last) && last.sv.stop && (Safe(last.sv) <==> Safe(first.sv)) &&
            Moves(acts) + Rank(last) <= Rank(first) + Early(run, acts)
    decreases |acts|
  {
    hide Inv, Enabled, Next, Safe, Rank;
    if |acts| > 0 {
      var n := |acts| - 1;
      StopRun(run[..n + 1], acts[..n]);
      assert IsStep(run[n], acts[n], run[n + 1]);
      StepKeeps(run[n], acts[n]);
      StopRank(run[n], acts[n]);
      StopSafe(run[n], acts[n]);
    }
  }

  lemma RankBound(s: Sys)
    ensures Rank(s) <= 17 + |s.pipe|
  {
    AheadAppend(s.pipe, []);
  }

  /** From every reachable stopped state and under every schedule: the workers and the destructor
      make no more moves than the rank of the state and the writes that come before the dummy, and
      when they can make no more, both workers have ended exactly if the state was safe. From an
      unsafe state no run ends them; a state in which the request worker holds the token is safe. */
  lemma ShutdownExact(run: seq<Sys>, acts: seq<Action>)
    requires IsRun(run, acts) && Reachable(run[0]) && run[0].sv.stop
    ensures Moves(acts) <= 17 + |run[0].pipe| + Early(run, acts)
    ensures Quiet(run[|acts|]) ==> (Exited(run[|acts|].sv) <==> Safe(run[0].sv))
    ensures Exited(run[|acts|].sv) ==> Safe(run[0].sv)
    ensures ReqHolds(run[0].sv.req) ==> Safe(run[0].sv)
  {
    hide Inv, History, Enabled, Next, Quiet, Rank;
    ReachableInv(run[0]);
    StopRun(run, acts);
    RankBound(run[0]);
    if Quiet(run[|acts|]) {
      QuietExited(run[|acts|]);
    }
  }

  /** A server stopped while the token waits behind the loop head strands its reply worker. */
  lemma Stranded()
    ensures exists s ::
              Reachable(s) && s.sv.stop && s.sv.req.ReqTop? && s.sv.rep.RepWait? &&
              forall run: seq<Sys>, acts: seq<Action> :: IsRun(run, acts) && run[0] == s ==> !Exited(run[|acts|].sv)
  {
    var v := Refused([]);
    var s1 := Next(BEGIN, Replies(v));
    var s := Next(s1, Stop);
    var way, todo := [BEGIN, s1, s], [Replies(v), Stop];
    assert IsRun(way, todo) && way[0] == BEGIN && way[|todo|] == s;
    forall run: seq<Sys>, acts: seq<Action> | IsRun(run, acts) && run[0] == s
      ensures !Exited(run[|acts|].sv)
    {
      ShutdownExact(run, acts);
    }
  }
}
