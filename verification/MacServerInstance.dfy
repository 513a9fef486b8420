/** The object behind MacServer: server_instance_osx with its semaphores, queue and buffer. */
module MacServerInstance {
  import opened Wire
  import opened Values
  import opened Messages
  import opened MessageObjects
  import opened Frames
  import opened FifoSocket
  import FrameReader
  import opened MacServer
  import D = Dispatch
  import W = WinServerInstance

  /** A read into the first n bytes of a resized buffer. */
  method Receive(buf: array<byte>, n: nat, pipe: Pipe) returns (r: array<byte>, rest: Pipe)
    requires pipe != []
    ensures fresh(r) && r[..] == ReadInto(buf[..], n, Head(pipe, n)) && rest == Behead(pipe, n)
  {
    hide Behead, Splice, ReadInto;
    var got := Head(pipe, n);
    r := W.ResizeBuffer(buf, n);
    Received(buf[..], n, got);
    hide Head;
    Store(r, 0, got);
    rest := Behead(pipe, n);
  }

  lemma Received(buf: Bytes, n: nat, got: Bytes)
    requires |got| <= n
    ensures Splice(FrameReader.Resized(buf, n), 0, got) == ReadInto(buf, n, got)
  {}

  /** The call in a buffer, as a value to be queued. */
  method ParseCall(buf: array<byte>) returns (m: Option<Msg>)
    requires buf.Length < P64
    ensures var p := ParseMsg(buf[..], 0, CALL_HEADS, Aborted); m == if p.Done? then Some(p.value.0) else None
  {
    hide ParseMsg, Meaning, Meanings, Stored;
    var call := new FunctionCall();
    var r := call.Deserialize(buf, 0);
    if !r.Done? {
      return None;
    }
    var args := W.DatumsOf(call.arguments);
    m := Some(Msg([Meaning(call.uid.Now()), Meaning(call.className.Now()), Meaning(call.functionName.Now())], args));
  }

  class ServerInstanceOsx {
    const parent: D.Server
    var stopWorkers: bool
    var readerSem: nat
    var writerSem: nat
    var rbuf: array<byte>
    var msgs: seq<Msg>
    /** Where the two worker threads are. */
    var req: Req
    var rep: Rep
    ghost var past: Bytes
    ghost var broken: bool

    ghost function Now(): Srv
      reads this, rbuf
    {
      Srv(stopWorkers, readerSem, writerSem, req, rep, msgs, rbuf[..], past, broken)
    }

    constructor (parent: D.Server)
      ensures Now() == START && this.parent == parent && fresh(rbuf)
    {
      this.parent := parent;
      stopWorkers, readerSem, writerSem, msgs, req, rep := false, 1, 0, [], ReqTop, RepTop;
      past, broken := [], false;
      rbuf := new byte[0];
    }

    /** worker_req, up to its next semaphore, pipe or queue operation. */
    method WorkerReq(pipe: Pipe) returns (rest: Pipe)
      requires ReqEnabled(Now(), pipe) && rbuf.Length < P64
      modifies this
      ensures (Now(), rest) == ReqStep(old(Now()), pipe) && (rbuf == old(rbuf) || fresh(rbuf))
      ensures old(req).ReqPush? ==> msgs == old(msgs) + [old(req).call] && req.ReqPost?
      ensures old(req).ReqPost? ==> writerSem == old(writerSem) + 1
      ensures old(req).ReqWait? ==> readerSem == old(readerSem) - 1
      ensures old(req).ReqTop? ==> (req.ReqExit? <==> stopWorkers)
    {
      rest := pipe;
      match req
      case ReqTop => req := if stopWorkers then ReqExit else ReqWait;
      case ReqWait =>
        readerSem := readerSem - 1;
        req := ReqHeader;
      case ReqHeader => rest := ReadCallbackInit(pipe);
      case ReqBody => rest := ReadBody(pipe);
      case ReqMore => rest := ReadMore(pipe);
      case ReqParse => ReadCallbackMsg();
      case ReqPush(call) =>
        msgs := msgs + [call];
        req := ReqPost;
      case ReqPost =>
        writerSem := writerSem + 1;
        req := ReqTop;
    }

    /** The header read and read_callback_init, which goes on to the body if there is one. */
    method ReadCallbackInit(pipe: Pipe) returns (rest: Pipe)
      requires pipe != [] && req.ReqHeader?
      modifies this`rbuf, this`req
      ensures (Now(), rest) == ReqStep(old(Now()), pipe) && fresh(rbuf)
      ensures rbuf.Length == 8 && req == if ReadSize(rbuf[..]) > 1 then ReqBody else ReqPost
    {
      hide ReadInto, Head, Behead, Get32;
      rbuf, rest := Receive(rbuf, HEADER, pipe);
      var nSize := ReadSize(rbuf[..]);
      req := if nSize > 1 then ReqBody else ReqPost;
    }

    /** The body read up to the end of its own frame. */
    method ReadBody(pipe: Pipe) returns (rest: Pipe)
      requires pipe != [] && req.ReqBody?
      modifies this`rbuf, this`req
      ensures (Now(), rest) == ReqStep(old(Now()), pipe) && fresh(rbuf)
    {
      hide ReadInto, Head, Behead, Get32, Finishable;
      var n := if rbuf.Length >= HEADER then ReadSize(rbuf[..]) else 0;
      var ends := Finishable(HEADER + |pipe[0]|);
      rbuf, rest := Receive(rbuf, n, pipe);
      req := if ends then ReqParse else ReqMore;
    }

    /** The read loop takes what was written next, behind the end of the buffer. */
    method ReadMore(pipe: Pipe) returns (rest: Pipe)
      requires pipe != [] && req.ReqMore?
      modifies this`past, this`req
      ensures (Now(), rest) == ReqStep(old(Now()), pipe)
    {
      hide GoesOn;
      past := past + pipe[0];
      if !GoesOn(|pipe[0]|) {
        req := ReqParse;
      }
      rest := pipe[1..];
    }

    /** read_callback_msg up to the push. */
    method ReadCallbackMsg()
      requires req.ReqParse? && rbuf.Length < P64
      modifies this`rbuf, this`req, this`broken
      ensures Now() == ReqStep(old(Now()), []).0 && (rbuf == old(rbuf) || fresh(rbuf))
    {
      hide ParseMsg, Meaning;
      var call := ParseCall(rbuf);
      if call.None? {
        broken := true;
        return;
      }
      rbuf := new byte[0];
      assert rbuf[..] == [];
      req := ReqPush(call.value);
    }

    /** worker_rep, up to its next semaphore, pipe or queue operation. It throws when no vector can
        hold the reply. */
    method WorkerRep(out: Pipe) returns (sent: Pipe, threw: bool, ghost v: D.Verdict)
      requires RepEnabled(Now()) && parent.ShapedHandlers()
      requires rep.RepRun? ==> |rep.call.heads| == CALL_HEADS && rep.call.Shaped()
      modifies this
      ensures rbuf == old(rbuf)
      ensures old(rep).RepRun? ==>
                D.Judged(parent.classes, old(rep).call, v) &&
                var call := old(rep).call; var c, f := D.TextOf(call.heads[1]), D.CString(D.TextOf(call.heads[2]));
                c in parent.classes && f in parent.classes[c] ==> v == D.Returned(parent.classes[c][f](call.items))
      ensures threw <==> old(rep).RepRun? && |EncodeMsg(D.ReplyTo(old(rep).call, v))| + HEADER >= P64
      ensures (Now(), sent) == if threw then (old(Now()), out) else RepStep(old(Now()), out, v)
      ensures old(rep).RepPop? && old(msgs) != [] ==> rep == RepRun(old(msgs)[0]) && msgs == old(msgs)[1..]
      ensures old(rep).RepWrite? ==> sent == out + [old(rep).frame]
      ensures old(rep).RepWait? ==> writerSem == old(writerSem) - 1
      ensures old(rep).RepPost? ==> readerSem == old(readerSem) + 1
      ensures old(rep).RepTop? || old(rep).RepCheck? ==> (rep.RepExit? <==> stopWorkers)
    {
      hide EncodeMsg, Frame, D.Judged, D.CString;
      sent, threw, v := out, false, D.Refused([]);
      match rep
      case RepTop => rep := if stopWorkers then RepExit else RepWait;
      case RepWait =>
        writerSem := writerSem - 1;
        rep := RepCheck;
      case RepCheck => rep := if stopWorkers then RepExit else RepPop;
      case RepPop =>
        if msgs == [] {
          broken := true;
        } else {
          rep := RepRun(msgs[0]);
          msgs := msgs[1..];
        }
      case RepRun(call) =>
        var frame;
        frame, v := Execute(call);
        threw := frame.None?;
        if !threw {
          rep := RepWrite(frame.value);
        }
      case RepWrite(frame) =>
        sent := out + [frame];
        rep := RepPost;
      case RepPost =>
        readerSem := readerSem + 1;
        rep := RepTop;
    }

    /** Dispatches a call and prints the reply; None when no vector is that long. */
    method Execute(call: Msg) returns (frame: Option<Bytes>, ghost v: D.Verdict)
      requires parent.ShapedHandlers() && |call.heads| == CALL_HEADS && call.Shaped()
      ensures D.Judged(parent.classes, call, v)
      ensures var c, f := D.TextOf(call.heads[1]), D.CString(D.TextOf(call.heads[2]));
              c in parent.classes && f in parent.classes[c] ==> v == D.Returned(parent.classes[c][f](call.items))
      ensures var reply := D.ReplyTo(call, v);
              frame == if |EncodeMsg(reply)| + HEADER < P64 then Some(Frame(reply)) else None
    {
      hide EncodeMsg, Meaning, Assign, D.Allowed, Wrap, D.Ascii, D.CString;
      assert call.heads[0] in call.heads;
      var cname, fname := D.TextOf(call.heads[1]), D.TextOf(call.heads[2]);
      var success, rval, errormsg := parent.ClientCallFunction(cname, fname, call.items);
      v := if success then D.Returned(rval) else D.Refused(errormsg);
      D.Concludes(parent.classes, cname, fname, call.items, success, rval, errormsg);
      var uid := W.ValueOf(call.heads[0]);
      var reply := W.MakeReply(uid, success, rval, errormsg, call);
      var size := reply.Size();
      if size + HEADER >= P64 {
        return None, v;
      }
      var buf := FrameReply(reply);
      frame := Some(buf[..]);
    }
  }
}
