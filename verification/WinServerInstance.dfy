/** The object behind WinServer: server_instance_win with its operations, buffers and queue. */
module WinServerInstance {
  import opened Wire
  import opened Values
  import opened Messages
  import opened MessageObjects
  import opened Frames
  import opened AsyncOps
  import opened Dispatch
  import opened FrameReader
  import opened WinServer

  method ResizeBuffer(buf: array<byte>, n: nat) returns (r: array<byte>)
    ensures fresh(r) && r[..] == Resized(buf[..], n)
  {
    r := new byte[n](_ => 0);
    var i := 0;
    while i < n && i < buf.Length
      invariant 0 <= i <= n && i <= buf.Length
      invariant r[..] == buf[..i] + seq(n - i, _ => 0)
    {
      r[i] := buf[i];
      i := i + 1;
    }
  }

  /** A value object that means d. */
  method ValueOf(d: Datum) returns (v: Value)
    requires d.Shaped()
    ensures fresh(v) && Meaning(v.Now()) == d
  {
    v := new Value();
    AssignMeaning(BLANK, d);
    var f := Assign(BLANK, d);
    v.tag, v.word, v.str, v.bin := f.tag, f.word, f.str, f.bin;
  }

  method ValuesOf(ds: seq<Datum>) returns (vs: seq<Value>)
    requires AllShaped(ds)
    ensures Distinct(vs) && fresh(vs) && Meanings(vs) == ds
  {
    hide Meaning;
    vs := [];
    while |vs| < |ds|
      invariant |vs| <= |ds| && Distinct(vs) && fresh(vs)
      invariant forall i :: 0 <= i < |vs| ==> Meaning(vs[i].Now()) == ds[i]
      decreases |ds| - |vs|
    {
      assert ds[|vs|] in ds;
      var v := ValueOf(ds[|vs|]);
      vs := vs + [v];
    }
  }

  method DatumsOf(vs: seq<Value>) returns (ds: seq<Datum>)
    ensures ds == Meanings(vs)
  {
    hide Meaning;
    ds := [];
    while |ds| < |vs|
      invariant |ds| <= |vs|
      invariant forall i :: 0 <= i < |ds| ==> ds[i] == Meaning(vs[i].Now())
      decreases |vs| - |ds|
    {
      ds := ds + [Meaning(vs[|ds|].Now())];
    }
  }

  /** The reply object for a dispatched call. */
  method MakeReply(uid: Value, success: bool, rval: seq<Datum>, errormsg: Bytes, ghost m: Msg)
    returns (reply: FunctionReply)
    requires |m.heads| == CALL_HEADS && Meaning(uid.Now()) == m.heads[0]
    requires AllShaped(rval) && (success ==> errormsg == []) && (!success ==> rval == [])
    ensures fresh(reply) && reply.Reply() == ReplyTo(m, if success then Returned(rval) else Refused(errormsg))
  {
    reply := new FunctionReply();
    reply.uid.tag, reply.uid.word, reply.uid.str, reply.uid.bin := uid.tag, uid.word, uid.str, uid.bin;
    assert reply.uid.Now() == uid.Now();
    var vs := ValuesOf(rval);
    reply.values := vs;
    if !success {
      reply.error.str := errormsg;
    }
    assert Meaning(reply.error.Now()) == Text(errormsg);
  }

  /** Parses the call in a buffer and runs it. */
  method Execute(parent: Server, rbuf: array<byte>) returns (reply: Option<FunctionReply>, ghost v: Verdict)
    requires rbuf.Length < P64 && parent.ShapedHandlers()
    ensures var p := ParseMsg(rbuf[..], 0, CALL_HEADS, Aborted);
            (reply.Some? <==> p.Done?) && (p.Done? ==>
              (fresh(reply.value) && reply.value.Reply() == ReplyTo(p.value.0, v) &&
               Judged(parent.classes, p.value.0, v)))
    ensures var p := ParseMsg(rbuf[..], 0, CALL_HEADS, Aborted);
            p.Done? ==>
              var m := p.value.0; var c, f := TextOf(m.heads[1]), CString(TextOf(m.heads[2]));
              c in parent.classes && f in parent.classes[c] ==> v == Returned(parent.classes[c][f](m.items))
  {
    hide ParseMsg, Meaning, Assign, Judged, CString, ReplyTo, TextOf;
    v := Refused([]);
    var call := new FunctionCall();
    var r := call.Deserialize(rbuf, 0);
    if !r.Done? {
      return None, v;
    }
    ghost var m := ParseMsg(rbuf[..], 0, CALL_HEADS, Aborted).value.0;
    var made;
    made, v := RunCall(parent, call, m);
    Handles(parent.classes, m, v);
    reply := Some(made);
  }

  /** Runs a parsed call. */
  method RunCall(parent: Server, call: FunctionCall, ghost m: Msg) returns (reply: FunctionReply, ghost v: Verdict)
    requires parent.ShapedHandlers() && m.Shaped() && |m.heads| == CALL_HEADS
    requires call.Received(m, Fields(TAG_UINT64, 0, [], []), Fields(TAG_STRING, 0, [], []),
                           Fields(TAG_STRING, 0, [], []))
    ensures fresh(reply) && reply.Reply() == ReplyTo(m, v) && Judged(parent.classes, m, v)
  {
    hide Meaning, Assign, Allowed, Ascii, CString;
    assert m.heads[1] in m.heads && m.heads[2] in m.heads;
    TextParsed(m.heads[1]);
    TextParsed(m.heads[2]);
    var args := DatumsOf(call.arguments);
    var success, rval, errormsg := parent.ClientCallFunction(call.className.str, call.functionName.str, args);
    v := if success then Returned(rval) else Refused(errormsg);
    Concludes(parent.classes, TextOf(m.heads[1]), TextOf(m.heads[2]), m.items, success, rval, errormsg);
    reply := MakeReply(call.uid, success, rval, errormsg, m);
  }

  /** The write buffer of a reply, with its header still zero; None when no vector is that long. */
  method PrintReply(reply: FunctionReply) returns (buffer: Option<Bytes>)
    ensures var e := EncodeMsg(reply.Reply());
            buffer == if |e| + HEADER < P64 then Some(Blank(e)) else None
  {
    hide EncodeMsg, Meaning, Meanings;
    ghost var m := reply.Reply();
    var size := reply.Size();
    if size + HEADER >= P64 {
      return None;
    }
    var buf := new byte[size + HEADER](_ => 0);
    assert reply.Reply() == m;
    var r := reply.Serialize(buf, HEADER);
    assert buf[..] == Blank(EncodeMsg(m));
    assert reply.Reply() == m;
    buffer := Some(buf[..]);
  }

  /** Parses the call in a buffer, runs it and prints the reply. */
  method Process(parent: Server, rbuf: array<byte>) returns (parsed: bool, buffer: Option<Bytes>, ghost v: Verdict)
    requires rbuf.Length < P64 && parent.ShapedHandlers()
    ensures var p := ParseMsg(rbuf[..], 0, CALL_HEADS, Aborted);
            parsed == p.Done? && (parsed ==>
              (Judged(parent.classes, p.value.0, v) &&
               var e := EncodeMsg(ReplyTo(p.value.0, v));
               buffer == if |e| + HEADER < P64 then Some(Blank(e)) else None))
    ensures var p := ParseMsg(rbuf[..], 0, CALL_HEADS, Aborted);
            p.Done? ==>
              var m := p.value.0; var c, f := TextOf(m.heads[1]), CString(TextOf(m.heads[2]));
              c in parent.classes && f in parent.classes[c] ==> v == Returned(parent.classes[c][f](m.items))
  {
    hide ParseMsg, EncodeMsg, Judged, Blank, ReplyTo, CString;
    var reply;
    reply, v := Execute(parent, rbuf);
    parsed, buffer := reply.Some?, None;
    if parsed {
      buffer := PrintReply(reply.value);
    }
  }

  lemma ArriveShape(s: Srv, now: int)
    ensures Arrive(s, now).(pc := Dead) ==
            s.(pc := Dead, waiting := true, last := now, arrivals := s.arrivals + [now])
  {
    hide ParseMsg;
  }

  class ServerInstanceWin {
    const parent: Server
    var stopWorkers: bool
    var rop: AsyncRequest?<Callback>
    var wop: AsyncRequest?<Callback>
    var rbuf: array<byte>
    var writeQueue: seq<Bytes>
    var writeWaiting: bool
    var lastWriteTime: int
    var outPipe: Bytes
    ghost var pc: Pc
    ghost var lost: bool
    ghost var arrivals: seq<int>
    ghost var issued: nat

    ghost function State(op: AsyncRequest?<Callback>): Option<Op<Callback>>
      reads op
    {
      if op == null then None else Some(op.Now())
    }

    ghost predicate Valid()
      reads this
    {
      rop == null || rop != wop
    }

    ghost function Now(): Srv
      reads this, rbuf, rop, wop
    {
      Srv(pc, lost, Reader(State(rop), rbuf[..]), State(wop), writeQueue, writeWaiting, lastWriteTime,
          outPipe, arrivals, issued)
    }

    /** The state is s, or, if s is inside a handler, what its answer under an allowed verdict leads
        to: a reply that no vector can hold throws. */
    ghost predicate Outcome(s: Srv, v: Verdict)
      requires s.pc.Handling? ==> |s.pc.call.heads| == CALL_HEADS
      reads this, rbuf, rop, wop, parent
    {
      if !s.pc.Handling? then Now() == s
      else Judged(parent.classes, s.pc.call, v) &&
           Now() == if |EncodeMsg(ReplyTo(s.pc.call, v))| + HEADER < P64 then Answer(s, v) else s.(pc := Dead)
    }

    constructor (parent: Server)
      ensures Valid() && !stopWorkers && this.parent == parent
      ensures Now() == START && fresh(rbuf)
    {
      this.parent := parent;
      stopWorkers, rop, wop, writeQueue, writeWaiting, lastWriteTime := false, null, null, [], false, 0;
      rbuf := new byte[0];
      outPipe, pc, lost, arrivals, issued := [], Top, false, [], 0;
    }

    /** worker(): one iteration up to the waits. */
    method Issue(c: Conn)
      requires Valid() && pc.Top?
      modifies this, rop, wop
      ensures Valid() && (rop == old(rop) || fresh(rop)) && (wop == old(wop) || fresh(wop))
      ensures rbuf == old(rbuf) || fresh(rbuf)
      ensures Now() == WinServer.Issue(old(Now()), stopWorkers, c)
    {
      if stopWorkers || !c.loop {
        pc := Exited;
        lost := lost || !c.loop;
        return;
      }
      var reading := IssueRead(c);
      if reading {
        IssueWrite(c);
      }
    }

    /** m_socket->read into m_rbuf: makes or re-arms m_rop. */
    method StartRead(c: Callback, connected: bool) returns (issued: bool)
      requires Valid() && (rop == null || !rop.valid)
      modifies this`rop, rop
      ensures Valid() && (rop == old(rop) || fresh(rop)) && issued == connected
      ensures State(rop) == if connected then Some(Arm(old(State(rop)), Some(c))) else old(State(rop))
    {
      hide Arm;
      var ec, run;
      rop, ec, run := StartTransfer(rop, Some(c), connected, true);
      issued := ec.Issued?;
    }

    /** m_socket->write of a reply: makes or re-arms m_wop. */
    method StartWrite(connected: bool) returns (issued: bool)
      requires Valid() && (wop == null || !wop.valid)
      modifies this`wop, wop
      ensures Valid() && (wop == old(wop) || fresh(wop)) && issued == connected
      ensures State(wop) == if connected then Some(Arm(old(State(wop)), Some(WriteDone))) else old(State(wop))
    {
      hide Arm;
      var ec, run;
      wop, ec, run := StartTransfer(wop, Some(WriteDone), connected, true);
      issued := ec.Issued?;
    }

    /** False when the loop is left. */
    method IssueRead(c: Conn) returns (go: bool)
      requires Valid() && pc.Top?
      modifies this`rop, this`rbuf, this`pc, this`lost, rop
      ensures Valid() && (rop == old(rop) || fresh(rop)) && (rbuf == old(rbuf) || fresh(rbuf))
      ensures Now() == WinServer.IssueRead(old(Now()), c) && go == pc.Top?
    {
      hide Arm, Resized;
      go := true;
      if rop == null || !rop.valid {
        rbuf := ResizeBuffer(rbuf, HEADER);
        go := StartRead(ReadInit, c.read);
        if !go {
          pc := Exited;
          lost := true;
        }
      }
    }

    method IssueWrite(c: Conn)
      requires Valid() && pc.Top?
      modifies this`wop, this`pc, this`lost, this`writeQueue, this`outPipe, this`writeWaiting, this`issued, wop
      ensures Valid() && (wop == old(wop) || fresh(wop))
      ensures Now() == WinServer.IssueWrite(old(Now()), c)
    {
      hide Arm, Announce;
      pc := Waiting;
      if wop == null || !wop.valid {
        if |writeQueue| > 0 {
          // the reply is announced in its queue slot
          var fbuf := Announce(writeQueue[0]);
          var written := StartWrite(c.write);
          if !written {
            writeQueue := writeQueue[0 := fbuf];
            pc := Exited;
            lost := true;
            return;
          }
          Handed(fbuf);
        }
      }
    }

    /** The reply is with the pipe: the watchdog is told and the queue shortened. */
    method Handed(fbuf: Bytes)
      requires |writeQueue| > 0
      modifies this`writeQueue, this`outPipe, this`writeWaiting, this`issued
      ensures Now() == old(Now()).(out := old(outPipe) + fbuf, waiting := false, queue := old(writeQueue)[1..],
                                   issued := old(issued) + 1)
    {
      outPipe := outPipe + fbuf;
      writeWaiting := false;
      writeQueue := writeQueue[1..];
      issued := issued + 1;
    }

    /** ok: the header was read, with or without more data behind it. */
    method ReadCallbackInit(ok: bool, connected: bool)
      requires Valid() && rop != null && (ok ==> rbuf.Length >= HEADER)
      modifies this`rop, this`rbuf, this`lost, rop
      ensures Valid() && (rop == old(rop) || fresh(rop)) && (rbuf == old(rbuf) || fresh(rbuf))
      ensures var s := old(Now());
              Now() == if ok
                       then s.(r := OnHeader(s.r, connected), lost := s.lost || (!connected && ReadSize(s.r.buf) != 0))
                       else s.(r := s.r.(op := Some(Invalidated(s.r.op.value))))
    {
      hide Arm, Resized, Get32;
      rop.Invalidate();
      if !ok {
        return;
      }
      var nSize := ReadSize(rbuf[..]);
      if nSize != 0 {
        rbuf := ResizeBuffer(rbuf, nSize);
        var issued := StartRead(ReadMsg, connected);
        if !issued {
          lost := true;
        }
      }
    }

    /** read_callback_msg with the handler run in place. It throws on a failed read and on a reply
        that no vector can hold. */
    method ReadCallbackMsg(ok: bool, now: int) returns (ghost v: Verdict)
      requires Valid() && rbuf.Length < P64 && parent.ShapedHandlers()
      modifies this`writeWaiting, this`lastWriteTime, this`arrivals, this`pc, this`writeQueue, rop
      ensures var s := Arrive(old(Now()), now);
              if !ok then Now() == s.(pc := Dead)
              else Outcome(s, v)
      ensures var s := Arrive(old(Now()), now);
              ok && s.pc.Handling? ==>
                var m := s.pc.call; var c, f := TextOf(m.heads[1]), CString(TextOf(m.heads[2]));
                c in parent.classes && f in parent.classes[c] ==> v == Returned(parent.classes[c][f](m.items))
    {
      hide ParseMsg, EncodeMsg, Judged, Blank, ReplyTo, CString;
      writeWaiting := true;
      lastWriteTime := now;
      arrivals := arrivals + [now];
      if !ok {
        pc := Dead;
        return Refused([]);
      }
      var parsed, buffer;
      parsed, buffer, v := Process(parent, rbuf);
      if !parsed || buffer.None? {
        pc := Dead;
        return;
      }
      pc := Top;
      ReadCallbackMsgWrite(buffer.value);
    }

    method ReadCallbackMsgWrite(buffer: Bytes)
      requires Valid()
      modifies this`writeQueue, rop
      ensures if buffer != [] then Now() == old(Now()).(queue := old(writeQueue) + [buffer])
              else Now() == old(Now()).(r := if rop == null then old(Now()).r
                                             else old(Now()).r.(op := Some(Invalidated(old(rop.Now())))))
    {
      if |buffer| != 0 {
        writeQueue := writeQueue + [buffer];
      } else if rop != null {
        rop.Invalidate();
      }
    }

    method WriteCallback()
      requires Valid() && wop != null
      modifies rop, wop
      ensures var s := old(Now());
              Now() == s.(wop := Some(Invalidated(s.wop.value)),
                          r := if s.r.op.Some? then s.r.(op := Some(Invalidated(s.r.op.value))) else s.r)
    {
      wop.Invalidate();
      if rop != null {
        rop.Invalidate();
      }
    }

    /** The callback of the read operation; ok: the transfer succeeded. */
    method RunRead(c: Option<Callback>, ok: bool, connected: bool, now: int) returns (ghost v: Verdict)
      requires Valid() && rop != null && rbuf.Length < P64 && parent.ShapedHandlers()
      modifies this, rop
      ensures Valid() && (rop == old(rop) || fresh(rop)) && wop == old(wop) && (rbuf == old(rbuf) || fresh(rbuf))
      ensures stopWorkers == old(stopWorkers)
      ensures !ok ==> Now() == RunFailed(old(Now()), c, now)
      ensures ok ==> Outcome(Ran(old(Now()), c, connected, now), v)
    {
      hide Arrive, OnHeader, Answer, Judged, EncodeMsg, ReplyTo, Get32;
      v := Refused([]);
      if c == Some(ReadInit) {
        if ok && rbuf.Length < HEADER {
          pc := Dead;
          return;
        }
        pc := Top;
        ReadCallbackInit(ok, connected);
      } else if c == Some(ReadMsg) {
        ArriveShape(Now(), now);
        v := ReadCallbackMsg(ok, now);
      } else {
        pc := Top;
      }
    }

    /** A successful wait on the read operation, and the callback it runs. */
    method WaitRead(ok: bool, connected: bool, now: int) returns (ghost v: Verdict)
      requires Valid() && rop != null && rop.signalled && rbuf.Length < P64 && parent.ShapedHandlers()
      modifies this, rop
      ensures Valid() && (rop == old(rop) || fresh(rop)) && wop == old(wop) && (rbuf == old(rbuf) || fresh(rbuf))
      ensures stopWorkers == old(stopWorkers)
      ensures !ok ==> Now() == ReadFailed(old(Now()), now)
      ensures ok ==> Outcome(WinServer.ReadDone(old(Now()), connected, now), v)
    {
      hide Ran, RunFailed, Outcome;
      var system, c := rop.Wait();
      v := RunRead(c, ok, connected, now);
    }

    /** A successful wait on the write operation, and the callback it runs. */
    method WaitWrite()
      requires Valid() && wop != null && wop.signalled
      modifies this`pc, rop, wop
      ensures Now() == WriteDelivered(old(Now()))
    {
      pc := Top;
      var system, c := wop.Wait();
      if c == Some(WriteDone) {
        WriteCallback();
      }
    }
  }
}
