/** The object behind WinClient: client_win with its counter, callback map, operation and buffer. */
module WinClientInstance {
  import opened Wire
  import opened Values
  import opened Messages
  import opened MessageObjects
  import opened Frames
  import opened AsyncOps
  import opened Dispatch
  import opened FrameReader
  import opened WinClient
  import opened WinServerInstance

  class ClientWin {
    var timestamp: nat
    var cb: map<u64, nat>
    var rop: AsyncRequest?<Callback>
    var buf: array<byte>
    var requestPipe: Bytes
    ghost var pc: Pc
    ghost var lost: bool
    ghost var fired: seq<Firing>
    ghost var cookies: map<u64, nat>
    ghost var cancelled: set<u64>

    ghost function State(op: AsyncRequest?<Callback>): Option<Op<Callback>>
      reads op
    {
      if op == null then None else Some(op.Now())
    }

    ghost function Now(): Cli
      reads this, buf, rop
    {
      Cli(pc, lost, Reader(State(rop), buf[..]), cb, fired, cookies, cancelled)
    }

    constructor ()
      ensures Now() == START && timestamp == 0 && requestPipe == []
    {
      timestamp, cb, rop, requestPipe := 0, map[], null, [];
      buf := new byte[0];
      pc, lost, fired, cookies, cancelled := Top, false, [], map[], {};
    }

    method Cancel(id: u64) returns (found: bool)
      modifies this`cb, this`cancelled
      ensures found == (id in old(cb)) && Now() == WinClient.Cancel(old(Now()), id)
      ensures id !in cb && cb.Keys == old(cb).Keys - {id} && forall u <- cb :: cb[u] == old(cb)[u]
    {
      found := id in cb;
      if found {
        cancelled := cancelled + {id};
      }
      cb := cb - {id};
    }

    /** client::call. linked: there is a socket; without one nothing is done. written and waited say
        whether the write was issued and whether it was seen to complete; without a callback cbid
        keeps the caller's value, which a failing call cancels all the same. */
    method Call(cname: Bytes, fname: Bytes, args: seq<Value>, fn: Option<nat>, id: u64, linked: bool,
                written: bool, waited: bool)
      returns (ok: bool, cbid: u64)
      requires timestamp + 1 < P64 && Distinct(args)
      requires |EncodeMsg(CallMsg(timestamp + 1, cname, fname, Meanings(args)))| + HEADER < P64
      modifies this`timestamp, this`cb, this`cookies, this`cancelled, this`requestPipe
      ensures !linked ==> !ok && cbid == id && Now() == old(Now())
      ensures !linked ==> timestamp == old(timestamp) && requestPipe == old(requestPipe)
      ensures linked ==> timestamp == old(timestamp) + 1 && ok == (written && waited)
      ensures linked ==> cbid == if fn.Some? then timestamp else id
      ensures linked ==> var sent := if written then Frame(CallMsg(timestamp, cname, fname, Meanings(args))) else [];
              requestPipe == old(requestPipe) + sent
      ensures linked && written && Sendable(CallMsg(timestamp, cname, fname, Meanings(args))) ==>
                old(requestPipe) <= requestPipe &&
                Asks(requestPipe[|old(requestPipe)|..], timestamp, Request(cname, fname, Meanings(args)))
      ensures linked ==> var c := if fn.Some? then WinClient.Register(old(Now()), timestamp, fn.value) else old(Now());
              Now() == if ok then c else WinClient.Cancel(c, cbid)
      ensures linked && !ok ==> cbid !in cb
      ensures linked && ok && fn.Some? && timestamp !in old(cb) ==> cb == old(cb)[timestamp := fn.value]
    {
      hide EncodeMsg, Frame, Meanings, Register, WinClient.Cancel, Asks, Sendable;
      if !linked {
        return false, id;
      }
      timestamp := timestamp + 1;
      var outbuf := Print(timestamp, cname, fname, args);
      ok, cbid := Transmit(outbuf, fn, id, written, waited);
    }

    /** The part of client::call behind the serialization. */
    method Transmit(outbuf: Bytes, fn: Option<nat>, id: u64, written: bool, waited: bool) returns (ok: bool, cbid: u64)
      requires timestamp < P64
      modifies this`cb, this`cookies, this`cancelled, this`requestPipe
      ensures ok == (written && waited) && cbid == if fn.Some? then timestamp else id
      ensures var sent := if written then outbuf else []; requestPipe == old(requestPipe) + sent
      ensures var c := if fn.Some? then WinClient.Register(old(Now()), timestamp, fn.value) else old(Now());
              Now() == if ok then c else WinClient.Cancel(c, cbid)
      ensures !ok ==> cbid !in cb
      ensures ok && fn.Some? && timestamp !in old(cb) ==> cb == old(cb)[timestamp := fn.value]
    {
      hide Register, WinClient.Cancel;
      cbid := id;
      if fn.Some? {
        Enter(timestamp, fn.value);
        cbid := timestamp;
      }
      if written {
        requestPipe := requestPipe + outbuf;
      }
      ok := written && waited;
      if !ok {
        var found := Cancel(cbid);
      }
    }

    /** m_cb.insert. */
    method Enter(uid: u64, cookie: nat)
      modifies this`cb, this`cookies
      ensures Now() == WinClient.Register(old(Now()), uid, cookie)
      ensures uid !in old(cb) ==> cb == old(cb)[uid := cookie]
    {
      if uid !in cb {
        cb := cb[uid := cookie];
        cookies := cookies[uid := cookie];
      }
    }

    /** worker(): one iteration up to the wait; false leaves the loop. */
    method Issue(read: bool) returns (go: bool)
      requires pc.Top?
      modifies this`rop, this`buf, this`pc, this`lost, rop
      ensures (rop == old(rop) || fresh(rop)) && (buf == old(buf) || fresh(buf))
      ensures Now() == WinClient.Issue(old(Now()), read) && go == pc.Waiting?
    {
      hide Arm, Resized;
      go := true;
      if rop == null || !rop.valid {
        buf := ResizeBuffer(buf, HEADER);
        var ec, run;
        rop, ec, run := StartTransfer(rop, Some(ReadInit), read, true);
        if ec.Disconnected? {
          lost := true;
          go := false;
          return;
        }
      }
      pc := Waiting;
    }

    /** ok: the header was read, with or without more data behind it. */
    method ReadCallbackInit(ok: bool, connected: bool)
      requires rop != null && (ok ==> buf.Length >= HEADER)
      modifies this`rop, this`buf, this`lost, rop
      ensures (rop == old(rop) || fresh(rop)) && (buf == old(buf) || fresh(buf))
      ensures var c := old(Now());
              Now() == if ok
                       then c.(r := OnHeader(c.r, connected), lost := c.lost || (!connected && ReadSize(c.r.buf) != 0))
                       else c.(r := c.r.(op := Some(Invalidated(c.r.op.value))))
    {
      hide Arm, Resized, Get32;
      rop.Invalidate();
      if !ok {
        return;
      }
      var nSize := ReadSize(buf[..]);
      if nSize != 0 {
        buf := ResizeBuffer(buf, nSize);
        var ec, run;
        rop, ec, run := StartTransfer(rop, Some(ReadMsg), connected, true);
        if ec.Disconnected? {
          lost := true;
        }
      }
    }

    /** read_callback_msg: gives the operation up, parses, and runs the callback of the reply. */
    method ReadCallbackMsg()
      requires rop != null && buf.Length < P64
      modifies this`pc, this`cb, this`fired, rop
      ensures var c := old(Now()); var p := ParseMsg(c.r.buf, 0, REPLY_HEADS, Thrown);
              var d := c.(pc := Top, r := c.r.(op := Some(Invalidated(c.r.op.value))));
              Now() == if p.Done? then Answered(d, p.value.0) else d.(pc := Dead)
      ensures var p := ParseMsg(old(buf[..]), 0, REPLY_HEADS, Thrown);
              (p.Done? ==>
                 (p.value.0.heads[0].Shaped() &&
                  var uid := UidOf(p.value.0.heads[0]);
                  if uid in old(cb)
                  then cb == old(cb) - {uid} &&
                       fired == old(fired) + [Firing(uid, old(cb)[uid], View(p.value.0), Some(p.value.0))]
                  else cb == old(cb) && fired == old(fired)))
    {
      hide ParseMsg, View, UidOf;
      rop.Invalidate();
      var ok, uid, values, reply := Decode(buf);
      if !ok {
        pc := Dead;
        return;
      }
      pc := Top;
      if uid !in cb {
        return;
      }
      fired := fired + [Firing(uid, cb[uid], values, reply)];
      cb := cb - {uid};
    }

    /** A successful wait on the read operation, and the callback it runs; ok: without an error,
        which only the header callback looks at. */
    method WaitRead(ok: bool, connected: bool)
      requires rop != null && rop.signalled && buf.Length < P64
      modifies this`rop, this`buf, this`lost, this`pc, this`cb, this`fired, rop
      ensures (rop == old(rop) || fresh(rop)) && (buf == old(buf) || fresh(buf))
      ensures Now() == if ok then WinClient.ReadDone(old(Now()), connected) else ReadFailed(old(Now()), connected)
    {
      hide OnHeader, Answered, ParseMsg;
      var system, c := rop.Wait();
      if c == Some(ReadInit) {
        if ok && buf.Length < HEADER {
          pc := Dead;
          return;
        }
        pc := Top;
        ReadCallbackInit(ok, connected);
      } else if c == Some(ReadMsg) {
        ReadCallbackMsg();
      } else {
        pc := Top;
      }
    }

    /** The remaining callbacks learn that the connection is gone. */
    method Drain() returns (ghost fs: seq<Firing>)
      modifies this`pc, this`cb, this`fired
      ensures DrainOf(old(cb), fs) && Now() == WinClient.Drain(old(Now()), fs)
      ensures cb == map[] && fired == old(fired) + fs
    {
      fs := [];
      var left := cb.Keys;
      while left != {}
        invariant left <= cb.Keys && cb == old(cb)
        invariant OncePerUid(fs) && fired == old(fired) + fs
        invariant forall f <- fs ::
                    f.uid in cb && f.uid !in left && f == Firing(f.uid, cb[f.uid], LOST_CONNECTION, None)
        invariant forall uid <- cb :: uid in left || exists f <- fs :: f.uid == uid
        decreases left
      {
        var uid :| uid in left;
        ghost var f := Firing(uid, cb[uid], LOST_CONNECTION, None);
        fired := fired + [f];
        assert fs + [f] == fs + [f] && f in fs + [f];
        fs := fs + [f];
        left := left - {uid};
      }
      cb := map[];
      pc := Drained;
    }
  }

  method FieldsOf(vs: seq<Value>) returns (fs: seq<Fields>)
    ensures |fs| == |vs| && forall i :: 0 <= i < |vs| ==> fs[i] == vs[i].Now()
  {
    fs := [];
    while |fs| < |vs|
      invariant |fs| <= |vs| && forall i :: 0 <= i < |fs| ==> fs[i] == vs[i].Now()
      decreases |vs| - |fs|
    {
      fs := fs + [vs[|fs|].Now()];
    }
  }

  /** The uid of a reply and the values for its callback: what was sent, or the error's text in
      a Null value. */
  method Decode(buf: array<byte>) returns (ok: bool, uid: u64, values: seq<Fields>, ghost m: Option<Msg>)
    requires buf.Length < P64
    ensures var p := ParseMsg(buf[..], 0, REPLY_HEADS, Thrown);
            ok == p.Done? && m == (if p.Done? then Some(p.value.0) else None) &&
            (p.Done? ==> p.value.0.heads[0].Shaped() && uid == UidOf(p.value.0.heads[0]) && values == View(p.value.0))
  {
    hide ParseMsg, Meaning, Assign;
    ok, uid, values, m := false, 0, [], None;
    var reply := new FunctionReply();
    var r := reply.Deserialize(buf, 0);
    if !r.Done? {
      return;
    }
    ghost var p := ParseMsg(buf[..], 0, REPLY_HEADS, Thrown).value.0;
    assert p.heads[0] in p.heads;
    ok, m := true, Some(p);
    uid := reply.uid.word;
    forall i | 0 <= i < |reply.values|
      ensures fresh(reply.values[i])
    {
      assert reply.values[i] in reply.values;
    }
    values := Show(reply, p);
  }

  /** Replaces the values by the error's text, if there is one. */
  method Show(reply: FunctionReply, ghost p: Msg) returns (values: seq<Fields>)
    requires reply.Valid() && p.Shaped() && |p.heads| == REPLY_HEADS
    requires reply.Received(p, Fields(TAG_UINT64, 0, [], []), Fields(TAG_STRING, 0, [], []), true)
    modifies reply`values, reply.values
    ensures values == View(p)
  {
    hide Meaning, Assign;
    assert p.heads[1] in p.heads;
    TextParsed(p.heads[1]);
    assert |reply.values| == |p.items|;
    ghost var seen := Parsed(p.items);
    assert forall i :: 0 <= i < |reply.values| ==> reply.values[i].Now() == seen[i];
    if |reply.error.str| > 0 {
      reply.values := Resize(reply.values, 1);
      var first := reply.values[0];
      first.tag := TAG_NULL;
      first.str := reply.error.str;
      values := [first.Now()];
    } else {
      values := FieldsOf(reply.values);
    }
  }

  lemma MeansUInt64(v: Fields)
    requires v.tag == TAG_UINT64
    ensures Meaning(v) == UInt64(v.word)
  {}

  lemma MeansText(v: Fields)
    requires v.tag == TAG_STRING
    ensures Meaning(v) == Text(v.str)
  {}

  /** The frame of a call. */
  method Print(uid: u64, cname: Bytes, fname: Bytes, args: seq<Value>) returns (frame: Bytes)
    requires Distinct(args) && |EncodeMsg(CallMsg(uid, cname, fname, Meanings(args)))| + HEADER < P64
    ensures frame == Frame(CallMsg(uid, cname, fname, Meanings(args)))
    ensures Sendable(CallMsg(uid, cname, fname, Meanings(args))) ==>
              Asks(frame, uid, Request(cname, fname, Meanings(args)))
  {
    hide EncodeMsg, Frame, Meanings, Asks, Sendable, Meaning, Put64;
    ghost var q := Request(cname, fname, Meanings(args));
    if Sendable(AskMsg(uid, q)) {
      FrameAsks(uid, q);
    }
    var call := new FunctionCall();
    call.uid.tag, call.uid.word := TAG_UINT64, uid;
    call.className.str := cname;
    call.functionName.str := fname;
    call.arguments := args;
    MeansUInt64(call.uid.Now());
    MeansText(call.className.Now());
    MeansText(call.functionName.Now());
    var buf := FrameCall(call);
    frame := buf[..];
  }
}
