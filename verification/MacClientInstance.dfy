/** The object behind the client half of MacSystem: client_osx with its semaphore, callback map
    and shared buffer, and the threads that are inside its call. */
module MacClientInstance {
  import opened Wire
  import opened Values
  import opened Messages
  import opened MessageObjects
  import opened Frames
  import opened Dispatch
  import FifoSocket
  import opened MacServer
  import opened MacSystem
  import V = WinClientInstance
  import S = MacServerInstance

  /** The local variables of a thread in call and call_synchronous_helper. */
  class Thread {
    var at: At
    var uid: u64
    var outbuf: Bytes
    var sync: bool
    var called: bool
    var values: seq<Fields>
    var semaphore: nat
    ghost var call: Msg
    ghost var asked: Request

    ghost function Now(): Client
      reads this
    {
      Client(at, uid, call, sync, Slot(called, values, semaphore), asked)
    }

    /** The frame is ready until it is written. */
    ghost predicate Valid()
      reads this
    {
      at.Register? || at.Acquire? || at.Write? ==> outbuf == Frame(call)
    }

    constructor ()
      ensures Now() == NOBODY && Valid()
    {
      at, uid, sync, called, values, semaphore, outbuf := Away, 0, false, false, [], 0, [];
      call, asked := Msg([], []), Request([], [], []);
    }

    /** A call gets its number and its frame. */
    method Begin(uid: u64, frame: Bytes, sync: bool, ghost call: Msg, ghost asked: Request)
      requires frame == Frame(call)
      modifies this
      ensures Now() == Client(if sync then Register else Acquire, uid, call, sync, EMPTY, asked) && Valid()
    {
      this.uid, this.sync, this.call, this.asked, outbuf := uid, sync, call, asked, frame;
      called, values, semaphore := false, [], 0;
      at := if sync then Register else Acquire;
    }

    /** The callback of the helper. */
    method Callback(rval: seq<Fields>)
      modifies this`called, this`values, this`semaphore
      ensures Now() == old(Now()).(slot := Called(old(Now().slot), rval))
      ensures called && values == old(values) + rval && semaphore == old(semaphore) + 1
    {
      values := values + rval;
      called := true;
      semaphore := semaphore + 1;
    }
  }

  class ClientOsx {
    const threads: seq<Thread>
    var timestamp: nat
    var writerSem: nat
    var cb: map<u64, Tid>
    var buffer: array<byte>
    ghost var past: Bytes
    ghost var thrown: bool

    ghost predicate Valid()
      reads threads
    {
      && (forall i, j :: 0 <= i < j < |threads| ==> threads[i] != threads[j])
      && forall t <- threads :: t.Valid()
    }

    /** The client half of s. */
    ghost predicate Is(s: Sys)
      reads this, threads, buffer
    {
      && s.counter == timestamp && s.sem == writerSem && s.cb == cb
      && s.buf == buffer[..] && s.past == past && s.thrown == thrown
      && |s.clients| == |threads| && forall t :: 0 <= t < |threads| ==> s.clients[t] == threads[t].Now()
    }

    constructor (threads: seq<Thread>)
      requires forall i, j :: 0 <= i < j < |threads| ==> threads[i] != threads[j]
      requires forall t <- threads :: t.Now() == NOBODY
      ensures Valid() && Is(Begin(|threads|)) && this.threads == threads
      ensures writerSem == 1 && timestamp == 0 && cb == map[] && buffer.Length == 130000
    {
      this.threads := threads;
      timestamp, writerSem, cb, past, thrown := 0, 1, map[], [], false;
      buffer := new byte[BUFFER](_ => 0);
    }

    /** The part of call in front of the registration: a number, the frame. */
    method Enter(t: Tid, cname: Bytes, fname: Bytes, args: seq<Value>, sync: bool, ghost reg: Registry, ghost s: Sys)
      requires Valid() && Is(s) && t < |threads| && threads[t].at.Away? && timestamp + 1 < P64 && Distinct(args)
      requires Enabled(reg, s, MacSystem.Enter(t, cname, fname, Meanings(args), sync))
      modifies this`timestamp, threads[t]
      ensures Valid() && Is(Next(reg, s, MacSystem.Enter(t, cname, fname, old(Meanings(args)), sync)))
      ensures timestamp == old(timestamp) + 1 && threads[t].uid == timestamp
      ensures Asks(threads[t].outbuf, timestamp, Request(cname, fname, old(Meanings(args))))
    {
      hide EncodeMsg, Frame, Meanings, Sendable, Asks;
      timestamp := timestamp + 1;
      ghost var call := CallMsg(timestamp, cname, fname, Meanings(args));
      Short(call);
      var frame := V.Print(timestamp, cname, fname, args);
      threads[t].Begin(timestamp, frame, sync, call, Request(cname, fname, Meanings(args)));
    }

    /** One step of a thread inside call, up to its next semaphore, pipe or registry operation. */
    method Move(t: Tid, rin: Pipe, rout: Pipe, ghost s: Sys)
      returns (rin': Pipe, rout': Pipe, result: Option<seq<Fields>>)
      requires Valid() && Is(s) && t < |threads| && CanMove(s, s.clients[t])
      requires s.rin == rin && s.rout == rout && buffer.Length < P64
      modifies this`writerSem, this`cb, this`buffer, this`past, this`thrown, threads
      ensures var s' := Moved(s, t); Valid() && Is(s') && s'.rin == rin' && s'.rout == rout'
      ensures buffer == old(buffer) || fresh(buffer)
      ensures old(threads[t].at).Release? ==> result == Some(old(threads[t].values))
    {
      hide Moved, Is, Valid, CanMove;
      Same(s, t);
      rin', rout', result := rin, rout, None;
      var at := threads[t].at;
      if at.Header? {
        rout' := ReadHeader(t, rout, s);
      } else if at.Body? {
        rout' := ReadBody(t, rout, s);
      } else if at.More? {
        rout' := ReadMore(t, rout, s);
      } else if at.Decode? {
        ReadCallbackMsg(t, s);
      } else if at.Await? || at.Release? {
        result := Finish(t, s);
      } else {
        rin' := Send(t, rin, s);
      }
    }

    /** The registration, the wait for the writer semaphore, and the write. */
    method Send(t: Tid, rin: Pipe, ghost s: Sys) returns (rin': Pipe)
      requires Valid() && Is(s) && t < |threads| && CanMove(s, s.clients[t]) && s.rin == rin
      requires var at := threads[t].at; at.Register? || at.Acquire? || at.Write?
      modifies this`writerSem, this`cb, threads[t]
      ensures var s' := Moved(s, t); Valid() && Is(s') && s'.rin == rin' && s'.rout == s.rout
    {
      hide EncodeMsg, Frame;
      var h := threads[t];
      assert h in threads && h.Valid() && s.clients[t] == h.Now();
      rin' := rin;
      match h.at
      case Register =>
        if h.uid !in cb {
          cb := cb[h.uid := t];
        }
        h.at := Acquire;
      case Acquire =>
        writerSem := writerSem - 1;
        h.at := Write;
      case Write =>
        rin' := rin + [h.outbuf];
        h.at := Header;
    }

    /** The header read, and read_callback_init up to the next read. */
    method ReadHeader(t: Tid, rout: Pipe, ghost s: Sys) returns (rout': Pipe)
      requires Valid() && Is(s) && t < |threads| && s.rout == rout && rout != [] && threads[t].at.Header?
      modifies this`buffer, threads[t]
      ensures var s' := Moved(s, t); Valid() && Is(s') && s'.rin == s.rin && s'.rout == rout'
      ensures fresh(buffer)
    {
      hide EncodeMsg, Frame, ReadInto, Head, Behead, Get32, Decoded, Posted;
      buffer, rout' := S.Receive(buffer, HEADER, rout);
      ReadCallbackInit(threads[t]);
    }

    /** The body read up to the end of its own frame. */
    method ReadBody(t: Tid, rout: Pipe, ghost s: Sys) returns (rout': Pipe)
      requires Valid() && Is(s) && t < |threads| && s.rout == rout && rout != [] && threads[t].at.Body?
      modifies this`buffer, threads[t]
      ensures var s' := Moved(s, t); Valid() && Is(s') && s'.rin == s.rin && s'.rout == rout'
      ensures fresh(buffer)
    {
      hide EncodeMsg, Frame, ReadInto, Head, Behead, Get32, Decoded, Posted, CanRead;
      var n := if buffer.Length >= HEADER then ReadSize(buffer[..]) else 0;
      var ends := CanRead(rout);
      buffer, rout' := S.Receive(buffer, n, rout);
      threads[t].at := if ends then Decode else More;
    }

    /** The read loop takes what was written next, behind the end of the buffer. */
    method ReadMore(t: Tid, rout: Pipe, ghost s: Sys) returns (rout': Pipe)
      requires Valid() && Is(s) && t < |threads| && s.rout == rout && rout != [] && threads[t].at.More?
      modifies this`past, threads[t]
      ensures var s' := Moved(s, t); Valid() && Is(s') && s'.rin == s.rin && s'.rout == rout'
    {
      hide EncodeMsg, Frame, FifoSocket.GoesOn;
      past := past + rout[0];
      threads[t].at := if FifoSocket.GoesOn(|rout[0]|) then More else Decode;
      rout' := rout[1..];
    }

    /** The end of the helper: its own semaphore, then the writer semaphore; result is what the helper
        returns, if it does. */
    method Finish(t: Tid, ghost s: Sys) returns (result: Option<seq<Fields>>)
      requires Valid() && Is(s) && t < |threads| && CanMove(s, s.clients[t])
      requires threads[t].at.Await? || threads[t].at.Release?
      modifies this`writerSem, this`cb, threads[t]
      ensures var s' := Moved(s, t); Valid() && Is(s') && s'.rin == s.rin && s'.rout == s.rout
      ensures result == if old(threads[t].at).Release? then Some(old(threads[t].values))
                        else if old(threads[t].called) then None else Some([])
    {
      hide EncodeMsg, Frame, Decoded, ReadInto, Head, Behead, Get32;
      result := None;
      if threads[t].at.Await? {
        AwaitReply(threads[t]);
        if !threads[t].called {
          result := Some([]);
        }
      } else {
        result := Some(threads[t].values);
        writerSem := writerSem + 1;
        threads[t].at := Away;
      }
    }

    lemma Same(s: Sys, t: Tid)
      requires Is(s) && t < |threads|
      ensures s.clients[t].at == threads[t].at && (CanMove(s, s.clients[t]) ==> !threads[t].at.Away?)
      ensures var at := threads[t].at;
              CanMove(s, s.clients[t]) && (at.Header? || at.Body? || at.More?) ==> s.rout != []
    {}

    /** read_callback_init: a body follows unless the size is zero. */
    method ReadCallbackInit(h: Thread)
      requires buffer.Length >= HEADER
      modifies h`at
      ensures h.at == if ReadSize(buffer[..]) != 0 then Body else if h.sync then Await else Away
    {
      hide Get32;
      var nSize := ReadSize(buffer[..]);
      h.at := if nSize != 0 then Body else if h.sync then Await else Away;
    }

    /** sem_wait(cd.sem), and what the helper does when no callback filled its values. */
    method AwaitReply(h: Thread)
      requires h.semaphore > 0
      modifies h`at, h`semaphore, this`cb
      ensures h.semaphore == old(h.semaphore) - 1 && h.at == (if h.called then Release else Away)
      ensures cb == if h.called then old(cb) else old(cb) - {h.uid}
    {
      h.semaphore := h.semaphore - 1;
      if !h.called {
        cb := cb - {h.uid};
        h.at := Away;
      } else {
        h.at := Release;
      }
    }

    /** read_callback_msg: fills the slot of the callback, or posts the token. */
    method ReadCallbackMsg(t: Tid, ghost s: Sys)
      requires Valid() && Is(s) && t < |threads| && s.clients[t].at.Decode? && buffer.Length < P64
      modifies this`writerSem, this`cb, this`thrown, threads
      ensures var s' := Moved(s, t); Valid() && Is(s') && s'.rin == s.rin && s'.rout == s.rout
    {
      hide ParseMsg, View, UidOf, Frame, Settled;
      var ok, uid, values, m := V.Decode(buffer);
      if !ok {
        thrown := true;
        return;
      }
      Settle(t, uid, values, s);
    }

    method Settle(t: Tid, uid: u64, values: seq<Fields>, ghost s: Sys)
      requires Valid() && Is(s) && t < |threads| && s.clients[t].at.Decode?
      modifies this`writerSem, this`cb, threads
      ensures var s' := Settled(s, t, uid, values); Valid() && Is(s') && s'.rin == s.rin && s'.rout == s.rout
    {
      hide Valid, Called;
      if uid !in cb {
        writerSem := writerSem + 1;
        Leave(t, Posted(s, s.clients[t].call));
      } else {
        var u := cb[uid];
        Fire(uid, values, s);
        Leave(t, (if u < |s.clients| then With(s, u, s.clients[u].(slot := Called(s.clients[u].slot, values))) else s)
                 .(cb := s.cb - {uid}));
      }
    }

    method Leave(t: Tid, ghost s: Sys)
      requires Valid() && Is(s) && t < |threads| && s.clients[t].at.Decode?
      modifies threads[t]
      ensures Valid() && Is(Left(s, t))
    {
      hide Frame;
      threads[t].at := if threads[t].sync then Await else Away;
    }

    /** Calls the callback of a reply and forgets it. */
    method Fire(uid: u64, values: seq<Fields>, ghost s: Sys)
      requires Valid() && Is(s) && uid in cb
      modifies this`cb, threads
      ensures var u := s.cb[uid];
              Valid() &&
              Is((if u < |s.clients| then With(s, u, s.clients[u].(slot := Called(s.clients[u].slot, values))) else s)
                 .(cb := s.cb - {uid}))
    {
      hide Called, Frame;
      var u := cb[uid];
      if u < |threads| {
        threads[u].Callback(values);
      }
      cb := cb - {uid};
    }
  }

  lemma Short(m: Msg)
    requires Sendable(m)
    ensures |EncodeMsg(m)| + HEADER < P64
  {}
}
