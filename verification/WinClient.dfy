/** The Windows client: a registry of callbacks, filled by any thread, emptied by one worker that
    reads replies, by cancellation, and by the drain when the connection ends. */
module WinClient {
  import opened Wire
  import opened Values
  import opened Messages
  import opened Frames
  import opened AsyncOps
  import opened Dispatch
  import opened FrameReader

  datatype Pc = Top | Waiting | Drained | Dead

  /** One call of a callback. reply is None when the drain called it. */
  datatype Firing = Firing(uid: u64, cookie: nat, values: seq<Fields>, reply: Option<Msg>)

  /** cb is m_cb: uid to the caller's function and data, here a cookie. cookies is the history of
      all registrations, cancelled that of the cancellations that found their entry. */
  datatype Cli = Cli(pc: Pc, lost: bool, r: Reader, cb: map<u64, nat>, fired: seq<Firing>,
                     cookies: map<u64, nat>, cancelled: set<u64>)

  const START := Cli(Top, false, Reader(None, []), map[], [], map[], {})

  const LOST_CONNECTION: seq<Fields> := [BLANK.(str := Ascii("Lost IPC Connection"))]

  /** call(): the callback is entered in the map. */
  function Register(c: Cli, uid: u64, cookie: nat): Cli {
    c.(cb := if uid in c.cb then c.cb else c.cb[uid := cookie],
       cookies := if uid in c.cb then c.cookies else c.cookies[uid := cookie])
  }

  function Cancel(c: Cli, uid: u64): Cli {
    c.(cb := c.cb - {uid}, cancelled := if uid in c.cb then c.cancelled + {uid} else c.cancelled)
  }

  predicate ReadSignalled(c: Cli) { c.r.op.Some? && c.r.op.value.signalled }

  /** The end of read_callback_msg: the callback of a reply runs and is removed. */
  function Answered(c: Cli, reply: Msg): Cli
    requires reply.Shaped() && |reply.heads| == REPLY_HEADS
  {
    assert reply.heads[0] in reply.heads;
    var uid := UidOf(reply.heads[0]);
    if uid !in c.cb then c
    else c.(cb := c.cb - {uid}, fired := c.fired + [Firing(uid, c.cb[uid], View(reply), Some(reply))])
  }

  /** A wait that finds the read done: the header callback or the message callback. */
  function ReadDone(c: Cli, connected: bool): Cli
    requires ReadSignalled(c)
  {
    var (op, b) := Deliver(c.r.op.value);
    var c := c.(r := c.r.(op := Some(op)));
    if b == Some(ReadInit) then
      if |c.r.buf| < HEADER then c.(pc := Dead)
      else c.(pc := Top, r := OnHeader(c.r, connected), lost := c.lost || (!connected && ReadSize(c.r.buf) != 0))
    else if b == Some(ReadMsg) then
      var p := ParseMsg(c.r.buf, 0, REPLY_HEADS, Thrown);
      var c := c.(pc := Top, r := c.r.(op := Some(Invalidated(op))));
      if p.Done? then Answered(c, p.value.0) else c.(pc := Dead)
    else c.(pc := Top)
  }

  /** The same wait when the transfer ended in an error. */
  function ReadFailed(c: Cli, connected: bool): Cli
    requires ReadSignalled(c)
  {
    var (op, b) := Deliver(c.r.op.value);
    if b == Some(ReadInit) then c.(pc := Top, r := c.r.(op := Some(Invalidated(op)))) else ReadDone(c, connected)
  }

  /** worker(): the header read of one iteration; false for go leaves the loop. */
  function Issue(c: Cli, read: bool): Cli {
    if !Armable(c.r) then c.(pc := Waiting)
    else if read then c.(pc := Waiting, r := ArmHeader(c.r))
    else c.(lost := true, r := c.r.(buf := Resized(c.r.buf, HEADER)))
  }

  // ----- what the steps of the registry do

  /** An iteration ends the loop exactly if a header read is due and the connection is gone. */
  lemma IssueEnds(c: Cli, read: bool)
    requires c.pc.Top?
    ensures Issue(c, read).pc.Waiting? <==> read || (c.r.op.Some? && c.r.op.value.valid)
    ensures read && (c.r.op.None? || !c.r.op.value.valid) ==>
              var r := Issue(c, read).r;
              r.op.Some? && r.op.value.valid && !r.op.value.called && !r.op.value.completed &&
              r.op.value.callback == Some(ReadInit) && |r.buf| == 8
    ensures c.r.op.Some? && c.r.op.value.valid ==> Issue(c, read).r == c.r
  {}

  /** A header read that ended in an error is given up; a body read is handled as if it had not. */
  lemma FailedReads(c: Cli, connected: bool)
    requires ReadSignalled(c) && (InHeader(c.r) || InBody(c.r))
    ensures var d := ReadFailed(c, connected);
            (InHeader(c.r) ==> d.pc.Top? && Idle(d.r) && d.cb == c.cb && d.fired == c.fired && d.r.buf == c.r.buf) &&
            (InBody(c.r) ==> d == ReadDone(c, connected))
  {}

  /** A registration adds its entry. */
  lemma RegisterAdds(c: Cli, uid: u64, cookie: nat)
    requires uid !in c.cb && uid !in c.cookies
    ensures var d := Register(c, uid, cookie);
            d.cb.Keys == c.cb.Keys + {uid} && d.cb[uid] == cookie && (forall u <- c.cb :: d.cb[u] == c.cb[u]) &&
            d.cookies.Keys == c.cookies.Keys + {uid} && d.cookies[uid] == cookie &&
            (forall u <- c.cookies :: d.cookies[u] == c.cookies[u]) && d.fired == c.fired && d.cancelled == c.cancelled
  {}

  /** A cancellation removes its entry, if there is one, and no other. */
  lemma CancelRemoves(c: Cli, uid: u64)
    ensures var d := Cancel(c, uid);
            uid !in d.cb && d.cb.Keys == c.cb.Keys - {uid} && (forall u <- d.cb :: d.cb[u] == c.cb[u]) &&
            (uid in d.cancelled <==> uid in c.cb || uid in c.cancelled) &&
            (forall u :: u != uid ==> (u in d.cancelled <==> u in c.cancelled)) &&
            d.fired == c.fired && d.cookies == c.cookies
  {}

  /** A delivered reply to a pending call runs its callback, once and with what the reply says, and
      forgets it; a reply to any other call runs nothing. */
  lemma ReplyFires(c: Cli, connected: bool, reply: Msg)
    requires InBody(c.r) && ReadSignalled(c)
    requires var p := ParseMsg(c.r.buf, 0, REPLY_HEADS, Thrown); p.Done? && p.value.0 == reply
    ensures reply.Shaped() && |reply.heads| == REPLY_HEADS && reply.heads[0].Shaped()
    ensures var d, uid := ReadDone(c, connected), UidOf(reply.heads[0]);
            !d.pc.Dead? && d.cookies == c.cookies && d.cancelled == c.cancelled &&
            if uid in c.cb then
              d.cb.Keys == c.cb.Keys - {uid} && (forall u <- d.cb :: d.cb[u] == c.cb[u]) &&
              |d.fired| == |c.fired| + 1 && d.fired[..|c.fired|] == c.fired &&
              var f := d.fired[|c.fired|];
              f.uid == uid && f.cookie == c.cb[uid] && f.values == View(reply) && f.reply == Some(reply)
            else d.cb == c.cb && d.fired == c.fired
  {
    hide ParseMsg, View, UidOf;
    assert reply.heads[0] in reply.heads;
  }

  ghost predicate OncePerUid(fs: seq<Firing>) {
    forall i, j :: 0 <= i < j < |fs| ==> fs[i].uid != fs[j].uid
  }

  /** Calls of every callback in the map, each once, with the text of the lost connection. */
  ghost predicate DrainOf(cb: map<u64, nat>, fs: seq<Firing>) {
    && OncePerUid(fs)
    && (forall f <- fs :: f.uid in cb && f == Firing(f.uid, cb[f.uid], LOST_CONNECTION, None))
    && (forall uid <- cb :: exists f <- fs :: f.uid == uid)
  }

  ghost function Drain(c: Cli, fs: seq<Firing>): Cli
    requires DrainOf(c.cb, fs)
  {
    c.(pc := Drained, cb := map[], fired := c.fired + fs)
  }

  // ----- the ledger

  function FiredUids(fs: seq<Firing>): set<u64> { set f <- fs :: f.uid }

  /** Every registered callback is pending, was fired or was cancelled, only one of these, and
      fired at most once; firings carry the cookie of their registration. */
  ghost predicate Ledger(c: Cli) {
    var fired := FiredUids(c.fired);
    && c.cookies.Keys == c.cb.Keys + fired + c.cancelled
    && c.cb.Keys !! fired && c.cb.Keys !! c.cancelled && fired !! c.cancelled
    && OncePerUid(c.fired)
    && (forall uid <- c.cb :: uid in c.cookies && c.cb[uid] == c.cookies[uid])
    && (forall f <- c.fired :: f.uid in c.cookies && f.cookie == c.cookies[f.uid])
  }

  lemma FiredMore(fs: seq<Firing>, gs: seq<Firing>)
    ensures FiredUids(fs + gs) == FiredUids(fs) + FiredUids(gs)
  {
    forall uid | uid in FiredUids(fs) + FiredUids(gs)
      ensures uid in FiredUids(fs + gs)
    {
      if uid in FiredUids(fs) {
        var f :| f in fs && f.uid == uid;
        assert f in fs + gs;
      } else {
        var f :| f in gs && f.uid == uid;
        assert f in fs + gs;
      }
    }
  }

  lemma SameLedger(c: Cli, d: Cli)
    requires Ledger(c) && d.cb == c.cb && d.fired == c.fired && d.cookies == c.cookies && d.cancelled == c.cancelled
    ensures Ledger(d)
  {}

  lemma RegisterKeepsLedger(c: Cli, uid: u64, cookie: nat)
    requires Ledger(c) && uid !in c.cookies
    ensures Ledger(Register(c, uid, cookie))
  {}

  lemma CancelKeepsLedger(c: Cli, uid: u64)
    requires Ledger(c)
    ensures Ledger(Cancel(c, uid))
  {}

  lemma AnswerKeepsLedger(c: Cli, reply: Msg)
    requires Ledger(c) && reply.Shaped() && |reply.heads| == REPLY_HEADS
    ensures Ledger(Answered(c, reply))
  {
    hide View, UidOf;
    assert reply.heads[0] in reply.heads;
    var uid := UidOf(reply.heads[0]);
    if uid in c.cb {
      var f := Firing(uid, c.cb[uid], View(reply), Some(reply));
      FiredMore(c.fired, [f]);
      assert FiredUids([f]) == {uid};
      forall i | 0 <= i < |c.fired|
        ensures c.fired[i].uid != uid
      {
        assert c.fired[i] in c.fired && c.fired[i].uid in FiredUids(c.fired);
      }
    }
  }

  /** The drain calls each pending callback once and leaves none. */
  lemma DrainKeepsLedger(c: Cli, fs: seq<Firing>)
    requires Ledger(c) && DrainOf(c.cb, fs)
    ensures var d := Drain(c, fs);
            Ledger(d) && d.cb == map[] && FiredUids(fs) == c.cb.Keys &&
            forall f <- fs ::
              f.cookie == c.cb[f.uid] && |f.values| == 1 && f.values[0].tag == 0 &&
              f.values[0].str == Ascii("Lost IPC Connection")
  {
    FiredMore(c.fired, fs);
    assert FiredUids(fs) == c.cb.Keys;
    forall i, j | 0 <= i < |c.fired| && 0 <= j < |fs|
      ensures c.fired[i].uid != fs[j].uid
    {
      assert c.fired[i] in c.fired && c.fired[i].uid in FiredUids(c.fired);
      assert fs[j] in fs && fs[j].uid in FiredUids(fs);
    }
  }
}
