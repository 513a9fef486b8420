/** The outer frame: four unused bytes, the length of the body, the body. */
module Frames {
  import opened Wire
  import opened Values
  import opened Messages
  import opened MessageObjects

  const HEADER := 8

  function Header(n: nat): (h: Bytes)
    ensures |h| == HEADER
  {
    [0, 0, 0, 0] + Put32(n)
  }

  function Wrap(body: Bytes): (f: Bytes)
    ensures |f| == HEADER + |body|
  {
    Header(|body|) + body
  }

  function Frame(m: Msg): Bytes { Wrap(EncodeMsg(m)) }

  /** read_size: the length a header announces. */
  function ReadSize(h: Bytes): u32
    requires |h| >= HEADER
  {
    Get32(h[4..8])
  }

  /** A body whose length the header can announce, and not the empty one, which readers skip. */
  predicate Frameable(body: Bytes) { 0 < |body| < P32 }

  ghost predicate Sendable(m: Msg) {
    m.Shaped() && m.Fits() && Frameable(EncodeMsg(m))
  }

  /** A reader that takes the header apart finds the body exactly when its length fits. */
  lemma HeaderOfWrap(body: Bytes)
    ensures Wrap(body)[..HEADER] == Header(|body|) && Wrap(body)[HEADER..] == body
    ensures ReadSize(Header(|body|)) == |body| <==> |body| < P32
  {
    assert Header(|body|)[4..8] == Put32(|body|);
    Fixed32(|body|, []);
  }

  /** make_sendable: announces the length of everything behind the header. */
  method MakeSendable(buf: array<byte>) returns (r: Outcome<()>)
    modifies buf
    ensures if buf.Length < HEADER then r == OutOfBounds && buf[..] == old(buf[..])
            else r == Done(()) && buf[..] == Splice(old(buf[..]), 4, Put32(buf.Length - HEADER))
    ensures r.Done? ==> buf[4..8] == Put32(buf.Length - 8) && buf[..4] == old(buf[..4]) && buf[8..] == old(buf[8..])
  {
    if buf.Length < HEADER {
      return OutOfBounds;
    }
    Store(buf, 4, Put32(buf.Length - HEADER));
    return Done(());
  }

  lemma FrameBytes(zeros: Bytes, body: Bytes)
    requires |zeros| == HEADER + |body| && forall i :: 0 <= i < |zeros| ==> zeros[i] == 0
    ensures Splice(Splice(zeros, HEADER, body), 4, Put32(|body|)) == Wrap(body)
  {
    hide Put32;
    assert zeros[..4] == [0, 0, 0, 0];
    assert Splice(zeros, HEADER, body)[8..] == body;
  }

  /** How client::call prepares its buffer: sized, zeroed, printed behind the header, announced. */
  method FrameCall(call: FunctionCall) returns (buf: array<byte>)
    requires |EncodeMsg(call.Call())| + HEADER < P64
    ensures fresh(buf) && buf[..] == Frame(call.Call())
  {
    hide Splice, EncodeMsg, Wrap, Put32, Meanings, Meaning;
    ghost var m := call.Call();
    var size := call.Size();
    buf := new byte[size + HEADER](_ => 0);
    ghost var zeros := buf[..];
    assert call.Call() == m;
    var r := call.Serialize(buf, HEADER);
    assert call.Call() == m;
    var q := MakeSendable(buf);
    FrameBytes(zeros, EncodeMsg(m));
    assert call.Call() == m;
  }

  /** How the servers prepare a reply. */
  method FrameReply(reply: FunctionReply) returns (buf: array<byte>)
    requires |EncodeMsg(reply.Reply())| + HEADER < P64
    ensures fresh(buf) && buf[..] == Frame(reply.Reply())
  {
    hide Splice, EncodeMsg, Wrap, Put32, Meanings, Meaning;
    ghost var m := reply.Reply();
    var size := reply.Size();
    buf := new byte[size + HEADER](_ => 0);
    ghost var zeros := buf[..];
    assert reply.Reply() == m;
    var r := reply.Serialize(buf, HEADER);
    assert reply.Reply() == m;
    var q := MakeSendable(buf);
    FrameBytes(zeros, EncodeMsg(m));
    assert reply.Reply() == m;
  }

  // ----- streams of frames

  function Flatten(bodies: seq<Bytes>): Bytes {
    if bodies == [] then [] else Wrap(bodies[0]) + Flatten(bodies[1..])
  }

  lemma {:induction false} FlattenAppend(bodies: seq<Bytes>, body: Bytes)
    ensures Flatten(bodies + [body]) == Flatten(bodies) + Wrap(body)
  {
    if bodies == [] {
      assert bodies + [body] == [body] && [body][1..] == [];
    } else {
      FlattenAppend(bodies[1..], body);
      assert (bodies + [body])[1..] == bodies[1..] + [body];
    }
  }

  function Encodings(ms: seq<Msg>): seq<Bytes> { seq(|ms|, i requires 0 <= i < |ms| => EncodeMsg(ms[i])) }

  /** The alternating header and body reads over a stream: for each body, the position at which
      its header read started. A zero length announces no body. */
  function Reads(s: Bytes, at: nat): seq<(nat, Bytes)>
    requires at <= |s|
    decreases |s| - at
  {
    if |s| < at + HEADER then [] else
    var n := ReadSize(s[at..at + HEADER]);
    if n == 0 then Reads(s, at + HEADER)
    else if |s| < at + HEADER + n then []
    else [(at, s[at + HEADER..at + HEADER + n])] + Reads(s, at + HEADER + n)
  }

  /** Where the frames of a stream begin. */
  function Starts(bodies: seq<Bytes>, at: nat): seq<(nat, Bytes)> {
    if bodies == [] then [] else [(at, bodies[0])] + Starts(bodies[1..], at + |Wrap(bodies[0])|)
  }

  /** Header reads start exactly on the frame boundaries, and the bodies come back in order. */
  lemma {:induction false} ReadsOfFrames(s: Bytes, at: nat, bodies: seq<Bytes>)
    requires at + |Flatten(bodies)| == |s| && s[at..] == Flatten(bodies)
    requires forall b <- bodies :: Frameable(b)
    ensures Reads(s, at) == Starts(bodies, at)
    decreases |bodies|
  {
    if bodies != [] {
      var b, rest := bodies[0], Flatten(bodies[1..]);
      HeaderOfWrap(b);
      assert s[at..] == Wrap(b) + rest;
      HasBoth(s, at, Wrap(b), rest);
      HasBoth(s, at, Header(|b|), b);
      assert b in bodies;
      assert s[at..at + HEADER] == Header(|b|) && s[at + HEADER..at + HEADER + |b|] == b;
      ReadsOfFrames(s, at + |Wrap(b)|, bodies[1..]);
    }
  }

  /** A stream of frames is read back as the messages it was built from. */
  lemma StreamRoundTrip(ms: seq<Msg>, heads: nat, short: Outcome<(Msg, nat)>)
    requires !short.Done? && forall m <- ms :: Sendable(m) && |m.heads| == heads
    ensures var rs := Reads(Flatten(Encodings(ms)), 0);
            |rs| == |ms| && forall i :: 0 <= i < |ms| ==>
              ParseMsg(rs[i].1, 0, heads, short) == Done((ms[i], |rs[i].1|))
  {
    hide ParseMsg, Reads, EncodeMsg, Starts, Flatten;
    var bodies := Encodings(ms);
    forall b <- bodies
      ensures Frameable(b)
    {
      var i :| 0 <= i < |ms| && b == EncodeMsg(ms[i]);
      assert ms[i] in ms;
    }
    ReadsOfFrames(Flatten(bodies), 0, bodies);
    StartsBodies(bodies, 0);
    forall i | 0 <= i < |ms|
      ensures ParseMsg(bodies[i], 0, heads, short) == Done((ms[i], |bodies[i]|))
    {
      assert Has(bodies[i], 0, EncodeMsg(ms[i]));
      ParseEncodeFitting(bodies[i], 0, ms[i], short);
    }
  }

  lemma {:induction false} StartsBodies(bodies: seq<Bytes>, at: nat)
    ensures var ss := Starts(bodies, at);
            |ss| == |bodies| && forall i :: 0 <= i < |bodies| ==> ss[i].1 == bodies[i]
    decreases |bodies|
  {
    if bodies != [] {
      StartsBodies(bodies[1..], at + |Wrap(bodies[0])|);
    }
  }
}
