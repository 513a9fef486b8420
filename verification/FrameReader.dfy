/** The reading half of a Windows connection: a header read and a body read take turns on one
    re-armed operation and one resized buffer. Server and client both work this way. */
module FrameReader {
  import opened Wire
  import opened Frames
  import opened AsyncOps

  datatype Callback = ReadInit | ReadMsg | WriteDone

  datatype Reader = Reader(op: Option<Op<Callback>>, buf: Bytes)

  /** std::vector<char>::resize. */
  function Resized(buf: Bytes, n: nat): (r: Bytes)
    ensures |r| == n && forall i :: 0 <= i < n ==> r[i] == if i < |buf| then buf[i] else 0
  {
    if n <= |buf| then buf[..n] else buf + seq(n - |buf|, _ => 0)
  }

  predicate Armable(r: Reader) { r.op.None? || !r.op.value.valid }

  function ArmHeader(r: Reader): Reader {
    Reader(Some(Arm(r.op, Some(ReadInit))), Resized(r.buf, HEADER))
  }

  /** The system fills the buffer of a read in flight. */
  predicate CanFill(r: Reader, wire: Bytes) {
    r.op.Some? && Locked(r.op.value) && |r.buf| <= |wire|
  }

  function Fill(r: Reader, wire: Bytes): (Reader, Bytes)
    requires CanFill(r, wire)
  {
    (Reader(Some(r.op.value.(completed := true, signalled := true)), wire[..|r.buf|]), wire[|r.buf|..])
  }

  /** read_callback_init on a header that arrived. */
  function OnHeader(r: Reader, connected: bool): Reader
    requires r.op.Some? && |r.buf| >= HEADER
  {
    var op := Invalidated(r.op.value);
    var n := ReadSize(r.buf);
    if n == 0 then r.(op := Some(op))
    else if connected then Reader(Some(Arm(Some(op), Some(ReadMsg))), Resized(r.buf, n))
    else Reader(Some(op), Resized(r.buf, n))
  }

  // ----- phases

  predicate Idle(r: Reader) {
    r.op.None? || (!r.op.value.valid && !r.op.value.signalled)
  }

  predicate InHeader(r: Reader) {
    r.op.Some? && var op := r.op.value;
    op.valid && op.callback == Some(ReadInit) && !op.called && op.completed == op.signalled && |r.buf| == HEADER
  }

  predicate InBody(r: Reader) {
    r.op.Some? && var op := r.op.value;
    op.valid && op.callback == Some(ReadMsg) && !op.called && op.completed == op.signalled
  }

  /** The body was read and its callback ran, but the operation was left valid. */
  predicate Handled(r: Reader) {
    r.op.Some? && var op := r.op.value;
    op.valid && op.callback == Some(ReadMsg) && op.called && op.completed && !op.signalled
  }

  /** Where the bodies still to be delivered are: in the buffer, split, or on the wire. */
  ghost predicate Aligned(r: Reader, wire: Bytes, pending: seq<Bytes>) {
    && (forall b <- pending :: Frameable(b))
    && (Idle(r) || Handled(r) || InHeader(r) || InBody(r))
    && if InHeader(r) && r.op.value.completed then
         pending != [] && r.buf == Header(|pending[0]|) && wire == pending[0] + Flatten(pending[1..])
       else if InBody(r) then
         pending != [] && (if r.op.value.completed
                           then r.buf == pending[0] && wire == Flatten(pending[1..])
                           else |r.buf| == |pending[0]| && wire == pending[0] + Flatten(pending[1..]))
       else wire == Flatten(pending)
  }

  lemma ArmAligned(r: Reader, wire: Bytes, pending: seq<Bytes>)
    requires Aligned(r, wire, pending) && Idle(r)
    ensures Aligned(ArmHeader(r), wire, pending) && InHeader(ArmHeader(r))
  {}

  lemma FillAligned(r: Reader, wire: Bytes, pending: seq<Bytes>)
    requires Aligned(r, wire, pending) && CanFill(r, wire)
    ensures var (r', wire') := Fill(r, wire);
            Aligned(r', wire', pending) && InHeader(r') == InHeader(r) && InBody(r') == InBody(r) &&
            r'.op.value.completed && r'.op.value.signalled && !Idle(r) && !Handled(r)
  {
    hide Frameable;
    if InHeader(r) {
      assert pending != [];
      HeaderOfWrap(pending[0]);
      assert wire == Wrap(pending[0]) + Flatten(pending[1..]);
      assert wire[..HEADER] == Header(|pending[0]|);
      assert wire[HEADER..] == pending[0] + Flatten(pending[1..]);
    }
  }

  /** A delivered header arms the read of the body it announces. */
  lemma HeaderAligned(r: Reader, wire: Bytes, pending: seq<Bytes>)
    requires Aligned(r, wire, pending) && InHeader(r) && r.op.value.signalled
    ensures var (op, c) := Deliver(r.op.value); var r' := OnHeader(r.(op := Some(op)), true);
            c == Some(ReadInit) && Aligned(r', wire, pending) && InBody(r') && !r'.op.value.completed
  {
    HeaderOfWrap(pending[0]);
    assert pending[0] in pending;
  }

  /** Delivering a body takes it off the pending list. */
  lemma BodyAligned(r: Reader, wire: Bytes, pending: seq<Bytes>)
    requires Aligned(r, wire, pending) && InBody(r) && r.op.value.signalled
    ensures var (op, c) := Deliver(r.op.value); var r' := r.(op := Some(op));
            c == Some(ReadMsg) && pending != [] && r.buf == pending[0] &&
            Handled(r') && Aligned(r', wire, pending[1..])
  {
    assert forall b <- pending[1..] :: b in pending;
  }

  /** Giving a handled operation up leaves the reader idle. */
  lemma RevokeAligned(r: Reader, wire: Bytes, pending: seq<Bytes>)
    requires Aligned(r, wire, pending) && Handled(r)
    ensures var r' := r.(op := Some(Invalidated(r.op.value)));
            Idle(r') && Aligned(r', wire, pending)
  {}

  /** A peer that writes another frame only extends the wire. */
  lemma WrittenAligned(r: Reader, wire: Bytes, pending: seq<Bytes>, body: Bytes)
    requires Aligned(r, wire, pending) && Frameable(body)
    ensures Aligned(r, wire + Wrap(body), pending + [body])
  {
    hide Frameable, Wrap;
    FlattenAppend(pending, body);
    assert forall b <- pending + [body] :: Frameable(b);
    if pending != [] {
      TailAppend(pending, body);
      var rest := Flatten(pending[1..]);
      assert pending[0] + rest + Wrap(body) == pending[0] + (rest + Wrap(body));
    }
    hide Flatten;
  }

  lemma TailAppend(pending: seq<Bytes>, body: Bytes)
    requires pending != []
    ensures (pending + [body])[0] == pending[0]
    ensures Flatten((pending + [body])[1..]) == Flatten(pending[1..]) + Wrap(body)
  {
    FlattenAppend(pending[1..], body);
    assert (pending + [body])[1..] == pending[1..] + [body];
  }
}
