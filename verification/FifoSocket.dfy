/** The macOS pipe socket: a frame is written in chunks and its body is put together again. */
module FifoSocket {
  import opened Wire
  import opened Frames

  const CHUNK := 8192

  function Concat(cs: seq<Bytes>): Bytes {
    if cs == [] then [] else cs[0] + Concat(cs[1..])
  }

  /** The pieces write hands to the pipe. */
  function Chunks(s: Bytes): (cs: seq<Bytes>)
    ensures cs != []
    decreases |s|
  {
    if |s| <= CHUNK then [s] else [s[..CHUNK]] + Chunks(s[CHUNK..])
  }

  /** What is left in the pipe once the header was read off the first chunk. */
  function Rest(frame: Bytes): seq<Bytes>
    requires |frame| > HEADER
  {
    var cs := Chunks(frame);
    [if |cs[0]| >= HEADER then cs[0][HEADER..] else []] + cs[1..]
  }

  /** The pieces make up the frame. */
  lemma {:induction false} ChunksConcat(s: Bytes)
    ensures Concat(Chunks(s)) == s
    decreases |s|
  {
    if |s| <= CHUNK {
      assert Concat([s]) == s + Concat([s][1..]) == s;
    } else {
      ChunksConcat(s[CHUNK..]);
      assert Chunks(s)[1..] == Chunks(s[CHUNK..]);
    }
  }

  /** All pieces but the last are full. */
  lemma {:induction false} ChunkSizes(s: Bytes)
    ensures var cs := Chunks(s); var last := |cs| - 1;
            (forall i :: 0 <= i < last ==> |cs[i]| == 8192) &&
            |cs[last]| == (if s == [] then 0 else (|s| - 1) % 8192 + 1) &&
            |cs| == (if s == [] then 1 else (|s| - 1) / 8192 + 1)
    decreases |s|
  {
    if |s| > CHUNK {
      ChunkSizes(s[CHUNK..]);
    }
  }

  function Remaining(s: Bytes, at: nat): seq<Bytes>
    requires at <= |s|
  {
    if at < |s| then Chunks(s[at..]) else []
  }

  lemma RemainingStep(s: Bytes, at: nat, n: nat)
    requires at < |s| && n == (if |s| - at <= CHUNK then |s| - at else CHUNK)
    ensures Remaining(s, at) == [s[at..at + n]] + Remaining(s, at + n)
  {
    if |s| - at <= CHUNK {
      assert s[at..] == s[at..at + n];
    } else {
      assert s[at..][CHUNK..] == s[at + n..];
      assert s[at..][..CHUNK] == s[at..at + n];
    }
  }

  datatype Code = Success | Error

  /** One round of the write loop takes the next piece off what remains. */
  lemma WriteStep(buffer: Bytes, pieces: seq<Bytes>, at: nat, n: nat)
    requires at < |buffer| && n == (if |buffer| - at <= CHUNK then |buffer| - at else CHUNK)
    requires pieces + Remaining(buffer, at) == Chunks(buffer)
    ensures pieces < Chunks(buffer)
    ensures pieces + [buffer[at..at + n]] + Remaining(buffer, at + n) == Chunks(buffer)
  {
    hide Chunks, Remaining;
    RemainingStep(buffer, at, n);
    var rest := Remaining(buffer, at + n);
    assert pieces + [buffer[at..at + n]] + rest == pieces + ([buffer[at..at + n]] + rest);
  }

  /** socket_osx::write. isOpen tells whether the pipe could be opened and accepted[i] whether
      the i-th write to it succeeded. */
  method Write(buffer: Bytes, isOpen: bool, accepted: seq<bool>) returns (err: Code, pieces: seq<Bytes>)
    requires |buffer| < 0x8000_0000 && |Chunks(buffer)| <= |accepted|
    ensures err.Success? <==> (isOpen && forall i :: 0 <= i < |Chunks(buffer)| ==> accepted[i])
    ensures err.Success? ==> pieces == Chunks(buffer)
    ensures err.Error? ==> pieces < Chunks(buffer)
  {
    pieces := [];
    if !isOpen {
      return Error, pieces;
    }
    if |buffer| <= CHUNK {
      if !accepted[0] {
        return Error, pieces;
      }
      pieces := [buffer];
      return Success, pieces;
    }
    var sizeWrote := 0;
    assert buffer[0..] == buffer;
    assert pieces + Remaining(buffer, 0) == Chunks(buffer);
    hide Chunks, Remaining;
    while sizeWrote < |buffer|
      invariant 0 <= sizeWrote <= |buffer|
      invariant pieces + Remaining(buffer, sizeWrote) == Chunks(buffer)
      invariant forall i :: 0 <= i < |pieces| ==> accepted[i]
    {
      var end := |buffer| - sizeWrote <= CHUNK;
      var sizeToWrite := if end then |buffer| - sizeWrote else CHUNK;
      WriteStep(buffer, pieces, sizeWrote, sizeToWrite);
      if !accepted[|pieces|] {
        return Error, pieces;
      }
      pieces := pieces + [buffer[sizeWrote..sizeWrote + sizeToWrite]];
      sizeWrote := sizeWrote + sizeToWrite;
    }
    assert pieces == Chunks(buffer) by { NothingRemains(buffer); }
    err := Success;
  }

  lemma NothingRemains(s: Bytes)
    ensures Remaining(s, |s|) == []
  {}

  // ----- reassembly

  /** The sizes after which the read loop expects another chunk. */
  predicate Continues(n: int) { n == CHUNK - 8 || n == CHUNK }

  /** The lengths of frames whose body the read loop can finish. */
  predicate Finishable(length: nat) {
    length < CHUNK || (length % CHUNK != 0 && length % CHUNK != CHUNK - 8)
  }

  function Count(script: seq<bool>): nat {
    if script == [] then 0 else Count(script[..|script| - 1]) + (if script[|script| - 1] then 1 else 0)
  }

  lemma {:induction false} CountGrows(script: seq<bool>, i: nat)
    requires i <= |script|
    ensures Count(script[..i]) <= Count(script)
    decreases |script| - i
  {
    if i < |script| {
      CountGrows(script, i + 1);
      assert script[..i + 1][..i] == script[..i];
    } else {
      assert script[..i] == script;
    }
  }

  lemma {:induction false} ConcatTake(cs: seq<Bytes>, n: nat)
    requires n < |cs|
    ensures Concat(cs[..n + 1]) == Concat(cs[..n]) + cs[n]
    ensures |Concat(cs[..n + 1])| <= |Concat(cs)|
    decreases |cs|
  {
    if n == 0 {
      assert cs[..1] == [cs[0]];
      assert cs[..1][1..] == cs[..0];
    } else {
      ConcatTake(cs[1..], n - 1);
      assert cs[..n + 1][1..] == cs[1..][..n] && cs[..n][1..] == cs[1..][..n - 1];
    }
  }

  lemma LastSize(length: nat)
    requires length > CHUNK
    ensures Continues((length - 1) % CHUNK + 1) <==> !Finishable(length)
  {}

  lemma FirstChunk(frame: Bytes)
    requires |frame| > HEADER
    ensures |Chunks(frame)[0]| == if |frame| <= CHUNK then |frame| else CHUNK
  {}

  lemma RestConcat(frame: Bytes)
    requires |frame| > HEADER
    ensures Concat(Rest(frame)) == frame[HEADER..]
  {
    ChunksConcat(frame);
    FirstChunk(frame);
    hide Chunks;
    var cs := Chunks(frame);
    assert Rest(frame)[1..] == cs[1..];
    assert (cs[0] + Concat(cs[1..]))[HEADER..] == cs[0][HEADER..] + Concat(cs[1..]);
  }

  /** Every chunk but the last keeps the loop going, and the last one does so exactly when the
      length of the frame is not finishable. */
  lemma RestSizes(frame: Bytes)
    requires |frame| > HEADER
    ensures var cs := Rest(frame); var last := |cs| - 1;
            Concat(cs) == frame[HEADER..] &&
            (forall i :: 0 <= i < |cs| ==> 0 < |cs[i]| <= CHUNK) &&
            (forall i :: 0 <= i < last ==> Continues(|cs[i]|)) &&
            (Continues(|cs[last]|) <==> !Finishable(|frame|))
  {
    RestConcat(frame);
    ChunkSizes(frame);
    FirstChunk(frame);
    hide Chunks, Concat, Finishable;
    if |frame| > CHUNK {
      LastSize(|frame|);
    } else {
      assert Continues(|frame| - HEADER) <==> !Finishable(|frame|) by { ShortFrame(|frame|); }
    }
  }

  lemma ShortFrame(length: nat)
    requires HEADER < length <= CHUNK
    ensures Continues(length - HEADER) <==> !Finishable(length)
  {}

  // ----- the read loop, over whatever is written to the pipe

  function Min(a: nat, b: nat): nat { if a < b then a else b }

  /** The loop that begins with the first of these writes ends behind the k-th. */
  predicate StopsAt(cs: seq<Bytes>, k: int) {
    0 <= k < |cs| && !Continues(|cs[k]|) && forall i :: 0 <= i < k ==> Continues(|cs[i]|)
  }

  /** all was stored from the begin of the buffer s on; past is what landed behind its end. */
  predicate Landed(s: Bytes, past: Bytes, all: Bytes) {
    var n := Min(|all|, |s|);
    s[..n] == all[..n] && past == all[n..]
  }

  /** After i reads: which writes were taken, and what the last read returned. */
  ghost predicate Progress(s: Bytes, past: Bytes, chunks: seq<Bytes>, script: seq<bool>, i: nat, taken: nat,
                           offset: nat, ret: int)
    requires i <= |script|
  {
    && taken == Min(Count(script[..i]), |chunks|)
    && offset == |Concat(chunks[..taken])| && Landed(s, past, Concat(chunks[..taken]))
    && (ret < 0 || (taken > 0 && ret == |chunks[taken - 1]|))
    && (forall k :: 0 <= k < taken - 1 ==> Continues(|chunks[k]|))
    && (ret < 0 && taken > 0 ==> Continues(|chunks[taken - 1]|))
  }

  /** memcpy to offset at: what lies behind the end of the buffer is reported. */
  method Copy(buffer: array<byte>, past: Bytes, at: nat, p: Bytes, ghost all: Bytes) returns (past': Bytes)
    requires at == |all| && Landed(buffer[..], past, all)
    modifies buffer
    ensures Landed(buffer[..], past', all + p)
  {
    var room := if at <= buffer.Length then buffer.Length - at else 0;
    var n := Min(room, |p|);
    if n > 0 {
      Store(buffer, at, p[..n]);
      assert buffer[..at + n] == all + p[..n];
    }
    past' := past + p[n..];
    CopyLanded(buffer[..], past, all, p, n);
  }

  lemma CopyLanded(s: Bytes, past: Bytes, all: Bytes, p: Bytes, n: nat)
    requires n == Min(if |all| <= |s| then |s| - |all| else 0, |p|)
    requires past == all[Min(|all|, |s|)..]
    requires if n > 0 then s[..|all| + n] == all + p[..n] else s[..Min(|all|, |s|)] == all[..Min(|all|, |s|)]
    ensures Landed(s, past + p[n..], all + p)
  {
    var m := Min(|all + p|, |s|);
    if n > 0 {
      assert m == |all| + n && (all + p)[..m] == all + p[..n];
      assert past == [];
    } else {
      assert m == Min(|all|, |s|) && (all + p)[..m] == all[..m] && p[0..] == p;
    }
  }

  /** Writes that one read of the system can return whole. */
  predicate Pieces(cs: seq<Bytes>) { forall k :: 0 <= k < |cs| ==> 0 < |cs[k]| <= CHUNK }

  /** One read: the system has no data, or gives the oldest write. */
  method ReadChunk(buffer: array<byte>, past: Bytes, ghost chunks: seq<Bytes>, pending: seq<Bytes>, script: seq<bool>,
                   i: nat, ghost taken: nat, at: nat, ghost ret: int)
    returns (n: int, rest: seq<Bytes>, past': Bytes, ghost taken': nat)
    requires i < |script| && taken <= |chunks| && pending == chunks[taken..]
    requires Progress(buffer[..], past, chunks, script, i, taken, at, ret)
    requires Pieces(chunks) && (ret < 0 || Continues(ret))
    modifies buffer
    ensures taken' <= |chunks| && rest == chunks[taken'..]
    ensures n == -1 || (taken' > 0 && n == |chunks[taken' - 1]|)
    ensures Progress(buffer[..], past', chunks, script, i + 1, taken', at + (if n > 0 then n else 0), n)
  {
    hide Concat, Landed;
    assert script[..i + 1][..i] == script[..i];
    rest, past', taken' := pending, past, taken;
    if script[i] && pending != [] {
      n := |pending[0]|;
      ConcatTake(chunks, taken);
      past' := Copy(buffer, past, at, pending[0], Concat(chunks[..taken]));
      rest, taken' := pending[1..], taken + 1;
    } else {
      n := -1;
    }
  }

  /** How the loops end: done exactly if one of the writes ends them and enough reads find data. */
  ghost predicate Result(s: Bytes, past: Bytes, chunks: seq<Bytes>, script: seq<bool>, taken: nat, offset: nat,
                         done: bool) {
    && taken <= |chunks| && Landed(s, past, Concat(chunks[..taken])) && offset == |Concat(chunks[..taken])|
    && (done <==> exists k :: StopsAt(chunks, k) && k < Count(script))
    && (done ==> StopsAt(chunks, taken - 1))
  }

  /** The loop stops behind the first write that asks for no more. */
  lemma Stopped(s: Bytes, past: Bytes, chunks: seq<Bytes>, script: seq<bool>, i: nat, taken: nat, offset: nat, ret: int)
    requires i <= |script| && taken <= |chunks|
    requires Progress(s, past, chunks, script, i, taken, offset, ret) && ret > 0 && !Continues(ret)
    ensures Result(s, past, chunks, script, taken, offset, true)
  {
    hide Concat, Landed;
    CountGrows(script, i);
    assert StopsAt(chunks, taken - 1);
  }

  /** If the script ends first, no write that would end the loop was there for it. */
  lemma Starved(s: Bytes, past: Bytes, chunks: seq<Bytes>, script: seq<bool>, taken: nat, offset: nat, ret: int)
    requires taken <= |chunks| && Progress(s, past, chunks, script, |script|, taken, offset, ret)
    requires ret < 0 || Continues(ret)
    ensures Result(s, past, chunks, script, taken, offset, false)
  {
    hide Concat, Continues, Landed;
    assert script[..|script|] == script;
    assert forall k :: 0 <= k < taken ==> Continues(|chunks[k]|);
  }

  /** The inner loop: reads on while the last read was a full chunk or found no data. Without an
      end the script is used up. */
  method ReadOn(buffer: array<byte>, before: Bytes, ghost chunks: seq<Bytes>, pending: seq<Bytes>, script: seq<bool>,
                i: nat, ghost taken: nat, at: nat, last: int)
    returns (ret: int, offset: nat, j: nat, rest: seq<Bytes>, past: Bytes, ghost taken': nat)
    requires 0 < i <= |script| && last != 0 && taken <= |chunks| && pending == chunks[taken..]
    requires Progress(buffer[..], before, chunks, script, i, taken, at, last)
    requires Pieces(chunks)
    modifies buffer
    ensures 0 < j <= |script| && taken' <= |chunks| && rest == chunks[taken'..] && ret != 0
    ensures Progress(buffer[..], past, chunks, script, j, taken', offset, ret)
    ensures ret < 0 || Continues(ret) ==> j == |script|
  {
    hide Progress;
    ret, offset, j, rest, past, taken' := last, at, i, pending, before, taken;
    while ret != 0 && (ret == CHUNK - 8 || ret == CHUNK || ret < 0)
      invariant 0 < j <= |script| && ret != 0
      invariant taken' <= |chunks| && rest == chunks[taken'..]
      invariant Progress(buffer[..], past, chunks, script, j, taken', offset, ret)
      decreases |script| - j
    {
      if j == |script| {
        return;
      }
      ret, rest, past, taken' := ReadChunk(buffer, past, chunks, rest, script, j, taken', offset, ret);
      j := j + 1;
      if ret > 0 {
        offset := offset + ret;
      }
    }
  }

  lemma Untouched(s: Bytes, chunks: seq<Bytes>, script: seq<bool>)
    ensures Progress(s, [], chunks, script, 0, 0, 0, -1)
  {
    assert chunks[..0] == [];
  }

  /** The loops of socket_osx::read. chunks are all the writes that will arrive, none above what one
      read asks for, as socket_osx::write makes them; at each read the system has no data, or gives
      the oldest one, and script says which. done is false when the script ends first. past is what
      was stored behind the end of the buffer. */
  method ReadLoop(buffer: array<byte>, chunks: seq<Bytes>, script: seq<bool>)
    returns (done: bool, offset: nat, past: Bytes, ghost taken: nat)
    requires Pieces(chunks) && (chunks != [] ==> |chunks[0]| <= buffer.Length)
    modifies buffer
    ensures Result(buffer[..], past, chunks, script, taken, offset, done)
  {
    hide Progress, Result;
    Untouched(buffer[..], chunks, script);
    taken := 0;
    past := [];
    var pending := chunks;
    var i := 0;
    var ret := 0;
    offset := 0;
    while ret <= 0
      invariant ret == 0 ==> i == 0 && offset == 0 && taken == 0 && pending == chunks && past == []
      invariant ret != 0 ==> ret > 0 && !Continues(ret)
      invariant i <= |script| && taken <= |chunks|
      invariant Progress(buffer[..], past, chunks, script, i, taken, offset, if ret == 0 then -1 else ret)
      decreases ret <= 0
    {
      if i == |script| {
        Starved(buffer[..], past, chunks, script, taken, offset, -1);
        return false, offset, past, taken;
      }
      ret, pending, past, taken := ReadChunk(buffer, past, chunks, pending, script, i, taken, 0, -1);
      i := i + 1;
      if ret > 0 {
        offset := offset + ret;
      }
      ret, offset, i, pending, past, taken := ReadOn(buffer, past, chunks, pending, script, i, taken, offset, ret);
      if ret == CHUNK - 8 || ret == CHUNK || ret < 0 {
        Starved(buffer[..], past, chunks, script, taken, offset, ret);
        return false, offset, past, taken;
      }
    }
    Stopped(buffer[..], past, chunks, script, i, taken, offset, ret);
    done := true;
  }

  // ----- a body, and what is written behind its frame

  /** The last piece of a write call of this length keeps the loop going. */
  predicate GoesOn(length: nat) { length > 0 && Continues((length - 1) % CHUNK + 1) }

  lemma {:induction false} ConcatBoth(cs: seq<Bytes>, ds: seq<Bytes>)
    ensures Concat(cs + ds) == Concat(cs) + Concat(ds)
  {
    if cs == [] {
      assert cs + ds == ds;
    } else {
      ConcatBoth(cs[1..], ds);
      assert (cs + ds)[1..] == cs[1..] + ds;
      assert cs[0] + (Concat(cs[1..]) + Concat(ds)) == cs[0] + Concat(cs[1..]) + Concat(ds);
    }
  }

  /** The loop that begins with the rest of a frame ends behind it exactly if the framed length is
      finishable; otherwise it ends where a loop over the later writes would. */
  lemma EndOfFrame(frame: Bytes, later: seq<Bytes>, k: int)
    requires |frame| > HEADER
    ensures Finishable(|frame|) <==> |frame| < 8192 || (|frame| % 8192 != 0 && |frame| % 8192 != 8184)
    ensures var n := |Rest(frame)|;
            StopsAt(Rest(frame) + later, k) <==>
              if Finishable(|frame|) then k == n - 1 else k >= n && StopsAt(later, k - n)
  {
    RestSizes(frame);
    hide Rest, Concat, Finishable;
    var cs, n := Rest(frame), |Rest(frame)|;
    assert (cs + later)[n - 1] == cs[n - 1];
    assert forall i :: 0 <= i < |later| ==> (cs + later)[n + i] == later[i];
    if StopsAt(cs + later, k) && k >= n && !Finishable(|frame|) {
      assert forall i :: 0 <= i < k - n ==> (cs + later)[n + i] == later[i] && Continues(|later[i]|);
    }
  }

  /** A write call behind an unfinished body is taken whole, and ends the loop unless its last
      piece is one that goes on. */
  lemma EndOfCall(s: Bytes, later: seq<Bytes>, k: int)
    requires s != []
    ensures var n := |Chunks(s)|;
            StopsAt(Chunks(s) + later, k) <==> if GoesOn(|s|) then k >= n && StopsAt(later, k - n) else k == n - 1
  {
    ChunkSizes(s);
    hide Chunks;
    var cs, n := Chunks(s), |Chunks(s)|;
    assert (cs + later)[n - 1] == cs[n - 1];
    assert forall i :: 0 <= i < |later| ==> (cs + later)[n + i] == later[i];
    if StopsAt(cs + later, k) && k >= n {
      assert forall i :: 0 <= i < k - n ==> (cs + later)[n + i] == later[i] && Continues(|later[i]|);
    }
  }

  /** What the taken writes leave in a buffer of the body's size. */
  lemma BodyLanded(s: Bytes, past: Bytes, frame: Bytes, later: seq<Bytes>, taken: nat)
    requires |frame| == HEADER + |s| && |s| > 0 && taken <= |Rest(frame) + later|
    requires Landed(s, past, Concat((Rest(frame) + later)[..taken])) && StopsAt(Rest(frame) + later, taken - 1)
    ensures s == frame[HEADER..] && |Rest(frame)| <= taken && past == Concat(later[..taken - |Rest(frame)|])
    ensures Finishable(|frame|) ==> past == []
  {
    EndOfFrame(frame, later, taken - 1);
    RestConcat(frame);
    hide Rest, Concat, StopsAt, Finishable;
    var cs, n := Rest(frame), |Rest(frame)|;
    assert (cs + later)[..taken] == cs + later[..taken - n];
    ConcatBoth(cs, later[..taken - n]);
    if Finishable(|frame|) {
      assert later[..taken - n] == [];
      assert past == [] by { ConcatNothing(); }
    }
  }

  lemma ConcatNothing()
    ensures Concat([]) == []
  {}

  lemma ConcatSome(cs: seq<Bytes>)
    requires cs != [] && cs[0] != []
    ensures Concat(cs) != []
  {}

  /** The body part of socket_osx::read, with anything written behind the frame. If it ends, the
      buffer is the body; and something was stored behind the end of the buffer exactly if the
      framed length is not finishable. */
  method ReadBody(buffer: array<byte>, ghost frame: Bytes, ghost later: seq<Bytes>, chunks: seq<Bytes>,
                  script: seq<bool>)
    returns (done: bool, offset: nat, past: Bytes)
    requires |frame| == HEADER + buffer.Length && buffer.Length > 0 && chunks == Rest(frame) + later
    requires Pieces(later)
    modifies buffer
    ensures done <==> exists k :: StopsAt(chunks, k) && k < Count(script)
    ensures Finishable(|frame|) ==> (done <==> Count(script) >= |Rest(frame)|)
    ensures done ==> buffer[..] == frame[HEADER..] && offset == buffer.Length + |past|
    ensures done ==> (past != [] <==> !Finishable(|frame|))
    ensures done ==> exists n :: 0 <= n <= |later| && past == Concat(later[..n]) && (n > 0 ==> StopsAt(later, n - 1))
    ensures !done ==> exists n :: 0 <= n <= |chunks| && Landed(buffer[..], past, Concat(chunks[..n]))
  {
    RestSizes(frame);
    assert |Rest(frame)[0]| <= buffer.Length by { FirstChunk(frame); }
    hide Rest, Concat, Landed, StopsAt, Finishable, Count;
    assert Pieces(chunks);
    ghost var taken;
    done, offset, past, taken := ReadLoop(buffer, chunks, script);
    ghost var n := |Rest(frame)|;
    forall k: int
      ensures StopsAt(chunks, k) <==> if Finishable(|frame|) then k == n - 1 else k >= n && StopsAt(later, k - n)
    {
      EndOfFrame(frame, later, k);
    }
    assert Finishable(|frame|) ==> StopsAt(chunks, n - 1);
    if done {
      BodyLanded(buffer[..], past, frame, later, taken);
      LandedSize(buffer[..], past, Concat(chunks[..taken]));
      if !Finishable(|frame|) {
        assert later[..taken - n][0] == later[0];
        ConcatSome(later[..taken - n]);
      }
    }
  }

  lemma LandedSize(s: Bytes, past: Bytes, all: Bytes)
    requires Landed(s, past, all) && |s| <= |all|
    ensures |all| == |s| + |past|
  {}
}
