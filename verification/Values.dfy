/** ipc::value: a tagged union, its encoding, and the in-place printer and parser. */
module Values {
  import opened Wire

  const TAG_NULL: u32 := 0
  const TAG_FLOAT: u32 := 1
  const TAG_DOUBLE: u32 := 2
  const TAG_INT32: u32 := 3
  const TAG_INT64: u32 := 4
  const TAG_UINT32: u32 := 5
  const TAG_UINT64: u32 := 6
  const TAG_STRING: u32 := 7
  const TAG_BINARY: u32 := 8

  predicate Narrow(tag: u32) { tag == TAG_FLOAT || tag == TAG_INT32 || tag == TAG_UINT32 }
  predicate Wide(tag: u32) { tag == TAG_DOUBLE || tag == TAG_INT64 || tag == TAG_UINT64 }
  predicate Blob(tag: u32) { tag == TAG_STRING || tag == TAG_BINARY }

  /** The fields of the C++ struct. word is the eight bytes of the union. */
  datatype Fields = Fields(tag: u32, word: u64, str: Bytes, bin: Bytes)

  /** What a value means: its tag and the bytes of its active payload. Numbers stay raw bits. */
  datatype Datum = Datum(tag: u32, payload: Bytes) {
    predicate Shaped() {
      if Narrow(tag) then |payload| == 4
      else if Wide(tag) then |payload| == 8
      else Blob(tag) || payload == []
    }

    /** The length of the payload can be stored in its 32-bit length field. */
    predicate Fits() {
      Blob(tag) ==> |payload| < P32
    }
  }

  function Meaning(v: Fields): (d: Datum)
    ensures d.Shaped()
  {
    if Narrow(v.tag) then Datum(v.tag, Put32(v.word))
    else if Wide(v.tag) then Datum(v.tag, Put64(v.word))
    else if v.tag == TAG_STRING then Datum(v.tag, v.str)
    else if v.tag == TAG_BINARY then Datum(v.tag, v.bin)
    else Datum(v.tag, [])
  }

  const BLANK := Fields(TAG_NULL, 0, [], [])

  function Text(s: Bytes): Datum { Datum(TAG_STRING, s) }
  function UInt64(n: u64): Datum { Datum(TAG_UINT64, Put64(n)) }

  /** The struct v after a parse stored d in it: inactive members keep their old bytes. */
  function Assign(v: Fields, d: Datum): Fields
    requires d.Shaped()
  {
    if Narrow(d.tag) then v.(tag := d.tag, word := v.word - v.word % P32 + Get32(d.payload))
    else if Wide(d.tag) then v.(tag := d.tag, word := Get64(d.payload))
    else if d.tag == TAG_STRING then v.(tag := d.tag, str := d.payload)
    else if d.tag == TAG_BINARY then v.(tag := d.tag, bin := d.payload)
    else v.(tag := d.tag)
  }

  lemma AssignMeaning(v: Fields, d: Datum)
    requires d.Shaped()
    ensures Meaning(Assign(v, d)) == d
  {
    if Narrow(d.tag) {
      Fixed32(0, d.payload);
      var n := Get32(d.payload);
      assert (v.word - v.word % P32 + n) % P32 == n;
      LowBits(v.word - v.word % P32 + n, n);
    } else if Wide(d.tag) {
      Fixed64(0, d.payload);
    }
  }

  lemma LowBits(a: nat, b: nat)
    requires a % P32 == b % P32
    ensures Put32(a) == Put32(b)
  {}

  function Encode(d: Datum): Bytes {
    Put32(d.tag) + (if Blob(d.tag) then Put32(|d.payload|) else []) + d.payload
  }

  /** What a parse of s at a position finds, and where it ends. The room checks are size_t
      differences, so a position beyond the end passes them unless the wrap is tiny. */
  function ParseValue(s: Bytes, at: nat): (r: Outcome<(Datum, nat)>)
    ensures r.Done? ==> r.value.0.Shaped() && at + 4 <= r.value.1 <= |s|
    ensures at <= |s| ==> r.Done? || r.Aborted?
  {
    if at > |s| then (if Sub64(|s|, at) < 4 then Aborted else OutOfBounds) else
    if |s| < at + 4 then Aborted else
    var tag := Get32(s[at..at + 4]);
    if Narrow(tag) then
      if |s| < at + 8 then Aborted else Done((Datum(tag, s[at + 4..at + 8]), at + 8))
    else if Wide(tag) then
      if |s| < at + 12 then Aborted else Done((Datum(tag, s[at + 4..at + 12]), at + 12))
    else if Blob(tag) then
      if |s| < at + 8 then Aborted else
      var n := Get32(s[at + 4..at + 8]);
      if |s| < at + 8 + n then Aborted else Done((Datum(tag, s[at + 8..at + 8 + n]), at + 8 + n))
    else Done((Datum(tag, []), at + 4))
  }

  // ----- the two inverse laws

  lemma ParseEncodeBlob(s: Bytes, at: nat, d: Datum)
    requires Blob(d.tag) && Has(s, at, Encode(d))
    ensures var n := |d.payload| % P32;
            ParseValue(s, at) == Done((Datum(d.tag, d.payload[..n]), at + 8 + n))
  {
    hide Put32, Get32;
    var size := Put32(|d.payload|);
    Fixed32(d.tag, []);
    Fixed32(|d.payload|, []);
    HasBoth(s, at, Put32(d.tag) + size, d.payload);
    HasBoth(s, at, Put32(d.tag), size);
    var n := |d.payload| % P32;
    assert s[at + 8..at + 8 + n] == s[at + 8..at + 8 + |d.payload|][..n];
  }

  lemma ParseEncodePlain(s: Bytes, at: nat, d: Datum)
    requires d.Shaped() && !Blob(d.tag) && Has(s, at, Encode(d))
    ensures ParseValue(s, at) == Done((d, at + |Encode(d)|))
  {
    hide Put32, Get32;
    Fixed32(d.tag, []);
    assert Encode(d) == Put32(d.tag) + d.payload;
    HasBoth(s, at, Put32(d.tag), d.payload);
  }

  /** Printing then parsing gives the value back, exactly when the length field can hold
      the payload's length. */
  lemma ParseEncode(s: Bytes, at: nat, d: Datum)
    requires d.Shaped() && Has(s, at, Encode(d))
    ensures ParseValue(s, at) == Done((d, at + |Encode(d)|)) <==> d.Fits()
  {
    hide ParseValue;
    if Blob(d.tag) {
      ParseEncodeBlob(s, at, d);
      var n := |d.payload| % P32;
      assert n < P32 && |d.payload[..n]| == n;
      assert d.Fits() ==> d.payload[..n] == d.payload;
    } else {
      ParseEncodePlain(s, at, d);
    }
  }

  /** Parsing then printing gives the consumed bytes back, whatever the tag. */
  lemma EncodeParse(s: Bytes, at: nat)
    requires ParseValue(s, at).Done?
    ensures var (d, end) := ParseValue(s, at).value; d.Fits() && Encode(d) == s[at..end]
  {
    hide Put32, Get32;
    var (d, end) := ParseValue(s, at).value;
    Fixed32(0, s[at..at + 4]);
    if Blob(d.tag) {
      Fixed32(0, s[at + 4..at + 8]);
      assert s[at..end] == s[at..at + 4] + s[at + 4..at + 8] + s[at + 8..end];
    } else {
      assert s[at..end] == s[at..at + 4] + s[at + 4..end];
    }
  }

  /** Beyond the end of the buffer the room check wraps, and all but the last three positions of the
      64-bit range are read from outside. */
  lemma ParsesBeyond(s: Bytes, at: nat)
    requires |s| < at < P64
    ensures ParseValue(s, at) == if P64 - (at - |s|) < 4 then Aborted else OutOfBounds
  {}

  /** Inside the buffer a parse accepts exactly what is the print of some value. */
  lemma ParsesExactly(s: Bytes, at: nat)
    requires at <= |s|
    ensures ParseValue(s, at).Done? <==> exists d: Datum :: d.Shaped() && d.Fits() && Has(s, at, Encode(d))
  {
    hide ParseValue, Encode;
    if ParseValue(s, at).Done? {
      EncodeParse(s, at);
      var (d, end) := ParseValue(s, at).value;
      assert d.Shaped() && d.Fits() && Has(s, at, Encode(d));
    }
    forall d: Datum | d.Shaped() && d.Fits() && Has(s, at, Encode(d))
      ensures ParseValue(s, at).Done?
    {
      ParseEncode(s, at, d);
    }
  }

  /** No encoding is a proper prefix of another one. */
  lemma PrefixFree(d: Datum, r: Bytes, d': Datum, r': Bytes)
    requires d.Shaped() && d.Fits() && d'.Shaped() && d'.Fits()
    requires Encode(d) + r == Encode(d') + r'
    ensures d == d' && r == r'
  {
    var s := Encode(d) + r;
    ParseEncode(s, 0, d);
    ParseEncode(s, 0, d');
    assert r == s[|Encode(d)|..] && r' == s[|Encode(d')|..];
  }

  // ----- the object

  class Value {
    var tag: u32
    var word: u64
    var str: Bytes
    var bin: Bytes

    function Now(): Fields
      reads this
    {
      Fields(tag, word, str, bin)
    }

    constructor ()
      ensures Now() == BLANK
    {
      tag, word, str, bin := TAG_NULL, 0, [], [];
    }

    constructor OfText(s: Bytes)
      ensures Now() == Fields(TAG_STRING, 0, s, [])
    {
      tag, word, str, bin := TAG_STRING, 0, s, [];
    }

    constructor OfUInt64(n: u64)
      ensures Now() == Fields(TAG_UINT64, n, [], [])
    {
      tag, word, str, bin := TAG_UINT64, n, [], [];
    }

    /** value::size: the length of the encoding. */
    method Size() returns (size: nat)
      ensures size == |Encode(Meaning(Now()))|
    {
      size := 4;
      if tag == TAG_INT32 || tag == TAG_UINT32 || tag == TAG_FLOAT {
        size := size + 4;
      } else if tag == TAG_INT64 || tag == TAG_UINT64 || tag == TAG_DOUBLE {
        size := size + 8;
      } else if tag == TAG_STRING {
        size := size + 4;
        size := size + |str|;
      } else if tag == TAG_BINARY {
        size := size + 4;
        size := size + |bin|;
      }
    }

    /** value::serialize: overwrites exactly the next Size() bytes, or writes nothing. */
    method Serialize(buf: array<byte>, offset: u64) returns (r: Outcome<nat>)
      requires buf.Length < P64
      modifies buf
      ensures (r, buf[..]) == Printed(old(buf[..]), offset, Encode(Meaning(Now())))
      ensures var e := Encode(Meaning(Now()));
              if offset + |e| <= buf.Length
              then r == Done(|e|) && buf[offset..offset + |e|] == e && buf[..offset] == old(buf[..offset]) &&
                   buf[offset + |e|..] == old(buf[offset + |e|..])
              else !r.Done? && buf[..] == old(buf[..])
    {
      var full := Size();
      ghost var d := Meaning(Now());
      if Sub64(buf.Length, offset) < full {
        return Thrown;
      }
      if offset > buf.Length {
        return OutOfBounds;
      }
      Room(buf.Length, offset, full);
      var n := Emit(buf, offset, d);
      return Done(n);
    }

    /** The part of value::serialize behind the size check. */
    method Emit(buf: array<byte>, offset: nat, ghost d: Datum) returns (n: nat)
      requires d == Meaning(Now())
      requires offset + |Encode(d)| <= buf.Length
      modifies buf
      ensures n == |Encode(d)| && buf[..] == Splice(old(buf[..]), offset, Encode(d))
    {
      hide Put32, Put64, Splice;
      ghost var was := buf[..];
      SpliceNothing(was, offset);
      var noffset := offset;
      Append(buf, offset, was, [], Put32(tag), noffset);
      noffset := noffset + 4;
      ghost var head := [] + Put32(tag);
      assert head == Put32(tag);
      if Narrow(tag) {
        Append(buf, offset, was, head, Put32(word), noffset);
        noffset := noffset + 4;
        assert Encode(d) == head + Put32(word);
      } else if Wide(tag) {
        Append(buf, offset, was, head, Put64(word), noffset);
        noffset := noffset + 8;
        assert Encode(d) == head + Put64(word);
      } else if Blob(tag) {
        var bytes := if tag == TAG_STRING then str else bin;
        assert d == Datum(tag, bytes);
        Append(buf, offset, was, head, Put32(|bytes|), noffset);
        noffset := noffset + 4;
        head := head + Put32(|bytes|);
        if |bytes| > 0 {
          Append(buf, offset, was, head, bytes, noffset);
        } else {
          assert head + bytes == head;
        }
        assert Encode(d) == head + bytes;
        noffset := noffset + |bytes|;
      } else {
        assert Encode(d) == head;
      }
      n := noffset - offset;
    }

    /** value::deserialize: what it accepts, where it aborts and what it leaves in each field. */
    method Deserialize(buf: array<byte>, offset: u64) returns (r: Outcome<nat>)
      requires buf.Length < P64
      modifies this
      ensures r == Taken(ParseValue(buf[..], offset), offset)
      ensures r.Done? ==> Now() == Assign(old(Now()), ParseValue(buf[..], offset).value.0)
      ensures r.Done? ==> Meaning(Now()) == ParseValue(buf[..], offset).value.0 && offset + r.value <= buf.Length
      ensures r.Done? ==> (tag != TAG_STRING ==> str == old(str)) && (tag != TAG_BINARY ==> bin == old(bin))
      ensures r.Done? && !Narrow(tag) && !Wide(tag) ==> word == old(word)
    {
      hide Get32, Get64, Meaning;
      ghost var before := Now();
      if Sub64(buf.Length, offset) < 4 {
        return Aborted;
      }
      if offset > buf.Length {
        return OutOfBounds;
      }
      tag := Get32(buf[..][offset..offset + 4]);
      var noffset := offset + 4;
      if Narrow(tag) {
        if Sub64(buf.Length, noffset) < 4 {
          return Aborted;
        }
        word := word - word % P32 + Get32(buf[..][noffset..noffset + 4]);
        noffset := noffset + 4;
      } else if Wide(tag) {
        if Sub64(buf.Length, noffset) < 8 {
          return Aborted;
        }
        word := Get64(buf[..][noffset..noffset + 8]);
        noffset := noffset + 8;
      } else if Blob(tag) {
        var payload :- TakeBlob(buf, noffset);
        if tag == TAG_STRING {
          str := payload;
        } else {
          bin := payload;
        }
        noffset := noffset + 4 + |payload|;
      }
      AssignMeaning(before, ParseValue(buf[..], offset).value.0);
      return Done(noffset - offset);
    }
  }

  /** The length and the bytes of a string or blob. */
  method TakeBlob(buf: array<byte>, at: nat) returns (r: Outcome<Bytes>)
    requires at <= buf.Length < P64
    ensures var s := buf[..];
            r == if |s| < at + 4 then Aborted else
                 var n := Get32(s[at..at + 4]);
                 if |s| < at + 4 + n then Aborted else Done(s[at + 4..at + 4 + n])
  {
    hide Get32;
    if Sub64(buf.Length, at) < 4 {
      return Aborted;
    }
    var length := Get32(buf[..][at..at + 4]);
    if Sub64(buf.Length, at + 4) < length {
      return Aborted;
    }
    return Done(buf[..][at + 4..at + 4 + length]);
  }
}
