/** The bytes on the wire, spelled out: which number stands for which type, in which order the
    fields come, and which byte of a number comes first. */
module WireFormat {
  import opened Wire
  import opened Values
  import opened Messages
  import opened MessageObjects
  import opened Frames
  import opened Dispatch

  function B4(n: nat): (b: Bytes)
    requires n < 0x1_0000_0000
    ensures |b| == 4
  {
    [n % 256, n / 0x100 % 256, n / 0x1_0000 % 256, n / 0x100_0000 % 256]
  }

  function B8(n: nat): (b: Bytes)
    requires n < 0x1_0000_0000_0000_0000
    ensures |b| == 8
  {
    [n % 256, n / 0x100 % 256, n / 0x1_0000 % 256, n / 0x100_0000 % 256, n / 0x1_0000_0000 % 256,
     n / 0x100_0000_0000 % 256, n / 0x1_0000_0000_0000 % 256, n / 0x100_0000_0000_0000 % 256]
  }

  lemma LowFirst(n: nat, k: nat)
    requires k > 0
    ensures LE(n, k) == [n % 256] + LE(n / 256, k - 1)
  {}

  lemma Four(n: nat)
    ensures LE(n, 4) == [n % 256, n / 0x100 % 256, n / 0x1_0000 % 256, n / 0x100_0000 % 256]
  {
    hide LE;
    LowFirst(n, 4);
    LowFirst(n / 256, 3);
    LowFirst(n / 256 / 256, 2);
    LowFirst(n / 256 / 256 / 256, 1);
    assert LE(n / 256 / 256 / 256 / 256, 0) == [] by { Nothing(n / 256 / 256 / 256 / 256); }
    assert n / 256 / 256 == n / 0x1_0000 && n / 256 / 256 / 256 == n / 0x100_0000;
  }

  lemma Nothing(n: nat)
    ensures LE(n, 0) == []
  {}

  /** A 32-bit number has its low byte first. */
  lemma Number32(n: nat)
    requires n < 0x1_0000_0000
    ensures Put32(n) == B4(n)
  {
    hide LE;
    Four(n);
  }

  lemma Eight(n: nat)
    ensures LE(n, 8) == [n % 256, n / 0x100 % 256, n / 0x1_0000 % 256, n / 0x100_0000 % 256] + LE(n / 0x1_0000_0000, 4)
  {
    hide LE;
    LowFirst(n, 8);
    LowFirst(n / 256, 7);
    LowFirst(n / 256 / 256, 6);
    LowFirst(n / 256 / 256 / 256, 5);
    assert n / 256 / 256 == n / 0x1_0000 && n / 256 / 256 / 256 == n / 0x100_0000;
    assert n / 256 / 256 / 256 / 256 == n / 0x1_0000_0000;
  }

  lemma Shifts(n: nat)
    ensures var h := n / 0x1_0000_0000;
            h / 0x100 == n / 0x100_0000_0000 && h / 0x1_0000 == n / 0x1_0000_0000_0000 &&
            h / 0x100_0000 == n / 0x100_0000_0000_0000
  {}

  /** So has a 64-bit number. */
  lemma Number64(n: nat)
    requires n < 0x1_0000_0000_0000_0000
    ensures Put64(n) == B8(n)
  {
    hide LE;
    Eight(n);
    Four(n / 0x1_0000_0000);
    Shifts(n);
  }

  /** What each type of value means: the low bytes of the union, the string or the blob. */
  lemma MeaningFormat(v: Fields)
    ensures v.tag == 1 || v.tag == 3 || v.tag == 5 ==> Meaning(v) == Datum(v.tag, B4(v.word % 0x1_0000_0000))
    ensures v.tag == 2 || v.tag == 4 || v.tag == 6 ==> Meaning(v) == Datum(v.tag, B8(v.word))
    ensures v.tag == 7 ==> Meaning(v) == Datum(7, v.str)
    ensures v.tag == 8 ==> Meaning(v) == Datum(8, v.bin)
    ensures v.tag == 0 || v.tag > 8 ==> Meaning(v) == Datum(v.tag, [])
  {
    hide LE;
    Number32(v.word % 0x1_0000_0000);
    assert Put32(v.word) == Put32(v.word % 0x1_0000_0000) by { LowBits(v.word, v.word % 0x1_0000_0000); }
    Number64(v.word);
    hide Put32, Put64;
  }

  /** A value is its type, for strings and blobs its length, and its payload. */
  lemma ValueFormat(d: Datum)
    requires d.Shaped() && d.Fits()
    ensures Encode(d) == B4(d.tag) + (if d.tag == 7 || d.tag == 8 then B4(|d.payload|) else []) + d.payload
  {
    Number32(d.tag);
    if Blob(d.tag) {
      Number32(|d.payload|);
    }
    hide Put32;
  }

  /** A frame has four zero bytes, the length of its body and the body. */
  lemma FrameFormat(body: Bytes)
    requires |body| < 0x1_0000_0000
    ensures Wrap(body) == [0, 0, 0, 0] + B4(|body|) + body
  {
    Number32(|body|);
    hide Put32;
  }

  /** A string value. */
  function Str(s: Bytes): Bytes
    requires |s| < 0x1_0000_0000
  {
    [7, 0, 0, 0] + B4(|s|) + s
  }

  lemma TextFormat(s: Bytes)
    requires |s| < 0x1_0000_0000
    ensures Encode(Text(s)) == Str(s)
  {
    ValueFormat(Text(s));
    hide Encode;
  }

  /** A list of values is written one value behind the other. */
  lemma {:induction false} ListFormat(ds: seq<Datum>, es: seq<Datum>)
    ensures EncodeAll([]) == [] && EncodeAll(ds + es) == EncodeAll(ds) + EncodeAll(es)
    ensures |ds| == 1 ==> EncodeAll(ds) == Encode(ds[0])
  {
    hide Encode;
    if ds == [] {
      assert ds + es == es;
    } else {
      ListFormat(ds[1..], es);
      assert (ds + es)[1..] == ds[1..] + es;
      assert Encode(ds[0]) + (EncodeAll(ds[1..]) + EncodeAll(es)) == Encode(ds[0]) + EncodeAll(ds[1..]) + EncodeAll(es);
    }
  }

  lemma UidFormat(uid: u64)
    ensures Encode(UInt64(uid)) == [6, 0, 0, 0] + B8(uid)
  {
    Number64(uid);
    ValueFormat(UInt64(uid));
    hide Encode, Put64, B8;
  }

  /** A call is its size, its number, its class, its function, the number of its arguments and the
      arguments. */
  lemma CallFormat(uid: u64, q: Request)
    requires |q.cname| < 0x1_0000_0000 && |q.fname| < 0x1_0000_0000 && |q.args| < 0x1_0000_0000
    requires |EncodeMsg(AskMsg(uid, q))| < 0x1_0000_0000_0000_0000
    ensures var e := EncodeMsg(AskMsg(uid, q));
            e == B8(|e|) + [6, 0, 0, 0] + B8(uid) + Str(q.cname) + Str(q.fname) + B4(|q.args|) + EncodeAll(q.args)
  {
    hide Encode, EncodeAll, EncodeMsg, Put32, Put64, Str, B4, B8, UInt64, Text;
    var m := AskMsg(uid, q);
    CallBytes(m);
    UidFormat(uid);
    TextFormat(q.cname);
    TextFormat(q.fname);
    Number32(|q.args|);
    Number64(|EncodeMsg(m)|);
    assert B8(|EncodeMsg(m)|) + ([6, 0, 0, 0] + B8(uid)) == B8(|EncodeMsg(m)|) + [6, 0, 0, 0] + B8(uid);
  }

  /** The reply to a call that was run is its size, the number of the call, an empty text, the number
      of its values and the values. */
  lemma ReplyFormat(uid: u64, q: Request, values: seq<Datum>)
    requires |values| < 0x1_0000_0000
    requires |EncodeMsg(ReplyTo(AskMsg(uid, q), Returned(values)))| < 0x1_0000_0000_0000_0000
    ensures var e := EncodeMsg(ReplyTo(AskMsg(uid, q), Returned(values)));
            e == B8(|e|) + [6, 0, 0, 0] + B8(uid) + Str([]) + B4(|values|) + EncodeAll(values)
  {
    hide Encode, EncodeAll, EncodeMsg, Put32, Put64, Str, B4, B8, UInt64, Text;
    var m := ReplyTo(AskMsg(uid, q), Returned(values));
    ReplyBytes(m);
    UidFormat(uid);
    TextFormat([]);
    Number32(|values|);
    Number64(|EncodeMsg(m)|);
    assert B8(|EncodeMsg(m)|) + ([6, 0, 0, 0] + B8(uid)) == B8(|EncodeMsg(m)|) + [6, 0, 0, 0] + B8(uid);
  }

  /** The reply to a call that was refused has the text and no values. */
  lemma RefusalFormat(uid: u64, q: Request, text: Bytes)
    requires |text| < 0x1_0000_0000 && |EncodeMsg(ReplyTo(AskMsg(uid, q), Refused(text)))| < 0x1_0000_0000_0000_0000
    ensures var e := EncodeMsg(ReplyTo(AskMsg(uid, q), Refused(text)));
            e == B8(|e|) + [6, 0, 0, 0] + B8(uid) + Str(text) + B4(0)
  {
    assert EncodeAll([]) == [];
    hide Encode, EncodeAll, EncodeMsg, Put32, Put64, Str, B4, B8, UInt64, Text;
    var m := ReplyTo(AskMsg(uid, q), Refused(text));
    ReplyBytes(m);
    UidFormat(uid);
    TextFormat(text);
    Number32(0);
    Number64(|EncodeMsg(m)|);
    assert B8(|EncodeMsg(m)|) + ([6, 0, 0, 0] + B8(uid)) == B8(|EncodeMsg(m)|) + [6, 0, 0, 0] + B8(uid);
  }
}
