/** server::client_call_function, the reply built from its result, and what a client makes of it. */
module Dispatch {
  import opened Wire
  import opened Values
  import opened Messages
  import opened Frames

  type Handler = seq<Datum> -> seq<Datum>

  /** The registered classes, each a map from function names to handlers. */
  type Registry = map<Bytes, map<Bytes, Handler>>

  /** What a caller asks for. */
  datatype Request = Request(cname: Bytes, fname: Bytes, args: seq<Datum>)

  /** The result of a dispatch: what the handler returned, or why it was not found. */
  datatype Verdict = Returned(values: seq<Datum>) | Refused(text: Bytes)

  function Ascii(s: string): (b: Bytes)
    ensures |b| == |s| && forall i :: 0 <= i < |s| ==> b[i] == s[i] as int % 256
  {
    seq(|s|, i requires 0 <= i < |s| => s[i] as int % 256)
  }

  /** What c_str() shows of a string: everything in front of the first zero byte. */
  function CString(s: Bytes): (r: Bytes)
    ensures r <= s && 0 !in r
    ensures |r| < |s| ==> s[|r|] == 0
  {
    if s == [] || s[0] == 0 then [] else [s[0]] + CString(s[1..])
  }

  function NoClass(cname: Bytes): Bytes { Ascii("Class '") + cname + Ascii("' is not registered.") }

  function NoFunction(cname: Bytes, fname: Bytes): Bytes {
    Ascii("Function '") + fname + Ascii("' not found in class '") + cname + Ascii("'.")
  }

  /** The verdict a dispatch ends in. */
  predicate Allowed(reg: Registry, cname: Bytes, fname: Bytes, args: seq<Datum>, v: Verdict) {
    if cname !in reg then v == Refused(NoClass(cname))
    else if CString(fname) !in reg[cname] then v == Refused(NoFunction(cname, fname))
    else v == Returned(reg[cname][CString(fname)](args))
  }

  /** The result of a dispatch as its verdict. */
  lemma Concludes(reg: Registry, cname: Bytes, fname: Bytes, args: seq<Datum>, success: bool, rval: seq<Datum>,
                  text: Bytes)
    requires success <==> cname in reg && CString(fname) in reg[cname]
    requires success ==> rval == reg[cname][CString(fname)](args)
    requires cname !in reg ==> text == Ascii("Class '") + cname + Ascii("' is not registered.")
    requires cname in reg && !success ==>
               text == Ascii("Function '") + fname + Ascii("' not found in class '") + cname + Ascii("'.")
    ensures Allowed(reg, cname, fname, args, if success then Returned(rval) else Refused(text))
    ensures !success ==> text != []
  {}

  /** The text in value_str of a string value that was parsed from d. */
  function TextOf(d: Datum): Bytes {
    if d.tag == TAG_STRING then d.payload else []
  }

  class Server {
    var classes: Registry

    /** Handlers produce ipc::value objects. */
    ghost predicate ShapedHandlers()
      reads this
    {
      forall c, f, args :: c in classes && f in classes[c] ==> AllShaped(classes[c][f](args))
    }

    /** collection::get_function walks the map and compares with the C string of the name. */
    method GetFunction(functions: map<Bytes, Handler>, name: Bytes) returns (f: Option<Handler>)
      ensures f == if CString(name) in functions then Some(functions[CString(name)]) else None
    {
      var left := functions.Keys;
      while left != {}
        invariant left <= functions.Keys
        invariant CString(name) in functions ==> CString(name) in left
        decreases left
      {
        var key :| key in left;
        if key == CString(name) {
          return Some(functions[key]);
        }
        left := left - {key};
      }
      return None;
    }

    /** A call succeeds exactly if its function is registered; it then has the handler's values, and
        otherwise a text that says what is missing. */
    method ClientCallFunction(cname: Bytes, fname: Bytes, args: seq<Datum>)
      returns (success: bool, rval: seq<Datum>, errormsg: Bytes)
      ensures success <==> cname in classes && CString(fname) in classes[cname]
      ensures success ==> rval == classes[cname][CString(fname)](args) && errormsg == []
      ensures !success ==> rval == []
      ensures cname !in classes ==> errormsg == Ascii("Class '") + cname + Ascii("' is not registered.")
      ensures cname in classes && !success ==>
                errormsg == Ascii("Function '") + fname + Ascii("' not found in class '") + cname + Ascii("'.")
    {
      rval, errormsg := [], [];
      if cname !in classes {
        errormsg := NoClass(cname);
        return false, rval, errormsg;
      }
      var cls := classes[cname];
      var fnc := GetFunction(cls, fname);
      if fnc.None? {
        errormsg := NoFunction(cname, fname);
        return false, rval, errormsg;
      }
      rval := fnc.value(args);
      return true, rval, errormsg;
    }
  }

  // ----- requests and replies

  function CallMsg(uid: u64, cname: Bytes, fname: Bytes, args: seq<Datum>): Msg {
    Msg([UInt64(uid), Text(cname), Text(fname)], args)
  }

  function AskMsg(uid: u64, q: Request): Msg { CallMsg(uid, q.cname, q.fname, q.args) }

  /** The reply a server builds: the request's uid, the values, and the text of a failure. */
  function ReplyTo(call: Msg, v: Verdict): (reply: Msg)
    requires |call.heads| == CALL_HEADS
    ensures |reply.heads| == REPLY_HEADS
  {
    match v
    case Returned(values) => Msg([call.heads[0], Text([])], values)
    case Refused(text) => Msg([call.heads[0], Text(text)], [])
  }

  lemma TextParsed(d: Datum)
    requires d.Shaped()
    ensures Assign(Fields(TAG_STRING, 0, [], []), d).str == TextOf(d)
  {}

  /** value_union.ui64 of a uid value that was parsed from d. */
  function UidOf(d: Datum): u64
    requires d.Shaped()
  {
    Assign(Fields(TAG_UINT64, 0, [], []), d).word
  }

  function Parsed(ds: seq<Datum>): seq<Fields>
    requires AllShaped(ds)
  {
    seq(|ds|, i requires 0 <= i < |ds| => assert ds[i] in ds; Assign(BLANK, ds[i]))
  }

  /** The values a client hands to the callback of a reply. */
  function View(reply: Msg): (vs: seq<Fields>)
    requires reply.Shaped() && |reply.heads| == REPLY_HEADS
  {
    var vs := Parsed(reply.items);
    var error := TextOf(reply.heads[1]);
    if error == [] then vs
    else [(if vs == [] then BLANK else vs[0]).(tag := TAG_NULL, str := error)]
  }

  /** A reply with a text shows one Null value that carries it, whatever values came along. */
  lemma ErrorView(reply: Msg)
    requires reply.Shaped() && |reply.heads| == REPLY_HEADS
    ensures TextOf(reply.heads[1]) != [] ==>
              |View(reply)| == 1 && View(reply)[0].tag == 0 && View(reply)[0].str == TextOf(reply.heads[1]) &&
              (reply.items == [] ==> View(reply)[0].word == 0 && View(reply)[0].bin == []) &&
              (reply.items != [] ==> reply.items[0].Shaped() && var first := Assign(BLANK, reply.items[0]);
                 View(reply)[0].word == first.word && View(reply)[0].bin == first.bin)
    ensures TextOf(reply.heads[1]) == [] ==>
              |View(reply)| == |reply.items| &&
              forall i :: 0 <= i < |reply.items| ==> Meaning(View(reply)[i]) == reply.items[i]
  {
    assert reply.items != [] ==> reply.items[0] in reply.items;
    if TextOf(reply.heads[1]) == [] {
      forall i | 0 <= i < |reply.items|
        ensures Meaning(View(reply)[i]) == reply.items[i]
      {
        assert reply.items[i] in reply.items;
        AssignMeaning(BLANK, reply.items[i]);
      }
    }
  }

  lemma UidRoundTrip(uid: u64)
    ensures UidOf(UInt64(uid)) == uid
  {
    Fixed64(uid, []);
  }

  /** The client sees a failure exactly when the dispatch refused, as one Null value with the
      text of the refusal; otherwise it sees the values the handler returned. */
  lemma ViewOfVerdict(reg: Registry, call: Msg, q: Request, v: Verdict)
    requires |call.heads| == CALL_HEADS && call.Shaped() && Allowed(reg, q.cname, q.fname, q.args, v)
    requires v.Returned? ==> AllShaped(v.values)
    ensures var reply := ReplyTo(call, v);
            reply.Shaped() && (TextOf(reply.heads[1]) != [] <==> v.Refused?) &&
            (v.Refused? ==> View(reply) == [BLANK.(str := v.text)]) &&
            (v.Returned? ==> (|View(reply)| == |v.values| &&
               forall i :: 0 <= i < |v.values| ==> Meaning(View(reply)[i]) == v.values[i])) &&
            (v.Refused? <==> exists w <- View(reply) :: w.tag == TAG_NULL && w.str != [])
  {
    var reply := ReplyTo(call, v);
    assert call.heads[0] in call.heads;
    match v
    case Refused(text) =>
      assert View(reply) == [BLANK.(str := text)];
      assert View(reply)[0] in View(reply);
    case Returned(values) =>
      forall i | 0 <= i < |values|
        ensures Meaning(View(reply)[i]) == values[i] && !(View(reply)[i].tag == TAG_NULL && View(reply)[i].str != [])
      {
        assert values[i] in values;
        AssignMeaning(BLANK, values[i]);
      }
  }

  /** What a server that parses the body of this frame finds in the fields of the call: its number,
      class, function and arguments. */
  ghost predicate Asks(frame: Bytes, uid: u64, q: Request) {
    |frame| > HEADER && ReadSize(frame) == |frame| - HEADER &&
    var p := ParseMsg(frame[HEADER..], 0, CALL_HEADS, Aborted);
    p.Done? &&
    var m := p.value.0;
    assert m.heads[0] in m.heads && m.heads[1] in m.heads && m.heads[2] in m.heads;
    && Assign(Fields(TAG_UINT64, 0, [], []), m.heads[0]).word == uid
    && Assign(Fields(TAG_STRING, 0, [], []), m.heads[1]).str == q.cname
    && Assign(Fields(TAG_STRING, 0, [], []), m.heads[2]).str == q.fname
    && m.items == q.args
  }

  lemma FrameAsks(uid: u64, q: Request)
    requires Sendable(AskMsg(uid, q))
    ensures Asks(Frame(AskMsg(uid, q)), uid, q)
  {
    var m := AskMsg(uid, q);
    hide ParseMsg, EncodeMsg, Assign;
    HeaderOfWrap(EncodeMsg(m));
    assert Has(EncodeMsg(m), 0, EncodeMsg(m));
    ParseEncodeFitting(EncodeMsg(m), 0, m, Aborted);
    UidRoundTrip(uid);
    assert m.heads[1] in m.heads && m.heads[2] in m.heads;
    TextParsed(m.heads[1]);
    TextParsed(m.heads[2]);
    SizeOfFrame(m);
  }

  lemma SizeOfFrame(m: Msg)
    requires Sendable(m)
    ensures ReadSize(Frame(m)) == |Frame(m)| - HEADER && |Frame(m)| > HEADER
  {
    hide EncodeMsg;
    var body := EncodeMsg(m);
    assert Wrap(body)[4..8] == Header(|body|)[4..8];
    HeaderOfWrap(body);
  }

  // ----- dispatches

  /** What a client puts into a pipe: a call with three leading values that a frame can carry. */
  ghost predicate CallShape(m: Msg) { |m.heads| == CALL_HEADS && Sendable(m) }

  ghost predicate Numbers(call: Msg, uid: u64) {
    CallShape(call) && call.heads[0] == UInt64(uid)
  }

  lemma SameUid(call: Msg, uid: u64, uid': u64)
    requires Numbers(call, uid) && Numbers(call, uid')
    ensures uid == uid'
  {
    UidRoundTrip(uid);
    UidRoundTrip(uid');
  }

  /** The verdict on a call: class and function are read off its leading values. */
  predicate Judged(reg: Registry, m: Msg, v: Verdict) {
    |m.heads| == CALL_HEADS && Allowed(reg, TextOf(m.heads[1]), TextOf(m.heads[2]), m.items, v)
  }

  /** A registered function is run on the call's own arguments. */
  lemma Handles(reg: Registry, m: Msg, v: Verdict)
    requires Judged(reg, m, v)
    ensures var c, f := TextOf(m.heads[1]), CString(TextOf(m.heads[2]));
            c in reg && f in reg[c] ==> v == Returned(reg[c][f](m.items))
  {}

  /** A dispatch of the call h.0 that ended in the verdict h.1, with a reply that a frame can carry. */
  ghost predicate Dispatched(reg: Registry, h: (Msg, Verdict)) {
    CallShape(h.0) && Judged(reg, h.0, h.1) && Sendable(ReplyTo(h.0, h.1))
  }

  function Calls(hs: seq<(Msg, Verdict)>): seq<Msg> { seq(|hs|, i requires 0 <= i < |hs| => hs[i].0) }

  /** What a caller sees of a verdict: the values of the handler, or the refusal's text in a Null value. */
  ghost predicate Sees(vs: seq<Fields>, v: Verdict) {
    match v
    case Returned(values) => |vs| == |values| && forall i :: 0 <= i < |vs| ==> Meaning(vs[i]) == values[i]
    case Refused(text) => vs == [BLANK.(str := text)]
  }

  lemma SeesVerdict(reg: Registry, h: (Msg, Verdict))
    requires Dispatched(reg, h)
    ensures |h.0.heads| == CALL_HEADS
    ensures ReplyTo(h.0, h.1).Shaped() ==> Sees(View(ReplyTo(h.0, h.1)), h.1)
  {
    hide View, Allowed;
    assert h.0.Shaped();
    hide Sendable;
    if ReplyTo(h.0, h.1).Shaped() {
      ViewOfVerdict(reg, h.0, Request(TextOf(h.0.heads[1]), TextOf(h.0.heads[2]), h.0.items), h.1);
    }
  }

  /** What the caller of a request is due: the values of the function it named on its own arguments,
      or, when that is not registered, one Null value that says so. */
  ghost predicate Due(reg: Registry, q: Request, vs: seq<Fields>) {
    if q.cname in reg && CString(q.fname) in reg[q.cname] then
      var results := reg[q.cname][CString(q.fname)](q.args);
      |vs| == |results| && forall i :: 0 <= i < |vs| ==> Meaning(vs[i]) == results[i]
    else
      |vs| == 1 && vs[0].tag == 0 &&
      vs[0].str == if q.cname !in reg then Ascii("Class '") + q.cname + Ascii("' is not registered.")
                   else Ascii("Function '") + q.fname + Ascii("' not found in class '") + q.cname + Ascii("'.")
  }

  /** The verdict on a call shows its caller what is due. */
  lemma DueVerdict(reg: Registry, uid: u64, q: Request, v: Verdict, vs: seq<Fields>)
    requires Dispatched(reg, (AskMsg(uid, q), v)) && Sees(vs, v)
    ensures Due(reg, q, vs)
  {
    hide Sendable, Meaning, Ascii;
    var m := AskMsg(uid, q);
    assert TextOf(m.heads[1]) == q.cname && TextOf(m.heads[2]) == q.fname && m.items == q.args;
  }
}
