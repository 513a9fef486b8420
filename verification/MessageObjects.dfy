/** The message structs: members updated in place by a parse, printed into a shared buffer. */
module MessageObjects {
  import opened Wire
  import opened Values
  import opened Messages

  ghost function Meanings(vs: seq<Value>): (ds: seq<Datum>)
    reads vs
    ensures |ds| == |vs| && forall i :: 0 <= i < |vs| ==> ds[i] == Meaning(vs[i].Now())
  {
    if vs == [] then [] else [Meaning(vs[0].Now())] + Meanings(vs[1..])
  }

  ghost predicate Distinct(vs: seq<Value>) {
    forall i, j :: 0 <= i < j < |vs| ==> vs[i] != vs[j]
  }

  method SizeAll(vs: seq<Value>) returns (size: nat)
    ensures size == |EncodeAll(Meanings(vs))|
  {
    hide Encode, Meaning, Meanings;
    ghost var ds := Meanings(vs);
    size := 0;
    var i := 0;
    while i < |vs|
      invariant 0 <= i <= |vs|
      invariant size + |EncodeAll(ds[i..])| == |EncodeAll(ds)|
    {
      var n := vs[i].Size();
      assert ds[i..][1..] == ds[i + 1..];
      size := size + n;
      i := i + 1;
    }
  }

  /** Prints the values one behind the other. */
  method SerializeAll(vs: seq<Value>, buf: array<byte>, offset: nat) returns (n: nat)
    requires buf.Length < P64
    requires offset + |EncodeAll(Meanings(vs))| <= buf.Length
    modifies buf
    ensures n == |EncodeAll(Meanings(vs))|
    ensures buf[..] == Splice(old(buf[..]), offset, EncodeAll(Meanings(vs)))
  {
    hide Encode, Meaning, Meanings, Splice;
    ghost var was, ds := buf[..], Meanings(vs);
    var noffset := offset;
    ghost var run: Bytes := [];
    var i := 0;
    assert Splice(was, offset, run) == was by { SpliceNothing(was, offset); }
    while i < |vs|
      invariant 0 <= i <= |vs|
      invariant noffset == offset + |run|
      invariant run + EncodeAll(ds[i..]) == EncodeAll(ds)
      invariant buf[..] == Splice(was, offset, run)
    {
      ghost var e := Encode(ds[i]);
      assert ds[i..][1..] == ds[i + 1..];
      assert EncodeAll(ds[i..]) == e + EncodeAll(ds[i + 1..]);
      var r := vs[i].Serialize(buf, noffset);
      Splices(was, offset, run, e);
      run := run + e;
      noffset := noffset + r.value;
      i := i + 1;
    }
    assert ds[i..] == [] && run + [] == run;
    n := noffset - offset;
  }

  function After(got: seq<Datum>, r: Outcome<(seq<Datum>, nat)>): Outcome<(seq<Datum>, nat)> {
    if r.Done? then Done((got + r.value.0, r.value.1)) else r
  }

  lemma AfterNothing(r: Outcome<(seq<Datum>, nat)>)
    ensures After([], r) == r
  {
    assert r.Done? ==> [] + r.value.0 == r.value.0;
  }

  /** Taking the first value off a list still to be parsed. */
  lemma AfterStep(s: Bytes, at: nat, n: nat, got: seq<Datum>)
    requires n > 0
    ensures var v := ParseValue(s, at);
            After(got, ParseAll(s, at, n)) ==
            if v.Done? then After(got + [v.value.0], ParseAll(s, v.value.1, n - 1)) else v.PropagateFailure()
  {
    hide ParseValue;
    var v := ParseValue(s, at);
    if v.Done? {
      var vs := ParseAll(s, v.value.1, n - 1);
      if vs.Done? {
        assert got + ([v.value.0] + vs.value.0) == (got + [v.value.0]) + vs.value.0;
      }
    }
  }

  lemma AfterLast(s: Bytes, at: nat, got: seq<Datum>)
    ensures After(got, ParseAll(s, at, 0)) == Done((got, at))
  {
    assert got + [] == got;
  }

  /** Parses one value into each of the given objects, which keep their inactive members. */
  method DeserializeAll(vs: seq<Value>, buf: array<byte>, offset: nat) returns (r: Outcome<nat>)
    requires offset <= buf.Length < P64 && Distinct(vs)
    modifies vs
    ensures var p := ParseAll(buf[..], offset, |vs|);
            r == Taken(p, offset) && (r.Done? ==>
              forall i :: 0 <= i < |vs| ==> Stored(old(vs[i].Now()), p.value.0[i], vs[i].Now()))
  {
    hide ParseValue, ParseAll, After, Stored;
    ghost var s := buf[..];
    ghost var all := ParseAll(s, offset, |vs|);
    ghost var got: seq<Datum> := [];
    var noffset := offset;
    var i := 0;
    AfterNothing(all);
    while i < |vs|
      invariant 0 <= i == |got| <= |vs|
      invariant offset <= noffset <= buf.Length
      invariant forall j :: 0 <= j < i ==> Stored(old(vs[j].Now()), got[j], vs[j].Now())
      invariant forall j :: i <= j < |vs| ==> vs[j].Now() == old(vs[j].Now())
      invariant all == After(got, ParseAll(s, noffset, |vs| - i))
    {
      AfterStep(s, noffset, |vs| - i, got);
      ghost var p := ParseValue(s, noffset);
      var n :- vs[i].Deserialize(buf, noffset);
      StoredBy(old(vs[i].Now()), p.value.0);
      got := got + [p.value.0];
      noffset := noffset + n;
      i := i + 1;
    }
    AfterLast(s, noffset, got);
    return Done(noffset - offset);
  }

  /** The struct became w when d was parsed into v. */
  ghost predicate Stored(v: Fields, d: Datum, w: Fields) {
    d.Shaped() && w == Assign(v, d) && Meaning(w) == d
  }

  lemma StoredBy(v: Fields, d: Datum)
    requires d.Shaped()
    ensures Stored(v, d, Assign(v, d))
  {
    AssignMeaning(v, d);
  }

  lemma AllStored(vs: seq<Value>, ds: seq<Datum>)
    requires |vs| == |ds| && forall i :: 0 <= i < |vs| ==> Meaning(vs[i].Now()) == ds[i]
    ensures Meanings(vs) == ds
  {
    hide Meaning;
  }

  /** std::vector::resize: keeps a prefix, or adds default values. */
  method Resize(vs: seq<Value>, count: nat) returns (r: seq<Value>)
    requires Distinct(vs)
    ensures |r| == count && Distinct(r)
    ensures forall i :: 0 <= i < count && i < |vs| ==> r[i] == vs[i]
    ensures forall i :: |vs| <= i < count ==> fresh(r[i]) && r[i].Now() == BLANK
  {
    if count <= |vs| {
      return vs[..count];
    }
    r := vs;
    while |r| < count
      invariant |vs| <= |r| <= count && r[..|vs|] == vs && Distinct(r)
      invariant forall i :: |vs| <= i < |r| ==> fresh(r[i]) && r[i].Now() == BLANK
      decreases count - |r|
    {
      var v := new Value();
      r := r + [v];
    }
  }

  /** Prints one value behind a run already printed at offset. */
  method Emit(v: Value, buf: array<byte>, offset: nat, ghost was: Bytes, ghost run: Bytes, at: nat) returns (n: nat)
    requires buf.Length == |was| < P64 && at == offset + |run|
    requires at + |Encode(Meaning(v.Now()))| <= buf.Length && buf[..] == Splice(was, offset, run)
    modifies buf
    ensures n == |Encode(Meaning(v.Now()))|
    ensures buf[..] == Splice(was, offset, run + Encode(Meaning(v.Now())))
  {
    hide Encode, Meaning, Splice;
    var r := v.Serialize(buf, at);
    n := r.value;
    Splices(was, offset, run, Encode(Meaning(v.Now())));
  }

  method EmitAll(vs: seq<Value>, buf: array<byte>, offset: nat, ghost was: Bytes, ghost run: Bytes, at: nat)
    returns (n: nat)
    requires buf.Length == |was| < P64 && at == offset + |run|
    requires at + |EncodeAll(Meanings(vs))| <= buf.Length && buf[..] == Splice(was, offset, run)
    modifies buf
    ensures n == |EncodeAll(Meanings(vs))|
    ensures buf[..] == Splice(was, offset, run + EncodeAll(Meanings(vs)))
  {
    hide EncodeAll, Meanings, Splice;
    n := SerializeAll(vs, buf, at);
    Splices(was, offset, run, EncodeAll(Meanings(vs)));
  }

  /** Parses a counted list: the vector is resized, keeping old elements, and each is parsed. */
  method ParseItems(vs: seq<Value>, buf: array<byte>, at: nat) returns (r: Outcome<nat>, ws: seq<Value>)
    requires at + 4 <= buf.Length < P64 && Distinct(vs)
    modifies vs
    ensures Distinct(ws) && forall v <- ws :: v in vs || fresh(v)
    ensures var p := ParseAll(buf[..], at + 4, Get32(buf[..][at..at + 4]));
            r == Taken(p, at) && (r.Done? ==> (Meanings(ws) == p.value.0 &&
              forall i :: |vs| <= i < |ws| ==> Stored(BLANK, p.value.0[i], ws[i].Now())))
  {
    hide ParseAll, Meanings, Get32, Assign, Meaning;
    var noffset := at;
    var count := Get32(buf[..][noffset..noffset + 4]);
    noffset := noffset + 4;
    ws := Resize(vs, count);
    r := DeserializeAll(ws, buf, noffset);
    if r.Done? {
      AllStored(ws, ParseAll(buf[..], at + 4, count).value.0);
      noffset := noffset + r.value;
      r := Done(noffset - at);
    }
  }

  lemma StoredMeans(v: Fields, d: Datum, w: Fields)
    requires Stored(v, d, w)
    ensures Meaning(w) == d
  {}

  lemma One(d: Datum)
    ensures EncodeAll([d]) == Encode(d)
  {
    assert [d][1..] == [];
  }

  lemma Two(d: Datum, e: Datum)
    ensures EncodeAll([d, e]) == Encode(d) + Encode(e)
  {
    One(e);
    assert [d, e][1..] == [e];
  }

  lemma Three(d: Datum, e: Datum, f: Datum)
    ensures EncodeAll([d, e, f]) == Encode(d) + Encode(e) + Encode(f)
  {
    Two(e, f);
    assert [d, e, f][1..] == [e, f];
  }

  /** The fields of a call in the order they are printed. */
  lemma CallBytes(m: Msg)
    requires |m.heads| == 3
    ensures EncodeMsg(m) == [] + Put64(|EncodeMsg(m)|) + Encode(m.heads[0]) + Encode(m.heads[1]) +
                            Encode(m.heads[2]) + Put32(|m.items|) + EncodeAll(m.items)
  {
    hide Encode, Put32, Put64;
    Three(m.heads[0], m.heads[1], m.heads[2]);
    assert m.heads == [m.heads[0], m.heads[1], m.heads[2]];
  }

  lemma ReplyBytes(m: Msg)
    requires |m.heads| == 2
    ensures EncodeMsg(m) == [] + Put64(|EncodeMsg(m)|) + Encode(m.heads[0]) + Encode(m.heads[1]) +
                            Put32(|m.items|) + EncodeAll(m.items)
  {
    hide Encode, Put32, Put64;
    Two(m.heads[0], m.heads[1]);
    assert m.heads == [m.heads[0], m.heads[1]];
  }

  lemma ParseTwo(s: Bytes, at: nat)
    ensures var v := ParseValue(s, at);
            var w := if v.Done? then ParseValue(s, v.value.1) else v;
            ParseAll(s, at, 2) ==
            if !w.Done? then w.PropagateFailure() else Done(([v.value.0, w.value.0], w.value.1))
  {
    hide ParseValue;
    var v := ParseValue(s, at);
    if v.Done? && ParseValue(s, v.value.1).Done? {
      var w := ParseValue(s, v.value.1).value;
      assert ParseAll(s, w.1, 0) == Done(([], w.1));
      assert ParseAll(s, v.value.1, 1) == Done(([w.0] + [], w.1));
      assert [v.value.0] + ([w.0] + []) == [v.value.0, w.0];
    }
  }

  lemma ParseThree(s: Bytes, at: nat)
    ensures var u := ParseValue(s, at);
            var v := if u.Done? then ParseValue(s, u.value.1) else u;
            var w := if v.Done? then ParseValue(s, v.value.1) else v;
            ParseAll(s, at, 3) ==
            if !w.Done? then w.PropagateFailure() else Done(([u.value.0, v.value.0, w.value.0], w.value.1))
  {
    hide ParseValue;
    var u := ParseValue(s, at);
    if u.Done? {
      ParseTwo(s, u.value.1);
      var rest := ParseAll(s, u.value.1, 2);
      assert rest.Done? ==> [u.value.0] + rest.value.0 == [u.value.0, rest.value.0[0], rest.value.0[1]];
    }
  }

  class FunctionCall {
    const uid: Value
    const className: Value
    const functionName: Value
    var arguments: seq<Value>

    ghost predicate Valid()
      reads this
    {
      && uid != className && uid != functionName && className != functionName
      && uid !in arguments && className !in arguments && functionName !in arguments
      && Distinct(arguments)
    }

    ghost function Call(): Msg
      reads this, uid, className, functionName, arguments
    {
      Msg([Meaning(uid.Now()), Meaning(className.Now()), Meaning(functionName.Now())], Meanings(arguments))
    }

    /** m was parsed into the members, whose fields were u, c and f. */
    ghost predicate Received(m: Msg, u: Fields, c: Fields, f: Fields)
      reads this, uid, className, functionName, arguments
    {
      && Call() == m
      && Stored(u, m.heads[0], uid.Now()) && Stored(c, m.heads[1], className.Now())
      && Stored(f, m.heads[2], functionName.Now())
    }

    constructor ()
      ensures Valid() && arguments == [] && fresh(uid) && fresh(className) && fresh(functionName)
      ensures uid.Now() == Fields(TAG_UINT64, 0, [], [])
      ensures className.Now() == functionName.Now() == Fields(TAG_STRING, 0, [], [])
    {
      uid := new Value.OfUInt64(0);
      className := new Value.OfText([]);
      functionName := new Value.OfText([]);
      arguments := [];
    }

    method Size() returns (size: nat)
      ensures size == |EncodeMsg(Call())|
    {
      hide Encode, Meaning, Meanings, Put32, Put64;
      var a := uid.Size();
      var b := className.Size();
      var c := functionName.Size();
      var d := SizeAll(arguments);
      size := 8 + a + b + c + 4 + d;
      Three(Meaning(uid.Now()), Meaning(className.Now()), Meaning(functionName.Now()));
      assert |EncodeAll(Call().heads)| == a + b + c;
      assert |EncodeAll(Call().items)| == d;
      assert |Content(Call())| == a + b + c + 4 + d;
    }

    /** function_call::serialize: the encoding of the message, or nothing. */
    method Serialize(buf: array<byte>, offset: u64) returns (r: Outcome<nat>)
      requires buf.Length < P64
      modifies buf
      ensures (r, buf[..]) == Printed(old(buf[..]), offset, EncodeMsg(Call()))
      ensures var e := EncodeMsg(Call());
              if offset + |e| <= buf.Length
              then r == Done(|e|) && buf[offset..offset + |e|] == e && buf[..offset] == old(buf[..offset]) &&
                   buf[offset + |e|..] == old(buf[offset + |e|..])
              else !r.Done? && buf[..] == old(buf[..])
    {
      hide EncodeMsg, Splice;
      var size := Size();
      ghost var m := Call();
      if offset <= buf.Length {
        Room(buf.Length, offset, size);
      }
      if Sub64(buf.Length, offset) < size {
        return Thrown;
      }
      if offset > buf.Length {
        return OutOfBounds;
      }
      ghost var was := buf[..];
      r := EmitFields(buf, offset, size, m);
      SpliceParts(was, offset, EncodeMsg(m));
    }

    method EmitFields(buf: array<byte>, offset: nat, size: nat, ghost m: Msg) returns (r: Outcome<nat>)
      requires m == Call() && size == |EncodeMsg(m)| && offset + size <= buf.Length < P64
      modifies buf
      ensures r == Done(size) && buf[..] == Splice(old(buf[..]), offset, EncodeMsg(m))
    {
      hide EncodeMsg, EncodeAll, Encode, Meaning, Meanings, Put32, Put64, Splice;
      ghost var was := buf[..];
      ghost var a, b, c := m.heads[0], m.heads[1], m.heads[2];
      CallBytes(m);
      SpliceNothing(was, offset);
      var noffset := offset;
      Append(buf, offset, was, [], Put64(size), noffset);
      noffset := noffset + 8;
      ghost var run := [] + Put64(size);
      var n := Emit(uid, buf, offset, was, run, noffset);
      noffset, run := noffset + n, run + Encode(a);
      n := Emit(className, buf, offset, was, run, noffset);
      noffset, run := noffset + n, run + Encode(b);
      n := Emit(functionName, buf, offset, was, run, noffset);
      noffset, run := noffset + n, run + Encode(c);
      Append(buf, offset, was, run, Put32(|arguments|), noffset);
      noffset, run := noffset + 4, run + Put32(|arguments|);
      n := EmitAll(arguments, buf, offset, was, run, noffset);
      noffset, run := noffset + n, run + EncodeAll(m.items);
      assert run == EncodeMsg(m);
      return Done(noffset - offset);
    }

    /** function_call::deserialize. The members and the list elements are parsed in place. */
    method Deserialize(buf: array<byte>, offset: u64) returns (r: Outcome<nat>)
      requires buf.Length < P64 && Valid()
      modifies this`arguments, uid, className, functionName, arguments
      ensures Valid() && forall v <- arguments :: v in old(arguments) || fresh(v)
      ensures var p := ParseMsg(buf[..], offset, CALL_HEADS, Aborted);
              r == Taken(p, offset) &&
              (r.Done? ==> Received(p.value.0, old(uid.Now()), old(className.Now()), old(functionName.Now())))
    {
      hide ParseContent, Get64, Meaning, Assign, Meanings;
      if Sub64(buf.Length, offset) < 8 {
        return Aborted;
      }
      if offset > buf.Length {
        return OutOfBounds;
      }
      var size := Get64(buf[..][offset..offset + 8]);
      if Sub64(buf.Length, offset) < size {
        return Aborted;
      }
      r := ParseFields(buf, offset);
    }

    method ParseHeads(buf: array<byte>, at: nat) returns (r: Outcome<nat>)
      requires at <= buf.Length < P64 && Valid()
      modifies uid, className, functionName
      ensures var p := ParseAll(buf[..], at, CALL_HEADS);
              r == Taken(p, at) &&
              (r.Done? ==> (Stored(old(uid.Now()), p.value.0[0], uid.Now()) &&
                            Stored(old(className.Now()), p.value.0[1], className.Now()) &&
                            Stored(old(functionName.Now()), p.value.0[2], functionName.Now())))
    {
      hide ParseValue, Meaning, Assign;
      ghost var s := buf[..];
      ghost var v1, v2, v3 := uid.Now(), className.Now(), functionName.Now();
      var noffset := at;
      ParseThree(s, noffset);
      var n :- uid.Deserialize(buf, noffset);
      StoredBy(v1, ParseValue(s, noffset).value.0);
      noffset := noffset + n;
      n :- className.Deserialize(buf, noffset);
      StoredBy(v2, ParseValue(s, noffset).value.0);
      noffset := noffset + n;
      n :- functionName.Deserialize(buf, noffset);
      StoredBy(v3, ParseValue(s, noffset).value.0);
      noffset := noffset + n;
      return Done(noffset - at);
    }

    method ParseFields(buf: array<byte>, offset: nat) returns (r: Outcome<nat>)
      requires offset + 8 <= buf.Length < P64 && Valid()
      modifies this`arguments, uid, className, functionName, arguments
      ensures Valid() && forall v <- arguments :: v in old(arguments) || fresh(v)
      ensures var p := ParseContent(buf[..], offset + 8, CALL_HEADS);
              r == Taken(p, offset) &&
              (r.Done? ==> Received(p.value.0, old(uid.Now()), old(className.Now()), old(functionName.Now())))
    {
      hide ParseAll, Meanings, Get32, Assign, Stored, Meaning;
      var noffset := offset + 8;
      ghost var a, b, c := uid.Now(), className.Now(), functionName.Now();
      var n :- ParseHeads(buf, noffset);
      ghost var heads := ParseAll(buf[..], noffset, CALL_HEADS).value.0;
      StoredMeans(a, heads[0], uid.Now());
      StoredMeans(b, heads[1], className.Now());
      StoredMeans(c, heads[2], functionName.Now());
      noffset := noffset + n;
      if buf.Length < noffset + 4 {
        return OutOfBounds;
      }
      r, arguments := ParseItems(arguments, buf, noffset);
      n :- r;
      noffset := noffset + n;
      return Done(noffset - offset);
    }
  }

  class FunctionReply {
    const uid: Value
    const error: Value
    var values: seq<Value>

    ghost predicate Valid()
      reads this
    {
      && uid != error && uid !in values && error !in values
      && Distinct(values)
    }

    ghost function Reply(): Msg
      reads this, uid, error, values
    {
      Msg([Meaning(uid.Now()), Meaning(error.Now())], Meanings(values))
    }

    /** m was parsed into the members, whose fields were u and e, and into a list that was
        empty if all its values are new. */
    ghost predicate Received(m: Msg, u: Fields, e: Fields, allNew: bool)
      reads this, uid, error, values
    {
      && Reply() == m
      && Stored(u, m.heads[0], uid.Now()) && Stored(e, m.heads[1], error.Now())
      && (allNew ==> forall i :: 0 <= i < |values| ==> Stored(BLANK, m.items[i], values[i].Now()))
    }

    constructor ()
      ensures Valid() && values == [] && fresh(uid) && fresh(error)
      ensures uid.Now() == Fields(TAG_UINT64, 0, [], [])
      ensures error.Now() == Fields(TAG_STRING, 0, [], [])
    {
      uid := new Value.OfUInt64(0);
      error := new Value.OfText([]);
      values := [];
    }

    method Size() returns (size: nat)
      ensures size == |EncodeMsg(Reply())|
    {
      hide Encode, Meaning, Meanings, Put32, Put64;
      var a := uid.Size();
      var b := error.Size();
      var c := SizeAll(values);
      size := 8 + a + b + 4 + c;
      Two(Meaning(uid.Now()), Meaning(error.Now()));
      assert |Content(Reply())| == a + b + 4 + c;
    }

    /** function_reply::serialize: the encoding of the message, or nothing. */
    method Serialize(buf: array<byte>, offset: u64) returns (r: Outcome<nat>)
      requires buf.Length < P64
      modifies buf
      ensures (r, buf[..]) == Printed(old(buf[..]), offset, EncodeMsg(Reply()))
      ensures var e := EncodeMsg(Reply());
              if offset + |e| <= buf.Length
              then r == Done(|e|) && buf[offset..offset + |e|] == e && buf[..offset] == old(buf[..offset]) &&
                   buf[offset + |e|..] == old(buf[offset + |e|..])
              else !r.Done? && buf[..] == old(buf[..])
    {
      hide EncodeMsg, Splice;
      var size := Size();
      ghost var m := Reply();
      if offset <= buf.Length {
        Room(buf.Length, offset, size);
      }
      if Sub64(buf.Length, offset) < size {
        return Thrown;
      }
      if offset > buf.Length {
        return OutOfBounds;
      }
      ghost var was := buf[..];
      r := EmitFields(buf, offset, size, m);
      SpliceParts(was, offset, EncodeMsg(m));
    }

    method EmitFields(buf: array<byte>, offset: nat, size: nat, ghost m: Msg) returns (r: Outcome<nat>)
      requires m == Reply() && size == |EncodeMsg(m)| && offset + size <= buf.Length < P64
      modifies buf
      ensures r == Done(size) && buf[..] == Splice(old(buf[..]), offset, EncodeMsg(m))
    {
      hide EncodeMsg, EncodeAll, Encode, Meaning, Meanings, Put32, Put64, Splice;
      ghost var was := buf[..];
      ghost var a, b := m.heads[0], m.heads[1];
      ReplyBytes(m);
      SpliceNothing(was, offset);
      var noffset := offset;
      Append(buf, offset, was, [], Put64(size), noffset);
      noffset := noffset + 8;
      ghost var run := [] + Put64(size);
      var n := Emit(uid, buf, offset, was, run, noffset);
      noffset, run := noffset + n, run + Encode(a);
      n := Emit(error, buf, offset, was, run, noffset);
      noffset, run := noffset + n, run + Encode(b);
      Append(buf, offset, was, run, Put32(|values|), noffset);
      noffset, run := noffset + 4, run + Put32(|values|);
      n := EmitAll(values, buf, offset, was, run, noffset);
      noffset, run := noffset + n, run + EncodeAll(m.items);
      assert run == EncodeMsg(m);
      return Done(noffset - offset);
    }

    /** function_reply::deserialize. A failing size check throws. */
    method Deserialize(buf: array<byte>, offset: u64) returns (r: Outcome<nat>)
      requires buf.Length < P64 && Valid()
      modifies this`values, uid, error, values
      ensures Valid() && forall v <- values :: v in old(values) || fresh(v)
      ensures var p := ParseMsg(buf[..], offset, REPLY_HEADS, Thrown);
              r == Taken(p, offset) &&
              (r.Done? ==> Received(p.value.0, old(uid.Now()), old(error.Now()), old(values) == []))
    {
      hide ParseContent, Get64, Meaning, Assign, Meanings;
      if Sub64(buf.Length, offset) < 8 {
        return Thrown;
      }
      if offset > buf.Length {
        return OutOfBounds;
      }
      var size := Get64(buf[..][offset..offset + 8]);
      if Sub64(buf.Length, offset) < size {
        return Thrown;
      }
      r := ParseFields(buf, offset);
    }

    method ParseHeads(buf: array<byte>, at: nat) returns (r: Outcome<nat>)
      requires at <= buf.Length < P64 && Valid()
      modifies uid, error
      ensures var p := ParseAll(buf[..], at, REPLY_HEADS);
              r == Taken(p, at) &&
              (r.Done? ==> (Stored(old(uid.Now()), p.value.0[0], uid.Now()) &&
                            Stored(old(error.Now()), p.value.0[1], error.Now())))
    {
      hide ParseValue, Meaning, Assign;
      ghost var s := buf[..];
      ghost var v1, v2 := uid.Now(), error.Now();
      var noffset := at;
      ParseTwo(s, noffset);
      var n :- uid.Deserialize(buf, noffset);
      StoredBy(v1, ParseValue(s, noffset).value.0);
      noffset := noffset + n;
      n :- error.Deserialize(buf, noffset);
      StoredBy(v2, ParseValue(s, noffset).value.0);
      noffset := noffset + n;
      return Done(noffset - at);
    }

    method ParseFields(buf: array<byte>, offset: nat) returns (r: Outcome<nat>)
      requires offset + 8 <= buf.Length < P64 && Valid()
      modifies this`values, uid, error, values
      ensures Valid() && forall v <- values :: v in old(values) || fresh(v)
      ensures var p := ParseContent(buf[..], offset + 8, REPLY_HEADS);
              r == Taken(p, offset) &&
              (r.Done? ==> Received(p.value.0, old(uid.Now()), old(error.Now()), old(values) == []))
    {
      hide ParseAll, Meanings, Get32, Assign, Stored, Meaning;
      var noffset := offset + 8;
      ghost var a, b := uid.Now(), error.Now();
      var n :- ParseHeads(buf, noffset);
      ghost var heads := ParseAll(buf[..], noffset, REPLY_HEADS).value.0;
      StoredMeans(a, heads[0], uid.Now());
      StoredMeans(b, heads[1], error.Now());
      noffset := noffset + n;
      if buf.Length < noffset + 4 {
        return OutOfBounds;
      }
      r, values := ParseItems(values, buf, noffset);
      n :- r;
      noffset := noffset + n;
      return Done(noffset - offset);
    }
  }
}
