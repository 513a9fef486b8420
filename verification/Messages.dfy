/** function_call and function_reply: lists of values behind a size field. */
module Messages {
  import opened Wire
  import opened Values

  /** Both messages are a fixed number of leading values and a counted list: a call leads with
      uid, class and function name, a reply with uid and error. */
  datatype Msg = Msg(heads: seq<Datum>, items: seq<Datum>) {
    ghost predicate Shaped() {
      AllShaped(heads) && AllShaped(items)
    }

    /** Every length and the count can be stored in their 32-bit fields. */
    ghost predicate Fits() {
      AllFit(heads) && AllFit(items) && |items| < P32
    }
  }

  const CALL_HEADS := 3
  const REPLY_HEADS := 2

  ghost predicate AllShaped(ds: seq<Datum>) { forall d <- ds :: d.Shaped() }
  ghost predicate AllFit(ds: seq<Datum>) { forall d <- ds :: d.Fits() }

  function EncodeAll(ds: seq<Datum>): Bytes {
    if ds == [] then [] else Encode(ds[0]) + EncodeAll(ds[1..])
  }

  function Content(m: Msg): Bytes {
    EncodeAll(m.heads) + Put32(|m.items|) + EncodeAll(m.items)
  }

  function EncodeMsg(m: Msg): Bytes {
    Put64(8 + |Content(m)|) + Content(m)
  }

  function ParseAll(s: Bytes, at: nat, n: nat): (r: Outcome<(seq<Datum>, nat)>)
    ensures r.Done? ==> |r.value.0| == n && at <= r.value.1 && (at <= |s| ==> r.value.1 <= |s|)
    ensures r.Done? ==> AllShaped(r.value.0)
    ensures at <= |s| ==> r.Done? || r.Aborted?
    decreases n
  {
    if n == 0 then Done(([], at)) else
    var v := ParseValue(s, at);
    if !v.Done? then v.PropagateFailure() else
    var vs := ParseAll(s, v.value.1, n - 1);
    if !vs.Done? then vs else Done(([v.value.0] + vs.value.0, vs.value.1))
  }

  /** The part of a message behind the size field. The code reads the count unchecked. */
  function ParseContent(s: Bytes, at: nat, heads: nat): (r: Outcome<(Msg, nat)>)
    requires at <= |s|
    ensures r.Done? ==> |r.value.0.heads| == heads && at + 4 <= r.value.1 <= |s| && r.value.0.Shaped()
  {
    var hs := ParseAll(s, at, heads);
    if !hs.Done? then hs.PropagateFailure() else
    var mid := hs.value.1;
    if |s| < mid + 4 then OutOfBounds else
    var ds := ParseAll(s, mid + 4, Get32(s[mid..mid + 4]));
    if !ds.Done? then ds.PropagateFailure() else
    Done((Msg(hs.value.0, ds.value.0), ds.value.1))
  }

  /** What a parse of s at a position finds; short is how it ends when the size check fails. */
  function ParseMsg(s: Bytes, at: nat, heads: nat, short: Outcome<(Msg, nat)>): (r: Outcome<(Msg, nat)>)
    requires !short.Done?
    ensures r.Done? ==> |r.value.0.heads| == heads && at + 12 <= r.value.1 <= |s| && r.value.0.Shaped()
  {
    if at > |s| then (if Sub64(|s|, at) < 8 then short else OutOfBounds) else
    if |s| < at + 8 then short else
    if |s| < at + Get64(s[at..at + 8]) then short else
    ParseContent(s, at + 8, heads)
  }

  // ----- the inverse laws

  lemma {:induction false} ParseEncodeAll(s: Bytes, at: nat, ds: seq<Datum>)
    requires AllShaped(ds) && AllFit(ds) && at <= |s| && Has(s, at, EncodeAll(ds))
    ensures ParseAll(s, at, |ds|) == Done((ds, at + |EncodeAll(ds)|))
    decreases |ds|
  {
    hide ParseValue, Encode;
    if ds != [] {
      HasBoth(s, at, Encode(ds[0]), EncodeAll(ds[1..]));
      assert ds[0] in ds;
      ParseEncode(s, at, ds[0]);
      ParseEncodeAll(s, at + |Encode(ds[0])|, ds[1..]);
      assert [ds[0]] + ds[1..] == ds;
    }
  }

  lemma {:induction false} EncodeParseAll(s: Bytes, at: nat, n: nat)
    requires at <= |s| && ParseAll(s, at, n).Done?
    ensures var (ds, end) := ParseAll(s, at, n).value;
            EncodeAll(ds) == s[at..end] && AllShaped(ds) && AllFit(ds)
    decreases n
  {
    if n != 0 {
      var (d, mid) := ParseValue(s, at).value;
      var (ds, end) := ParseAll(s, mid, n - 1).value;
      EncodeParse(s, at);
      EncodeParseAll(s, mid, n - 1);
      assert ([d] + ds)[1..] == ds;
      assert s[at..mid] + s[mid..end] == s[at..end];
    }
  }

  /** A parse accepts exactly if there is a size field, what it declares is there, and what follows
      it begins with the content of some message. */
  lemma ParsesExactly(s: Bytes, at: nat, heads: nat, short: Outcome<(Msg, nat)>)
    requires at <= |s| && !short.Done?
    ensures ParseMsg(s, at, heads, short).Done? <==>
              at + 8 <= |s| && at + Get64(s[at..at + 8]) <= |s| &&
              exists m: Msg :: m.Shaped() && m.Fits() && |m.heads| == heads && Has(s, at + 8, Content(m))
    ensures at + 8 > |s| || at + Get64(s[at..at + 8]) > |s| ==> ParseMsg(s, at, heads, short) == short
  {
    hide ParseContent, Content, Get64;
    if at + 8 <= |s| {
      if ParseContent(s, at + 8, heads).Done? {
        EncodeParseContent(s, at + 8, heads);
        var (m, end) := ParseContent(s, at + 8, heads).value;
        assert m.Shaped() && m.Fits() && |m.heads| == heads && Has(s, at + 8, Content(m));
      }
      forall m: Msg | m.Shaped() && m.Fits() && |m.heads| == heads && Has(s, at + 8, Content(m))
        ensures ParseContent(s, at + 8, heads).Done?
      {
        ParseEncodeContent(s, at + 8, m);
      }
    }
  }

  /** The count of the list is read without a check. */
  lemma CountUnchecked(s: Bytes, at: nat, heads: nat)
    requires at <= |s| && ParseAll(s, at, heads).Done?
    ensures var mid := ParseAll(s, at, heads).value.1;
            (|s| < mid + 4 <==> ParseContent(s, at, heads) == OutOfBounds) &&
            (|s| >= mid + 4 && !ParseContent(s, at, heads).Done? ==> ParseContent(s, at, heads) == Aborted)
  {}

  /** A list of values is determined by its concatenated encodings and its length. */
  lemma UniqueDecoding(ds: seq<Datum>, r: Bytes, es: seq<Datum>, r': Bytes)
    requires AllShaped(ds) && AllFit(ds) && AllShaped(es) && AllFit(es)
    requires |ds| == |es| && EncodeAll(ds) + r == EncodeAll(es) + r'
    ensures ds == es && r == r'
  {
    var s := EncodeAll(ds) + r;
    ParseEncodeAll(s, 0, ds);
    ParseEncodeAll(s, 0, es);
    assert r == s[|EncodeAll(ds)|..] && r' == s[|EncodeAll(es)|..];
  }

  lemma ParseEncodeContent(s: Bytes, at: nat, m: Msg)
    requires m.Shaped() && m.Fits() && Has(s, at, Content(m))
    ensures ParseContent(s, at, |m.heads|) == Done((m, at + |Content(m)|))
  {
    hide Put32, Get32, EncodeAll, ParseAll;
    var hs, n, ds := EncodeAll(m.heads), Put32(|m.items|), EncodeAll(m.items);
    Fixed32(|m.items|, []);
    HasBoth(s, at, hs + n, ds);
    HasBoth(s, at, hs, n);
    ParseEncodeAll(s, at, m.heads);
    ParseEncodeAll(s, at + |hs| + 4, m.items);
  }

  lemma ParseEncodeFitting(s: Bytes, at: nat, m: Msg, short: Outcome<(Msg, nat)>)
    requires m.Shaped() && m.Fits() && |EncodeMsg(m)| < P64 && !short.Done?
    requires Has(s, at, EncodeMsg(m))
    ensures ParseMsg(s, at, |m.heads|, short) == Done((m, at + |EncodeMsg(m)|))
  {
    hide Put64, Get64, Content;
    Fixed64(8 + |Content(m)|, []);
    HasBoth(s, at, Put64(8 + |Content(m)|), Content(m));
    ParseEncodeContent(s, at + 8, m);
  }

  lemma EncodeParseContent(s: Bytes, at: nat, heads: nat)
    requires at <= |s| && ParseContent(s, at, heads).Done?
    ensures var (m, end) := ParseContent(s, at, heads).value;
            m.Shaped() && m.Fits() && Content(m) == s[at..end]
  {
    hide Put32, Get32, Encode, ParseValue;
    var (hs, mid) := ParseAll(s, at, heads).value;
    var count := s[mid..mid + 4];
    var (ds, end) := ParseAll(s, mid + 4, Get32(count)).value;
    EncodeParseAll(s, at, heads);
    EncodeParseAll(s, mid + 4, Get32(count));
    Fixed32(0, count);
    assert s[at..end] == s[at..mid] + count + s[mid + 4..end];
  }

  /** Parsing then printing a message reproduces the consumed bytes behind the size field, and
      the size field too exactly when it declares the number of bytes consumed. */
  lemma EncodeParseMsg(s: Bytes, at: nat, heads: nat, short: Outcome<(Msg, nat)>)
    requires !short.Done? && ParseMsg(s, at, heads, short).Done? && |s| < P64
    ensures var (m, end) := ParseMsg(s, at, heads, short).value;
            m.Shaped() && m.Fits() && end == at + |EncodeMsg(m)| &&
            EncodeMsg(m)[8..] == s[at + 8..end] &&
            (EncodeMsg(m) == s[at..end] <==> Get64(s[at..at + 8]) == end - at)
  {
    var (m, end) := ParseMsg(s, at, heads, short).value;
    EncodeParseContent(s, at + 8, heads);
    SizeField(s, at, end, Content(m));
  }

  lemma SizeField(s: Bytes, at: nat, end: nat, c: Bytes)
    requires at + 8 <= end <= |s| < P64 && c == s[at + 8..end]
    ensures Put64(8 + |c|) + c == s[at..end] <==> Get64(s[at..at + 8]) == end - at
  {
    hide Put64, Get64;
    var field := s[at..at + 8];
    Fixed64(8 + |c|, field);
    assert s[at..end] == field + c;
    assert field == (field + c)[..8] && Put64(8 + |c|) == (Put64(8 + |c|) + c)[..8];
  }

  /** Printing then parsing a message gives it back, exactly when its lengths and its count
      fit their fields. */
  lemma ParseEncodeMsg(s: Bytes, at: nat, m: Msg, short: Outcome<(Msg, nat)>)
    requires m.Shaped() && |s| < P64 && !short.Done? && Has(s, at, EncodeMsg(m))
    ensures ParseMsg(s, at, |m.heads|, short) == Done((m, at + |EncodeMsg(m)|)) <==> m.Fits()
  {
    if m.Fits() {
      ParseEncodeFitting(s, at, m, short);
    } else if ParseMsg(s, at, |m.heads|, short) == Done((m, at + |EncodeMsg(m)|)) {
      EncodeParseMsg(s, at, |m.heads|, short);
    }
  }
}
