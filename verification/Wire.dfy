/** Bytes, fixed-width little-endian integers and the ways a call of the library can end. */
module Wire {

  type byte = x: int | 0 <= x < 256
  type Bytes = seq<byte>

  const P32: nat := 0x1_0000_0000
  const P64: nat := 0x1_0000_0000_0000_0000
  type u32 = x: int | 0 <= x < 0x1_0000_0000
  type u64 = x: int | 0 <= x < 0x1_0000_0000_0000_0000

  /** How a call ends: normally, in abort(), with a C++ exception, or by touching memory
      outside the buffer, after which the language promises nothing. */
  datatype Outcome<+T> = Done(value: T) | Aborted | Thrown | OutOfBounds {
    predicate IsFailure() { !Done? }
    function PropagateFailure<U>(): Outcome<U>
      requires IsFailure()
    {
      match this
      case Aborted => Aborted
      case Thrown => Thrown
      case OutOfBounds => OutOfBounds
    }
    function Extract(): T
      requires Done?
    {
      value
    }
  }

  /** What a parse that began at offset returns to its caller: the number of bytes it took. */
  function Taken<T>(p: Outcome<(T, nat)>, offset: nat): Outcome<int> {
    if p.Done? then Done(p.value.1 - offset) else p.PropagateFailure()
  }

  datatype Option<+T> = None | Some(value: T)

  function Pow256(k: nat): nat {
    if k == 0 then 1 else 256 * Pow256(k - 1)
  }

  lemma Widths()
    ensures Pow256(4) == P32
    ensures Pow256(8) == P64
  {
    assert Pow256(1) == 256 && Pow256(2) == 0x1_0000 && Pow256(3) == 0x100_0000;
    assert Pow256(5) == 0x100_0000_0000 && Pow256(6) == 0x1_0000_0000_0000 && Pow256(7) == 0x100_0000_0000_0000;
  }

  /** The k low-order bytes of n, least significant first. */
  function LE(n: nat, k: nat): (s: Bytes)
    ensures |s| == k
  {
    if k == 0 then [] else [n % 256] + LE(n / 256, k - 1)
  }

  /** The number a little-endian byte string stands for. */
  function Num(s: Bytes): nat {
    if s == [] then 0 else s[0] + 256 * Num(s[1..])
  }

  lemma {:induction false} NumBound(s: Bytes)
    ensures Num(s) < Pow256(|s|)
  {
    if s != [] {
      NumBound(s[1..]);
    }
  }

  lemma {:induction false} NumOfLE(n: nat, k: nat)
    requires n < Pow256(k)
    ensures Num(LE(n, k)) == n
  {
    if k != 0 {
      NumOfLE(n / 256, k - 1);
      assert LE(n, k)[1..] == LE(n / 256, k - 1);
    }
  }

  lemma {:induction false} LEOfNum(s: Bytes)
    ensures LE(Num(s), |s|) == s
  {
    if s != [] {
      LEOfNum(s[1..]);
      assert Num(s) / 256 == Num(s[1..]) && Num(s) % 256 == s[0];
    }
  }

  /** A uint32_t field: what static_cast<uint32_t> keeps of n, stored in four bytes. */
  function Put32(n: nat): (s: Bytes)
    ensures |s| == 4
  {
    LE(n % P32, 4)
  }

  function Put64(n: nat): (s: Bytes)
    ensures |s| == 8
  {
    LE(n % P64, 8)
  }

  function Get32(s: Bytes): (n: u32)
    requires |s| == 4
  {
    NumBound(s);
    Widths();
    Num(s)
  }

  function Get64(s: Bytes): (n: u64)
    requires |s| == 8
  {
    NumBound(s);
    Widths();
    Num(s)
  }

  lemma Fixed32(n: nat, s: Bytes)
    ensures Get32(Put32(n)) == n % P32
    ensures |s| == 4 ==> Put32(Get32(s)) == s
  {
    hide Num, LE;
    Widths();
    NumOfLE(n % P32, 4);
    if |s| == 4 {
      LEOfNum(s);
    }
  }

  lemma Fixed64(n: nat, s: Bytes)
    ensures Get64(Put64(n)) == n % P64
    ensures |s| == 8 ==> Put64(Get64(s)) == s
  {
    hide Num, LE;
    Widths();
    NumOfLE(n % P64, 8);
    if |s| == 8 {
      LEOfNum(s);
    }
  }

  /** The size_t difference a - b, which wraps below zero. */
  function Sub64(a: nat, b: nat): nat {
    (a - b) % P64
  }

  /** Within the buffer the wrapping room check is the plain one. */
  lemma Room(size: nat, offset: nat, need: nat)
    requires offset <= size < P64
    ensures Sub64(size, offset) < need <==> size < offset + need
  {}

  /** The bytes p stand in s from position at on. */
  ghost predicate Has(s: Bytes, at: nat, p: Bytes) {
    at + |p| <= |s| && s[at..at + |p|] == p
  }

  lemma HasBoth(s: Bytes, at: nat, p: Bytes, q: Bytes)
    ensures Has(s, at, p + q) <==> Has(s, at, p) && Has(s, at + |p|, q)
  {
    if Has(s, at, p + q) {
      assert p == (p + q)[..|p|] && q == (p + q)[|p|..];
    }
  }

  /** s with the bytes from position at on overwritten by p. */
  function Splice(s: Bytes, at: nat, p: Bytes): (r: Bytes)
    requires at + |p| <= |s|
    ensures |r| == |s|
  {
    s[..at] + p + s[at + |p|..]
  }

  /** The result and the buffer when e is printed at an offset behind a size_t room check. */
  function Printed(s: Bytes, offset: nat, e: Bytes): (Outcome<nat>, Bytes) {
    if offset + |e| <= |s| then (Done(|e|), Splice(s, offset, e))
    else (if Sub64(|s|, offset) < |e| then Thrown else OutOfBounds, s)
  }

  /** Beyond the end of the buffer the room check wraps: what would need more room than is left of the
      64-bit range throws, and everything else is written outside. */
  lemma PrintedBeyond(s: Bytes, offset: nat, e: Bytes)
    requires |s| < offset < P64
    ensures Printed(s, offset, e) == (if P64 - (offset - |s|) < |e| then Thrown else OutOfBounds, s)
  {}

  lemma SpliceNothing(s: Bytes, at: nat)
    requires at <= |s|
    ensures Splice(s, at, []) == s
  {}

  lemma SpliceParts(s: Bytes, at: nat, p: Bytes)
    requires at + |p| <= |s|
    ensures var r := Splice(s, at, p);
            r[at..at + |p|] == p && r[..at] == s[..at] && r[at + |p|..] == s[at + |p|..]
  {}

  /** Writing p and then q right behind it is writing p + q. */
  lemma Splices(s: Bytes, at: nat, p: Bytes, q: Bytes)
    requires at + |p| + |q| <= |s|
    ensures Splice(Splice(s, at, p), at + |p|, q) == Splice(s, at, p + q)
  {
    assert Splice(Splice(s, at, p), at + |p|, q)[..at + |p| + |q|] == s[..at] + p + q;
  }

  /** Overwrites a run of bytes, in increasing order of address. */
  method Store(buf: array<byte>, at: nat, p: Bytes)
    requires at + |p| <= buf.Length
    modifies buf
    ensures buf[..] == Splice(old(buf[..]), at, p)
  {
    var i := 0;
    while i < |p|
      invariant 0 <= i <= |p|
      invariant buf[..at + i] == old(buf[..at]) + p[..i]
      invariant buf[at + i..] == old(buf[at + i..])
    {
      buf[at + i] := p[i];
      assert buf[..at + i + 1] == buf[..at + i] + [p[i]];
      i := i + 1;
    }
    assert buf[..] == buf[..at + i] + buf[at + i..];
  }

  /** Overwrites the bytes behind a run already written at offset. */
  method Append(buf: array<byte>, offset: nat, ghost was: Bytes, ghost run: Bytes, p: Bytes, at: nat)
    requires at == offset + |run| && at + |p| <= buf.Length == |was|
    requires buf[..] == Splice(was, offset, run)
    modifies buf
    ensures buf[..] == Splice(was, offset, run + p)
  {
    Store(buf, at, p);
    Splices(was, offset, run, p);
  }
}
