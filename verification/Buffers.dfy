/** Bytes, big-endian integers and the read cursor of Go's bytes.Buffer. */
module Buffers {
  type byte = x: int | 0 <= x < 256
  type Bytes = seq<byte>
  type Sha = s: Bytes | |s| == 20 witness seq(20, _ => 0)

  datatype Option<+T> = None | Some(value: T)

  /** What a reader gives back; `Panic` stands for a Go run-time panic. */
  datatype Result<+T> = Success(value: T) | Failure | Panic {
    predicate IsFailure() { !Success? }
    function PropagateFailure<U>(): Result<U>
      requires IsFailure()
    {
      if Failure? then Failure else Panic
    }
    function Extract(): T
      requires Success?
    {
      value
    }
  }

  /** What a reader does to the unread bytes: the specification side of `Result`. */
  datatype Parse<+T> = Ok(value: T, rest: Bytes) | Err(rest: Bytes) | Crash {
    predicate IsFailure() { !Ok? }
    function PropagateFailure<U>(): Parse<U>
      requires IsFailure()
    {
      if Err? then Err(rest) else Crash
    }
    function Extract(): (T, Bytes)
      requires Ok?
    {
      (value, rest)
    }
    function Result(): Result<T> {
      match this
      case Ok(v, _) => Success(v)
      case Err(_) => Failure
      case Crash => Panic
    }
    /** A method that returned `r` and left `unread` did what this value says. */
    ghost predicate Is(r: Result<T>, unread: Bytes) {
      r == Result() && (!Crash? ==> unread == rest)
    }
  }

  // ---------- ASCII literals and prefixes ----------

  function Ascii(s: string): (b: Bytes)
    ensures |b| == |s|
  {
    seq(|s|, i requires 0 <= i < |s| => s[i] as int % 256)
  }

  predicate HasPrefix(s: Bytes, prefix: Bytes) {
    prefix <= s
  }

  function TrimPrefix(s: Bytes, prefix: Bytes): Bytes {
    if prefix <= s then s[|prefix|..] else s
  }

  predicate HasSuffix(s: Bytes, suffix: Bytes) {
    |suffix| <= |s| && s[|s| - |suffix|..] == suffix
  }

  function Zeros(n: nat): Bytes {
    seq(n, _ => 0)
  }

  // ---------- Big-endian integers ----------

  const TWO_31 := 0x8000_0000
  const TWO_32 := 0x1_0000_0000
  const TWO_63 := 0x8000_0000_0000_0000
  const TWO_64 := 0x1_0000_0000_0000_0000

  type int32 = x: int | -TWO_31 <= x < TWO_31
  type uint32 = x: int | 0 <= x < TWO_32
  type int64 = x: int | -TWO_63 <= x < TWO_63
  type uint64 = x: int | 0 <= x < TWO_64

  function Pow256(w: nat): nat {
    if w == 0 then 1 else 256 * Pow256(w - 1)
  }

  function FromBE(b: Bytes): (v: nat)
    ensures v < Pow256(|b|)
  {
    if b == [] then 0 else 256 * FromBE(b[..|b| - 1]) + b[|b| - 1]
  }

  function ToBE(w: nat, v: nat): (b: Bytes)
    ensures |b| == w
  {
    if w == 0 then [] else ToBE(w - 1, v / 256) + [v % 256]
  }

  lemma {:induction false} FromToBE(w: nat, v: nat)
    requires v < Pow256(w)
    ensures FromBE(ToBE(w, v)) == v
  {
    if w > 0 {
      FromToBE(w - 1, v / 256);
      assert ToBE(w, v)[..w - 1] == ToBE(w - 1, v / 256);
    }
  }

  /** binary.Read of a w-byte unsigned integer whose error is ignored: a short
      buffer is drained and the variable keeps its zero value. */
  function GetU(w: nat, b: Bytes): (r: (nat, Bytes))
    ensures r.0 < Pow256(w)
    ensures |r.1| <= |b|
  {
    if |b| < w then PowPositive(w); (0, []) else (FromBE(b[..w]), b[w..])
  }

  lemma PowPositive(w: nat)
    ensures Pow256(w) > 0
  {
  }

  function PutU(w: nat, v: nat, s: Bytes): Bytes {
    ToBE(w, v) + s
  }

  function GetU32(b: Bytes): (r: (uint32, Bytes))
    ensures |r.1| <= |b|
  {
    assert Pow256(4) == TWO_32;
    GetU(4, b)
  }

  function GetU64(b: Bytes): (r: (uint64, Bytes))
    ensures |r.1| <= |b|
  {
    assert Pow256(8) == TWO_64;
    GetU(8, b)
  }

  function Signed32(u: uint32): int32 { if u >= TWO_31 then u - TWO_32 else u }
  function Signed64(u: uint64): int64 { if u >= TWO_63 then u - TWO_64 else u }
  function Unsigned32(i: int32): uint32 { if i < 0 then i + TWO_32 else i }
  function Unsigned64(i: int64): uint64 { if i < 0 then i + TWO_64 else i }

  function GetI32(b: Bytes): (r: (int32, Bytes))
    ensures |r.1| <= |b|
  {
    var (u, rest) := GetU32(b);
    (Signed32(u), rest)
  }

  function GetI64(b: Bytes): (r: (int64, Bytes))
    ensures |r.1| <= |b|
  {
    var (u, rest) := GetU64(b);
    (Signed64(u), rest)
  }

  function PutU32(v: uint32, s: Bytes): Bytes { PutU(4, v, s) }
  function PutU64(v: uint64, s: Bytes): Bytes { PutU(8, v, s) }
  function PutI32(v: int32, s: Bytes): Bytes { PutU32(Unsigned32(v), s) }
  function PutI64(v: int64, s: Bytes): Bytes { PutU64(Unsigned64(v), s) }

  /** Every fixed-width reader undoes its writer and leaves what follows. */
  lemma IntegersRoundTrip()
    ensures forall v: uint32, s {:trigger PutU32(v, s)} :: GetU32(PutU32(v, s)) == (v, s)
    ensures forall v: uint64, s {:trigger PutU64(v, s)} :: GetU64(PutU64(v, s)) == (v, s)
    ensures forall v: int32, s {:trigger PutI32(v, s)} :: GetI32(PutI32(v, s)) == (v, s)
    ensures forall v: int64, s {:trigger PutI64(v, s)} :: GetI64(PutI64(v, s)) == (v, s)
  {
    forall v: uint32, s: Bytes
      ensures GetU32(PutU32(v, s)) == (v, s)
    {
      assert Pow256(4) == TWO_32;
      FromToBE(4, v);
      assert PutU32(v, s)[..4] == ToBE(4, v) && PutU32(v, s)[4..] == s;
    }
    forall v: uint64, s: Bytes
      ensures GetU64(PutU64(v, s)) == (v, s)
    {
      assert Pow256(8) == TWO_64;
      FromToBE(8, v);
      assert PutU64(v, s)[..8] == ToBE(8, v) && PutU64(v, s)[8..] == s;
    }
  }

  /** Writing and then appending is writing in front of the longer suffix. */
  lemma IntegersAppend()
    ensures forall v: uint32, s: Bytes, t: Bytes {:trigger PutU32(v, s) + t} :: PutU32(v, s) + t == PutU32(v, s + t)
    ensures forall v: uint64, s: Bytes, t: Bytes {:trigger PutU64(v, s) + t} :: PutU64(v, s) + t == PutU64(v, s + t)
    ensures forall v: int32, s: Bytes, t: Bytes {:trigger PutI32(v, s) + t} :: PutI32(v, s) + t == PutI32(v, s + t)
    ensures forall v: int64, s: Bytes, t: Bytes {:trigger PutI64(v, s) + t} :: PutI64(v, s) + t == PutI64(v, s + t)
  {
    assert forall w: nat, v: nat, s: Bytes, t: Bytes {:trigger PutU(w, v, s) + t} ::
        PutU(w, v, s) + t == PutU(w, v, s + t);
  }

  // ---------- In plain bytes ----------

  /** Most significant byte first. */
  lemma U32Bytes(a: byte, b: byte, c: byte, d: byte, s: Bytes)
    ensures GetU32([a, b, c, d] + s) == (16_777_216 * a + 65_536 * b + 256 * c + d, s)
  {
    var x := [a, b, c, d];
    assert (x + s)[..4] == x && (x + s)[4..] == s;
    FourBytes(a, b, c, d);
  }

  lemma FourBytes(a: byte, b: byte, c: byte, d: byte)
    ensures FromBE([a, b, c, d]) == 16_777_216 * a + 65_536 * b + 256 * c + d
  {
    assert [a, b, c, d][..3] == [a, b, c] && [a, b, c][..2] == [a, b] && [a, b][..1] == [a] && [a][..0] == [];
    assert FromBE([a]) == a;
    assert FromBE([a, b]) == 256 * a + b;
    assert FromBE([a, b, c]) == 65_536 * a + 256 * b + c;
  }

  lemma {:induction false} FromBEAppend(a: Bytes, b: Bytes)
    ensures FromBE(a + b) == FromBE(a) * Pow256(|b|) + FromBE(b)
    decreases |b|
  {
    if b == [] {
      assert a + b == a;
    } else {
      var n := |b| - 1;
      assert (a + b)[..|a + b| - 1] == a + b[..n];
      FromBEAppend(a, b[..n]);
      Shift(FromBE(a), Pow256(n), FromBE(b[..n]), b[n]);
    }
  }

  lemma Shift(x: nat, p: nat, y: nat, z: nat)
    ensures 256 * (x * p + y) + z == x * (256 * p) + (256 * y + z)
  {
  }

  lemma U64Bytes(a: byte, b: byte, c: byte, d: byte, e: byte, f: byte, g: byte, h: byte, s: Bytes)
    ensures GetU64([a, b, c, d, e, f, g, h] + s) ==
            ((16_777_216 * a + 65_536 * b + 256 * c + d) * 4_294_967_296 +
              (16_777_216 * e + 65_536 * f + 256 * g + h), s)
  {
    var x := [a, b, c, d, e, f, g, h];
    assert (x + s)[..8] == x && (x + s)[8..] == s;
    assert x == [a, b, c, d] + [e, f, g, h];
    assert Pow256(4) == 4_294_967_296;
    FromBEAppend([a, b, c, d], [e, f, g, h]);
    FourBytes(a, b, c, d);
    FourBytes(e, f, g, h);
  }

  /** A buffer that ends too early is drained and gives 0. */
  lemma ShortIntegers(b: Bytes)
    ensures |b| < 4 ==> GetU32(b) == (0, [])
    ensures |b| < 8 ==> GetU64(b) == (0, [])
  {
  }

  /** Two's complement. */
  lemma SignedIntegers(b: Bytes)
    ensures var (u, s) := GetU32(b); GetI32(b) == (if u < 2_147_483_648 then u else u - 4_294_967_296, s)
    ensures var (u, s) := GetU64(b);
            GetI64(b) == (if u < 9_223_372_036_854_775_808 then u else u - 18_446_744_073_709_551_616, s)
  {
  }

  lemma PrefixExactly(s: Bytes, p: Bytes)
    ensures HasPrefix(s, p) <==> exists t: Bytes :: s == p + t
    ensures forall t: Bytes :: s == p + t ==> TrimPrefix(s, p) == t
    ensures !HasPrefix(s, p) ==> TrimPrefix(s, p) == s
  {
    if HasPrefix(s, p) { assert s == p + s[|p|..]; }
    forall t: Bytes | s == p + t ensures TrimPrefix(s, p) == t { assert s[|p|..] == t; }
  }

  lemma SuffixExactly(s: Bytes, x: Bytes)
    ensures HasSuffix(s, x) <==> exists t: Bytes :: s == t + x
  {
    if HasSuffix(s, x) { assert s == s[..|s| - |x|] + x; }
    if exists t: Bytes :: s == t + x {
      var t: Bytes :| s == t + x;
      assert s[|t|..] == x;
    }
  }

  lemma TakeDropExactly(b: Bytes, n: nat)
    ensures Take(b, n) + Drop(b, n) == b
    ensures |Take(b, n)| == if n < |b| then n else |b|
  {
  }

  lemma ZerosExactly(n: nat)
    ensures |Zeros(n)| == n && forall i :: 0 <= i < n ==> Zeros(n)[i] == 0
  {
  }

  // ---------- bytes.Buffer ----------

  /** `buf` never changes and every method moves `off` forward or not at all: what is left
      unread is always a suffix of what was there, after an error too. */
  class Buffer {
    const buf: Bytes
    var off: nat

    ghost predicate Valid()
      reads this
    {
      off <= |buf|
    }

    function Unread(): Bytes
      requires Valid()
      reads this
    {
      buf[off..]
    }

    constructor (contents: Bytes)
      ensures Valid() && Unread() == contents
    {
      buf, off := contents, 0;
    }

    method ReadByte() returns (r: Result<byte>)
      requires Valid()
      modifies this
      ensures Valid() && off >= old(off)
      ensures old(Unread()) == [] ==> r == Failure && Unread() == []
      ensures old(Unread()) != [] ==> r == Success(old(Unread())[0]) && Unread() == old(Unread())[1..]
    {
      if off == |buf| { return Failure; }
      r := Success(buf[off]);
      off := off + 1;
    }

    /** Next(n): at most n bytes, fewer at the end. */
    method NextBytes(n: nat) returns (d: Bytes)
      requires Valid()
      modifies this
      ensures Valid() && off >= old(off)
      ensures d == Take(old(Unread()), n) && Unread() == Drop(old(Unread()), n)
    {
      var m := if n > |buf| - off then |buf| - off else n;
      assert Take(Unread(), n) == buf[off..off + m] && Drop(Unread(), n) == buf[off + m..];
      d := buf[off..off + m];
      off := off + m;
    }

    /** Next of a signed count: a negative one slices out of range. */
    method Next(n: int) returns (r: Result<Bytes>)
      requires Valid()
      modifies this
      ensures Valid() && off >= old(off)
      ensures n < 0 ==> r == Panic
      ensures n >= 0 ==> r == Success(Take(old(Unread()), n)) && Unread() == Drop(old(Unread()), n)
    {
      if n < 0 { return Panic; }
      var d := NextBytes(n);
      r := Success(d);
    }

    /** binary.Read of a w-byte unsigned integer; `ok` is false on a short read. */
    method ReadUint(w: nat) returns (v: nat, ok: bool)
      requires Valid()
      modifies this
      ensures Valid() && off >= old(off)
      ensures (v, Unread()) == GetU(w, old(Unread()))
      ensures ok == (|old(Unread())| >= w)
    {
      if |buf| - off < w {
        v, ok, off := 0, false, |buf|;
        assert Unread() == [];
      } else {
        assert buf[off..][..w] == buf[off..off + w] && buf[off..][w..] == buf[off + w..];
        v, ok, off := FromBE(buf[off..off + w]), true, off + w;
      }
    }

    method ReadU32() returns (v: uint32)
      requires Valid()
      modifies this
      ensures Valid() && off >= old(off) && (v, Unread()) == GetU32(old(Unread()))
    {
      assert Pow256(4) == TWO_32;
      var u, _ := ReadUint(4);
      v := u;
    }

    method ReadU64() returns (v: uint64)
      requires Valid()
      modifies this
      ensures Valid() && off >= old(off) && (v, Unread()) == GetU64(old(Unread()))
    {
      assert Pow256(8) == TWO_64;
      var u, _ := ReadUint(8);
      v := u;
    }

    method ReadI32() returns (v: int32)
      requires Valid()
      modifies this
      ensures Valid() && off >= old(off) && (v, Unread()) == GetI32(old(Unread()))
    {
      var u := ReadU32();
      v := Signed32(u);
    }

    method ReadI64() returns (v: int64)
      requires Valid()
      modifies this
      ensures Valid() && off >= old(off) && (v, Unread()) == GetI64(old(Unread()))
    {
      var u := ReadU64();
      v := Signed64(u);
    }
  }

  function Take(b: Bytes, n: nat): Bytes {
    if n > |b| then b else b[..n]
  }

  function Drop(b: Bytes, n: nat): (r: Bytes)
    ensures |r| <= |b|
  {
    if n > |b| then [] else b[n..]
  }
}
