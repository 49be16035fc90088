/** The scalar readers of arq/types: nullable strings, booleans, dates, data,
    hex SHA1s and blob headers, with the writers they must undo. `ParseX` states
    what the method `ReadX` does; `PutX(x, s)` is the encoding of x followed by s. */
module Wire {
  import opened Buffers

  // ---------- String, Boolean, Data ----------

  function ParseBool(b: Bytes): (r: Parse<bool>)
    ensures r.Ok? ==> |r.rest| < |b|
  {
    if b == [] then Err([]) else Ok(b[0] == 1, b[1..])
  }

  function PutBool(v: bool, s: Bytes): Bytes {
    [if v then 1 else 0] + s
  }

  method ReadBoolean(p: Buffer) returns (r: Result<bool>)
    requires p.Valid()
    modifies p
    ensures p.Valid() && p.off >= old(p.off) && ParseBool(old(p.Unread())).Is(r, p.Unread())
  {
    var isTrue :- p.ReadByte();
    r := Success(isTrue == 1);
  }

  /** A gated boolean: absent fields stay nil and consume nothing. */
  function ParseBoolIf(gate: bool, b: Bytes): (r: Parse<Option<bool>>)
    ensures r.Ok? ==> |r.rest| <= |b| && r.value.Some? == gate
  {
    if gate then
      var (v, b1) :- ParseBool(b);
      Ok(Some(v), b1)
    else
      Ok(None, b)
  }

  function PutBoolIf(v: Option<bool>, s: Bytes): Bytes {
    match v
    case None => s
    case Some(d) => PutBool(d, s)
  }

  method ReadBooleanIf(gate: bool, p: Buffer) returns (r: Result<Option<bool>>)
    requires p.Valid()
    modifies p
    ensures p.Valid() && p.off >= old(p.off) && ParseBoolIf(gate, old(p.Unread())).Is(r, p.Unread())
  {
    if gate {
      var v :- ReadBoolean(p);
      return Success(Some(v));
    }
    r := Success(None);
  }

  /** A length of 2^63 or more becomes a negative int, on which Next panics. */
  function ParseData(b: Bytes): (r: Parse<Bytes>)
    ensures r.Ok? ==> |r.rest| < |b|
  {
    if |b| < 8 then Err([])
    else
      var (n, b1) := GetU64(b);
      if n >= TWO_63 then Crash else Ok(Take(b1, n), Drop(b1, n))
  }

  function PutData(d: Bytes, s: Bytes): Bytes {
    PutU64(|d| % TWO_64, d + s)
  }

  lemma DataRoundTrip(d: Bytes, s: Bytes)
    requires |d| < TWO_63
    ensures ParseData(PutData(d, s)) == Ok(d, s)
  {
    IntegersRoundTrip();
    assert (d + s)[..|d|] == d && (d + s)[|d|..] == s;
  }

  method ReadData(p: Buffer) returns (r: Result<Bytes>)
    requires p.Valid()
    modifies p
    ensures p.Valid() && p.off >= old(p.off) && ParseData(old(p.Unread())).Is(r, p.Unread())
  {
    assert Pow256(8) == TWO_64;
    var length, ok := p.ReadUint(8);
    if !ok { return Failure; }
    r := p.Next(ToInt(length));
  }

  /** Go's int(x) of a uint64 on a 64-bit build. */
  function ToInt(x: uint64): int64 {
    Signed64(x)
  }

  function ParseString(b: Bytes): (r: Parse<Option<Bytes>>)
    ensures r.Ok? ==> |r.rest| < |b|
  {
    if b == [] then Err([])
    else if b[0] != 1 then Ok(None, b[1..])
    else
      var (d, rest) :- ParseData(b[1..]);
      Ok(Some(d), rest)
  }

  predicate Encodable(v: Option<Bytes>) {
    v.Some? ==> |v.value| < TWO_63
  }

  function PutString(v: Option<Bytes>, s: Bytes): Bytes {
    match v
    case None => [0] + s
    case Some(d) => [1] + PutData(d, s)
  }

  lemma StringRoundTrip(v: Option<Bytes>, s: Bytes)
    requires Encodable(v)
    ensures ParseString(PutString(v, s)) == Ok(v, s)
  {
    if v.Some? {
      DataRoundTrip(v.value, s);
      assert PutString(v, s)[1..] == PutData(v.value, s);
    }
  }

  method ReadString(p: Buffer) returns (r: Result<Option<Bytes>>)
    requires p.Valid()
    modifies p
    ensures p.Valid() && p.off >= old(p.off) && ParseString(old(p.Unread())).Is(r, p.Unread())
  {
    var isNull :- p.ReadByte();
    if isNull == 1 {
      var d :- ReadData(p);
      return Success(Some(d));
    }
    r := Success(None);
  }

  // ---------- Date ----------

  const MILLISECOND := 1_000_000

  /** time.Unix(0, int64(epochMs * uint64(time.Millisecond))), in nanoseconds. */
  function Nanoseconds(epochMs: uint64): int64 {
    Signed64(epochMs * MILLISECOND % TWO_64)
  }

  function ParseDate(b: Bytes): (r: Parse<Option<int64>>)
    ensures r.Ok? ==> |r.rest| < |b|
  {
    if b == [] then Err([])
    else if b[0] != 1 then Ok(None, b[1..])
    else if |b| < 9 then Err([])
    else
      var (ms, rest) := GetU64(b[1..]);
      Ok(Some(Nanoseconds(ms)), rest)
  }

  /** A date the format can hold: a whole number of milliseconds. */
  predicate WholeMilliseconds(v: Option<int64>) {
    v.Some? ==> v.value % MILLISECOND == 0
  }

  function PutDate(v: Option<int64>, s: Bytes): Bytes {
    match v
    case None => [0] + s
    case Some(ns) => [1] + PutI64(ns / MILLISECOND, s)
  }

  /** The multiplication wraps, and for every date inside int64 it wraps back. */
  lemma NanosecondsInvert(ns: int64)
    requires ns % MILLISECOND == 0
    ensures Nanoseconds(Unsigned64(ns / MILLISECOND)) == ns
  {
    var ms := ns / MILLISECOND;
    assert ms * MILLISECOND == ns;
    if ms < 0 {
      assert (ms + TWO_64) * MILLISECOND == ns + TWO_64 + (MILLISECOND - 1) * TWO_64;
      ModMultiple(ns + TWO_64, MILLISECOND - 1);
    }
  }

  lemma ModMultiple(x: nat, k: nat)
    requires x < TWO_64
    ensures (x + k * TWO_64) % TWO_64 == x
  {
  }

  lemma DateRoundTrip(v: Option<int64>, s: Bytes)
    requires WholeMilliseconds(v)
    ensures ParseDate(PutDate(v, s)) == Ok(v, s)
  {
    if v.Some? {
      var ms: int64 := v.value / MILLISECOND;
      assert PutDate(v, s)[1..] == PutI64(ms, s);
      assert PutI64(ms, s) == PutU64(Unsigned64(ms), s);
      IntegersRoundTrip();
      NanosecondsInvert(v.value);
    }
  }

  method ReadDate(p: Buffer) returns (r: Result<Option<int64>>)
    requires p.Valid()
    modifies p
    ensures p.Valid() && p.off >= old(p.off) && ParseDate(old(p.Unread())).Is(r, p.Unread())
  {
    var isNull :- p.ReadByte();
    if isNull == 1 {
      assert Pow256(8) == TWO_64;
      var epochMs, ok := p.ReadUint(8);
      if !ok { return Failure; }
      return Success(Some(Nanoseconds(epochMs)));
    }
    r := Success(None);
  }

  // ---------- SHA1 as a hex string ----------

  function HexDigit(n: nat): byte
    requires n < 16
  {
    if n < 10 then 48 + n else 87 + n
  }

  function HexValue(c: byte): Option<nat> {
    if 48 <= c <= 57 then Some(c - 48)
    else if 97 <= c <= 102 then Some(c - 87)
    else if 65 <= c <= 70 then Some(c - 55)
    else None
  }

  function HexEncode(d: Bytes): (h: Bytes)
    ensures |h| == 2 * |d|
  {
    if d == [] then [] else [HexDigit(d[0] / 16), HexDigit(d[0] % 16)] + HexEncode(d[1..])
  }

  /** hex.DecodeString: both letter cases; an odd length or another character fails. */
  function HexDecode(h: Bytes): (r: Option<Bytes>)
    ensures r.Some? ==> |h| == 2 * |r.value| && forall i :: 0 <= i < |r.value| ==> 0 <= r.value[i] < 256
  {
    if h == [] then Some([])
    else if |h| == 1 then None
    else
      match (HexValue(h[0]), HexValue(h[1]), HexDecode(h[2..]))
      case (Some(hi), Some(lo), Some(rest)) =>
        assert hi < 16 && lo < 16;
        Some([16 * hi + lo] + rest)
      case _ => None
  }

  lemma {:induction false} HexRoundTrip(d: Bytes)
    ensures HexDecode(HexEncode(d)) == Some(d)
  {
    if d != [] {
      HexRoundTrip(d[1..]);
      assert HexEncode(d)[2..] == HexEncode(d[1..]);
      assert d == [d[0]] + d[1..];
    }
  }

  /** copy into a [20]byte: longer data is cut, shorter data is zero-filled. */
  function Fit20(d: Bytes): Sha {
    if |d| >= 20 then d[..20] else d + Zeros(20 - |d|)
  }

  function ParseSha(b: Bytes): (r: Parse<Option<Sha>>)
    ensures r.Ok? ==> |r.rest| < |b|
  {
    var (v, rest) :- ParseString(b);
    if v.None? then Ok(None, rest)
    else
      match HexDecode(v.value)
      case None => Err(rest)
      case Some(d) => Ok(Some(Fit20(d)), rest)
  }

  function PutSha(v: Option<Sha>, s: Bytes): Bytes {
    match v
    case None => PutString(None, s)
    case Some(d) => PutString(Some(HexEncode(d)), s)
  }

  lemma ShaRoundTrip(v: Option<Sha>, s: Bytes)
    ensures ParseSha(PutSha(v, s)) == Ok(v, s)
  {
    if v.None? {
      StringRoundTrip(None, s);
    } else {
      StringRoundTrip(Some(HexEncode(v.value)), s);
      assert v.value[..20] == v.value;
      HexRoundTrip(v.value);
    }
  }

  /** copy(result[:], data) for a zeroed result [20]byte. */
  method CopySha(data: Bytes) returns (sha: Sha)
    ensures sha == Fit20(data)
  {
    var result := new byte[20](_ => 0);
    var n := if |data| < 20 then |data| else 20;
    for i := 0 to n
      invariant result[..i] == data[..i]
      invariant forall k :: i <= k < 20 ==> result[k] == 0
    {
      result[i] := data[i];
    }
    sha := result[..];
  }

  method ReadStringAsSHA1(p: Buffer) returns (r: Result<Option<Sha>>)
    requires p.Valid()
    modifies p
    ensures p.Valid() && p.off >= old(p.off) && ParseSha(old(p.Unread())).Is(r, p.Unread())
  {
    var data1 :- ReadString(p);
    if data1.None? { return Success(None); }
    var data2 := HexDecode(data1.value);
    if data2.None? { return Failure; }
    var sha := CopySha(data2.value);
    r := Success(Some(sha));
  }

  // ---------- Header ----------

  datatype Kind = TreeBlob | CommitBlob | XAttrBlob
  datatype Header = Header(data: Bytes, kind: Kind, version: int)

  function Name(kind: Kind): Bytes {
    match kind
    case TreeBlob => Ascii("TreeV")
    case CommitBlob => Ascii("CommitV")
    case XAttrBlob => Ascii("XAttrSetV")
  }

  function DecimalValue(s: Bytes): int {
    if s == [] then 0
    else
      var c: int := s[|s| - 1];
      10 * DecimalValue(s[..|s| - 1]) + c - 48
  }

  /** strconv.Atoi on the few bytes of a version: an optional sign, then digits. */
  function Atoi(s: Bytes): Option<int> {
    var signed := s != [] && (s[0] == 43 || s[0] == 45);
    var digits := if signed then s[1..] else s;
    if digits == [] || exists c :: c in digits && !(48 <= c <= 57) then None
    else if signed && s[0] == 45 then Some(-DecimalValue(digits))
    else Some(DecimalValue(digits))
  }

  /** The four bytes the reader dispatches on. */
  function Tag(kind: Kind): Bytes {
    match kind
    case TreeBlob => Ascii("Tree")
    case CommitBlob => Ascii("Comm")
    case XAttrBlob => Ascii("XAtt")
  }

  /** How many bytes follow the tag. */
  function TailLength(kind: Kind): nat {
    match kind
    case TreeBlob => 4
    case CommitBlob => 6
    case XAttrBlob => 8
  }

  function ParseVersion(kind: Kind, tag: Bytes, b: Bytes): Parse<Header> {
    var data := tag + Take(b, TailLength(kind));
    var rest := Drop(b, TailLength(kind));
    match Atoi(TrimPrefix(data, Name(kind)))
    case None => Err(rest)
    case Some(v) => Ok(Header(data, kind, v), rest)
  }

  function ParseHeader(b: Bytes): (r: Parse<Header>)
    ensures r.Ok? ==> |r.rest| < |b|
  {
    var tag, rest := Take(b, 4), Drop(b, 4);
    if tag == Tag(CommitBlob) then ParseVersion(CommitBlob, tag, rest)
    else if tag == Tag(TreeBlob) then ParseVersion(TreeBlob, tag, rest)
    else if tag == Tag(XAttrBlob) then ParseVersion(XAttrBlob, tag, rest)
    else Err(rest)
  }

  function ThreeDigits(v: nat): Bytes
    requires v < 1000
  {
    [48 + v / 100, 48 + v / 10 % 10, 48 + v % 10]
  }

  predicate WellFormedHeader(h: Header) {
    0 <= h.version < 1000 && h.data == Name(h.kind) + ThreeDigits(h.version)
  }

  function PutHeader(h: Header, s: Bytes): Bytes {
    h.data + s
  }

  lemma DecimalDigits(a: nat, b: nat, c: nat)
    requires a < 10 && b < 10 && c < 10
    ensures DecimalValue([48 + a, 48 + b, 48 + c]) == 100 * a + 10 * b + c
  {
    var x, y, z := [48 + a], [48 + a, 48 + b], [48 + a, 48 + b, 48 + c];
    assert z[..2] == y && y[..1] == x && x[..0] == [];
    assert DecimalValue(x) == a;
    assert DecimalValue(y) == 10 * a + b;
  }

  lemma AtoiDigits(a: nat, b: nat, c: nat)
    requires a < 10 && b < 10 && c < 10
    ensures Atoi([48 + a, 48 + b, 48 + c]) == Some(DecimalValue([48 + a, 48 + b, 48 + c]))
  {
    hide DecimalValue;
  }

  lemma DigitSum(v: nat)
    requires v < 1000
    ensures v / 100 < 10 && 100 * (v / 100) + 10 * (v / 10 % 10) + v % 10 == v
  {
    assert v / 10 / 10 == v / 100;
  }

  lemma AtoiThreeDigits(v: nat)
    requires v < 1000
    ensures Atoi(ThreeDigits(v)) == Some(v)
  {
    hide DecimalValue, Atoi;
    DigitSum(v);
    DecimalDigits(v / 100, v / 10 % 10, v % 10);
    AtoiDigits(v / 100, v / 10 % 10, v % 10);
  }

  lemma TagsDiffer(k: Kind)
    ensures Name(k)[..4] == Tag(k) && |Name(k)| - 1 == TailLength(k)
    ensures k == TreeBlob || Tag(k) != Tag(TreeBlob)
    ensures k == CommitBlob || Tag(k) != Tag(CommitBlob)
  {
    assert Tag(TreeBlob)[0] == 84 && Tag(CommitBlob)[0] == 67 && Tag(XAttrBlob)[0] == 88;
  }

  lemma VersionRoundTrip(h: Header, s: Bytes)
    requires WellFormedHeader(h)
    ensures ParseVersion(h.kind, h.data[..4], h.data[4..] + s) == Ok(h, s)
  {
    TagsDiffer(h.kind);
    assert Take(h.data[4..] + s, TailLength(h.kind)) == h.data[4..];
    assert Drop(h.data[4..] + s, TailLength(h.kind)) == s;
    assert h.data[..4] + h.data[4..] == h.data;
    assert TrimPrefix(h.data, Name(h.kind)) == ThreeDigits(h.version);
    AtoiThreeDigits(h.version);
  }

  lemma HeaderRoundTrip(h: Header, s: Bytes)
    requires WellFormedHeader(h)
    ensures ParseHeader(PutHeader(h, s)) == Ok(h, s)
  {
    hide ParseVersion, Ascii;
    TagsDiffer(h.kind);
    VersionRoundTrip(h, s);
    var b := PutHeader(h, s);
    assert Take(b, 4) == h.data[..4] == Name(h.kind)[..4];
    assert Drop(b, 4) == h.data[4..] + s;
  }

  method ReadHeader(p: Buffer) returns (r: Result<Header>)
    requires p.Valid()
    modifies p
    ensures p.Valid() && p.off >= old(p.off) && ParseHeader(old(p.Unread())).Is(r, p.Unread())
  {
    var prefix := p.NextBytes(4);
    var kind;
    if prefix == Tag(CommitBlob) {
      kind := CommitBlob;
    } else if prefix == Tag(TreeBlob) {
      kind := TreeBlob;
    } else if prefix == Tag(XAttrBlob) {
      kind := XAttrBlob;
    } else {
      return Failure;
    }
    var more := p.NextBytes(TailLength(kind));
    var version := Atoi(TrimPrefix(prefix + more, Name(kind)));
    if version.None? { return Failure; }
    r := Success(Header(prefix + more, kind, version.value));
  }

  // ---------- Counted loops ----------

  /** A loop that reads `n` items with one reader and appends them to `xs`. */
  function ParseMany<T>(parse: Bytes -> Parse<T>, xs: seq<T>, b: Bytes, n: nat): Parse<seq<T>>
    decreases n
  {
    if n == 0 then Ok(xs, b)
    else
      var (x, rest) :- parse(b);
      ParseMany(parse, xs + [x], rest, n - 1)
  }

  ghost predicate Consuming<T>(parse: Bytes -> Parse<T>) {
    forall b: Bytes :: parse(b).Ok? ==> |parse(b).rest| < |b|
  }

  /** A count above the number of unread bytes can only end in an error. */
  lemma {:induction false} ManyConsumes<T>(parse: Bytes -> Parse<T>, xs: seq<T>, b: Bytes, n: nat)
    requires Consuming(parse)
    ensures var r := ParseMany(parse, xs, b, n); r.Ok? ==> |r.value| == |xs| + n && n + |r.rest| <= |b|
    decreases n
  {
    if n > 0 && parse(b).Ok? {
      ManyConsumes(parse, xs + [parse(b).value], parse(b).rest, n - 1);
    }
  }

  function PutMany<T>(put: (T, Bytes) -> Bytes, xs: seq<T>, s: Bytes): Bytes {
    if xs == [] then s else put(xs[0], PutMany(put, xs[1..], s))
  }

  function MapSeq<T, U>(f: T -> U, xs: seq<T>): (ys: seq<U>)
    ensures |ys| == |xs| && forall i :: 0 <= i < |xs| ==> ys[i] == f(xs[i])
  {
    if xs == [] then [] else [f(xs[0])] + MapSeq(f, xs[1..])
  }

  lemma MapSeqFirst<T, U>(f: T -> U, xs: seq<T>)
    requires xs != []
    ensures MapSeq(f, xs) == [f(xs[0])] + MapSeq(f, xs[1..])
  {
  }

  /** One turn of the loop over written items. */
  lemma ManyStep<T>(parse: Bytes -> Parse<T>, put: (T, Bytes) -> Bytes, done: seq<T>, xs: seq<T>, s: Bytes)
    ensures var r := ParseMany(parse, done, PutMany(put, xs, s), |xs|);
            if xs == [] then r == Ok(done, s)
            else
              var p := parse(put(xs[0], PutMany(put, xs[1..], s)));
              r == if p.Ok? then ParseMany(parse, done + [p.value], p.rest, |xs| - 1) else p.PropagateFailure()
  {
  }

  lemma FirstOrRest<T>(xs: seq<T>)
    requires xs != []
    ensures forall x :: x in xs <==> x == xs[0] || x in xs[1..]
  {
    assert xs == [xs[0]] + xs[1..];
  }

  lemma Regroup<T>(a: seq<T>, x: T, b: seq<T>)
    ensures (a + [x]) + b == a + ([x] + b)
  {
  }

  /** If the item reader undoes the item writer up to `norm`, so does the loop;
      if it panics on some item, the loop panics. */
  lemma {:induction false} ManyRoundTrip<T>(
      parse: Bytes -> Parse<T>, put: (T, Bytes) -> Bytes, norm: T -> T, good: T -> bool,
      done: seq<T>, xs: seq<T>, s: Bytes)
    requires forall x, t {:trigger put(x, t)} ::
               x in xs ==> parse(put(x, t)) == if good(x) then Ok(norm(x), t) else Crash
    ensures ParseMany(parse, done, PutMany(put, xs, s), |xs|) ==
            if forall x :: x in xs ==> good(x) then Ok(done + MapSeq(norm, xs), s) else Crash
    decreases |xs|
  {
    hide MapSeq, ParseMany, PutMany;
    ManyStep(parse, put, done, xs, s);
    if xs == [] {
      assert done + MapSeq(norm, xs) == done;
    } else {
      var x, rest := xs[0], xs[1..];
      FirstOrRest(xs);
      if good(x) {
        ManyRoundTrip(parse, put, norm, good, done + [norm(x)], rest, s);
        MapSeqFirst(norm, xs);
        Regroup(done, norm(x), MapSeq(norm, rest));
      }
    }
  }

  /** If the item writer loses nothing, neither does the loop. */
  lemma {:induction false} ManyInjective<T>(
      put: (T, Bytes) -> Bytes, ok: T -> bool, xs: seq<T>, ys: seq<T>, s: Bytes, t: Bytes)
    requires forall x, y, s: Bytes, t: Bytes {:trigger put(x, s), put(y, t)} ::
               ok(x) && ok(y) && put(x, s) == put(y, t) ==> x == y && s == t
    requires |xs| == |ys| && (forall x :: x in xs ==> ok(x)) && (forall y :: y in ys ==> ok(y))
    requires PutMany(put, xs, s) == PutMany(put, ys, t)
    ensures xs == ys && s == t
    decreases |xs|
  {
    if xs != [] {
      assert ok(xs[0]) && ok(ys[0]);
      ManyInjective(put, ok, xs[1..], ys[1..], s, t);
      assert xs == [xs[0]] + xs[1..] && ys == [ys[0]] + ys[1..];
    }
  }

  lemma {:induction false} ManyAppend<T>(put: (T, Bytes) -> Bytes, xs: seq<T>, s: Bytes, t: Bytes)
    requires forall x, s: Bytes, t: Bytes :: put(x, s) + t == put(x, s + t)
    ensures PutMany(put, xs, s) + t == PutMany(put, xs, s + t)
    decreases |xs|
  {
    if xs != [] {
      ManyAppend(put, xs[1..], s, t);
    }
  }

  /** Every scalar writer is a prefix in front of its suffix. */
  lemma ScalarsAppend()
    ensures forall v, s: Bytes, t: Bytes {:trigger PutBoolIf(v, s) + t} :: PutBoolIf(v, s) + t == PutBoolIf(v, s + t)
    ensures forall v, s: Bytes, t: Bytes {:trigger PutBool(v, s) + t} :: PutBool(v, s) + t == PutBool(v, s + t)
    ensures forall v, s: Bytes, t: Bytes {:trigger PutString(v, s) + t} :: PutString(v, s) + t == PutString(v, s + t)
    ensures forall v, s: Bytes, t: Bytes {:trigger PutDate(v, s) + t} :: PutDate(v, s) + t == PutDate(v, s + t)
    ensures forall v, s: Bytes, t: Bytes {:trigger PutSha(v, s) + t} :: PutSha(v, s) + t == PutSha(v, s + t)
    ensures forall d, s: Bytes, t: Bytes {:trigger PutData(d, s) + t} :: PutData(d, s) + t == PutData(d, s + t)
  {
    IntegersAppend();
    forall v, s: Bytes, t: Bytes ensures PutBool(v, s) + t == PutBool(v, s + t) {
      assert ([if v then 1 else 0] + s) + t == [if v then 1 else 0] + (s + t);
    }
    forall d: Bytes, s: Bytes, t: Bytes ensures PutData(d, s) + t == PutData(d, s + t) {
      assert (d + s) + t == d + (s + t);
    }
    forall v: Option<Bytes>, s: Bytes, t: Bytes ensures PutString(v, s) + t == PutString(v, s + t) {
      match v
      case None => assert ([0] + s) + t == [0] + (s + t);
      case Some(d) => assert ([1] + PutData(d, s)) + t == [1] + (PutData(d, s) + t);
    }
    forall v: Option<int64>, s: Bytes, t: Bytes ensures PutDate(v, s) + t == PutDate(v, s + t) {
      match v
      case None => assert ([0] + s) + t == [0] + (s + t);
      case Some(ns) => assert ([1] + PutI64(ns / MILLISECOND, s)) + t == [1] + (PutI64(ns / MILLISECOND, s) + t);
    }
  }

  lemma BoolIfAppend(v: Option<bool>, s: Bytes, t: Bytes)
    ensures PutBoolIf(v, s) + t == PutBoolIf(v, s + t)
  {
    ScalarsAppend();
  }

  lemma BoolIfRoundTrip(v: Option<bool>, s: Bytes)
    ensures ParseBoolIf(v.Some?, PutBoolIf(v, s)) == Ok(v, s)
  {
  }

  /** Every scalar reader undoes its writer. */
  lemma ScalarsRoundTrip()
    ensures forall v, s {:trigger PutBool(v, s)} :: ParseBool(PutBool(v, s)) == Ok(v, s)
    ensures forall g, v: Option<bool>, s {:trigger ParseBoolIf(g, PutBoolIf(v, s))} ::
              g == v.Some? ==> ParseBoolIf(g, PutBoolIf(v, s)) == Ok(v, s)
    ensures forall v, s {:trigger PutString(v, s)} :: Encodable(v) ==> ParseString(PutString(v, s)) == Ok(v, s)
    ensures forall v, s {:trigger PutDate(v, s)} :: WholeMilliseconds(v) ==> ParseDate(PutDate(v, s)) == Ok(v, s)
    ensures forall v, s {:trigger PutSha(v, s)} :: ParseSha(PutSha(v, s)) == Ok(v, s)
  {
    forall v, s | Encodable(v) ensures ParseString(PutString(v, s)) == Ok(v, s) { StringRoundTrip(v, s); }
    forall v, s | WholeMilliseconds(v) ensures ParseDate(PutDate(v, s)) == Ok(v, s) { DateRoundTrip(v, s); }
    forall v, s ensures ParseSha(PutSha(v, s)) == Ok(v, s) { ShaRoundTrip(v, s); }
  }

  // ---------- In plain bytes ----------

  lemma BooleanBytes(x: byte, s: Bytes)
    ensures ParseBool([x] + s) == Ok(x == 1, s)
    ensures ParseBool([]) == Err([])
  {
    assert ([x] + s)[1..] == s;
  }

  /** Up to 255 bytes of data behind an eight-byte length; data that is cut off comes back
      short, a length that is cut off is an error, and one of 2^63 or more a panic. */
  lemma DataBytes(n: byte, d: Bytes, s: Bytes)
    requires |d| == n
    ensures ParseData([0, 0, 0, 0, 0, 0, 0, n] + (d + s)) == Ok(d, s)
  {
    U64Bytes(0, 0, 0, 0, 0, 0, 0, n, d + s);
    assert (d + s)[..n] == d && (d + s)[n..] == s;
  }

  lemma CutDataBytes(n: byte, d: Bytes)
    requires |d| < n
    ensures ParseData([0, 0, 0, 0, 0, 0, 0, n] + d) == Ok(d, [])
  {
    U64Bytes(0, 0, 0, 0, 0, 0, 0, n, d);
  }

  lemma BadLengthBytes(x: byte, y: Bytes, s: Bytes)
    requires x >= 128 && |y| == 7
    ensures ParseData([x] + y + s) == Crash
    ensures forall b: Bytes :: |b| < 8 ==> ParseData(b).Err?
  {
    U64Bytes(x, y[0], y[1], y[2], y[3], y[4], y[5], y[6], s);
    assert [x] + y + s == [x, y[0], y[1], y[2], y[3], y[4], y[5], y[6]] + s;
  }

  /** Only the flag 1 is followed by a value. */
  lemma StringBytes(x: byte, s: Bytes)
    ensures x != 1 ==> ParseString([x] + s) == Ok(None, s)
    ensures ParseString([1] + s) ==
            match ParseData(s) case Ok(d, t) => Ok(Some(d), t) case Err(t) => Err(t) case Crash => Crash
    ensures ParseString([]).Err?
  {
    hide ParseData;
    assert ([x] + s)[1..] == s && ([1] + s)[1..] == s;
  }

  /** Milliseconds, kept as nanoseconds. */
  lemma DateBytes(x: byte, s: Bytes)
    ensures x != 1 ==> ParseDate([x] + s) == Ok(None, s)
    ensures |s| < 8 ==> ParseDate([1] + s).Err?
    ensures |s| >= 8 && GetU64(s).0 < 9_223_372_036_854 ==>
              ParseDate([1] + s) == Ok(Some(1_000_000 * GetU64(s).0), GetU64(s).1)
    ensures ParseDate([]).Err?
  {
    hide GetU64;
    assert ([x] + s)[1..] == s && ([1] + s)[1..] == s;
  }

  /** Both letter cases, and nothing else. */
  lemma HexDigitsExactly(c: byte, v: nat)
    ensures HexValue(c) == Some(v) <==>
            (v < 10 && c == 48 + v) || (10 <= v < 16 && (c == 97 + (v - 10) || c == 65 + (v - 10)))
  {
  }

  lemma {:induction false} HexDecodeExactly(h: Bytes)
    ensures HexDecode(h).Some? <==> |h| % 2 == 0 && forall c :: c in h ==> HexValue(c).Some?
    decreases |h|
  {
    if |h| >= 2 {
      HexDecodeExactly(h[2..]);
      assert h == [h[0], h[1]] + h[2..];
    }
  }

  /** A SHA1 that is no hex string is an error. */
  lemma BadShaBytes(h: Bytes, s: Bytes)
    requires |h| < TWO_63 && HexDecode(h) == None
    ensures ParseSha(PutString(Some(h), s)) == Err(s)
  {
    hide ParseString, PutString, HexDecode;
    StringRoundTrip(Some(h), s);
  }

  /** One of another length is filled with zeros or cut to 20 bytes. */
  lemma ShaOfAnyLength(d: Bytes, s: Bytes)
    requires |d| < TWO_32
    ensures ParseSha(PutString(Some(HexEncode(d)), s)) ==
            Ok(Some(if |d| <= 20 then d + Zeros(20 - |d|) else d[..20]), s)
  {
    hide ParseString, PutString, HexDecode, HexEncode;
    StringRoundTrip(Some(HexEncode(d)), s);
    HexRoundTrip(d);
    if |d| == 20 { assert d + Zeros(0) == d && d[..20] == d; }
  }

  /** "TreeV", "CommitV" and "XAttrSetV". */
  lemma NamesAreAscii()
    ensures Name(TreeBlob) == [84, 114, 101, 101, 86]
    ensures Name(CommitBlob) == [67, 111, 109, 109, 105, 116, 86]
    ensures Name(XAttrBlob) == [88, 65, 116, 116, 114, 83, 101, 116, 86]
  {
  }

  lemma DigitsOf(a: nat, b: nat, c: nat)
    requires a < 10 && b < 10 && c < 10
    ensures ThreeDigits(100 * a + 10 * b + c) == [48 + a, 48 + b, 48 + c]
  {
    LastDigit(10 * a + b, c);
    LastDigit(a, b);
    var v := 100 * a + 10 * b + c;
    assert v == 10 * (10 * a + b) + c;
    assert v / 100 == a;
  }

  lemma LastDigit(x: nat, d: nat)
    requires d < 10
    ensures (10 * x + d) / 10 == x && (10 * x + d) % 10 == d
  {
  }

  /** The name of the kind and three digits. */
  lemma HeaderBytes(kind: Kind, a: nat, b: nat, c: nat, s: Bytes)
    requires a < 10 && b < 10 && c < 10
    ensures var t := Name(kind) + [48 + a, 48 + b, 48 + c];
            ParseHeader(t + s) == Ok(Header(t, kind, 100 * a + 10 * b + c), s)
  {
    hide ParseHeader, Name, ThreeDigits;
    var v := 100 * a + 10 * b + c;
    DigitsOf(a, b, c);
    HeaderRoundTrip(Header(Name(kind) + ThreeDigits(v), kind, v), s);
  }

  /** Any other beginning is an error. */
  lemma HeaderTagsExactly(b: Bytes)
    requires ParseHeader(b).Ok?
    ensures |b| >= 4 && b[..4] in {[84, 114, 101, 101], [67, 111, 109, 109], [88, 65, 116, 116]}
  {
    hide ParseVersion;
    assert Tag(TreeBlob) == [84, 114, 101, 101] && Tag(CommitBlob) == [67, 111, 109, 109];
    assert Tag(XAttrBlob) == [88, 65, 116, 116];
  }

  /** A version is an optional sign and digits, at least one, and nothing else. */
  lemma AtoiExactly(sign: Bytes, digits: Bytes)
    requires sign == [] || sign == [43] || sign == [45]
    requires digits != [] && forall c :: c in digits ==> 48 <= c <= 57
    ensures Atoi(sign + digits) == Some(if sign == [45] then -DecimalValue(digits) else DecimalValue(digits))
  {
    hide DecimalValue;
    assert digits[0] in digits;
    if sign == [] { assert sign + digits == digits; } else { assert (sign + digits)[1..] == digits; }
  }

  lemma AtoiFails(s: Bytes, i: nat)
    ensures i < |s| && !(48 <= s[i] <= 57) && !(i == 0 && (s[0] == 43 || s[0] == 45)) ==> Atoi(s) == None
    ensures s == [] || s == [43] || s == [45] ==> Atoi(s) == None
  {
    if i < |s| && i > 0 { assert s[1..][i - 1] == s[i]; }
    if i < |s| { assert s[i] in s; }
  }
}
