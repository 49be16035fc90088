/** Pack indexes and packed objects (arq/pack_set_index.go): the fanout lookup and
    the framing of objects inside a pack. */
module PackIndex {
  import opened Buffers
  import opened Wire

  const HEADER_SIZE := 1032  // two words and the 256-word fanout table
  const RECORD_SIZE := 40

  datatype IndexObject = IndexObject(offset: uint64, length: uint64, sha1: Sha)

  /** What searching for a SHA1 comes to; `Broken` is the panic on a nil record. */
  datatype Lookup = Missing | Hit(pio: IndexObject) | Broken

  // ---------- One index file ----------

  function FanoutEntry(contents: Bytes, b: byte): uint32
    requires |contents| >= HEADER_SIZE
  {
    GetU32(contents[8 + 4 * b..]).0
  }

  /** The fanout table; a file too short for the header leaves it all zero. */
  function Fanout(contents: Bytes, b: byte): uint32 {
    if |contents| < HEADER_SIZE then 0 else FanoutEntry(contents, b)
  }

  /** A record needs all its 40 bytes; the last four are padding. */
  function ParseRecord(b: Bytes): Option<IndexObject> {
    if |b| < RECORD_SIZE then None
    else
      assert Pow256(8) == TWO_64;
      Some(IndexObject(FromBE(b[..8]), FromBE(b[8..16]), b[16..36]))
  }

  /** Word b of the 256 that follow the first eight bytes; a file that is too short for all
      of them has none. */
  lemma FanoutExactly(contents: Bytes, b: byte)
    ensures Fanout(contents, b) == if |contents| >= 1032 then GetU32(contents[8 + 4 * b..]).0 else 0
  {
  }

  function ScanBucket(b: Bytes, n: int, target: Sha): Lookup
    decreases n
  {
    if n <= 0 then Missing
    else
      match ParseRecord(b)
      case None => Broken
      case Some(r) => if r.sha1 == target then Hit(r) else ScanBucket(Drop(b, RECORD_SIZE), n - 1, target)
  }

  /** Go's byte subtraction wraps. */
  function Predecessor(b: byte): byte {
    (b + 255) % 256
  }

  function LookupIndex(contents: Bytes, target: Sha): Lookup {
    var less := Fanout(contents, Predecessor(target[0]));
    var upTo := Fanout(contents, target[0]);
    ScanBucket(Drop(Drop(contents, HEADER_SIZE), less * RECORD_SIZE), upTo - less, target)
  }

  method ReadIntoPackIndexObject(p: Buffer) returns (pio: Option<IndexObject>)
    requires p.Valid()
    modifies p
    ensures p.Valid() && p.off >= old(p.off) && p.Unread() == Drop(old(p.Unread()), RECORD_SIZE)
    ensures pio == ParseRecord(old(p.Unread()))
  {
    ghost var b := p.Unread();
    var record := p.NextBytes(RECORD_SIZE);
    pio := ParseRecord(record);
    if |b| >= RECORD_SIZE {
      assert record[..8] == b[..8] && record[8..16] == b[8..16] && record[16..36] == b[16..36];
    }
  }

  /** The loop over one index file in GetTreePackFile and GetBlobPackFile. */
  method SearchIndex(contents: Bytes, target: Sha) returns (r: Lookup)
    ensures r == LookupIndex(contents, target)
  {
    hide Fanout, ParseRecord;
    var p := new Buffer(contents);
    var _ := p.NextBytes(HEADER_SIZE);
    var numberLess := Fanout(contents, Predecessor(target[0]));
    var numberUpTo := Fanout(contents, target[0]);
    var _ := p.NextBytes(numberLess * RECORD_SIZE);
    var numberOfObjects := numberUpTo - numberLess;
    var i := 0;
    while i < numberOfObjects
      invariant p.Valid()
      invariant i == 0 || i <= numberOfObjects
      invariant LookupIndex(contents, target) == ScanBucket(p.Unread(), numberOfObjects - i, target)
    {
      var pio := ReadIntoPackIndexObject(p);
      if pio.None? { return Broken; }
      if pio.value.sha1 == target { return Hit(pio.value); }
      i := i + 1;
    }
    r := Missing;
  }

  // ---------- The index as a list of records ----------

  /** The first record in recs[lo..hi] with the SHA1. */
  function FirstIn(recs: seq<IndexObject>, lo: nat, hi: nat, target: Sha): (r: Option<IndexObject>)
    requires lo <= hi <= |recs|
    ensures r.None? ==> forall i :: lo <= i < hi ==> recs[i].sha1 != target
    ensures r.Some? ==>
              exists i :: lo <= i < hi && r.value == recs[i] && recs[i].sha1 == target &&
                          forall j :: lo <= j < i ==> recs[j].sha1 != target
    decreases hi - lo
  {
    if lo == hi then None
    else if recs[lo].sha1 == target then Some(recs[lo])
    else FirstIn(recs, lo + 1, hi, target)
  }

  /** A linear scan of all records. */
  function LinearScan(recs: seq<IndexObject>, target: Sha): Option<IndexObject> {
    FirstIn(recs, 0, |recs|, target)
  }

  function CountUpTo(recs: seq<IndexObject>, b: byte): (n: nat)
    ensures n <= |recs|
  {
    if recs == [] then 0
    else CountUpTo(recs[..|recs| - 1], b) + if recs[|recs| - 1].sha1[0] <= b then 1 else 0
  }

  /** The file from record i on. */
  function FromRecord(contents: Bytes, i: nat): Bytes {
    Drop(contents, HEADER_SIZE + RECORD_SIZE * i)
  }

  /** The file holds these records after its header. */
  ghost predicate Holds(contents: Bytes, recs: seq<IndexObject>) {
    && |contents| >= HEADER_SIZE + RECORD_SIZE * |recs|
    && (forall i :: 0 <= i < |recs| ==> ParseRecord(FromRecord(contents, i)) == Some(recs[i]))
  }

  /** The fanout table holds the cumulative counts of first bytes. */
  ghost predicate Cumulative(contents: Bytes, recs: seq<IndexObject>) {
    forall b: byte :: Fanout(contents, b) == CountUpTo(recs, b)
  }

  predicate Grouped(recs: seq<IndexObject>) {
    forall i, j :: 0 <= i < j < |recs| ==> recs[i].sha1[0] <= recs[j].sha1[0]
  }

  /** A pack index as Arq writes it. */
  ghost predicate IndexOf(contents: Bytes, recs: seq<IndexObject>) {
    Holds(contents, recs) && Cumulative(contents, recs) && Grouped(recs)
  }

  lemma {:induction false} GroupedCount(recs: seq<IndexObject>, b: byte, i: nat)
    requires Grouped(recs)
    requires i < |recs|
    ensures i < CountUpTo(recs, b) <==> recs[i].sha1[0] <= b
    decreases |recs|
  {
    var n := |recs| - 1;
    if i < n {
      GroupedCount(recs[..n], b, i);
      if n > 0 { GroupedCount(recs[..n], b, n - 1); }
    } else if n > 0 {
      GroupedCount(recs[..n], b, n - 1);
    }
  }

  lemma {:induction false} ScanIsFirstIn(contents: Bytes, recs: seq<IndexObject>, lo: nat, hi: nat, target: Sha)
    requires Holds(contents, recs) && lo <= hi <= |recs|
    ensures ScanBucket(FromRecord(contents, lo), hi - lo, target) ==
            match FirstIn(recs, lo, hi, target) case None => Missing case Some(r) => Hit(r)
    decreases hi - lo
  {
    hide ParseRecord, Fanout, CountUpTo;
    if lo < hi {
      assert Drop(FromRecord(contents, lo), RECORD_SIZE) == FromRecord(contents, lo + 1);
      ScanIsFirstIn(contents, recs, lo + 1, hi, target);
    }
  }

  lemma {:induction false} FirstInBucket(recs: seq<IndexObject>, lo: nat, hi: nat, target: Sha)
    requires lo <= hi <= |recs|
    requires forall i :: 0 <= i < |recs| && recs[i].sha1 == target ==> lo <= i < hi
    ensures FirstIn(recs, lo, hi, target) == LinearScan(recs, target)
  {
    var bucket, all := FirstIn(recs, lo, hi, target), LinearScan(recs, target);
    if bucket.Some? && all.Some? {
      var i :| lo <= i < hi && bucket.value == recs[i] && recs[i].sha1 == target &&
               forall j :: lo <= j < i ==> recs[j].sha1 != target;
      var k :| 0 <= k < |recs| && all.value == recs[k] && recs[k].sha1 == target &&
               forall j :: 0 <= j < k ==> recs[j].sha1 != target;
      assert i == k;
    }
  }

  lemma {:induction false} CountMonotone(recs: seq<IndexObject>, b: byte, c: byte)
    requires b <= c
    ensures CountUpTo(recs, b) <= CountUpTo(recs, c)
  {
    if recs != [] { CountMonotone(recs[..|recs| - 1], b, c); }
  }

  /** The records with first byte t are exactly those between two counts. */
  lemma BucketBounds(recs: seq<IndexObject>, t: byte)
    requires Grouped(recs) && t > 0
    ensures CountUpTo(recs, t - 1) <= CountUpTo(recs, t)
    ensures forall i :: 0 <= i < |recs| && recs[i].sha1[0] == t ==> CountUpTo(recs, t - 1) <= i < CountUpTo(recs, t)
  {
    hide CountUpTo;
    CountMonotone(recs, t - 1, t);
    forall i | 0 <= i < |recs|
      ensures i < CountUpTo(recs, t - 1) <==> recs[i].sha1[0] <= t - 1
      ensures i < CountUpTo(recs, t) <==> recs[i].sha1[0] <= t
    {
      GroupedCount(recs, t - 1, i);
      GroupedCount(recs, t, i);
    }
  }

  lemma ZeroIsMissed(contents: Bytes, recs: seq<IndexObject>, target: Sha)
    requires IndexOf(contents, recs) && target[0] == 0
    ensures LookupIndex(contents, target) == Missing
  {
    hide Fanout, CountUpTo, ScanBucket, Holds, Grouped;
    FanoutTop(recs);
    EmptyScan(Drop(Drop(contents, HEADER_SIZE), |recs| * RECORD_SIZE), CountUpTo(recs, 0) - |recs|, target);
  }

  lemma BucketIsScan(contents: Bytes, recs: seq<IndexObject>, target: Sha)
    requires IndexOf(contents, recs) && target[0] > 0
    ensures var t := target[0];
            && CountUpTo(recs, t - 1) <= CountUpTo(recs, t) <= |recs|
            && LookupIndex(contents, target) ==
               ScanBucket(FromRecord(contents, CountUpTo(recs, t - 1)), CountUpTo(recs, t) - CountUpTo(recs, t - 1),
                          target)
  {
    hide Fanout, CountUpTo, ScanBucket, Holds, Grouped, FromRecord;
    var t := target[0];
    assert |contents| >= HEADER_SIZE + RECORD_SIZE * |recs| by { HoldsLength(contents, recs); }
    BucketBounds(recs, t);
    assert Predecessor(t) == t - 1;
    BucketStart(contents, CountUpTo(recs, t - 1));
  }

  /** The bucketed scan and the linear scan find the same record, or neither finds
      one, for every SHA1 whose first byte is not 0. For first byte 0 the wrapped
      subtraction makes the bucket empty: such an object is never found. */
  lemma LookupIsLinearScan(contents: Bytes, recs: seq<IndexObject>, target: Sha)
    requires IndexOf(contents, recs)
    ensures LookupIndex(contents, target) ==
            if target[0] == 0 then Missing
            else match LinearScan(recs, target) case None => Missing case Some(r) => Hit(r)
  {
    hide Cumulative, LookupIndex, CountUpTo, ScanBucket, Holds, Grouped, LinearScan, FromRecord;
    var t := target[0];
    if t == 0 {
      ZeroIsMissed(contents, recs, target);
    } else {
      BucketBounds(recs, t);
      BucketIsScan(contents, recs, target);
      ScanIsFirstIn(contents, recs, CountUpTo(recs, t - 1), CountUpTo(recs, t), target);
      FirstInBucket(recs, CountUpTo(recs, t - 1), CountUpTo(recs, t), target);
    }
  }

  lemma BucketStart(contents: Bytes, less: nat)
    requires |contents| >= HEADER_SIZE + RECORD_SIZE * less
    ensures Drop(Drop(contents, HEADER_SIZE), less * RECORD_SIZE) == FromRecord(contents, less)
  {
  }

  lemma HoldsLength(contents: Bytes, recs: seq<IndexObject>)
    requires Holds(contents, recs)
    ensures |contents| >= HEADER_SIZE + RECORD_SIZE * |recs|
  {
  }

  lemma EmptyScan(b: Bytes, n: int, target: Sha)
    requires n <= 0
    ensures ScanBucket(b, n, target) == Missing
  {
  }

  lemma {:induction false} FanoutTop(recs: seq<IndexObject>)
    ensures CountUpTo(recs, 255) == |recs|
  {
    if recs != [] { FanoutTop(recs[..|recs| - 1]); }
  }

  /** Bytes 16 to 36 of the i-th 40 bytes. */
  function ShaAt(b: Bytes, i: nat): Bytes
    requires 40 * (i + 1) <= |b|
  {
    b[40 * i + 16..40 * i + 36]
  }

  /** None of the whole records in b has this SHA1. */
  ghost predicate NoRecord(b: Bytes, target: Sha) {
    forall i: nat :: 40 * (i + 1) <= |b| ==> ShaAt(b, i) != target
  }

  lemma NoRecordStep(b: Bytes, target: Sha)
    requires |b| >= 40
    ensures NoRecord(b, target) <==> b[16..36] != target && NoRecord(b[40..], target)
  {
    assert ShaAt(b, 0) == b[16..36];
    forall i: nat | 40 * (i + 1) <= |b[40..]|
      ensures ShaAt(b[40..], i) == ShaAt(b, i + 1)
    {
    }
    if !NoRecord(b, target) {
      var i: nat :| 40 * (i + 1) <= |b| && ShaAt(b, i) == target;
      if i > 0 { assert ShaAt(b[40..], i - 1) == target; }
    }
  }

  /** A file that ends inside the bucket makes the lookup panic, unless the SHA1 is found
      before the end. */
  lemma {:induction false} CutBucketPanics(b: Bytes, n: int, target: Sha)
    requires n > 0 && |b| < 40 * n
    ensures ScanBucket(b, n, target) == Broken <==> NoRecord(b, target)
    decreases n
  {
    hide NoRecord;
    if |b| >= 40 {
      CutBucketPanics(b[40..], n - 1, target);
      NoRecordStep(b, target);
    } else {
      NoWholeRecord(b, target);
    }
  }

  lemma NoWholeRecord(b: Bytes, target: Sha)
    requires |b| < 40
    ensures NoRecord(b, target)
  {
  }

  // ---------- All index files of a pack set ----------

  /** A file <name>.index; it goes with the pack <name>.pack. */
  datatype IndexFile = IndexFile(name: Bytes, contents: Bytes)
  datatype Located = NotFound | At(pio: IndexObject, packName: Bytes) | Panics

  function Locate(files: seq<IndexFile>, target: Sha): Located {
    if files == [] then NotFound
    else
      var n := |files| - 1;
      match (Locate(files[..n], target), LookupIndex(files[n].contents, target))
      case (Panics, _) => Panics
      case (_, Broken) => Panics
      case (before, Missing) => before
      case (_, Hit(r)) => At(r, files[n].name)
  }

  method FindPackIndexObject(files: seq<IndexFile>, target: Sha) returns (r: Located)
    ensures r == Locate(files, target)
  {
    hide LookupIndex;
    r := NotFound;
    for k := 0 to |files|
      invariant r == Locate(files[..k], target) && r != Panics
    {
      assert files[..k + 1][..k] == files[..k];
      var found := SearchIndex(files[k].contents, target);
      if found.Broken? {
        LocatePanics(files, k + 1, target);
        return Panics;
      }
      if found.Hit? { r := At(found.pio, files[k].name); }
    }
    assert files[..|files|] == files;
  }

  lemma {:induction false} LocatePanics(files: seq<IndexFile>, k: nat, target: Sha)
    requires k <= |files| && Locate(files[..k], target) == Panics
    ensures Locate(files, target) == Panics
    decreases |files|
  {
    hide LookupIndex;
    if k == |files| {
      assert files[..k] == files;
    } else {
      assert files[..|files| - 1][..k] == files[..k];
      LocatePanics(files[..|files| - 1], k, target);
    }
  }

  /** A lookup that panics in any index file panics. */
  lemma {:induction false} LocatePanicsExactly(files: seq<IndexFile>, target: Sha)
    ensures Locate(files, target) == Panics <==>
            exists k :: 0 <= k < |files| && LookupIndex(files[k].contents, target) == Broken
    decreases |files|
  {
    hide LookupIndex;
    if files != [] {
      var n := |files| - 1;
      LocatePanicsExactly(files[..n], target);
      assert forall k :: 0 <= k < n ==> files[k] == files[..n][k];
    }
  }

  /** Across index files the last one that contains the SHA1 wins. */
  lemma {:induction false} LastFileWins(files: seq<IndexFile>, recs: seq<seq<IndexObject>>, target: Sha, k: nat)
    requires |recs| == |files| && forall i :: 0 <= i < |files| ==> IndexOf(files[i].contents, recs[i])
    requires target[0] != 0
    requires k < |files| && LinearScan(recs[k], target).Some?
    requires forall i :: k < i < |files| ==> LinearScan(recs[i], target).None?
    ensures Locate(files, target) == At(LinearScan(recs[k], target).value, files[k].name)
    decreases |files|
  {
    hide LookupIndex, LinearScan, IndexOf;
    var n := |files| - 1;
    LookupIsLinearScan(files[n].contents, recs[n], target);
    if k < n {
      LastFileWins(files[..n], recs[..n], target, k);
    } else {
      NoPanics(files[..n], recs[..n], target);
    }
  }

  lemma {:induction false} NoPanics(files: seq<IndexFile>, recs: seq<seq<IndexObject>>, target: Sha)
    requires |recs| == |files| && forall i :: 0 <= i < |files| ==> IndexOf(files[i].contents, recs[i])
    ensures Locate(files, target) != Panics
    decreases |files|
  {
    hide LookupIndex, LinearScan, IndexOf;
    if files != [] {
      var n := |files| - 1;
      NoPanics(files[..n], recs[..n], target);
      LookupIsLinearScan(files[n].contents, recs[n], target);
    }
  }

  /** No file has a record: nothing is found. A SHA1 with first byte 0 is never
      found, whatever the files hold. */
  lemma {:induction false} NothingLocated(files: seq<IndexFile>, recs: seq<seq<IndexObject>>, target: Sha)
    requires |recs| == |files| && forall i :: 0 <= i < |files| ==> IndexOf(files[i].contents, recs[i])
    ensures Locate(files, target) == NotFound <==>
            target[0] == 0 || forall i :: 0 <= i < |files| ==> LinearScan(recs[i], target).None?
    decreases |files|
  {
    hide LookupIndex, LinearScan, IndexOf;
    if files != [] {
      var n := |files| - 1;
      NothingLocated(files[..n], recs[..n], target);
      NoPanics(files[..n], recs[..n], target);
      LookupIsLinearScan(files[n].contents, recs[n], target);
      assert forall i :: 0 <= i < n ==> recs[..n][i] == recs[i];
    }
  }

  // ---------- The index file as it is written ----------

  /** One record: offset, length, SHA1, four bytes of padding. */
  function PutRecord(r: IndexObject, s: Bytes): Bytes {
    PutU64(r.offset, PutU64(r.length, r.sha1 + ([0, 0, 0, 0] + s)))
  }

  lemma RecordRoundTrip(r: IndexObject, s: Bytes)
    ensures ParseRecord(PutRecord(r, s)) == Some(r)
    ensures |PutRecord(r, s)| == 40 + |s| && PutRecord(r, s)[40..] == s
  {
    assert Pow256(8) == TWO_64;
    var tail: Bytes := r.sha1 + ([0, 0, 0, 0] + s);
    var b := PutRecord(r, s);
    FromToBE(8, r.offset);
    FromToBE(8, r.length);
    assert b == ToBE(8, r.offset) + (ToBE(8, r.length) + tail);
    assert b[..8] == ToBE(8, r.offset) && b[8..16] == ToBE(8, r.length);
    assert b[16..] == tail && tail[..20] == r.sha1 && b[16..36] == tail[..20];
    assert b[40..] == tail[24..] == s;
  }

  function PutRecords(recs: seq<IndexObject>, s: Bytes): Bytes {
    if recs == [] then s else PutRecord(recs[0], PutRecords(recs[1..], s))
  }

  /** How many records have a first byte of at most b. */
  function AtMost(recs: seq<IndexObject>, b: nat): nat {
    if recs == [] then 0 else (if recs[0].sha1[0] <= b then 1 else 0) + AtMost(recs[1..], b)
  }

  /** The fanout words from byte b on. */
  function PutFanout(recs: seq<IndexObject>, b: nat, s: Bytes): Bytes
    requires |recs| < TWO_32
    decreases 256 - b
  {
    if b >= 256 then s
    else
      AtMostBounded(recs, b);
      PutU32(AtMost(recs, b), PutFanout(recs, b + 1, s))
  }

  lemma {:induction false} AtMostBounded(recs: seq<IndexObject>, b: nat)
    ensures AtMost(recs, b) <= |recs|
  {
    if recs != [] { AtMostBounded(recs[1..], b); }
  }

  /** Magic number and version, the fanout table, the records, and what follows them. */
  function PutIndex(head: Bytes, recs: seq<IndexObject>, trailer: Bytes): Bytes
    requires |head| == 8 && |recs| < TWO_32
  {
    head + PutFanout(recs, 0, PutRecords(recs, trailer))
  }

  lemma {:induction false} AtMostSplit(a: seq<IndexObject>, c: seq<IndexObject>, b: nat)
    ensures AtMost(a + c, b) == AtMost(a, b) + AtMost(c, b)
    decreases |a|
  {
    if a == [] {
      assert a + c == c;
    } else {
      assert (a + c)[1..] == a[1..] + c;
      AtMostSplit(a[1..], c, b);
    }
  }

  lemma {:induction false} AtMostIsCount(recs: seq<IndexObject>, b: byte)
    ensures AtMost(recs, b) == CountUpTo(recs, b)
    decreases |recs|
  {
    if recs != [] {
      var n := |recs| - 1;
      assert recs == recs[..n] + [recs[n]];
      AtMostSplit(recs[..n], [recs[n]], b);
      assert [recs[n]][1..] == [];
      AtMostIsCount(recs[..n], b);
    }
  }

  lemma {:induction false} FanoutWord(recs: seq<IndexObject>, from: nat, b: byte, s: Bytes)
    requires |recs| < TWO_32 && from <= b
    ensures var f := PutFanout(recs, from, s);
            4 * (b - from) <= |f| && f[4 * (b - from)..] == PutU32(CountUpTo(recs, b), PutFanout(recs, b + 1, s))
    ensures |PutFanout(recs, from, s)| == 4 * (256 - from) + |s|
    decreases 256 - from
  {
    hide PutU32;
    AtMostBounded(recs, from);
    U32Size(AtMost(recs, from), PutFanout(recs, from + 1, s));
    if from == b {
      AtMostIsCount(recs, b);
      FanoutSize(recs, from + 1, s);
    } else {
      FanoutWord(recs, from + 1, b, s);
      var f := PutFanout(recs, from, s);
      assert f[4 * (b - from)..] == f[4..][4 * (b - from - 1)..];
    }
  }

  lemma U32Size(v: uint32, s: Bytes)
    ensures |PutU32(v, s)| == 4 + |s| && PutU32(v, s)[4..] == s
  {
  }

  lemma {:induction false} FanoutSize(recs: seq<IndexObject>, from: nat, s: Bytes)
    requires |recs| < TWO_32 && from <= 256
    ensures |PutFanout(recs, from, s)| == 4 * (256 - from) + |s|
    decreases 256 - from
  {
    hide PutU32;
    if from < 256 {
      AtMostBounded(recs, from);
      U32Size(AtMost(recs, from), PutFanout(recs, from + 1, s));
      FanoutSize(recs, from + 1, s);
    }
  }

  lemma {:induction false} FanoutThenRecords(recs: seq<IndexObject>, from: nat, s: Bytes)
    requires |recs| < TWO_32 && from <= 256
    ensures |PutFanout(recs, from, s)| == 4 * (256 - from) + |s|
    ensures PutFanout(recs, from, s)[4 * (256 - from)..] == s
    decreases 256 - from
  {
    hide PutU32;
    if from < 256 {
      AtMostBounded(recs, from);
      U32Size(AtMost(recs, from), PutFanout(recs, from + 1, s));
      FanoutThenRecords(recs, from + 1, s);
      var f := PutFanout(recs, from, s);
      assert f[4 * (256 - from)..] == f[4..][4 * (256 - from - 1)..];
    }
  }

  lemma {:induction false} RecordAt(recs: seq<IndexObject>, i: nat, s: Bytes)
    requires i < |recs|
    ensures |PutRecords(recs, s)| == 40 * |recs| + |s|
    ensures ParseRecord(PutRecords(recs, s)[40 * i..]) == Some(recs[i])
  {
    hide ParseRecord, PutRecord;
    RecordRoundTrip(recs[0], PutRecords(recs[1..], s));
    if i == 0 {
      if |recs| > 1 { RecordAt(recs[1..], 0, s); }
      assert PutRecords(recs, s)[0..] == PutRecords(recs, s);
    } else {
      RecordAt(recs[1..], i - 1, s);
      assert PutRecords(recs, s)[40 * i..] == PutRecords(recs, s)[40..][40 * (i - 1)..];
    }
  }

  /** What is written is an index of its records: the lookups that are stated for `IndexOf`
      find what was written. */
  lemma WrittenIsIndex(head: Bytes, recs: seq<IndexObject>, trailer: Bytes)
    requires |head| == 8 && |recs| < TWO_32 && Grouped(recs)
    ensures IndexOf(PutIndex(head, recs, trailer), recs)
  {
    hide ParseRecord, PutRecords, PutFanout, CountUpTo, PutU32, GetU32;
    var contents, s := PutIndex(head, recs, trailer), PutRecords(recs, trailer);
    FanoutThenRecords(recs, 0, s);
    assert contents[8..] == PutFanout(recs, 0, s);
    assert contents[1032..] == contents[8..][1024..] == s;
    RecordsSize(recs, trailer);
    forall i | 0 <= i < |recs|
      ensures ParseRecord(FromRecord(contents, i)) == Some(recs[i])
    {
      RecordAt(recs, i, trailer);
      assert FromRecord(contents, i) == contents[1032..][40 * i..];
    }
    forall b: byte
      ensures Fanout(contents, b) == CountUpTo(recs, b)
    {
      FanoutWord(recs, 0, b, s);
      assert contents[8 + 4 * b..] == contents[8..][4 * b..];
      assert GetU32(PutU32(CountUpTo(recs, b), PutFanout(recs, b + 1, s))).0 == CountUpTo(recs, b) by {
        IntegersRoundTrip();
      }
    }
  }

  lemma RecordsSize(recs: seq<IndexObject>, s: Bytes)
    ensures |PutRecords(recs, s)| == 40 * |recs| + |s|
  {
    if recs != [] { RecordAt(recs, 0, s); }
  }

  // ---------- The SHA1s that can be found at all ----------

  function Window(contents: Bytes, i: nat): Sha
    requires i + 20 <= |contents|
  {
    contents[i..i + 20]
  }

  /** Every 20 bytes that stand together in an index file. */
  function Windows(contents: Bytes): set<Sha> {
    set i: nat | i < |contents| && i + 20 <= |contents| :: Window(contents, i)
  }

  function Listed(files: seq<IndexFile>): set<Sha> {
    if files == [] then {} else Listed(files[..|files| - 1]) + Windows(files[|files| - 1].contents)
  }

  lemma {:induction false} HitIsWindow(contents: Bytes, b: Bytes, n: int, target: Sha)
    requires |b| <= |contents| && b == contents[|contents| - |b|..]
    ensures var r := ScanBucket(b, n, target); r.Hit? ==> r.pio.sha1 == target && target in Windows(contents)
    decreases n
  {
    if n > 0 && |b| >= RECORD_SIZE {
      var i := |contents| - |b| + 16;
      assert Window(contents, i) == b[16..36];
      assert Window(contents, i) in Windows(contents);
      HitIsWindow(contents, Drop(b, RECORD_SIZE), n - 1, target);
    }
  }

  lemma LookupIsWindow(contents: Bytes, target: Sha)
    ensures var r := LookupIndex(contents, target); r.Hit? ==> r.pio.sha1 == target && target in Windows(contents)
  {
    hide ScanBucket, Windows, Fanout;
    var less, upTo := Fanout(contents, Predecessor(target[0])), Fanout(contents, target[0]);
    HitIsWindow(contents, Drop(Drop(contents, HEADER_SIZE), less * RECORD_SIZE), upTo - less, target);
  }

  /** What is located is a record of that SHA1 in one of the files. */
  lemma {:induction false} LocatedIn(files: seq<IndexFile>, target: Sha)
    ensures var r := Locate(files, target);
            r.At? ==> && r.pio.sha1 == target && target in Listed(files)
                      && exists i :: 0 <= i < |files| && files[i].name == r.packName
    decreases |files|
  {
    hide LookupIndex, Windows;
    if files != [] {
      var n := |files| - 1;
      LocatedIn(files[..n], target);
      LookupIsWindow(files[n].contents, target);
      var before := Locate(files[..n], target);
      if before.At? {
        var i :| 0 <= i < n && files[..n][i].name == before.packName;
        assert files[i].name == before.packName;
      }
      assert files[n].name == files[n].name;
    }
  }

  // ---------- Objects inside a pack ----------

  datatype PackObject = PackObject(mimetype: Option<Bytes>, name: Option<Bytes>, data: Bytes)

  /** The error of reading the length is ignored; too little data is an error. */
  function ParsePackObject(b: Bytes): Parse<PackObject> {
    var (mimetype, b1) :- ParseString(b);
    var (name, b2) :- ParseString(b1);
    var (n, b3) := GetU64(b2);
    if n >= TWO_63 then Crash
    else if |b3| < n then Err([])
    else Ok(PackObject(mimetype, name, b3[..n]), b3[n..])
  }

  method NewPackFileObject(buf: Bytes) returns (r: Result<PackObject>)
    ensures r == ParsePackObject(buf).Result()
  {
    hide ParseString, GetU64;
    var p := new Buffer(buf);
    var mimetype :- ReadString(p);
    var name :- ReadString(p);
    var dataLength := p.ReadU64();
    var data :- p.Next(ToInt(dataLength));
    if |data| != dataLength { return Failure; }
    r := Success(PackObject(mimetype, name, data));
  }

  predicate WellFormedObject(o: PackObject) {
    Encodable(o.mimetype) && Encodable(o.name) && |o.data| < TWO_63
  }

  function PutPackObject(o: PackObject, s: Bytes): Bytes {
    PutString(o.mimetype, PutString(o.name, PutData(o.data, s)))
  }

  lemma PackObjectRoundTrip(o: PackObject, s: Bytes)
    requires WellFormedObject(o)
    ensures ParsePackObject(PutPackObject(o, s)) == Ok(o, s)
  {
    hide ParseString, PutString, GetU64, PutU64;
    var s2 := PutData(o.data, s);
    assert GetU64(s2) == (|o.data|, o.data + s) by { IntegersRoundTrip(); }
    assert (o.data + s)[..|o.data|] == o.data && (o.data + s)[|o.data|..] == s;
    StringRoundTrip(o.name, s2);
    StringRoundTrip(o.mimetype, PutString(o.name, s2));
  }

  lemma PackObjectAppend(o: PackObject, s: Bytes, t: Bytes)
    ensures PutPackObject(o, s) + t == PutPackObject(o, s + t)
  {
    ScalarsAppend();
  }

  /** The objects one after another, then what follows them in the pack. */
  function PutObjects(objs: seq<PackObject>, s: Bytes): Bytes {
    if objs == [] then s else PutPackObject(objs[0], PutObjects(objs[1..], s))
  }

  /** The running sum of framed lengths before object k. */
  function OffsetOf(objs: seq<PackObject>, k: nat): nat
    requires k <= |objs|
  {
    if k == 0 then 0 else OffsetOf(objs, k - 1) + |PutPackObject(objs[k - 1], [])|
  }

  lemma {:induction false} ObjectAtOffset(prefix: Bytes, objs: seq<PackObject>, k: nat, s: Bytes)
    requires k < |objs|
    ensures var pack := prefix + PutObjects(objs, s);
            |prefix| + OffsetOf(objs, k) <= |pack| &&
            pack[|prefix| + OffsetOf(objs, k)..] == PutPackObject(objs[k], PutObjects(objs[k + 1..], s))
  {
    hide PutPackObject;
    var pack := prefix + PutObjects(objs, s);
    if k == 0 {
      assert pack[|prefix|..] == PutObjects(objs, s);
    } else {
      ObjectAtOffset(prefix, objs, k - 1, s);
      var o, rest := objs[k - 1], PutObjects(objs[k..], s);
      assert objs[k - 1 + 1..] == objs[k..] && objs[k..][1..] == objs[k + 1..];
      PackObjectAppend(o, [], rest);
      assert [] + rest == rest;
      var before := |prefix| + OffsetOf(objs, k - 1);
      assert pack[before..] == PutPackObject(o, []) + rest;
      assert pack[before..][|PutPackObject(o, [])|..] == rest;
      assert pack[before + |PutPackObject(o, [])|..] == rest;
    }
  }

  /** An object whose data is cut off is an error, one with a length of 2^63 or more a panic;
      one without a length has no data. */
  lemma CutObject(mimetype: Option<Bytes>, name: Option<Bytes>, length: uint64, d: Bytes, short: Bytes)
    requires Encodable(mimetype) && Encodable(name) && |d| < length && |short| < 8
    ensures ParsePackObject(PutString(mimetype, PutString(name, PutU64(length, d)))) ==
            if length >= 9_223_372_036_854_775_808 then Crash else Err([])
    ensures ParsePackObject(PutString(mimetype, PutString(name, short))) == Ok(PackObject(mimetype, name, []), [])
  {
    hide ParseString, PutString, GetU64, PutU64;
    StringRoundTrip(mimetype, PutString(name, PutU64(length, d)));
    StringRoundTrip(name, PutU64(length, d));
    StringRoundTrip(mimetype, PutString(name, short));
    StringRoundTrip(name, short);
    ShortIntegers(short);
    IntegersRoundTrip();
  }
}
