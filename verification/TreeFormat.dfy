/** Blob keys, nodes and trees: the version-gated readers of arq/types. Fields
    that the readers of nodes and trees share are grouped into records. */
module TreeFormat {
  import opened Buffers
  import opened Wire

  // ---------- Records ----------

  datatype Archive = Archive(storageType: uint32, id: Option<Bytes>, size: uint64, uploadedDate: Option<int64>)

  datatype BlobKey = BlobKey(
    sha1: Option<Sha>,
    isEncryptionKeyStretched: Option<bool>,  // Tree v14, Commit v4
    isCompressed: Option<bool>,              // Commit v8, tree key only
    archive: Option<Archive>)                // Tree v17

  datatype Attributes = Attributes(xattrsKey: Option<BlobKey>, xattrsSize: uint64, aclKey: Option<BlobKey>)

  datatype Ownership = Ownership(
    uid: int32, gid: int32, mode: uint32, mtimeSec: int64, mtimeNsec: int64,
    flags: int64, finderFlags: int32, extendedFinderFlags: int32)

  datatype Stat = Stat(dev: int32, ino: int32, nlink: uint32, rdev: int32, ctimeSec: int64, ctimeNsec: int64)

  datatype NodeFlags = NodeFlags(
    isTree: bool,
    treeContainsMissingItems: Option<bool>,  // v18
    dataAreCompressed: Option<bool>,         // v12
    xattrsAreCompressed: Option<bool>,       // v12
    aclIsCompressed: Option<bool>)           // v12

  datatype Previews = Previews(thumbnail: Option<BlobKey>, preview: Option<BlobKey>)  // below v18
  datatype Finder = Finder(fileType: Option<Bytes>, fileCreator: Option<Bytes>, extensionHidden: bool)
  datatype Allocation = Allocation(createTimeSec: int64, createTimeNsec: int64, blocks: int64, blksize: uint32)

  datatype NodeInfo = NodeInfo(owner: Ownership, finder: Finder, stat: Stat, allocation: Allocation)

  datatype Node = Node(
    name: Option<Bytes>,
    treeVersion: int,
    flags: NodeFlags,
    dataBlobKeys: seq<BlobKey>,
    uncompressedDataSize: uint64,
    previews: Previews,
    attributes: Attributes,
    info: NodeInfo)

  datatype TreeTimes = TreeTimes(
    blocks: int64, blksize: uint32,
    aggregateSizeOnDisk: uint64,              // v11 to v16
    createTimeSec: int64, createTimeNsec: int64)  // v15

  datatype TreeInfo = TreeInfo(owner: Ownership, stat: Stat, times: TreeTimes)

  datatype TreeHead = TreeHead(
    header: Header,
    xattrsAreCompressed: Option<bool>,  // v12
    aclIsCompressed: Option<bool>,      // v12
    attributes: Attributes,
    info: TreeInfo)

  datatype Tree = Tree(
    head: TreeHead,
    missingNodes: seq<Node>,            // v18
    nodes: seq<Node>)

  // ---------- Blob keys ----------

  predicate HasStretched(h: Header) {
    (h.kind == TreeBlob && h.version >= 14) || (h.kind == CommitBlob && h.version >= 4)
  }

  predicate HasCompressed(h: Header, readIsCompressed: bool) {
    h.kind == CommitBlob && h.version >= 8 && readIsCompressed
  }

  predicate HasArchive(h: Header) {
    h.kind == TreeBlob && h.version >= 17
  }

  function ParseArchive(b: Bytes): (r: Parse<Archive>)
    ensures r.Ok? ==> |r.rest| < |b|
  {
    var (storageType, b1) := GetU32(b);
    var (id, b2) :- ParseString(b1);
    var (size, b3) := GetU64(b2);
    var (date, b4) :- ParseDate(b3);
    Ok(Archive(storageType, id, size, date), b4)
  }

  function ParseBlobKey(b: Bytes, h: Header, readIsCompressed: bool): (r: Parse<BlobKey>)
    ensures r.Ok? ==> |r.rest| < |b|
  {
    var (sha1, b1) :- ParseSha(b);
    var (stretched, b2) :- ParseBoolIf(HasStretched(h), b1);
    var (compressed, b3) :- ParseBoolIf(HasCompressed(h, readIsCompressed), b2);
    if HasArchive(h) then
      var (archive, b4) :- ParseArchive(b3);
      Ok(BlobKey(sha1, stretched, compressed, Some(archive)), b4)
    else
      Ok(BlobKey(sha1, stretched, compressed, None), b3)
  }

  /** The SHA1 that a key read from here has, even if reading the rest of it fails. */
  function KeySha(b: Bytes): Option<Sha> {
    match ParseSha(b)
    case Ok(sha1, _) => sha1
    case _ => None
  }

  function PutArchive(a: Archive, s: Bytes): Bytes {
    PutU32(a.storageType, PutString(a.id, PutU64(a.size, PutDate(a.uploadedDate, s))))
  }

  function PutBlobKey(k: BlobKey, s: Bytes): Bytes {
    PutSha(k.sha1, PutBoolIf(k.isEncryptionKeyStretched, PutBoolIf(k.isCompressed,
      if k.archive.Some? then PutArchive(k.archive.value, s) else s)))
  }

  /** The fields present are exactly those the header's kind and version call for. */
  predicate WellFormedFields(k: BlobKey, h: Header, readIsCompressed: bool) {
    && (k.isEncryptionKeyStretched.Some? <==>
          (h.kind == TreeBlob && h.version >= 14) || (h.kind == CommitBlob && h.version >= 4))
    && (k.isCompressed.Some? <==> h.kind == CommitBlob && h.version >= 8 && readIsCompressed)
    && (k.archive.Some? <==> h.kind == TreeBlob && h.version >= 17)
  }

  predicate WellFormedKey(k: BlobKey, h: Header, readIsCompressed: bool) {
    && WellFormedFields(k, h, readIsCompressed)
    && (k.archive.Some? ==> Encodable(k.archive.value.id) && WholeMilliseconds(k.archive.value.uploadedDate))
  }

  lemma BlobKeyRoundTrip(k: BlobKey, h: Header, readIsCompressed: bool, s: Bytes)
    requires WellFormedKey(k, h, readIsCompressed)
    ensures ParseBlobKey(PutBlobKey(k, s), h, readIsCompressed) == Ok(k, s)
  {
    ScalarsRoundTrip();
    IntegersRoundTrip();
    if k.archive.Some? {
      assert ParseArchive(PutArchive(k.archive.value, s)) == Ok(k.archive.value, s);
    }
  }

  /** Whatever the input, a key has exactly the fields that the header's kind and version
      call for. */
  lemma KeyFieldsExactly(b: Bytes, h: Header, readIsCompressed: bool)
    requires ParseBlobKey(b, h, readIsCompressed).Ok?
    ensures WellFormedFields(ParseBlobKey(b, h, readIsCompressed).value, h, readIsCompressed)
  {
    hide ParseSha, ParseArchive;
  }

  lemma BlobKeyAppend(k: BlobKey, s: Bytes, t: Bytes)
    ensures PutBlobKey(k, s) + t == PutBlobKey(k, s + t)
  {
    ScalarsAppend();
    IntegersAppend();
    if k.archive.Some? {
      assert PutArchive(k.archive.value, s) + t == PutArchive(k.archive.value, s + t);
    }
  }

  method ReadArchive(p: Buffer) returns (r: Result<Archive>)
    requires p.Valid()
    modifies p
    ensures p.Valid() && p.off >= old(p.off) && ParseArchive(old(p.Unread())).Is(r, p.Unread())
  {
    var storageType := p.ReadU32();
    var id :- ReadString(p);
    var size := p.ReadU64();
    var date :- ReadDate(p);
    r := Success(Archive(storageType, id, size, date));
  }

  /** On an error the caller still gets the key, as far as it has been filled in. */
  method ReadBlobKey(p: Buffer, h: Header, readIsCompressed: bool) returns (r: Result<BlobKey>, blobKey: BlobKey)
    requires p.Valid()
    modifies p
    ensures p.Valid() && p.off >= old(p.off) && ParseBlobKey(old(p.Unread()), h, readIsCompressed).Is(r, p.Unread())
    ensures blobKey.sha1 == KeySha(old(p.Unread()))
    ensures r.Success? ==> blobKey == r.value
  {
    hide ParseSha, ParseBool, ParseArchive;
    blobKey := BlobKey(None, None, None, None);
    var sha1 :- ReadStringAsSHA1(p);
    blobKey := blobKey.(sha1 := sha1);
    if (h.kind == TreeBlob && h.version >= 14) || (h.kind == CommitBlob && h.version >= 4) {
      var stretched :- ReadBoolean(p);
      blobKey := blobKey.(isEncryptionKeyStretched := Some(stretched));
    }
    if h.kind == CommitBlob && h.version >= 8 && readIsCompressed {
      var compressed :- ReadBoolean(p);
      blobKey := blobKey.(isCompressed := Some(compressed));
    }
    if h.kind == TreeBlob && h.version >= 17 {
      var archive :- ReadArchive(p);
      blobKey := blobKey.(archive := Some(archive));
    }
    r := Success(blobKey);
  }

  // ---------- Fields shared by nodes and trees ----------

  /** A blob key with a null SHA1 becomes a nil key. */
  function Collapse(k: Option<BlobKey>): Option<BlobKey> {
    if k.Some? && k.value.sha1.None? then None else k
  }

  lemma CollapseExactly(k: BlobKey)
    ensures Collapse(Some(k)) == if k.sha1 == None then None else Some(k)
    ensures Collapse(None) == None
  {
  }

  function NormalizeAttributes(a: Attributes): Attributes {
    a.(xattrsKey := Collapse(a.xattrsKey), aclKey := Collapse(a.aclKey))
  }

  function ParseAttributes(b: Bytes, h: Header): (r: Parse<Attributes>)
    ensures r.Ok? ==> |r.rest| < |b|
  {
    var (xattrsKey, b1) :- ParseBlobKey(b, h, true);
    var (xattrsSize, b2) := GetU64(b1);
    var (aclKey, b3) :- ParseBlobKey(b2, h, true);
    Ok(Attributes(Collapse(Some(xattrsKey)), xattrsSize, Collapse(Some(aclKey))), b3)
  }

  predicate WellFormedAttributes(a: Attributes, h: Header) {
    && a.xattrsKey.Some? && WellFormedKey(a.xattrsKey.value, h, true)
    && a.aclKey.Some? && WellFormedKey(a.aclKey.value, h, true)
  }

  function PutKeyIf(k: Option<BlobKey>, s: Bytes): Bytes {
    if k.Some? then PutBlobKey(k.value, s) else s
  }

  function PutAttributes(a: Attributes, s: Bytes): Bytes {
    PutKeyIf(a.xattrsKey, PutU64(a.xattrsSize, PutKeyIf(a.aclKey, s)))
  }

  lemma AttributesRoundTrip(a: Attributes, h: Header, s: Bytes)
    requires WellFormedAttributes(a, h)
    ensures ParseAttributes(PutAttributes(a, s), h) == Ok(NormalizeAttributes(a), s)
  {
    IntegersRoundTrip();
    BlobKeyRoundTrip(a.aclKey.value, h, true, s);
    BlobKeyRoundTrip(a.xattrsKey.value, h, true, PutU64(a.xattrsSize, PutKeyIf(a.aclKey, s)));
  }

  method ReadAttributes(p: Buffer, h: Header) returns (r: Result<Attributes>)
    requires p.Valid()
    modifies p
    ensures p.Valid() && p.off >= old(p.off) && ParseAttributes(old(p.Unread()), h).Is(r, p.Unread())
  {
    var key, _ :- ReadBlobKey(p, h, true);
    var xattrsKey := if key.sha1.None? then None else Some(key);
    var xattrsSize := p.ReadU64();
    var key2, _ :- ReadBlobKey(p, h, true);
    var aclKey := if key2.sha1.None? then None else Some(key2);
    r := Success(Attributes(xattrsKey, xattrsSize, aclKey));
  }

  function GetOwnership(b: Bytes): (r: (Ownership, Bytes))
    ensures |r.1| <= |b|
  {
    var (uid, b1) := GetI32(b);
    var (gid, b2) := GetI32(b1);
    var (mode, b3) := GetU32(b2);
    var (mtimeSec, b4) := GetI64(b3);
    var (mtimeNsec, b5) := GetI64(b4);
    var (flags, b6) := GetI64(b5);
    var (finderFlags, b7) := GetI32(b6);
    var (extendedFinderFlags, b8) := GetI32(b7);
    (Ownership(uid, gid, mode, mtimeSec, mtimeNsec, flags, finderFlags, extendedFinderFlags), b8)
  }

  function PutOwnership(o: Ownership, s: Bytes): Bytes {
    PutI32(o.uid, PutI32(o.gid, PutU32(o.mode, PutI64(o.mtimeSec, PutI64(o.mtimeNsec,
      PutI64(o.flags, PutI32(o.finderFlags, PutI32(o.extendedFinderFlags, s))))))))
  }

  method ReadOwnership(p: Buffer) returns (o: Ownership)
    requires p.Valid()
    modifies p
    ensures p.Valid() && p.off >= old(p.off) && (o, p.Unread()) == GetOwnership(old(p.Unread()))
  {
    var uid := p.ReadI32();
    var gid := p.ReadI32();
    var mode := p.ReadU32();
    var mtimeSec := p.ReadI64();
    var mtimeNsec := p.ReadI64();
    var flags := p.ReadI64();
    var finderFlags := p.ReadI32();
    var extendedFinderFlags := p.ReadI32();
    o := Ownership(uid, gid, mode, mtimeSec, mtimeNsec, flags, finderFlags, extendedFinderFlags);
  }

  function GetStat(b: Bytes): (r: (Stat, Bytes))
    ensures |r.1| <= |b|
  {
    var (dev, b1) := GetI32(b);
    var (ino, b2) := GetI32(b1);
    var (nlink, b3) := GetU32(b2);
    var (rdev, b4) := GetI32(b3);
    var (ctimeSec, b5) := GetI64(b4);
    var (ctimeNsec, b6) := GetI64(b5);
    (Stat(dev, ino, nlink, rdev, ctimeSec, ctimeNsec), b6)
  }

  function PutStat(t: Stat, s: Bytes): Bytes {
    PutI32(t.dev, PutI32(t.ino, PutU32(t.nlink, PutI32(t.rdev, PutI64(t.ctimeSec, PutI64(t.ctimeNsec, s))))))
  }

  method ReadStat(p: Buffer) returns (t: Stat)
    requires p.Valid()
    modifies p
    ensures p.Valid() && p.off >= old(p.off) && (t, p.Unread()) == GetStat(old(p.Unread()))
  {
    var dev := p.ReadI32();
    var ino := p.ReadI32();
    var nlink := p.ReadU32();
    var rdev := p.ReadI32();
    var ctimeSec := p.ReadI64();
    var ctimeNsec := p.ReadI64();
    t := Stat(dev, ino, nlink, rdev, ctimeSec, ctimeNsec);
  }

  // ---------- Nodes ----------

  function ParseFlags(b: Bytes, version: int): (r: Parse<NodeFlags>)
    ensures r.Ok? ==> |r.rest| < |b|
    ensures r.Ok? ==> r.value.dataAreCompressed.Some? == (version >= 12)
  {
    var (isTree, b1) :- ParseBool(b);
    var (missing, b2) :- ParseBoolIf(version >= 18, b1);
    var (data, b3) :- ParseBoolIf(version >= 12, b2);
    var (xattrs, b4) :- ParseBoolIf(version >= 12, b3);
    var (acl, b5) :- ParseBoolIf(version >= 12, b4);
    Ok(NodeFlags(isTree, missing, data, xattrs, acl), b5)
  }

  function PutFlags(f: NodeFlags, s: Bytes): Bytes {
    PutBool(f.isTree, PutBoolIf(f.treeContainsMissingItems, PutBoolIf(f.dataAreCompressed,
      PutBoolIf(f.xattrsAreCompressed, PutBoolIf(f.aclIsCompressed, s)))))
  }

  function KeyParser(h: Header, readIsCompressed: bool): Bytes -> Parse<BlobKey> {
    b => ParseBlobKey(b, h, readIsCompressed)
  }

  function KeyWriter(): (BlobKey, Bytes) -> Bytes {
    (k, s) => PutBlobKey(k, s)
  }

  /** Evaluating IsTrue() on the nil flag of a version below 12 panics, so a
      non-empty key list cannot be read there. */
  function ParseDataKeys(b: Bytes, h: Header, compressed: Option<bool>): (r: Parse<seq<BlobKey>>) {
    var (n, b1) := GetU32(b);
    if n == 0 then Ok([], b1)
    else if compressed.None? then Crash
    else ParseMany(KeyParser(h, compressed.value), [], b1, n)
  }

  function PutDataKeys(keys: seq<BlobKey>, s: Bytes): Bytes {
    PutU32(|keys| % TWO_32, PutMany(KeyWriter(), keys, s))
  }

  function ParsePreviews(b: Bytes, h: Header): (r: Parse<Previews>)
    ensures r.Ok? ==> |r.rest| <= |b|
  {
    if h.version < 18 then
      var (thumbnail, b1) :- ParseBlobKey(b, h, false);
      var (preview, b2) :- ParseBlobKey(b1, h, false);
      Ok(Previews(Some(thumbnail), Some(preview)), b2)
    else
      Ok(Previews(None, None), b)
  }

  function PutPreviews(p: Previews, s: Bytes): Bytes {
    PutKeyIf(p.thumbnail, PutKeyIf(p.preview, s))
  }

  function ParseFinder(b: Bytes): (r: Parse<Finder>)
    ensures r.Ok? ==> |r.rest| < |b|
  {
    var (fileType, b1) :- ParseString(b);
    var (fileCreator, b2) :- ParseString(b1);
    var (hidden, b3) :- ParseBool(b2);
    Ok(Finder(fileType, fileCreator, hidden), b3)
  }

  function PutFinder(f: Finder, s: Bytes): Bytes {
    PutString(f.fileType, PutString(f.fileCreator, PutBool(f.extensionHidden, s)))
  }

  function GetAllocation(b: Bytes): (r: (Allocation, Bytes))
    ensures |r.1| <= |b|
  {
    var (sec, b1) := GetI64(b);
    var (nsec, b2) := GetI64(b1);
    var (blocks, b3) := GetI64(b2);
    var (blksize, b4) := GetU32(b3);
    (Allocation(sec, nsec, blocks, blksize), b4)
  }

  function PutAllocation(a: Allocation, s: Bytes): Bytes {
    PutI64(a.createTimeSec, PutI64(a.createTimeNsec, PutI64(a.blocks, PutU32(a.blksize, s))))
  }

  function ParseInfo(b: Bytes): (r: Parse<NodeInfo>)
    ensures r.Ok? ==> |r.rest| < |b|
  {
    var (owner, b1) := GetOwnership(b);
    var (finder, b2) :- ParseFinder(b1);
    var (stat, b3) := GetStat(b2);
    var (allocation, b4) := GetAllocation(b3);
    Ok(NodeInfo(owner, finder, stat, allocation), b4)
  }

  function PutInfo(i: NodeInfo, s: Bytes): Bytes {
    PutOwnership(i.owner, PutFinder(i.finder, PutStat(i.stat, PutAllocation(i.allocation, s))))
  }

  /** The fields after the data blob keys. */
  datatype NodeTail = NodeTail(size: uint64, previews: Previews, attributes: Attributes, info: NodeInfo)

  function ParseNodeTail(b: Bytes, h: Header): (r: Parse<NodeTail>)
    ensures r.Ok? ==> |r.rest| <= |b|
  {
    var (size, b1) := GetU64(b);
    var (previews, b2) :- ParsePreviews(b1, h);
    var (attributes, b3) :- ParseAttributes(b2, h);
    var (info, b4) :- ParseInfo(b3);
    Ok(NodeTail(size, previews, attributes, info), b4)
  }

  function PutNodeTail(t: NodeTail, s: Bytes): Bytes {
    PutU64(t.size, PutPreviews(t.previews, PutAttributes(t.attributes, PutInfo(t.info, s))))
  }

  function Tail(n: Node): NodeTail {
    NodeTail(n.uncompressedDataSize, n.previews, n.attributes, n.info)
  }

  function MakeNode(name: Option<Bytes>, h: Header, flags: NodeFlags, keys: seq<BlobKey>, t: NodeTail): Node {
    Node(name, h.version, flags, keys, t.size, t.previews, t.attributes, t.info)
  }

  function ParseNode(b: Bytes, h: Header): (r: Parse<Node>)
    ensures r.Ok? ==> |r.rest| < |b|
  {
    var (name, b1) :- ParseString(b);
    var (flags, b2) :- ParseFlags(b1, h.version);
    var (keys, b3) :- ParseDataKeys(b2, h, flags.dataAreCompressed);
    DataKeysConsume(b2, h, flags.dataAreCompressed);
    var (tail, b4) :- ParseNodeTail(b3, h);
    Ok(MakeNode(name, h, flags, keys, tail), b4)
  }

  lemma KeyParserConsumes(h: Header, readIsCompressed: bool)
    ensures Consuming(KeyParser(h, readIsCompressed))
  {
  }

  lemma DataKeysConsume(b: Bytes, h: Header, compressed: Option<bool>)
    ensures var r := ParseDataKeys(b, h, compressed); r.Ok? ==> |r.rest| <= |b|
  {
    var (n, b1) := GetU32(b);
    if compressed.Some? {
      KeyParserConsumes(h, compressed.value);
      ManyConsumes(KeyParser(h, compressed.value), [], b1, n);
    }
  }

  function PutNode(n: Node, s: Bytes): Bytes {
    PutString(n.name, PutFlags(n.flags, PutDataKeys(n.dataBlobKeys, PutNodeTail(Tail(n), s))))
  }

  function NormalizeNode(n: Node): Node {
    n.(attributes := NormalizeAttributes(n.attributes))
  }

  predicate WellFormedFlags(f: NodeFlags, version: int) {
    && f.treeContainsMissingItems.Some? == (version >= 18)
    && f.dataAreCompressed.Some? == f.xattrsAreCompressed.Some? == f.aclIsCompressed.Some? == (version >= 12)
  }

  predicate WellFormedPreviews(p: Previews, h: Header) {
    && p.thumbnail.Some? == p.preview.Some? == (h.version < 18)
    && (h.version < 18 ==> WellFormedKey(p.thumbnail.value, h, false) && WellFormedKey(p.preview.value, h, false))
  }

  predicate WellFormedTail(t: NodeTail, h: Header) {
    && WellFormedPreviews(t.previews, h)
    && WellFormedAttributes(t.attributes, h)
    && Encodable(t.info.finder.fileType) && Encodable(t.info.finder.fileCreator)
  }

  /** A node of a tree with header h, as the format can hold it. */
  predicate WellFormedNode(n: Node, h: Header) {
    && n.treeVersion == h.version
    && Encodable(n.name)
    && WellFormedFlags(n.flags, h.version)
    && |n.dataBlobKeys| < TWO_32
    && (forall k :: k in n.dataBlobKeys ==> WellFormedKey(k, h, n.flags.dataAreCompressed == Some(true)))
    && WellFormedTail(Tail(n), h)
  }

  /** The nodes ReadNode survives: below version 12 only those without data keys. */
  predicate Readable(n: Node) {
    n.treeVersion >= 12 || n.dataBlobKeys == []
  }

  lemma OwnershipRoundTrip(o: Ownership, s: Bytes)
    ensures GetOwnership(PutOwnership(o, s)) == (o, s)
  {
    IntegersRoundTrip();
  }

  lemma StatRoundTrip(t: Stat, s: Bytes)
    ensures GetStat(PutStat(t, s)) == (t, s)
  {
    IntegersRoundTrip();
  }

  lemma AllocationRoundTrip(a: Allocation, s: Bytes)
    ensures GetAllocation(PutAllocation(a, s)) == (a, s)
  {
    IntegersRoundTrip();
  }

  lemma FinderRoundTrip(f: Finder, s: Bytes)
    requires Encodable(f.fileType) && Encodable(f.fileCreator)
    ensures ParseFinder(PutFinder(f, s)) == Ok(f, s)
  {
    ScalarsRoundTrip();
  }

  lemma PreviewsRoundTrip(p: Previews, h: Header, s: Bytes)
    requires WellFormedPreviews(p, h)
    ensures ParsePreviews(PutPreviews(p, s), h) == Ok(p, s)
  {
    if h.version < 18 {
      BlobKeyRoundTrip(p.preview.value, h, false, s);
      BlobKeyRoundTrip(p.thumbnail.value, h, false, PutKeyIf(p.preview, s));
    }
  }

  lemma CountRoundTrip(n: nat, s: Bytes)
    requires n < TWO_32
    ensures GetU32(PutU32(n % TWO_32, s)) == (n, s)
  {
    hide GetU32, PutU32;
    IntegersRoundTrip();
  }

  lemma LongCountRoundTrip(n: nat, s: Bytes)
    requires n < TWO_64
    ensures GetU64(PutU64(n % TWO_64, s)) == (n, s)
  {
    hide GetU64, PutU64;
    SizeRoundTrip(n, s);
  }

  lemma SizeRoundTrip(size: uint64, s: Bytes)
    ensures GetU64(PutU64(size, s)) == (size, s)
  {
    hide GetU64, PutU64;
    IntegersRoundTrip();
  }

  lemma InfoRoundTrip(i: NodeInfo, s: Bytes)
    requires Encodable(i.finder.fileType) && Encodable(i.finder.fileCreator)
    ensures ParseInfo(PutInfo(i, s)) == Ok(i, s)
  {
    AllocationRoundTrip(i.allocation, s);
    StatRoundTrip(i.stat, PutAllocation(i.allocation, s));
    var s2 := PutStat(i.stat, PutAllocation(i.allocation, s));
    FinderRoundTrip(i.finder, s2);
    OwnershipRoundTrip(i.owner, PutFinder(i.finder, s2));
  }

  lemma TailRoundTrip(t: NodeTail, h: Header, s: Bytes)
    requires WellFormedTail(t, h)
    ensures ParseNodeTail(PutNodeTail(t, s), h) ==
            Ok(t.(attributes := NormalizeAttributes(t.attributes)), s)
  {
    var s3 := PutInfo(t.info, s);
    var s2 := PutAttributes(t.attributes, s3);
    var s1 := PutPreviews(t.previews, s2);
    InfoRoundTrip(t.info, s);
    AttributesRoundTrip(t.attributes, h, s3);
    PreviewsRoundTrip(t.previews, h, s2);
    SizeRoundTrip(t.size, s1);
  }

  lemma KeysRoundTrip(keys: seq<BlobKey>, h: Header, readIsCompressed: bool, s: Bytes)
    requires forall k :: k in keys ==> WellFormedKey(k, h, readIsCompressed)
    ensures ParseMany(KeyParser(h, readIsCompressed), [], PutMany(KeyWriter(), keys, s), |keys|) == Ok(keys, s)
  {
    var parse, put := KeyParser(h, readIsCompressed), KeyWriter();
    forall k, t: Bytes | k in keys
      ensures parse(put(k, t)) == Ok(k, t)
    {
      BlobKeyRoundTrip(k, h, readIsCompressed, t);
    }
    var id: BlobKey -> BlobKey := k => k;
    ManyRoundTrip(parse, put, id, _ => true, [], keys, s);
    assert [] + MapSeq(id, keys) == keys;
  }

  lemma DataKeysRoundTrip(keys: seq<BlobKey>, h: Header, compressed: Option<bool>, s: Bytes)
    requires |keys| < TWO_32
    requires forall k :: k in keys ==> WellFormedKey(k, h, compressed == Some(true))
    ensures ParseDataKeys(PutDataKeys(keys, s), h, compressed) ==
            if compressed.Some? || keys == [] then Ok(keys, s) else Crash
  {
    CountRoundTrip(|keys|, PutMany(KeyWriter(), keys, s));
    if compressed.Some? {
      KeysRoundTrip(keys, h, compressed.value, s);
    }
  }

  /** ReadNode inverts the node format at every version, except that it panics on
      exactly the nodes with data keys below version 12. */
  lemma NodeRoundTrip(n: Node, h: Header, s: Bytes)
    requires WellFormedNode(n, h)
    ensures ParseNode(PutNode(n, s), h) == if Readable(n) then Ok(NormalizeNode(n), s) else Crash
  {
    hide ParseDataKeys, ParseNodeTail, PutDataKeys, PutNodeTail;
    var s2 := PutNodeTail(Tail(n), s);
    var s1 := PutDataKeys(n.dataBlobKeys, s2);
    TailRoundTrip(Tail(n), h, s);
    DataKeysRoundTrip(n.dataBlobKeys, h, n.flags.dataAreCompressed, s2);
    ScalarsRoundTrip();
    assert ParseFlags(PutFlags(n.flags, s1), h.version) == Ok(n.flags, s1);
  }

  lemma OwnershipAppend(o: Ownership, s: Bytes, t: Bytes)
    ensures PutOwnership(o, s) + t == PutOwnership(o, s + t)
  {
    IntegersAppend();
  }

  lemma StatAppend(f: Stat, s: Bytes, t: Bytes)
    ensures PutStat(f, s) + t == PutStat(f, s + t)
  {
    IntegersAppend();
  }

  lemma FinderAppend(f: Finder, s: Bytes, t: Bytes)
    ensures PutFinder(f, s) + t == PutFinder(f, s + t)
  {
    ScalarsAppend();
  }

  lemma AllocationAppend(a: Allocation, s: Bytes, t: Bytes)
    ensures PutAllocation(a, s) + t == PutAllocation(a, s + t)
  {
    IntegersAppend();
  }

  lemma SizeAppend(size: uint64, s: Bytes, t: Bytes)
    ensures PutU64(size, s) + t == PutU64(size, s + t)
  {
    IntegersAppend();
  }

  lemma InfoAppend(i: NodeInfo, s: Bytes, t: Bytes)
    ensures PutInfo(i, s) + t == PutInfo(i, s + t)
  {
    var s3 := PutAllocation(i.allocation, s);
    var s2 := PutStat(i.stat, s3);
    var s1 := PutFinder(i.finder, s2);
    AllocationAppend(i.allocation, s, t);
    StatAppend(i.stat, s3, t);
    FinderAppend(i.finder, s2, t);
    OwnershipAppend(i.owner, s1, t);
  }

  lemma TailAppend(n: NodeTail, s: Bytes, t: Bytes)
    ensures PutNodeTail(n, s) + t == PutNodeTail(n, s + t)
  {
    var s3 := PutInfo(n.info, s);
    var s2 := PutAttributes(n.attributes, s3);
    InfoAppend(n.info, s, t);
    AttributesAppend(n.attributes, s3, t);
    PreviewsAppend(n.previews, s2, t);
    SizeAppend(n.size, PutPreviews(n.previews, s2), t);
  }

  lemma AttributesAppend(a: Attributes, s: Bytes, t: Bytes)
    ensures PutAttributes(a, s) + t == PutAttributes(a, s + t)
  {
    IntegersAppend();
    forall k, s, t ensures PutBlobKey(k, s) + t == PutBlobKey(k, s + t) { BlobKeyAppend(k, s, t); }
  }

  lemma PreviewsAppend(p: Previews, s: Bytes, t: Bytes)
    ensures PutPreviews(p, s) + t == PutPreviews(p, s + t)
  {
    forall k, s, t ensures PutBlobKey(k, s) + t == PutBlobKey(k, s + t) { BlobKeyAppend(k, s, t); }
  }

  lemma DataKeysAppend(keys: seq<BlobKey>, s: Bytes, t: Bytes)
    ensures PutDataKeys(keys, s) + t == PutDataKeys(keys, s + t)
  {
    forall k, s: Bytes, t: Bytes
      ensures KeyWriter()(k, s) + t == KeyWriter()(k, s + t)
    {
      BlobKeyAppend(k, s, t);
    }
    ManyAppend(KeyWriter(), keys, s, t);
    IntegersAppend();
  }

  lemma FlagsAppend(f: NodeFlags, s: Bytes, t: Bytes)
    ensures PutFlags(f, s) + t == PutFlags(f, s + t)
  {
    ScalarsAppend();
  }

  lemma NodeAppend(n: Node, s: Bytes, t: Bytes)
    ensures PutNode(n, s) + t == PutNode(n, s + t)
  {
    var s2 := PutNodeTail(Tail(n), s);
    var s1 := PutDataKeys(n.dataBlobKeys, s2);
    TailAppend(Tail(n), s, t);
    DataKeysAppend(n.dataBlobKeys, s2, t);
    FlagsAppend(n.flags, s1, t);
    assert PutString(n.name, PutFlags(n.flags, s1)) + t == PutString(n.name, PutFlags(n.flags, s1) + t) by {
      ScalarsAppend();
    }
  }

  // ---------- Node readers ----------

  method ReadFlags(p: Buffer, version: int) returns (r: Result<NodeFlags>)
    requires p.Valid()
    modifies p
    ensures p.Valid() && p.off >= old(p.off) && ParseFlags(old(p.Unread()), version).Is(r, p.Unread())
  {
    hide ParseBool, ParseBoolIf;
    var isTree :- ReadBoolean(p);
    var missing :- ReadBooleanIf(version >= 18, p);
    var data :- ReadBooleanIf(version >= 12, p);
    var xattrs :- ReadBooleanIf(version >= 12, p);
    var acl :- ReadBooleanIf(version >= 12, p);
    r := Success(NodeFlags(isTree, missing, data, xattrs, acl));
  }

  /** `calls` counts, for the proof only, the loop's calls of its reader. */
  method ReadDataKeys(p: Buffer, h: Header, compressed: Option<bool>)
    returns (r: Result<seq<BlobKey>>, ghost calls: nat)
    requires p.Valid()
    modifies p
    ensures p.Valid() && p.off >= old(p.off) && ParseDataKeys(old(p.Unread()), h, compressed).Is(r, p.Unread())
    ensures calls <= |old(p.Unread())| + 1
  {
    hide ParseBlobKey, GetU32, KeySha;
    calls := 0;
    var numDataBlobKeys := p.ReadU32();
    var keys: seq<BlobKey> := [];
    ghost var start := p.Unread();
    if numDataBlobKeys == 0 { return Success(keys), 0; }
    if compressed.None? { return Panic, 0; }
    ghost var parse := KeyParser(h, compressed.value);
    ghost var spec := ParseMany(parse, keys, start, numDataBlobKeys);
    for i := 0 to numDataBlobKeys
      invariant p.Valid() && p.off >= old(p.off) && calls == i && i + |p.Unread()| <= |start|
      invariant spec == ParseMany(parse, keys, p.Unread(), numDataBlobKeys - i)
    {
      calls := calls + 1;
      var key, _ := ReadBlobKey(p, h, compressed.value);
      if !key.Success? { return key.PropagateFailure(), calls; }
      keys := keys + [key.value];
    }
    r := Success(keys);
  }

  method ReadPreviews(p: Buffer, h: Header) returns (r: Result<Previews>)
    requires p.Valid()
    modifies p
    ensures p.Valid() && p.off >= old(p.off) && ParsePreviews(old(p.Unread()), h).Is(r, p.Unread())
  {
    if h.version < 18 {
      var thumbnail, _ :- ReadBlobKey(p, h, false);
      var preview, _ :- ReadBlobKey(p, h, false);
      return Success(Previews(Some(thumbnail), Some(preview)));
    }
    r := Success(Previews(None, None));
  }

  method ReadFinder(p: Buffer) returns (r: Result<Finder>)
    requires p.Valid()
    modifies p
    ensures p.Valid() && p.off >= old(p.off) && ParseFinder(old(p.Unread())).Is(r, p.Unread())
  {
    var fileType :- ReadString(p);
    var fileCreator :- ReadString(p);
    var hidden :- ReadBoolean(p);
    r := Success(Finder(fileType, fileCreator, hidden));
  }

  method ReadAllocation(p: Buffer) returns (a: Allocation)
    requires p.Valid()
    modifies p
    ensures p.Valid() && p.off >= old(p.off) && (a, p.Unread()) == GetAllocation(old(p.Unread()))
  {
    var sec := p.ReadI64();
    var nsec := p.ReadI64();
    var blocks := p.ReadI64();
    var blksize := p.ReadU32();
    a := Allocation(sec, nsec, blocks, blksize);
  }

  method ReadInfo(p: Buffer) returns (r: Result<NodeInfo>)
    requires p.Valid()
    modifies p
    ensures p.Valid() && p.off >= old(p.off) && ParseInfo(old(p.Unread())).Is(r, p.Unread())
  {
    hide GetOwnership, ParseFinder, GetStat, GetAllocation;
    var owner := ReadOwnership(p);
    var finder :- ReadFinder(p);
    var stat := ReadStat(p);
    var allocation := ReadAllocation(p);
    r := Success(NodeInfo(owner, finder, stat, allocation));
  }

  method ReadNodeTail(p: Buffer, h: Header) returns (r: Result<NodeTail>)
    requires p.Valid()
    modifies p
    ensures p.Valid() && p.off >= old(p.off) && ParseNodeTail(old(p.Unread()), h).Is(r, p.Unread())
  {
    hide ParsePreviews, ParseAttributes, ParseInfo;
    var size := p.ReadU64();
    var previews :- ReadPreviews(p, h);
    var attributes :- ReadAttributes(p, h);
    var info :- ReadInfo(p);
    r := Success(NodeTail(size, previews, attributes, info));
  }

  method ReadNode(p: Buffer, h: Header) returns (r: Result<Node>)
    requires p.Valid()
    modifies p
    ensures p.Valid() && p.off >= old(p.off) && ParseNode(old(p.Unread()), h).Is(r, p.Unread())
  {
    hide ParseString, ParseFlags, ParseDataKeys, ParseNodeTail;
    var name :- ReadString(p);
    var flags :- ReadFlags(p, h.version);
    var keys, _ := ReadDataKeys(p, h, flags.dataAreCompressed);
    if !keys.Success? { return keys.PropagateFailure(); }
    var tail :- ReadNodeTail(p, h);
    r := Success(MakeNode(name, h, flags, keys.value, tail));
  }

  function NodeParser(h: Header): Bytes -> Parse<Node> {
    b => ParseNode(b, h)
  }

  function ParseNodes(b: Bytes, h: Header): Parse<seq<Node>> {
    var (n, b1) := GetU32(b);
    ParseMany(NodeParser(h), [], b1, n)
  }

  /** `calls` counts, for the proof only, the loop's calls of its reader. */
  method ReadNodes(p: Buffer, h: Header) returns (r: Result<seq<Node>>, ghost calls: nat)
    requires p.Valid()
    modifies p
    ensures p.Valid() && p.off >= old(p.off) && ParseNodes(old(p.Unread()), h).Is(r, p.Unread())
    ensures calls <= |old(p.Unread())| + 1
  {
    hide ParseNode, GetU32;
    calls := 0;
    var numNodes := p.ReadU32();
    var nodes: seq<Node> := [];
    ghost var start, parse := p.Unread(), NodeParser(h);
    ghost var spec := ParseMany(parse, nodes, start, numNodes);
    for i := 0 to numNodes
      invariant p.Valid() && p.off >= old(p.off) && calls == i && i + |p.Unread()| <= |start|
      invariant spec == ParseMany(parse, nodes, p.Unread(), numNodes - i)
    {
      calls := calls + 1;
      var node := ReadNode(p, h);
      if !node.Success? { return node.PropagateFailure(), calls; }
      nodes := nodes + [node.value];
    }
    r := Success(nodes);
  }

  // ---------- Trees ----------

  function GetTimes(b: Bytes, version: int): (r: (TreeTimes, Bytes)) {
    var (blocks, b1) := GetI64(b);
    var (blksize, b2) := GetU32(b1);
    var (aggregate, b3) := if 11 <= version <= 16 then GetU64(b2) else (0, b2);
    if version >= 15 then
      var (sec, b4) := GetI64(b3);
      var (nsec, b5) := GetI64(b4);
      (TreeTimes(blocks, blksize, aggregate, sec, nsec), b5)
    else
      (TreeTimes(blocks, blksize, aggregate, 0, 0), b3)
  }

  function PutTimes(t: TreeTimes, version: int, s: Bytes): Bytes {
    var s1 := if version >= 15 then PutI64(t.createTimeSec, PutI64(t.createTimeNsec, s)) else s;
    var s2 := if 11 <= version <= 16 then PutU64(t.aggregateSizeOnDisk, s1) else s1;
    PutI64(t.blocks, PutU32(t.blksize, s2))
  }

  /** Fields that the version leaves out hold Go's zero value. */
  predicate WellFormedTimes(t: TreeTimes, version: int) {
    && (!(11 <= version <= 16) ==> t.aggregateSizeOnDisk == 0)
    && (version < 15 ==> t.createTimeSec == 0 && t.createTimeNsec == 0)
  }

  lemma TimesRoundTrip(t: TreeTimes, version: int, s: Bytes)
    requires WellFormedTimes(t, version)
    ensures GetTimes(PutTimes(t, version, s), version) == (t, s)
  {
    IntegersRoundTrip();
  }

  function GetTreeInfo(b: Bytes, version: int): (TreeInfo, Bytes) {
    var (owner, b1) := GetOwnership(b);
    var (stat, b2) := GetStat(b1);
    var (times, b3) := GetTimes(b2, version);
    (TreeInfo(owner, stat, times), b3)
  }

  function ParseTreeHead(b: Bytes): Parse<TreeHead> {
    var (header, b1) :- ParseHeader(b);
    var (xattrsCompressed, b2) :- ParseBoolIf(header.version >= 12, b1);
    var (aclCompressed, b3) :- ParseBoolIf(header.version >= 12, b2);
    var (attributes, b4) :- ParseAttributes(b3, header);
    var (info, b5) := GetTreeInfo(b4, header.version);
    Ok(TreeHead(header, xattrsCompressed, aclCompressed, attributes, info), b5)
  }

  function ParseMissing(b: Bytes, h: Header): Parse<seq<Node>> {
    if h.version >= 18 then ParseNodes(b, h) else Ok([], b)
  }

  function ParseTree(b: Bytes): Parse<Tree> {
    var (head, b1) :- ParseTreeHead(b);
    var (missing, b2) :- ParseMissing(b1, head.header);
    var (nodes, b3) :- ParseNodes(b2, head.header);
    Ok(Tree(head, missing, nodes), b3)
  }

  function NodeWriter(): (Node, Bytes) -> Bytes {
    (n, s) => PutNode(n, s)
  }

  function PutNodes(nodes: seq<Node>, s: Bytes): Bytes {
    PutU32(|nodes| % TWO_32, PutMany(NodeWriter(), nodes, s))
  }

  function PutTreeInfo(i: TreeInfo, version: int, s: Bytes): Bytes {
    PutOwnership(i.owner, PutStat(i.stat, PutTimes(i.times, version, s)))
  }

  function PutTreeHead(t: TreeHead, s: Bytes): Bytes {
    PutHeader(t.header, PutBoolIf(t.xattrsAreCompressed, PutBoolIf(t.aclIsCompressed,
      PutAttributes(t.attributes, PutTreeInfo(t.info, t.header.version, s)))))
  }

  function PutMissing(nodes: seq<Node>, h: Header, s: Bytes): Bytes {
    if h.version >= 18 then PutNodes(nodes, s) else s
  }

  /** The tree format: the encoding of t followed by s. */
  function PutTree(t: Tree, s: Bytes): Bytes {
    PutTreeHead(t.head, PutMissing(t.missingNodes, t.head.header, PutNodes(t.nodes, s)))
  }

  function EncodeTree(t: Tree): Bytes {
    PutTree(t, [])
  }

  predicate WellFormedNodes(nodes: seq<Node>, h: Header) {
    |nodes| < TWO_32 && forall n :: n in nodes ==> WellFormedNode(n, h)
  }

  predicate WellFormedTreeHead(t: TreeHead) {
    && WellFormedHeader(t.header)
    && t.xattrsAreCompressed.Some? == t.aclIsCompressed.Some? == (t.header.version >= 12)
    && WellFormedAttributes(t.attributes, t.header)
    && WellFormedTimes(t.info.times, t.header.version)
  }

  /** A tree as the format of its own version can hold it. */
  predicate WellFormedTree(t: Tree) {
    && WellFormedTreeHead(t.head)
    && (t.head.header.version < 18 ==> t.missingNodes == [])
    && WellFormedNodes(t.missingNodes, t.head.header)
    && WellFormedNodes(t.nodes, t.head.header)
  }

  /** The trees ReadTree survives. */
  predicate ReadableTree(t: Tree) {
    forall n :: n in t.nodes ==> Readable(n)
  }

  function Normalizer(): Node -> Node {
    n => NormalizeNode(n)
  }

  function NormalizeTree(t: Tree): Tree {
    Tree(t.head.(attributes := NormalizeAttributes(t.head.attributes)),
         MapSeq(Normalizer(), t.missingNodes),
         MapSeq(Normalizer(), t.nodes))
  }

  lemma NodesRoundTrip(nodes: seq<Node>, h: Header, s: Bytes)
    requires WellFormedNodes(nodes, h)
    ensures ParseNodes(PutNodes(nodes, s), h) ==
            if forall n :: n in nodes ==> Readable(n) then Ok(MapSeq(Normalizer(), nodes), s) else Crash
  {
    hide ParseNode, PutNode, WellFormedNode, NormalizeNode, GetU32, PutU32;
    CountRoundTrip(|nodes|, PutMany(NodeWriter(), nodes, s));
    var parse, put := NodeParser(h), NodeWriter();
    forall n, t: Bytes | n in nodes
      ensures parse(put(n, t)) == if Readable(n) then Ok(NormalizeNode(n), t) else Crash
    {
      NodeRoundTrip(n, h, t);
    }
    ManyRoundTrip(parse, put, Normalizer(), n => Readable(n), [], nodes, s);
    assert [] + MapSeq(Normalizer(), nodes) == MapSeq(Normalizer(), nodes);
  }

  lemma MissingRoundTrip(nodes: seq<Node>, h: Header, s: Bytes)
    requires WellFormedNodes(nodes, h)
    requires h.version < 18 ==> nodes == []
    ensures ParseMissing(PutMissing(nodes, h, s), h) == Ok(MapSeq(Normalizer(), nodes), s)
  {
    NodesRoundTrip(nodes, h, s);
  }

  lemma TreeInfoRoundTrip(i: TreeInfo, version: int, s: Bytes)
    requires WellFormedTimes(i.times, version)
    ensures GetTreeInfo(PutTreeInfo(i, version, s), version) == (i, s)
  {
    var s2 := PutTimes(i.times, version, s);
    TimesRoundTrip(i.times, version, s);
    StatRoundTrip(i.stat, s2);
    OwnershipRoundTrip(i.owner, PutStat(i.stat, s2));
  }

  lemma TreeHeadRoundTrip(t: TreeHead, s: Bytes)
    requires WellFormedTreeHead(t)
    ensures ParseTreeHead(PutTreeHead(t, s)) == Ok(t.(attributes := NormalizeAttributes(t.attributes)), s)
  {
    var v := t.header.version;
    var s3 := PutTreeInfo(t.info, v, s);
    var s2 := PutAttributes(t.attributes, s3);
    var s1 := PutBoolIf(t.aclIsCompressed, s2);
    TreeInfoRoundTrip(t.info, v, s);
    AttributesRoundTrip(t.attributes, t.header, s3);
    BoolIfRoundTrip(t.aclIsCompressed, s2);
    BoolIfRoundTrip(t.xattrsAreCompressed, s1);
    HeaderRoundTrip(t.header, PutBoolIf(t.xattrsAreCompressed, s1));
  }

  /** ReadTree inverts the tree format at every version and leaves exactly what
      follows, except that it panics on exactly the trees below version 12 with
      a node that has data keys. */
  lemma TreeRoundTrip(t: Tree, s: Bytes)
    requires WellFormedTree(t)
    ensures ParseTree(PutTree(t, s)) == if ReadableTree(t) then Ok(NormalizeTree(t), s) else Crash
  {
    var h := t.head.header;
    NodesRoundTrip(t.nodes, h, s);
    MissingRoundTrip(t.missingNodes, h, PutNodes(t.nodes, s));
    TreeHeadRoundTrip(t.head, PutMissing(t.missingNodes, h, PutNodes(t.nodes, s)));
  }

  lemma NodesAppend(nodes: seq<Node>, s: Bytes, t: Bytes)
    ensures PutNodes(nodes, s) + t == PutNodes(nodes, s + t)
  {
    forall n, s: Bytes, t: Bytes
      ensures NodeWriter()(n, s) + t == NodeWriter()(n, s + t)
    {
      NodeAppend(n, s, t);
    }
    ManyAppend(NodeWriter(), nodes, s, t);
    IntegersAppend();
  }

  lemma TreeInfoAppend(i: TreeInfo, version: int, s: Bytes, t: Bytes)
    ensures PutTreeInfo(i, version, s) + t == PutTreeInfo(i, version, s + t)
  {
    var s2 := PutTimes(i.times, version, s);
    assert s2 + t == PutTimes(i.times, version, s + t) by { IntegersAppend(); }
    StatAppend(i.stat, s2, t);
    OwnershipAppend(i.owner, PutStat(i.stat, s2), t);
  }

  lemma TreeHeadAppend(h: TreeHead, s: Bytes, t: Bytes)
    ensures PutTreeHead(h, s) + t == PutTreeHead(h, s + t)
  {
    var s3 := PutTreeInfo(h.info, h.header.version, s);
    var s2 := PutAttributes(h.attributes, s3);
    TreeInfoAppend(h.info, h.header.version, s, t);
    AttributesAppend(h.attributes, s3, t);
    BoolIfAppend(h.aclIsCompressed, s2, t);
    BoolIfAppend(h.xattrsAreCompressed, PutBoolIf(h.aclIsCompressed, s2), t);
  }

  lemma TreeAppend(t: Tree, s: Bytes, x: Bytes)
    ensures PutTree(t, s) + x == PutTree(t, s + x)
  {
    var s1 := PutNodes(t.nodes, s);
    NodesAppend(t.nodes, s, x);
    NodesAppend(t.missingNodes, s1, x);
    TreeHeadAppend(t.head, PutMissing(t.missingNodes, t.head.header, s1), x);
  }

  /** Reading encode(t) ++ s returns t and leaves s. */
  lemma EncodedTreeRoundTrip(t: Tree, s: Bytes)
    requires WellFormedTree(t) && ReadableTree(t)
    ensures ParseTree(EncodeTree(t) + s) == Ok(NormalizeTree(t), s)
  {
    TreeAppend(t, [], s);
    assert [] + s == s;
    TreeRoundTrip(t, s);
  }

  // ---------- No two trees have the same encoding ----------

  lemma BlobKeyInjective(k: BlobKey, l: BlobKey, h: Header, readIsCompressed: bool, s: Bytes, t: Bytes)
    requires WellFormedKey(k, h, readIsCompressed) && WellFormedKey(l, h, readIsCompressed)
    requires PutBlobKey(k, s) == PutBlobKey(l, t)
    ensures k == l && s == t
  {
    hide ParseBlobKey, PutBlobKey, WellFormedKey;
    BlobKeyRoundTrip(k, h, readIsCompressed, s);
    BlobKeyRoundTrip(l, h, readIsCompressed, t);
  }

  lemma SizeInjective(m: uint64, n: uint64, s: Bytes, t: Bytes)
    requires PutU64(m, s) == PutU64(n, t)
    ensures m == n && s == t
  {
    hide PutU64;
    SizeRoundTrip(m, s);
    SizeRoundTrip(n, t);
  }

  lemma AttributesInjective(a: Attributes, c: Attributes, h: Header, s: Bytes, t: Bytes)
    requires WellFormedAttributes(a, h) && WellFormedAttributes(c, h)
    requires PutAttributes(a, s) == PutAttributes(c, t)
    ensures a == c && s == t
  {
    hide PutBlobKey, WellFormedKey, PutU64;
    var s1, t1 := PutKeyIf(a.aclKey, s), PutKeyIf(c.aclKey, t);
    BlobKeyInjective(a.xattrsKey.value, c.xattrsKey.value, h, true, PutU64(a.xattrsSize, s1), PutU64(c.xattrsSize, t1));
    SizeInjective(a.xattrsSize, c.xattrsSize, s1, t1);
    BlobKeyInjective(a.aclKey.value, c.aclKey.value, h, true, s, t);
  }

  lemma DataKeysInjective(
      keys: seq<BlobKey>, others: seq<BlobKey>, h: Header, readIsCompressed: bool, s: Bytes, t: Bytes)
    requires |keys| < TWO_32 && |others| < TWO_32
    requires forall k :: k in keys ==> WellFormedKey(k, h, readIsCompressed)
    requires forall k :: k in others ==> WellFormedKey(k, h, readIsCompressed)
    requires PutDataKeys(keys, s) == PutDataKeys(others, t)
    ensures keys == others && s == t
  {
    hide ParseBlobKey, PutBlobKey, WellFormedKey, PutU32, GetU32;
    CountRoundTrip(|keys|, PutMany(KeyWriter(), keys, s));
    CountRoundTrip(|others|, PutMany(KeyWriter(), others, t));
    KeysRoundTrip(keys, h, readIsCompressed, s);
    KeysRoundTrip(others, h, readIsCompressed, t);
  }

  lemma TailInjective(a: NodeTail, c: NodeTail, h: Header, s: Bytes, t: Bytes)
    requires WellFormedTail(a, h) && WellFormedTail(c, h) && PutNodeTail(a, s) == PutNodeTail(c, t)
    ensures a == c && s == t
  {
    hide PutU64, PutPreviews, PutAttributes, PutInfo, ParsePreviews, ParseInfo, WellFormedPreviews,
         WellFormedAttributes;
    var s3, t3 := PutInfo(a.info, s), PutInfo(c.info, t);
    var s2, t2 := PutAttributes(a.attributes, s3), PutAttributes(c.attributes, t3);
    SizeInjective(a.size, c.size, PutPreviews(a.previews, s2), PutPreviews(c.previews, t2));
    PreviewsRoundTrip(a.previews, h, s2);
    PreviewsRoundTrip(c.previews, h, t2);
    AttributesInjective(a.attributes, c.attributes, h, s3, t3);
    InfoRoundTrip(a.info, s);
    InfoRoundTrip(c.info, t);
  }

  lemma FlagsRoundTrip(f: NodeFlags, version: int, s: Bytes)
    requires WellFormedFlags(f, version)
    ensures ParseFlags(PutFlags(f, s), version) == Ok(f, s)
  {
    ScalarsRoundTrip();
  }

  lemma NodeInjective(m: Node, n: Node, h: Header, s: Bytes, t: Bytes)
    requires WellFormedNode(m, h) && WellFormedNode(n, h) && PutNode(m, s) == PutNode(n, t)
    ensures m == n && s == t
  {
    hide PutString, ParseString, PutFlags, ParseFlags, PutDataKeys, PutNodeTail, WellFormedKey, WellFormedTail;
    var s2, t2 := PutNodeTail(Tail(m), s), PutNodeTail(Tail(n), t);
    var s1, t1 := PutDataKeys(m.dataBlobKeys, s2), PutDataKeys(n.dataBlobKeys, t2);
    StringRoundTrip(m.name, PutFlags(m.flags, s1));
    StringRoundTrip(n.name, PutFlags(n.flags, t1));
    FlagsRoundTrip(m.flags, h.version, s1);
    FlagsRoundTrip(n.flags, h.version, t1);
    DataKeysInjective(m.dataBlobKeys, n.dataBlobKeys, h, m.flags.dataAreCompressed == Some(true), s2, t2);
    TailInjective(Tail(m), Tail(n), h, s, t);
  }

  lemma NodesInjective(a: seq<Node>, c: seq<Node>, h: Header, s: Bytes, t: Bytes)
    requires WellFormedNodes(a, h) && WellFormedNodes(c, h) && PutNodes(a, s) == PutNodes(c, t)
    ensures a == c && s == t
  {
    hide PutNode, WellFormedNode, PutU32, GetU32;
    CountRoundTrip(|a|, PutMany(NodeWriter(), a, s));
    CountRoundTrip(|c|, PutMany(NodeWriter(), c, t));
    var ok: Node -> bool := n => WellFormedNode(n, h);
    forall m, n, s: Bytes, t: Bytes {:trigger NodeWriter()(m, s), NodeWriter()(n, t)} |
        ok(m) && ok(n) && NodeWriter()(m, s) == NodeWriter()(n, t)
      ensures m == n && s == t
    {
      NodeInjective(m, n, h, s, t);
    }
    ManyInjective(NodeWriter(), ok, a, c, s, t);
  }

  lemma TreeHeadInjective(a: TreeHead, c: TreeHead, s: Bytes, t: Bytes)
    requires WellFormedTreeHead(a) && WellFormedTreeHead(c) && PutTreeHead(a, s) == PutTreeHead(c, t)
    ensures a == c && s == t
  {
    hide PutHeader, ParseHeader, PutBoolIf, ParseBoolIf, PutAttributes, PutTreeInfo, GetTreeInfo, WellFormedAttributes,
         WellFormedTimes, WellFormedHeader;
    var s3, t3 := PutTreeInfo(a.info, a.header.version, s), PutTreeInfo(c.info, c.header.version, t);
    var s2, t2 := PutAttributes(a.attributes, s3), PutAttributes(c.attributes, t3);
    var s1, t1 := PutBoolIf(a.aclIsCompressed, s2), PutBoolIf(c.aclIsCompressed, t2);
    HeaderRoundTrip(a.header, PutBoolIf(a.xattrsAreCompressed, s1));
    HeaderRoundTrip(c.header, PutBoolIf(c.xattrsAreCompressed, t1));
    BoolIfRoundTrip(a.xattrsAreCompressed, s1);
    BoolIfRoundTrip(c.xattrsAreCompressed, t1);
    BoolIfRoundTrip(a.aclIsCompressed, s2);
    BoolIfRoundTrip(c.aclIsCompressed, t2);
    AttributesInjective(a.attributes, c.attributes, a.header, s3, t3);
    TreeInfoRoundTrip(a.info, a.header.version, s);
    TreeInfoRoundTrip(c.info, c.header.version, t);
  }

  lemma PutTreeInjective(t: Tree, u: Tree, s: Bytes, x: Bytes)
    requires WellFormedTree(t) && WellFormedTree(u) && PutTree(t, s) == PutTree(u, x)
    ensures t == u && s == x
  {
    hide PutTreeHead, PutNodes, WellFormedTreeHead, WellFormedNodes;
    var h := t.head.header;
    var s1, x1 := PutNodes(t.nodes, s), PutNodes(u.nodes, x);
    TreeHeadInjective(t.head, u.head, PutMissing(t.missingNodes, h, s1), PutMissing(u.missingNodes, u.head.header, x1));
    if h.version >= 18 { NodesInjective(t.missingNodes, u.missingNodes, h, s1, x1); }
    NodesInjective(t.nodes, u.nodes, h, s, x);
  }

  /** Even the trees that ReadTree panics on, and the null keys that it collapses, are told
      apart by the format: no encoding is a proper prefix of another, and equal encodings
      are of equal trees. */
  lemma TreeEncodingPrefixFree(t: Tree, u: Tree, s: Bytes)
    requires WellFormedTree(t) && WellFormedTree(u)
    ensures EncodeTree(t) + s == EncodeTree(u) ==> s == [] && t == u
  {
    hide PutTree, WellFormedTree;
    TreeAppend(t, [], s);
    assert [] + s == s;
    if PutTree(t, s) == PutTree(u, []) { PutTreeInjective(t, u, s, []); }
  }

  method ReadTimes(p: Buffer, version: int) returns (t: TreeTimes)
    requires p.Valid()
    modifies p
    ensures p.Valid() && p.off >= old(p.off) && (t, p.Unread()) == GetTimes(old(p.Unread()), version)
  {
    var blocks := p.ReadI64();
    var blksize := p.ReadU32();
    var aggregate, sec, nsec := 0, 0, 0;
    if version >= 11 && version <= 16 {
      aggregate := p.ReadU64();
    }
    if version >= 15 {
      sec := p.ReadI64();
      nsec := p.ReadI64();
    }
    t := TreeTimes(blocks, blksize, aggregate, sec, nsec);
  }

  method ReadTreeInfo(p: Buffer, version: int) returns (i: TreeInfo)
    requires p.Valid()
    modifies p
    ensures p.Valid() && p.off >= old(p.off) && (i, p.Unread()) == GetTreeInfo(old(p.Unread()), version)
  {
    var owner := ReadOwnership(p);
    var stat := ReadStat(p);
    var times := ReadTimes(p, version);
    i := TreeInfo(owner, stat, times);
  }

  method ReadTreeHead(p: Buffer) returns (r: Result<TreeHead>)
    requires p.Valid()
    modifies p
    ensures p.Valid() && p.off >= old(p.off) && ParseTreeHead(old(p.Unread())).Is(r, p.Unread())
  {
    hide ParseHeader, ParseBoolIf, ParseAttributes, GetTreeInfo;
    var header :- ReadHeader(p);
    var xattrsCompressed :- ReadBooleanIf(header.version >= 12, p);
    var aclCompressed :- ReadBooleanIf(header.version >= 12, p);
    var attributes :- ReadAttributes(p, header);
    var info := ReadTreeInfo(p, header.version);
    r := Success(TreeHead(header, xattrsCompressed, aclCompressed, attributes, info));
  }

  method ReadTree(p: Buffer) returns (r: Result<Tree>)
    requires p.Valid()
    modifies p
    ensures p.Valid() && p.off >= old(p.off) && ParseTree(old(p.Unread())).Is(r, p.Unread())
  {
    hide ParseTreeHead, ParseNodes;
    var head :- ReadTreeHead(p);
    var missing: seq<Node> := [];
    if head.header.version >= 18 {
      var m, _ := ReadNodes(p, head.header);
      if !m.Success? { return m.PropagateFailure(); }
      missing := m.value;
    }
    var nodes, _ := ReadNodes(p, head.header);
    if !nodes.Success? { return nodes.PropagateFailure(); }
    r := Success(Tree(head, missing, nodes.value));
  }
}
