/** Commits: the reader of arq/types/commit.go. Unescaping the Location and
    matching it against the regular expression is the abstract step `decode`. */
module CommitFormat {
  import opened Buffers
  import opened Wire
  import opened TreeFormat

  datatype Location = Location(text: Bytes, computer: Bytes, path: Bytes)
  datatype FailedFile = FailedFile(relativePath: Option<Bytes>, errorMessage: Option<Bytes>)

  datatype CommitStart = CommitStart(
    header: Header,
    author: Option<Bytes>,
    comment: Option<Bytes>,
    parentCommits: seq<BlobKey>)

  datatype CommitHead = CommitHead(start: CommitStart, treeKey: BlobKey)

  datatype CommitTail = CommitTail(
    mergeAncestor: Option<Bytes>,             // below v8
    mergeAncestorStretched: Option<bool>,     // v4 to v7
    creationDate: Option<int64>,
    failedFiles: seq<FailedFile>,             // v3
    hasMissingNodes: Option<bool>,            // v8
    isComplete: Option<bool>,                 // v9
    config: Option<Bytes>)                    // v5

  datatype Commit = Commit(head: CommitHead, location: Location, tail: CommitTail)

  type Decoder = Bytes -> Option<Location>

  // ---------- Specification ----------

  function ParseFailedFile(b: Bytes): (r: Parse<FailedFile>)
    ensures r.Ok? ==> |r.rest| < |b|
  {
    var (path, b1) :- ParseString(b);
    var (message, b2) :- ParseString(b1);
    Ok(FailedFile(path, message), b2)
  }

  function FailedFileParser(): Bytes -> Parse<FailedFile> {
    b => ParseFailedFile(b)
  }

  function ParseParents(b: Bytes, h: Header): Parse<seq<BlobKey>> {
    var (n, b1) := GetU64(b);
    ParseMany(KeyParser(h, false), [], b1, n)
  }

  function ParseFailedFiles(b: Bytes): Parse<seq<FailedFile>> {
    var (n, b1) := GetU64(b);
    ParseMany(FailedFileParser(), [], b1, n)
  }

  function ParseCommitStart(b: Bytes): Parse<CommitStart> {
    var (header, b1) :- ParseHeader(b);
    var (author, b2) :- ParseString(b1);
    var (comment, b3) :- ParseString(b2);
    var (parents, b4) :- ParseParents(b3, header);
    Ok(CommitStart(header, author, comment, parents), b4)
  }

  function ParseCommitHead(b: Bytes): Parse<CommitHead> {
    var (start, b1) :- ParseCommitStart(b);
    var (treeKey, b2) :- ParseBlobKey(b1, start.header, true);
    Ok(CommitHead(start, treeKey), b2)
  }

  /** Using a null Location panics; one the expression does not match is an error. */
  function ParseLocation(b: Bytes, decode: Decoder): Parse<Location> {
    var (raw, b1) :- ParseString(b);
    if raw.None? then Crash
    else if decode(raw.value).None? then Err(b1)
    else Ok(decode(raw.value).value, b1)
  }

  function ParseMergeAncestor(b: Bytes, version: int): Parse<(Option<Bytes>, Option<bool>)> {
    if version < 8 then
      var (ancestor, b1) :- ParseString(b);
      var (stretched, b2) :- ParseBoolIf(version >= 4, b1);
      Ok((ancestor, stretched), b2)
    else
      Ok((None, None), b)
  }

  function ParseConfig(b: Bytes, version: int): Parse<Option<Bytes>> {
    if version >= 5 then
      var (d, b1) :- ParseData(b);
      Ok(Some(d), b1)
    else
      Ok(None, b)
  }

  function ParseFailedFilesIf(b: Bytes, version: int): Parse<seq<FailedFile>> {
    if version >= 3 then ParseFailedFiles(b) else Ok([], b)
  }

  function ParseCommitTail(b: Bytes, version: int): Parse<CommitTail> {
    var (merge, b1) :- ParseMergeAncestor(b, version);
    var (date, b2) :- ParseDate(b1);
    var (failed, b3) :- ParseFailedFilesIf(b2, version);
    var (missing, b4) :- ParseBoolIf(version >= 8, b3);
    var (complete, b5) :- ParseBoolIf(version >= 9, b4);
    var (config, b6) :- ParseConfig(b5, version);
    Ok(CommitTail(merge.0, merge.1, date, failed, missing, complete, config), b6)
  }

  function ParseCommit(b: Bytes, decode: Decoder): Parse<Commit> {
    var (head, b1) :- ParseCommitHead(b);
    var (location, b2) :- ParseLocation(b1, decode);
    var (tail, b3) :- ParseCommitTail(b2, head.start.header.version);
    Ok(Commit(head, location, tail), b3)
  }

  /** What a caller that drops the error finds in the commit: the fields set before reading
      failed. A key or a path not reached is nil or empty. */
  datatype Shown = Shown(path: Bytes, treeSha: Option<Sha>)

  function ShownBy(b: Bytes, decode: Decoder): Shown {
    match ParseCommitStart(b)
    case Ok(start, b1) =>
      (match ParseBlobKey(b1, start.header, true)
       case Ok(_, b2) =>
         (match ParseLocation(b2, decode)
          case Ok(location, _) => Shown(location.path, KeySha(b1))
          case _ => Shown([], KeySha(b1)))
       case _ => Shown([], KeySha(b1)))
    case _ => Shown([], None)
  }

  // ---------- The format ----------

  function PutParents(keys: seq<BlobKey>, s: Bytes): Bytes {
    PutU64(|keys| % TWO_64, PutMany(KeyWriter(), keys, s))
  }

  function PutFailedFile(f: FailedFile, s: Bytes): Bytes {
    PutString(f.relativePath, PutString(f.errorMessage, s))
  }

  function FailedFileWriter(): (FailedFile, Bytes) -> Bytes {
    (f, s) => PutFailedFile(f, s)
  }

  function PutFailedFiles(files: seq<FailedFile>, s: Bytes): Bytes {
    PutU64(|files| % TWO_64, PutMany(FailedFileWriter(), files, s))
  }

  function PutCommitStart(c: CommitStart, s: Bytes): Bytes {
    PutHeader(c.header, PutString(c.author, PutString(c.comment, PutParents(c.parentCommits, s))))
  }

  function PutCommitHead(c: CommitHead, s: Bytes): Bytes {
    PutCommitStart(c.start, PutBlobKey(c.treeKey, s))
  }

  function PutMergeAncestor(t: CommitTail, version: int, s: Bytes): Bytes {
    if version < 8 then PutString(t.mergeAncestor, PutBoolIf(t.mergeAncestorStretched, s)) else s
  }

  function PutFailedFilesIf(t: CommitTail, version: int, s: Bytes): Bytes {
    if version >= 3 then PutFailedFiles(t.failedFiles, s) else s
  }

  function PutConfig(config: Option<Bytes>, s: Bytes): Bytes {
    if config.Some? then PutData(config.value, s) else s
  }

  function PutCommitTail(t: CommitTail, version: int, s: Bytes): Bytes {
    PutMergeAncestor(t, version, PutDate(t.creationDate, PutFailedFilesIf(t, version,
      PutBoolIf(t.hasMissingNodes, PutBoolIf(t.isComplete, PutConfig(t.config, s))))))
  }

  /** The commit format: c, with the Location as it stands in the file, then s. */
  function PutCommit(c: Commit, raw: Option<Bytes>, s: Bytes): Bytes {
    PutCommitHead(c.head, PutString(raw, PutCommitTail(c.tail, c.head.start.header.version, s)))
  }

  predicate WellFormedStart(c: CommitStart) {
    && WellFormedHeader(c.header)
    && Encodable(c.author) && Encodable(c.comment)
    && |c.parentCommits| < TWO_64
    && (forall k :: k in c.parentCommits ==> WellFormedKey(k, c.header, false))
  }

  predicate WellFormedHead(c: CommitHead) {
    WellFormedStart(c.start) && WellFormedKey(c.treeKey, c.start.header, true)
  }

  predicate WellFormedFailedFile(f: FailedFile) {
    Encodable(f.relativePath) && Encodable(f.errorMessage)
  }

  /** The fields present are exactly those the version calls for. */
  predicate WellFormedCommitTail(t: CommitTail, version: int) {
    && (version >= 8 ==> t.mergeAncestor == None) && Encodable(t.mergeAncestor)
    && t.mergeAncestorStretched.Some? == (4 <= version < 8)
    && WholeMilliseconds(t.creationDate)
    && (version < 3 ==> t.failedFiles == [])
    && |t.failedFiles| < TWO_64
    && (forall f :: f in t.failedFiles ==> WellFormedFailedFile(f))
    && t.hasMissingNodes.Some? == (version >= 8)
    && t.isComplete.Some? == (version >= 9)
    && t.config.Some? == (version >= 5) && Encodable(t.config)
  }

  predicate WellFormedCommit(c: Commit) {
    WellFormedHead(c.head) && WellFormedCommitTail(c.tail, c.head.start.header.version)
  }

  lemma ParentsRoundTrip(keys: seq<BlobKey>, h: Header, s: Bytes)
    requires |keys| < TWO_64 && forall k :: k in keys ==> WellFormedKey(k, h, false)
    ensures ParseParents(PutParents(keys, s), h) == Ok(keys, s)
  {
    hide GetU64, PutU64;
    LongCountRoundTrip(|keys|, PutMany(KeyWriter(), keys, s));
    KeysRoundTrip(keys, h, false, s);
  }

  lemma CommitStartRoundTrip(c: CommitStart, s: Bytes)
    requires WellFormedStart(c)
    ensures ParseCommitStart(PutCommitStart(c, s)) == Ok(c, s)
  {
    hide ParseParents, PutParents, ParseHeader, PutHeader, ParseString, PutString;
    var s3 := PutParents(c.parentCommits, s);
    var s2 := PutString(c.comment, s3);
    ParentsRoundTrip(c.parentCommits, c.header, s);
    StringRoundTrip(c.comment, s3);
    StringRoundTrip(c.author, s2);
    HeaderRoundTrip(c.header, PutString(c.author, s2));
  }

  lemma CommitHeadRoundTrip(c: CommitHead, s: Bytes)
    requires WellFormedHead(c)
    ensures ParseCommitHead(PutCommitHead(c, s)) == Ok(c, s)
  {
    hide ParseCommitStart, PutCommitStart, ParseBlobKey, PutBlobKey;
    BlobKeyRoundTrip(c.treeKey, c.start.header, true, s);
    CommitStartRoundTrip(c.start, PutBlobKey(c.treeKey, s));
  }

  lemma FailedFilesRoundTrip(files: seq<FailedFile>, s: Bytes)
    requires |files| < TWO_64 && forall f :: f in files ==> WellFormedFailedFile(f)
    ensures ParseFailedFiles(PutFailedFiles(files, s)) == Ok(files, s)
  {
    hide GetU64, PutU64;
    LongCountRoundTrip(|files|, PutMany(FailedFileWriter(), files, s));
    var parse, put := FailedFileParser(), FailedFileWriter();
    forall f, t: Bytes | f in files
      ensures parse(put(f, t)) == Ok(f, t)
    {
      StringRoundTrip(f.errorMessage, t);
      StringRoundTrip(f.relativePath, PutString(f.errorMessage, t));
    }
    var id: FailedFile -> FailedFile := f => f;
    ManyRoundTrip(parse, put, id, _ => true, [], files, s);
    assert [] + MapSeq(id, files) == files;
  }

  lemma MergeAncestorRoundTrip(t: CommitTail, version: int, s: Bytes)
    requires WellFormedCommitTail(t, version)
    ensures ParseMergeAncestor(PutMergeAncestor(t, version, s), version) ==
            Ok((t.mergeAncestor, t.mergeAncestorStretched), s)
  {
    BoolIfRoundTrip(t.mergeAncestorStretched, s);
    StringRoundTrip(t.mergeAncestor, PutBoolIf(t.mergeAncestorStretched, s));
  }

  lemma ConfigRoundTrip(config: Option<Bytes>, version: int, s: Bytes)
    requires config.Some? == (version >= 5) && Encodable(config)
    ensures ParseConfig(PutConfig(config, s), version) == Ok(config, s)
  {
    if config.Some? { DataRoundTrip(config.value, s); }
  }

  lemma CommitTailRoundTrip(t: CommitTail, version: int, s: Bytes)
    requires WellFormedCommitTail(t, version)
    ensures ParseCommitTail(PutCommitTail(t, version, s), version) == Ok(t, s)
  {
    hide ParseMergeAncestor, PutMergeAncestor, ParseFailedFiles, PutFailedFiles, ParseDate, PutDate, ParseBoolIf,
         PutBoolIf, ParseConfig, PutConfig;
    var s5 := PutConfig(t.config, s);
    var s4 := PutBoolIf(t.isComplete, s5);
    var s3 := PutBoolIf(t.hasMissingNodes, s4);
    var s2 := PutFailedFilesIf(t, version, s3);
    ConfigRoundTrip(t.config, version, s);
    BoolIfRoundTrip(t.isComplete, s5);
    BoolIfRoundTrip(t.hasMissingNodes, s4);
    FailedFilesRoundTrip(t.failedFiles, s3);
    DateRoundTrip(t.creationDate, s2);
    MergeAncestorRoundTrip(t, version, PutDate(t.creationDate, s2));
  }

  /** ReadCommit inverts the commit format at every version: it returns the commit
      with its decoded Location and leaves exactly what follows, fails on exactly
      the Locations that do not decode, and panics on a null Location. */
  lemma CommitRoundTrip(c: Commit, raw: Option<Bytes>, decode: Decoder, s: Bytes)
    requires WellFormedCommit(c) && Encodable(raw)
    ensures var r := ParseCommit(PutCommit(c, raw, s), decode);
            if raw.None? then r == Crash
            else if decode(raw.value).None? then r.Err?
            else r == Ok(c.(location := decode(raw.value).value), s)
  {
    hide ParseCommitHead, PutCommitHead, ParseCommitTail, PutCommitTail, ParseString, PutString;
    var s2 := PutCommitTail(c.tail, c.head.start.header.version, s);
    CommitHeadRoundTrip(c.head, PutString(raw, s2));
    StringRoundTrip(raw, s2);
    CommitTailRoundTrip(c.tail, c.head.start.header.version, s);
  }

  // ---------- The readers ----------

  method ReadCommitFailedFile(p: Buffer) returns (r: Result<FailedFile>)
    requires p.Valid()
    modifies p
    ensures p.Valid() && p.off >= old(p.off) && ParseFailedFile(old(p.Unread())).Is(r, p.Unread())
  {
    var relativePath :- ReadString(p);
    var errorMessage :- ReadString(p);
    r := Success(FailedFile(relativePath, errorMessage));
  }

  /** `calls` counts, for the proof only, the loop's calls of its reader. */
  method ReadParents(p: Buffer, h: Header) returns (r: Result<seq<BlobKey>>, ghost calls: nat)
    requires p.Valid()
    modifies p
    ensures p.Valid() && p.off >= old(p.off) && ParseParents(old(p.Unread()), h).Is(r, p.Unread())
    ensures calls <= |old(p.Unread())| + 1
  {
    hide ParseBlobKey, GetU64;
    calls := 0;
    var numParentCommits := p.ReadU64();
    var parents: seq<BlobKey> := [];
    ghost var start, parse := p.Unread(), KeyParser(h, false);
    ghost var spec := ParseMany(parse, parents, start, numParentCommits);
    for i := 0 to numParentCommits
      invariant p.Valid() && p.off >= old(p.off) && calls == i && i + |p.Unread()| <= |start|
      invariant spec == ParseMany(parse, parents, p.Unread(), numParentCommits - i)
    {
      calls := calls + 1;
      var key, _ := ReadBlobKey(p, h, false);
      if !key.Success? { return key.PropagateFailure(), calls; }
      parents := parents + [key.value];
    }
    r := Success(parents);
  }

  /** `calls` counts, for the proof only, the loop's calls of its reader. */
  method ReadFailedFiles(p: Buffer) returns (r: Result<seq<FailedFile>>, ghost calls: nat)
    requires p.Valid()
    modifies p
    ensures p.Valid() && p.off >= old(p.off) && ParseFailedFiles(old(p.Unread())).Is(r, p.Unread())
    ensures calls <= |old(p.Unread())| + 1
  {
    hide ParseFailedFile, GetU64;
    calls := 0;
    var numFailedFiles := p.ReadU64();
    var files: seq<FailedFile> := [];
    ghost var start, parse := p.Unread(), FailedFileParser();
    ghost var spec := ParseMany(parse, files, start, numFailedFiles);
    for i := 0 to numFailedFiles
      invariant p.Valid() && p.off >= old(p.off) && calls == i && i + |p.Unread()| <= |start|
      invariant spec == ParseMany(parse, files, p.Unread(), numFailedFiles - i)
    {
      calls := calls + 1;
      var file := ReadCommitFailedFile(p);
      if !file.Success? { return file.PropagateFailure(), calls; }
      files := files + [file.value];
    }
    r := Success(files);
  }

  method ReadCommitStart(p: Buffer) returns (r: Result<CommitStart>)
    requires p.Valid()
    modifies p
    ensures p.Valid() && p.off >= old(p.off) && ParseCommitStart(old(p.Unread())).Is(r, p.Unread())
  {
    hide ParseHeader, ParseString, ParseParents;
    var header :- ReadHeader(p);
    var author :- ReadString(p);
    var comment :- ReadString(p);
    var parents, _ := ReadParents(p, header);
    if !parents.Success? { return parents.PropagateFailure(); }
    r := Success(CommitStart(header, author, comment, parents.value));
  }

  method ReadMergeAncestor(p: Buffer, version: int) returns (r: Result<(Option<Bytes>, Option<bool>)>)
    requires p.Valid()
    modifies p
    ensures p.Valid() && p.off >= old(p.off) && ParseMergeAncestor(old(p.Unread()), version).Is(r, p.Unread())
  {
    hide ParseString, ParseBool;
    if version < 8 {
      var ancestor :- ReadString(p);
      var stretched := None;
      if version >= 4 {
        var v :- ReadBoolean(p);
        stretched := Some(v);
      }
      return Success((ancestor, stretched));
    }
    r := Success((None, None));
  }

  method ReadCommitTail(p: Buffer, version: int) returns (r: Result<CommitTail>)
    requires p.Valid()
    modifies p
    ensures p.Valid() && p.off >= old(p.off) && ParseCommitTail(old(p.Unread()), version).Is(r, p.Unread())
  {
    hide ParseMergeAncestor, ParseBoolIf, ParseDate, ParseFailedFiles, ParseData;
    var merge :- ReadMergeAncestor(p, version);
    var date :- ReadDate(p);
    var failed: seq<FailedFile> := [];
    if version >= 3 {
      var files, _ := ReadFailedFiles(p);
      if !files.Success? { return files.PropagateFailure(); }
      failed := files.value;
    }
    var missing :- ReadBooleanIf(version >= 8, p);
    var complete :- ReadBooleanIf(version >= 9, p);
    var config := None;
    if version >= 5 {
      var d :- ReadData(p);
      config := Some(d);
    }
    r := Success(CommitTail(merge.0, merge.1, date, failed, missing, complete, config));
  }

  /** ReadCommit returns the commit with the error. `shown` is what it holds then, of the
      fields that a caller goes on with. */
  method ReadCommit(p: Buffer, decode: Decoder) returns (r: Result<Commit>, shown: Shown)
    requires p.Valid()
    modifies p
    ensures p.Valid() && p.off >= old(p.off) && ParseCommit(old(p.Unread()), decode).Is(r, p.Unread())
    ensures !r.Panic? ==> shown == ShownBy(old(p.Unread()), decode)
  {
    hide ParseCommitStart, ParseString, ParseCommitTail, ParseBlobKey, KeySha;
    shown := Shown([], None);
    var start :- ReadCommitStart(p);
    var treeKey, key := ReadBlobKey(p, start.header, true);
    shown := Shown([], key.sha1);
    if !treeKey.Success? { return treeKey.PropagateFailure(), shown; }
    var raw :- ReadString(p);
    if raw.None? { return Panic, shown; }
    var location := decode(raw.value);
    if location.None? { return Failure, shown; }
    shown := Shown(location.value.path, key.sha1);
    var tail :- ReadCommitTail(p, start.header.version);
    r := Success(Commit(CommitHead(start, treeKey.value), location.value, tail));
  }

  /** For a well-formed commit whose Location decodes, even one that is cut off somewhere
      behind its Location, these are the commit's own path and tree. */
  lemma ShownSurvivesTail(c: Commit, raw: Bytes, decode: Decoder, tail: Bytes)
    requires WellFormedHead(c.head) && |raw| < TWO_63 && decode(raw).Some?
    ensures ShownBy(PutCommitHead(c.head, PutString(Some(raw), tail)), decode) ==
            Shown(decode(raw).value.path, c.head.treeKey.sha1)
  {
    hide ParseCommitStart, PutCommitStart, ParseBlobKey, PutBlobKey, ParseString, PutString, KeySha;
    var s := PutString(Some(raw), tail);
    BlobKeyRoundTrip(c.head.treeKey, c.head.start.header, true, s);
    CommitStartRoundTrip(c.head.start, PutBlobKey(c.head.treeKey, s));
    StringRoundTrip(Some(raw), tail);
    KeyShaOfPut(c.head.treeKey, s);
  }

  lemma KeyShaOfPut(k: BlobKey, s: Bytes)
    ensures KeySha(PutBlobKey(k, s)) == k.sha1
  {
    hide ParseSha, PutSha;
    ScalarsRoundTrip();
  }

  /** Nothing is shown of a commit that is broken before its tree key. */
  lemma ShownWithoutKey(b: Bytes, c: CommitStart, decode: Decoder)
    requires WellFormedStart(c)
    ensures !ParseCommitStart(b).Ok? ==> ShownBy(b, decode) == Shown([], None)
    ensures ShownBy(PutCommitStart(c, []), decode) == Shown([], None)
  {
    hide ParseCommitStart, PutCommitStart;
    CommitStartRoundTrip(c, []);
  }

  /** Of one that is cut off behind it, or whose Location does not decode, the tree is shown
      but no path. */
  lemma ShownWithoutLocation(c: CommitHead, raw: Bytes, decode: Decoder, s: Bytes)
    requires WellFormedHead(c) && |raw| < TWO_63 && decode(raw) == None
    ensures ShownBy(PutCommitHead(c, []), decode) == Shown([], c.treeKey.sha1)
    ensures ShownBy(PutCommitHead(c, PutString(Some(raw), s)), decode) == Shown([], c.treeKey.sha1)
  {
    hide ParseCommitStart, PutCommitStart, ParseBlobKey, PutBlobKey, PutString, ParseData, KeySha;
    var t := PutString(Some(raw), s);
    BlobKeyRoundTrip(c.treeKey, c.start.header, true, t);
    BlobKeyRoundTrip(c.treeKey, c.start.header, true, []);
    CommitStartRoundTrip(c.start, PutBlobKey(c.treeKey, t));
    CommitStartRoundTrip(c.start, PutBlobKey(c.treeKey, []));
    KeyShaOfPut(c.treeKey, t);
    KeyShaOfPut(c.treeKey, []);
    StringRoundTrip(Some(raw), s);
  }
}
