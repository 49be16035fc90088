/** The download cache (connector/s3.go, googlecloudstorage.go, sftp.go), the pack
    checksum (arq/pack.go), and fetching one object through index, cache, framing and
    decryption (arq/pack_set_index.go). */
module Cache {
  import opened Buffers
  import opened Wire
  import opened PackIndex
  import opened Crypto

  // ---------- Connectors ----------

  datatype Backend = S3 | GoogleCloud | Sftp

  /** What one download meets: the cache file cannot be created, the remote object
      cannot be opened, the transfer stops after some bytes, or all of it arrives
      (whatever the remote then holds). */
  datatype Fetch = Blocked | NotOpened | Interrupted(partial: Bytes) | Delivered(contents: Bytes)

  /** A cache entry: absent, or a file with contents. */
  type File = Option<Bytes>

  /** The entry after Get. S3 and Google Cloud remove the file on failure; SFTP keeps
      the empty or truncated one. */
  function AfterGet(backend: Backend, before: File, f: Fetch): File {
    match f
    case Blocked => before
    case NotOpened => if backend == Sftp then Some([]) else None
    case Interrupted(partial) => if backend == Sftp then Some(partial) else None
    case Delivered(contents) => Some(contents)
  }

  /** Whether Get returns a nil error. SFTP ignores the error of the transfer. */
  predicate GetSucceeds(backend: Backend, f: Fetch) {
    f.Delivered? || (backend == Sftp && f.Interrupted?)
  }

  /** A download leaves what was delivered; when the file cannot be created nothing changes;
      any other failure leaves no file on S3 and Google Cloud, and over SFTP whatever had
      arrived, with the failed transfer reported as a success. */
  lemma GetExactly(backend: Backend, before: File, partial: Bytes)
    ensures AfterGet(backend, before, Delivered(partial)) == Some(partial)
    ensures AfterGet(backend, before, Blocked) == before
    ensures backend == Sftp ==> AfterGet(backend, before, NotOpened) == Some([])
    ensures backend == Sftp ==> AfterGet(backend, before, Interrupted(partial)) == Some(partial)
    ensures backend == S3 || backend == GoogleCloud ==>
              AfterGet(backend, before, NotOpened) == AfterGet(backend, before, Interrupted(partial)) == None
    ensures GetSucceeds(backend, Delivered(partial))
    ensures !GetSucceeds(backend, Blocked) && !GetSucceeds(backend, NotOpened)
    ensures GetSucceeds(backend, Interrupted(partial)) <==> backend == Sftp
  {
  }

  /** CachedGet downloads only when the file is absent or empty. */
  predicate NeedsDownload(file: File) {
    file == None || file == Some([])
  }

  function AfterCachedGet(backend: Backend, before: File, f: Fetch): File {
    if NeedsDownload(before) then AfterGet(backend, before, f) else before
  }

  function Entry(files: map<Bytes, Bytes>, key: Bytes): File {
    if key in files then Some(files[key]) else None
  }

  function SetEntry(files: map<Bytes, Bytes>, key: Bytes, file: File): (r: map<Bytes, Bytes>)
    ensures Entry(r, key) == file
    ensures forall k :: k != key ==> Entry(r, k) == Entry(files, k)
  {
    if file.None? then files - {key} else files[key := file.value]
  }

  lemma SetTwice(files: map<Bytes, Bytes>, key: Bytes, a: File, c: File)
    ensures SetEntry(SetEntry(files, key, a), key, c) == SetEntry(files, key, c)
  {
  }

  class Connection {
    const backend: Backend
    const remote: (Bytes, nat) -> Fetch  // what the n-th download meets
    var files: map<Bytes, Bytes>
    var downloads: nat

    constructor (backend: Backend, remote: (Bytes, nat) -> Fetch, files: map<Bytes, Bytes>)
      ensures this.backend == backend && this.remote == remote && this.files == files && downloads == 0
    {
      this.backend, this.remote, this.files, downloads := backend, remote, files, 0;
    }

    function File(key: Bytes): File
      reads this
    {
      Entry(files, key)
    }

    method Get(key: Bytes) returns (ok: bool)
      modifies this
      ensures downloads == old(downloads) + 1
      ensures ok == GetSucceeds(backend, remote(key, old(downloads)))
      ensures files == SetEntry(old(files), key, AfterGet(backend, old(File(key)), remote(key, old(downloads))))
    {
      var fetch := remote(key, downloads);
      downloads := downloads + 1;
      if fetch.Blocked? {
        assert files == SetEntry(files, key, File(key));
        return false;
      }
      files := files[key := []];  // os.Create
      match fetch {
        case NotOpened =>
          if backend != Sftp { files := files - {key}; }
          ok := false;
        case Interrupted(partial) =>
          files := files[key := partial];
          if backend != Sftp { files := files - {key}; }
          ok := backend == Sftp;
        case Delivered(contents) =>
          files := files[key := contents];
          ok := true;
      }
    }

    method CachedGet(key: Bytes) returns (ok: bool)
      modifies this
      ensures files == SetEntry(old(files), key, AfterCachedGet(backend, old(File(key)), remote(key, old(downloads))))
      ensures downloads == old(downloads) + if NeedsDownload(old(File(key))) then 1 else 0
      ensures ok == (NeedsDownload(old(File(key))) ==> GetSucceeds(backend, remote(key, old(downloads))))
    {
      if key in files && |files[key]| != 0 {
        assert files == SetEntry(files, key, File(key));
        return true;
      }
      ok := Get(key);
    }

    /** os.Remove, which fails when there is no file. */
    method Remove(key: Bytes) returns (ok: bool)
      modifies this
      ensures downloads == old(downloads)
      ensures files == SetEntry(old(files), key, None)
      ensures ok == old(File(key)).Some?
    {
      ok := key in files;
      files := files - {key};
    }
  }

  // ---------- The pack checksum ----------

  /** More than 20 bytes, of which the last 20 are the SHA1 of the others. */
  predicate Checksummed(sha1: Hash, b: Bytes) {
    |b| > 20 && sha1.digest(b[..|b| - 20]) == b[|b| - 20..]
  }

  predicate ValidFile(sha1: Hash, file: File) {
    file.Some? && Checksummed(sha1, file.value)
  }

  /** Any content followed by its own SHA1 is valid, and nothing else is. */
  lemma ChecksummedExactly(sha1: Hash, file: File)
    requires forall b: Bytes :: |sha1.digest(b)| == 20
    ensures ValidFile(sha1, file) <==>
            exists body: Bytes :: body != [] && file == Some(body + sha1.digest(body))
  {
    if ValidFile(sha1, file) {
      var b := file.value;
      assert b == b[..|b| - 20] + b[|b| - 20..];
    }
    if exists body: Bytes :: body != [] && file == Some(body + sha1.digest(body)) {
      var body: Bytes :| body != [] && file == Some(body + sha1.digest(body));
      var b := file.value;
      assert b[..|b| - 20] == body && b[|b| - 20..] == sha1.digest(body);
    }
  }

  method IsValidPackFile(sha1: Hash, file: File) returns (valid: bool)
    requires ValidHash(sha1) && sha1.size == 20
    ensures valid == ValidFile(sha1, file)
  {
    if file.None? { return false; }
    var size := |file.value|;
    if size <= 20 { return false; }
    var f := new Buffer(file.value);
    var body := f.NextBytes(size - 20);
    assert body == file.value[..size - 20] && f.Unread() == file.value[size - 20..];
    var expectedHash := f.NextBytes(20);
    assert expectedHash == file.value[size - 20..];
    var hasher := new Hasher(sha1);
    hasher.Write(body);
    assert hasher.written == [] + body == body;
    var calculatedHash := new byte[20];
    hasher.Sum(calculatedHash);
    valid := calculatedHash[..] == expectedHash;
  }

  // ---------- Validate, delete, retry ----------

  /** The outcome of the sequence for one key: a valid pack file in the cache, or
      the entry it gave up with. */
  datatype Obtained = Usable(contents: Bytes) | Unusable(left: File) {
    function File(): File {
      match this
      case Usable(contents) => Some(contents)
      case Unusable(file) => file
    }
  }

  function Judge(sha1: Hash, file: File): Obtained {
    if ValidFile(sha1, file) then Usable(file.value) else Unusable(file)
  }

  function Obtain(sha1: Hash, backend: Backend, before: File, f0: Fetch, f1: Fetch): Obtained {
    var first := AfterCachedGet(backend, before, f0);
    if ValidFile(sha1, first) then Usable(first.value)
    else if first.None? then Unusable(None)  // os.Remove fails
    else Judge(sha1, AfterCachedGet(backend, None, f1))
  }

  /** Only checksum-valid contents are ever used, and valid ones always are. */
  lemma UsableIsChecksummed(sha1: Hash, backend: Backend, before: File, f0: Fetch, f1: Fetch)
    ensures var o := Obtain(sha1, backend, before, f0, f1); o.Usable? <==> ValidFile(sha1, o.File())
  {
  }

  /** A valid cached pack is used as it is, whatever the remote would deliver. */
  lemma ValidEntryStays(sha1: Hash, backend: Backend, before: File, f0: Fetch, f1: Fetch)
    requires ValidFile(sha1, before)
    ensures Obtain(sha1, backend, before, f0, f1) == Usable(before.value)
    ensures Obtain(sha1, backend, before, f0, f1).File() == before
  {
    assert before.value != [];
  }

  /** With honest downloads, or one that is truncated but not empty and then an honest
      one, every starting entry heals: the good file is cached unless the entry was
      valid already. */
  lemma SelfHealing(sha1: Hash, backend: Backend, before: File, f0: Fetch, f1: Fetch, good: Bytes)
    requires Checksummed(sha1, good) && f1 == Delivered(good)
    requires || f0 == Delivered(good)
             || exists bad :: bad != [] && !Checksummed(sha1, bad) && AfterGet(backend, before, f0) == Some(bad)
    ensures var o := Obtain(sha1, backend, before, f0, f1);
            o.Usable? && (o.contents == good || Some(o.contents) == before)
  {
  }

  /** With an honest second download the retry fails for exactly one reason: the first
      CachedGet left no file, so that there is nothing to delete. */
  lemma HealsExactly(sha1: Hash, backend: Backend, before: File, f0: Fetch, good: Bytes)
    requires Checksummed(sha1, good)
    ensures !Obtain(sha1, backend, before, f0, Delivered(good)).Usable? <==>
            NeedsDownload(before) &&
            if f0.Blocked? then before == None else backend != Sftp && !f0.Delivered?
  {
  }

  /** The same two downloads heal over SFTP and fail over S3. */
  lemma FailureToOpenIsFinalOnS3(sha1: Hash, good: Bytes)
    requires Checksummed(sha1, good)
    ensures Obtain(sha1, Sftp, None, NotOpened, Delivered(good)) == Usable(good)
    ensures Obtain(sha1, S3, None, NotOpened, Delivered(good)) == Unusable(None)
  {
  }

  // ---------- Any number of calls, for any packs ----------

  /** `fetch(key, n)` is what the n-th download of the process meets if it is for key. */
  datatype Remote = Remote(sha1: Hash, backend: Backend, fetch: (Bytes, nat) -> Fetch)

  datatype CacheState = CacheState(files: map<Bytes, Bytes>, downloads: nat)

  /** The validate, delete, retry sequence of one call: what it obtains, and the cache and
      the number of downloads after it. */
  function Fetching(r: Remote, s: CacheState, key: Bytes): (Obtained, CacheState) {
    var before := Entry(s.files, key);
    var n := s.downloads + if NeedsDownload(before) then 1 else 0;
    var first := AfterCachedGet(r.backend, before, r.fetch(key, s.downloads));
    var o := Obtain(r.sha1, r.backend, before, r.fetch(key, s.downloads), r.fetch(key, n));
    (o, CacheState(SetEntry(s.files, key, o.File()), if first.Some? && !ValidFile(r.sha1, first) then n + 1 else n))
  }

  function StateAfter(r: Remote, s: CacheState, keys: seq<Bytes>): CacheState
    decreases |keys|
  {
    if keys == [] then s else StateAfter(r, Fetching(r, s, keys[0]).1, keys[1..])
  }

  function Failures(r: Remote, s: CacheState, keys: seq<Bytes>): nat
    decreases |keys|
  {
    if keys == [] then 0
    else
      var (o, s') := Fetching(r, s, keys[0]);
      Failures(r, s', keys[1..]) + if o.Usable? then 0 else 1
  }

  lemma {:induction false} ValidStays(r: Remote, s: CacheState, key: Bytes, keys: seq<Bytes>)
    requires ValidFile(r.sha1, Entry(s.files, key))
    ensures Entry(StateAfter(r, s, keys).files, key) == Entry(s.files, key)
    decreases |keys|
  {
    hide ValidFile;
    if keys != [] {
      if keys[0] == key {
        ValidEntryStays(r.sha1, r.backend, Entry(s.files, key), r.fetch(key, s.downloads), r.fetch(key, s.downloads));
        FetchingValid(r, s, key);
      }
      ValidStays(r, Fetching(r, s, keys[0]).1, key, keys[1..]);
    }
  }

  lemma FetchingValid(r: Remote, s: CacheState, key: Bytes)
    requires ValidFile(r.sha1, Entry(s.files, key))
    ensures Fetching(r, s, key).0 == Usable(Entry(s.files, key).value)
    ensures Fetching(r, s, key).1.downloads == s.downloads
    ensures Entry(Fetching(r, s, key).1.files, key) == Entry(s.files, key)
  {
    assert Entry(s.files, key).value != [];
  }

  /** A call that has succeeded for a pack fixes what all later calls for it obtain, without
      a download, whatever else is fetched in between and whatever the remote has become. */
  lemma SuccessStays(r: Remote, s: CacheState, key: Bytes, between: seq<Bytes>)
    requires Fetching(r, s, key).0.Usable?
    ensures var (o, s1) := Fetching(r, s, key);
            var s2 := StateAfter(r, s1, between);
            Fetching(r, s2, key).0 == o && Fetching(r, s2, key).1.downloads == s2.downloads
  {
    hide StateAfter;
    var (o, s1) := Fetching(r, s, key);
    UsableIsChecksummed(r.sha1, r.backend, Entry(s.files, key), r.fetch(key, s.downloads),
                        r.fetch(key, s.downloads + if NeedsDownload(Entry(s.files, key)) then 1 else 0));
    ValidStays(r, s1, key, between);
    FetchingValid(r, StateAfter(r, s1, between), key);
  }

  /** From the n-th download on the remote delivers the good packs. */
  ghost predicate HonestFrom(r: Remote, n: nat, good: Bytes -> Bytes) {
    forall key, m: nat :: m >= n ==> r.fetch(key, m) == Delivered(good(key)) && Checksummed(r.sha1, good(key))
  }

  lemma FailureDownloads(r: Remote, s: CacheState, key: Bytes, n: nat, good: Bytes -> Bytes)
    requires HonestFrom(r, n, good)
    ensures var (o, s') := Fetching(r, s, key);
            && s'.downloads >= s.downloads
            && (o.Unusable? ==> s.downloads < n && s'.downloads > s.downloads)
            && (s.downloads >= n ==> o.Usable? && (o.contents == good(key) || Some(o.contents) == Entry(s.files, key)))
  {
  }

  /** Once the remote is honest the cache heals: however many calls are made, and for
      whatever packs, no more of them fail than downloads were made before. */
  lemma {:induction false} FailuresBounded(r: Remote, s: CacheState, keys: seq<Bytes>, n: nat, good: Bytes -> Bytes)
    requires HonestFrom(r, n, good)
    ensures Failures(r, s, keys) <= if s.downloads >= n then 0 else n - s.downloads
    decreases |keys|
  {
    hide Fetching;
    if keys != [] {
      FailureDownloads(r, s, keys[0], n, good);
      FailuresBounded(r, Fetching(r, s, keys[0]).1, keys[1..], n, good);
    }
  }

  function Retrieved(o: Obtained, offset: uint64): Result<PackObject> {
    if o.Unusable? || offset >= TWO_63 then Failure
    else ParsePackObject(Drop(o.contents, offset)).Result()
  }

  /** The two fetches a call may make, in order. */
  function Fetches(conn: Connection, key: Bytes): (Fetch, Fetch)
    reads conn
  {
    var n := conn.downloads;
    (conn.remote(key, n), conn.remote(key, if NeedsDownload(conn.File(key)) then n + 1 else n))
  }

  function ObtainFrom(sha1: Hash, conn: Connection, key: Bytes): (o: Obtained)
    reads conn
  {
    var (f0, f1) := Fetches(conn, key);
    Obtain(sha1, conn.backend, conn.File(key), f0, f1)
  }

  /** The cache and the count of downloads after a call. */
  function Served(sha1: Hash, conn: Connection, key: Bytes): CacheState
    reads conn
  {
    Fetching(Remote(sha1, conn.backend, conn.remote), CacheState(conn.files, conn.downloads), key).1
  }

  method GetObjectFromPackFile(sha1: Hash, conn: Connection, key: Bytes, pio: IndexObject)
    returns (r: Result<PackObject>)
    requires ValidHash(sha1) && sha1.size == 20
    modifies conn
    ensures r == Retrieved(old(ObtainFrom(sha1, conn, key)), pio.offset)
    ensures CacheState(conn.files, conn.downloads) == old(Served(sha1, conn, key))
    ensures conn.downloads <= old(conn.downloads) + 2
  {
    hide Checksummed, ParsePackObject, ParseString, AfterGet, SetEntry;
    ghost var before := conn.files;
    forall a, c {:trigger SetEntry(SetEntry(before, key, a), key, c)}
      ensures SetEntry(SetEntry(before, key, a), key, c) == SetEntry(before, key, c)
    {
      SetTwice(before, key, a, c);
    }
    var _ := conn.CachedGet(key);
    var isValid := IsValidPackFile(sha1, conn.File(key));
    if !isValid {
      var removed := conn.Remove(key);
      if !removed { return Failure; }
      var _ := conn.CachedGet(key);
      isValid := IsValidPackFile(sha1, conn.File(key));
      if !isValid { return Failure; }
    }
    if ToInt(pio.offset) < 0 { return Failure; }  // Seek
    var buf := Drop(conn.files[key], pio.offset);
    r := NewPackFileObject(buf);
  }

  // ---------- One object by its SHA1 ----------

  /** The functions left abstract. `gunzip` is undefined on what is not gzip data. */
  datatype Codec = Codec(sha1: Hash, cipher: Cipher, iv: Block, gunzip: Bytes -> Option<Bytes>)

  ghost predicate ValidCodec(env: Codec) {
    ValidHash(env.sha1) && env.sha1.size == 20 && Permutation(env.cipher)
  }

  /** Data that does not decompress is taken as it is. */
  function Expand(env: Codec, d: Bytes): Bytes {
    match env.gunzip(d)
    case None => d
    case Some(x) => x
  }

  function PackKey(dir: Bytes, name: Bytes): Bytes {
    dir + [47] + name + Ascii(".pack")
  }

  function Opened(env: Codec, r: Result<PackObject>): Result<Bytes> {
    match r
    case Failure => Failure
    case Panic => Panic
    case Success(o) =>
      match Decrypted(env.cipher, env.iv, o.data)
      case None => Failure
      case Some(d) => Success(Expand(env, d))
  }

  function Fetched(env: Codec, conn: Connection, dir: Bytes, indexes: seq<IndexFile>, target: Sha): Result<Bytes>
    reads conn
  {
    match Locate(indexes, target)
    case NotFound => Failure
    case Panics => Panic
    case At(pio, name) => Opened(env, Retrieved(ObtainFrom(env.sha1, conn, PackKey(dir, name)), pio.offset))
  }

  /** <dir>/<name>.pack */
  lemma PackKeyBytes(dir: Bytes, name: Bytes)
    ensures PackKey(dir, name) == dir + [47] + name + [46, 112, 97, 99, 107]
  {
    assert Ascii(".pack") == [46, 112, 97, 99, 107];
  }

  /** A SHA1 that is not located, a pack that is not valid, an offset beyond int64, an object
      that cannot be read or decrypted: each is an error and no panic. */
  lemma FetchFailsExactly(env: Codec, conn: Connection, dir: Bytes, indexes: seq<IndexFile>, target: Sha)
    ensures var found := Locate(indexes, target);
            Fetched(env, conn, dir, indexes, target) == Failure <==>
              || found == NotFound
              || (found.At? &&
                    var o := ObtainFrom(env.sha1, conn, PackKey(dir, found.packName));
                    || o.Unusable? || found.pio.offset >= 9_223_372_036_854_775_808
                    || (var r := ParsePackObject(Drop(o.contents, found.pio.offset));
                        r.Err? || (r.Ok? && Decrypted(env.cipher, env.iv, r.value.data) == None)))
  {
    hide Locate, ObtainFrom, ParsePackObject, Decrypted, Expand, PackKey;
  }

  /** Every pack that the indexes speak of is cached and valid. */
  ghost predicate PacksCached(sha1: Hash, files: map<Bytes, Bytes>, dir: Bytes, indexes: seq<IndexFile>) {
    forall i :: 0 <= i < |indexes| ==> ValidFile(sha1, Entry(files, PackKey(dir, indexes[i].name)))
  }

  /** The object of a SHA1 in the cached packs. */
  function Stored(env: Codec, files: map<Bytes, Bytes>, dir: Bytes, indexes: seq<IndexFile>, target: Sha)
    : Result<Bytes>
  {
    match Locate(indexes, target)
    case NotFound => Failure
    case Panics => Panic
    case At(pio, name) =>
      match Entry(files, PackKey(dir, name))
      case None => Failure
      case Some(pack) => Opened(env, Retrieved(Usable(pack), pio.offset))
  }

  /** A fetch from cached packs needs no download and changes nothing. */
  lemma FetchedIsStored(env: Codec, conn: Connection, dir: Bytes, indexes: seq<IndexFile>, target: Sha)
    requires PacksCached(env.sha1, conn.files, dir, indexes)
    ensures Fetched(env, conn, dir, indexes, target) == Stored(env, conn.files, dir, indexes, target)
    ensures var found := Locate(indexes, target);
            found.At? ==>
              Served(env.sha1, conn, PackKey(dir, found.packName)) == CacheState(conn.files, conn.downloads)
  {
    hide Checksummed, Opened, Retrieved, Locate, PackKey;
    LocatedIn(indexes, target);
    var found := Locate(indexes, target);
    if found.At? {
      var i :| 0 <= i < |indexes| && indexes[i].name == found.packName;
      var key := PackKey(dir, found.packName);
      assert ValidFile(env.sha1, Entry(conn.files, key));
      FetchingValid(Remote(env.sha1, conn.backend, conn.remote), CacheState(conn.files, conn.downloads), key);
      assert conn.files[key := conn.files[key]] == conn.files;
    }
  }

  /** GetTreePackFile and GetBlobPackFile, which differ only in the directory. */
  method GetPackFile(env: Codec, conn: Connection, dir: Bytes, indexes: seq<IndexFile>, target: Sha)
    returns (r: Result<Bytes>)
    requires ValidCodec(env)
    modifies conn
    ensures r == old(Fetched(env, conn, dir, indexes, target))
    ensures conn.downloads <= old(conn.downloads) + 2
    ensures old(PacksCached(env.sha1, conn.files, dir, indexes)) ==>
              && r == Stored(env, old(conn.files), dir, indexes, target)
              && conn.files == old(conn.files) && conn.downloads == old(conn.downloads)
  {
    hide Locate, ObtainFrom, Retrieved, Decrypted, Overwritten, Stored, PacksCached, Fetching;
    if PacksCached(env.sha1, conn.files, dir, indexes) { FetchedIsStored(env, conn, dir, indexes, target); }
    var found := FindPackIndexObject(indexes, target);
    if found.NotFound? { return Failure; }
    if found.Panics? { return Panic; }
    var pfo :- GetObjectFromPackFile(env.sha1, conn, PackKey(dir, found.packName), found.pio);
    var data := new byte[|pfo.data|](i requires 0 <= i < |pfo.data| => pfo.data[i]);
    assert data[..] == pfo.data;
    var state := new CryptoState(env.cipher, env.iv);
    var decrypted := state.Decrypt(data);
    if decrypted.None? { return Failure; }
    r := Success(Expand(env, decrypted.value));
  }

  /** A pack holding `objs` after `prefix`, with its index: record i names object i and
      its offset, the running sum of the framed lengths before it. */
  ghost predicate PackWithIndex(
      pack: Bytes, prefix: Bytes, objs: seq<PackObject>, trailer: Bytes, recs: seq<IndexObject>, order: seq<nat>)
  {
    && pack == prefix + PutObjects(objs, trailer) && |pack| < TWO_63
    && |order| == |recs|
    && (forall i :: 0 <= i < |recs| ==> order[i] < |objs|)
    && (forall i :: 0 <= i < |recs| ==> recs[i].offset == |prefix| + OffsetOf(objs, order[i]))
    && (forall i, j :: 0 <= i < j < |recs| ==> recs[i].sha1 != recs[j].sha1)
  }

  lemma UniqueScan(recs: seq<IndexObject>, i: nat)
    requires i < |recs| && forall i, j :: 0 <= i < j < |recs| ==> recs[i].sha1 != recs[j].sha1
    ensures LinearScan(recs, recs[i].sha1) == Some(recs[i])
  {
    var r := LinearScan(recs, recs[i].sha1);
    if r.Some? {
      var k :| 0 <= k < |recs| && r.value == recs[k] && recs[k].sha1 == recs[i].sha1;
      assert k == i;
    }
  }

  /** Index, cache, framing and decryption compose to a content-addressed map: with a
      valid pack obtained, fetching the SHA1 of record i of the last index file that
      has it (first byte not 0) returns the decrypted, if possible decompressed,
      message of that object, whatever follows it in the pack. */
  lemma FetchReturnsObject(
      env: Codec, conn: Connection, dir: Bytes, indexes: seq<IndexFile>, recs: seq<seq<IndexObject>>, f: nat, i: nat,
      prefix: Bytes, objs: seq<PackObject>, trailer: Bytes, order: seq<nat>, message: Bytes)
    requires ValidCodec(env)
    requires |recs| == |indexes| && forall j :: 0 <= j < |indexes| ==> IndexOf(indexes[j].contents, recs[j])
    requires f < |indexes| && i < |recs[f]|
    requires recs[f][i].sha1[0] != 0
    requires forall j :: f < j < |indexes| ==> LinearScan(recs[j], recs[f][i].sha1).None?
    requires var o := ObtainFrom(env.sha1, conn, PackKey(dir, indexes[f].name));
             o.Usable? && PackWithIndex(o.contents, prefix, objs, trailer, recs[f], order)
    requires WellFormedObject(objs[order[i]])
    requires TrimPrefix(objs[order[i]].data, Encrypted()) == Sealed(env.cipher, env.iv, message)
    ensures Fetched(env, conn, dir, indexes, recs[f][i].sha1) ==
            Success(if env.gunzip(message).Some? then env.gunzip(message).value else message)
  {
    hide Locate, IndexOf, Decrypted, Sealed, ParsePackObject, PutPackObject, ObtainFrom, LinearScan, Ascii;
    var target, k := recs[f][i].sha1, order[i];
    var pack := ObtainFrom(env.sha1, conn, PackKey(dir, indexes[f].name)).contents;
    UniqueScan(recs[f], i);
    LastFileWins(indexes, recs, target, f);
    ObjectAtOffset(prefix, objs, k, trailer);
    PackObjectRoundTrip(objs[k], PutObjects(objs[k + 1..], trailer));
    assert Drop(pack, recs[f][i].offset) == PutPackObject(objs[k], PutObjects(objs[k + 1..], trailer));
    DecryptExact(env.cipher, env.iv, objs[k].data, message);
  }
}
