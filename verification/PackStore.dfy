/** Trees and commits out of the packs: the store that path resolution takes as a map. */
module PackStore {
  import opened Buffers
  import opened Wire
  import opened TreeFormat
  import opened CommitFormat
  import opened PathResolution
  import opened PackIndex
  import opened Crypto
  import opened Cache

  function TreeOf(r: Result<Bytes>): Result<Tree> {
    match r
    case Failure => Failure
    case Panic => Panic
    case Success(bytes) => ParseTree(bytes).Result()
  }

  // ---------- The packs as the store of path resolution ----------

  /** Where the objects of a bucket are: index files and packs for trees and for blobs, and
      the blobs kept outside packs. */
  datatype Packs = Packs(
    env: Codec, treeDir: Bytes, treeIndexes: seq<IndexFile>, blobDir: Bytes, blobIndexes: seq<IndexFile>,
    objects: map<Sha, Bytes>)

  function StoredTree(p: Packs, files: map<Bytes, Bytes>, h: Sha): Result<Tree> {
    TreeOf(Stored(p.env, files, p.treeDir, p.treeIndexes, h))
  }

  /** A blob, from its pack or from outside. */
  function StoredBlob(p: Packs, files: map<Bytes, Bytes>, h: Sha): Option<Bytes> {
    match Stored(p.env, files, p.blobDir, p.blobIndexes, h)
    case Success(bytes) => Some(bytes)
    case _ => if h in p.objects then Some(p.objects[h]) else None
  }

  /** An object that cannot be fetched is an error, and so is one that is no tree. */
  lemma TreeOfExactly(r: Result<Bytes>)
    ensures TreeOf(r) == Failure <==> r == Failure || (r.Success? && ParseTree(r.value).Err?)
    ensures TreeOf(r) == Panic <==> r == Panic || (r.Success? && ParseTree(r.value) == Crash)
    ensures TreeOf(r).Success? ==> r.Success? && ParseTree(r.value).Ok? && TreeOf(r).value == ParseTree(r.value).value
  {
    hide ParseTree;
  }

  /** The fixed maps that path resolution and restore take for granted. */
  function BackupOf(p: Packs, files: map<Bytes, Bytes>, head: Option<Head>): Backup {
    Backup(head,
           map h | h in Listed(p.treeIndexes) && StoredTree(p, files, h).Success? :: StoredTree(p, files, h).value,
           set h | h in Listed(p.treeIndexes) && StoredTree(p, files, h).Panic?,
           map h | h in Listed(p.blobIndexes) + p.objects.Keys && StoredBlob(p, files, h).Some? ::
             StoredBlob(p, files, h).value)
  }

  /** No index file is cut off inside a bucket. */
  ghost predicate SoundIndexes(indexes: seq<IndexFile>) {
    forall h :: Locate(indexes, h) != Panics
  }

  /** Indexes as Arq writes them are sound. */
  lemma WrittenIsSound(indexes: seq<IndexFile>, recs: seq<seq<IndexObject>>)
    requires |recs| == |indexes| && forall j :: 0 <= j < |indexes| ==> IndexOf(indexes[j].contents, recs[j])
    ensures SoundIndexes(indexes)
  {
    hide IndexOf, Locate;
    forall h ensures Locate(indexes, h) != Panics { NoPanics(indexes, recs, h); }
  }

  /** What a lookup of a tree means in a backup. */
  function TreeIn(b: Backup, h: Sha): Result<Tree> {
    if h in b.crashing then Panic
    else match GetTree(b, h) case Some(t) => Success(t) case None => Failure
  }

  lemma StoreIsBackup(p: Packs, files: map<Bytes, Bytes>, head: Option<Head>, h: Sha)
    requires SoundIndexes(p.treeIndexes) && SoundIndexes(p.blobIndexes)
    ensures StoredTree(p, files, h) == TreeIn(BackupOf(p, files, head), h)
    ensures var packed, blobs := Stored(p.env, files, p.blobDir, p.blobIndexes, h), BackupOf(p, files, head).blobs;
            && (h in blobs <==> packed.Success? || h in p.objects)
            && (packed.Success? ==> blobs[h] == packed.value)
            && (!packed.Success? && h in p.objects ==> blobs[h] == p.objects[h])
  {
    hide Locate, ParseTree, Opened, Retrieved;
    LocatedIn(p.treeIndexes, h);
    LocatedIn(p.blobIndexes, h);
  }

  /** GetPackFileAsTree. Once the packs are cached and valid, every call, in any sequence,
      leaves the cache as it is and answers what one fixed backup holds. */
  method GetPackFileAsTree(p: Packs, conn: Connection, target: Sha, ghost head: Option<Head>)
    returns (r: Result<Tree>)
    requires ValidCodec(p.env)
    modifies conn
    ensures r == TreeOf(old(Fetched(p.env, conn, p.treeDir, p.treeIndexes, target)))
    ensures old(PacksCached(p.env.sha1, conn.files, p.treeDir, p.treeIndexes)) &&
            SoundIndexes(p.treeIndexes) && SoundIndexes(p.blobIndexes) ==>
              && r == TreeIn(BackupOf(p, old(conn.files), head), target)
              && conn.files == old(conn.files) && conn.downloads == old(conn.downloads)
  {
    hide Fetched, ParseTree, Stored, PacksCached, BackupOf;
    if SoundIndexes(p.treeIndexes) && SoundIndexes(p.blobIndexes) { StoreIsBackup(p, conn.files, head, target); }
    var packFile :- GetPackFile(p.env, conn, p.treeDir, p.treeIndexes, target);
    var buffer := new Buffer(packFile);
    r := ReadTree(buffer);
  }

  function HeadOf(c: Shown): Head {
    Head(c.path, c.treeSha)
  }

  /** The commit that FindNode starts from. The error of reading it is dropped: the caller
      goes on with the fields that were set. */
  method GetPackFileAsCommit(p: Packs, conn: Connection, headSha: Sha, decode: Decoder)
    returns (r: Result<Head>)
    requires ValidCodec(p.env)
    modifies conn
    ensures match old(Fetched(p.env, conn, p.treeDir, p.treeIndexes, headSha))
            case Failure => r == Failure
            case Panic => r == Panic
            case Success(bytes) =>
              if ParseCommit(bytes, decode).Crash? then r == Panic
              else r.Success? && r.value.path == ShownBy(bytes, decode).path
                              && r.value.root == ShownBy(bytes, decode).treeSha
  {
    hide Fetched, ParseCommit, ShownBy;
    var packFile :- GetPackFile(p.env, conn, p.treeDir, p.treeIndexes, headSha);
    var buffer := new Buffer(packFile);
    var commit, shown := ReadCommit(buffer, decode);
    if commit.Panic? { return Panic; }
    r := Success(HeadOf(shown));
  }

  /** What Arq stored under a SHA1 is what the restore resolves it to: an object in a
      valid pack whose sealed message expands to the encoding of a tree comes back as
      that tree. */
  lemma StoredTreeIsFetched(
      env: Codec, conn: Connection, dir: Bytes, indexes: seq<IndexFile>, recs: seq<seq<IndexObject>>, f: nat, i: nat,
      prefix: Bytes, objs: seq<PackObject>, trailer: Bytes, order: seq<nat>, message: Bytes, t: Tree)
    requires ValidCodec(env)
    requires |recs| == |indexes| && forall j :: 0 <= j < |indexes| ==> IndexOf(indexes[j].contents, recs[j])
    requires f < |indexes| && i < |recs[f]|
    requires recs[f][i].sha1[0] != 0
    requires forall j :: f < j < |indexes| ==> LinearScan(recs[j], recs[f][i].sha1).None?
    requires var o := ObtainFrom(env.sha1, conn, PackKey(dir, indexes[f].name));
             o.Usable? && PackWithIndex(o.contents, prefix, objs, trailer, recs[f], order)
    requires WellFormedObject(objs[order[i]])
    requires TrimPrefix(objs[order[i]].data, Encrypted()) == Sealed(env.cipher, env.iv, message)
    requires WellFormedTree(t) && ReadableTree(t)
    requires env.gunzip(message) == Some(EncodeTree(t)) || (env.gunzip(message) == None && message == EncodeTree(t))
    ensures TreeOf(Fetched(env, conn, dir, indexes, recs[f][i].sha1)) == Success(NormalizeTree(t))
  {
    hide Fetched, ParseTree, EncodeTree, WellFormedTree, ReadableTree, ObtainFrom, PackWithIndex, IndexOf, LinearScan,
         Sealed, Encrypted;
    FetchReturnsObject(env, conn, dir, indexes, recs, f, i, prefix, objs, trailer, order, message);
    EncodedTreeRoundTrip(t, []);
    assert EncodeTree(t) + [] == EncodeTree(t);
  }
}
