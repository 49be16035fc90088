/** Restoring one file (arq/repo.go): the reader that concatenates blobs, the buffered
    writer in front of a pre-sized file, and the file system they act on. */
module FileRestore {
  import opened Buffers
  import opened Paths
  import opened TreeFormat
  import Wire

  // ---------- BlobKeysReader ----------

  /** What one Read returns: some bytes (perhaps none) without error, io.EOF, the error
      for a blob found neither in packs nor in objects, or the panic on a nil SHA1. */
  datatype ReadResult = Chunk(bytes: Bytes) | Eof | Unreadable | NilKey

  /** `current` holds the unread bytes of the open blob reader, if there is one. */
  datatype ReaderState = ReaderState(index: nat, current: Option<Bytes>)

  function ReadChunk(index: nat, current: Bytes, size: nat): (ReadResult, ReaderState) {
    if current == [] then (Chunk([]), ReaderState(index + 1, None))
    else (Chunk(Take(current, size)), ReaderState(index, Some(Drop(current, size))))
  }

  function ReadStep(blobs: map<Sha, Bytes>, keys: seq<BlobKey>, s: ReaderState, size: nat): (ReadResult, ReaderState) {
    if s.current.Some? then ReadChunk(s.index, s.current.value, size)
    else if s.index >= |keys| then (Eof, s)
    else
      match keys[s.index].sha1
      case None => (NilKey, s)
      case Some(h) => if h in blobs then ReadChunk(s.index, blobs[h], size) else (Unreadable, s)
  }

  class BlobKeysReader {
    const blobs: map<Sha, Bytes>
    const blobKeys: seq<BlobKey>
    var currentBlobKeyIndex: nat
    var currentDataReader: Option<Bytes>

    constructor (blobs: map<Sha, Bytes>, blobKeys: seq<BlobKey>)
      ensures this.blobs == blobs && this.blobKeys == blobKeys && State() == ReaderState(0, None)
    {
      this.blobs, this.blobKeys := blobs, blobKeys;
      currentBlobKeyIndex, currentDataReader := 0, None;
    }

    function State(): ReaderState
      reads this
    {
      ReaderState(currentBlobKeyIndex, currentDataReader)
    }

    method Read(p: array<byte>) returns (n: nat, r: ReadResult)
      requires p.Length > 0
      modifies this, p
      ensures (r, State()) == ReadStep(blobs, blobKeys, old(State()), p.Length)
      ensures n <= p.Length && (if r.Chunk? then p[..n] == r.bytes else n == 0)
      ensures p[n..] == old(p[n..])
    {
      n := 0;
      if currentDataReader.None? {
        if currentBlobKeyIndex >= |blobKeys| { return 0, Eof; }
        var sha1 := blobKeys[currentBlobKeyIndex].sha1;
        if sha1.None? { return 0, NilKey; }
        if sha1.value !in blobs { return 0, Unreadable; }
        currentDataReader := Some(blobs[sha1.value]);
      }
      var unread := currentDataReader.value;
      if unread == [] {
        currentDataReader := None;
        currentBlobKeyIndex := currentBlobKeyIndex + 1;
        r := Chunk([]);
      } else {
        n := if p.Length > |unread| then |unread| else p.Length;
        forall i | 0 <= i < n {
          p[i] := unread[i];
        }
        currentDataReader := Some(unread[n..]);
        assert p[..n] == Take(unread, p.Length) && unread[n..] == Drop(unread, p.Length);
        r := Chunk(p[..n]);
      }
    }
  }

  // ---------- What the reader reads ----------

  predicate Present(blobs: map<Sha, Bytes>, k: BlobKey) {
    k.sha1.Some? && k.sha1.value in blobs
  }

  /** The blobs from key i on, up to the first that cannot be read. */
  function Stream(blobs: map<Sha, Bytes>, keys: seq<BlobKey>, i: nat): Bytes
    decreases |keys| - i
  {
    if i >= |keys| || !Present(blobs, keys[i]) then []
    else blobs[keys[i].sha1.value] + Stream(blobs, keys, i + 1)
  }

  /** How that ends. */
  function StreamEnd(blobs: map<Sha, Bytes>, keys: seq<BlobKey>, i: nat): ReadResult
    decreases |keys| - i
  {
    if i >= |keys| then Eof
    else if keys[i].sha1.None? then NilKey
    else if !Present(blobs, keys[i]) then Unreadable
    else StreamEnd(blobs, keys, i + 1)
  }

  /** How many blobs are read before that. */
  function ReadableCount(blobs: map<Sha, Bytes>, keys: seq<BlobKey>, i: nat): (n: nat)
    ensures i <= |keys| ==> i + n <= |keys|
    decreases |keys| - i
  {
    if i >= |keys| || !Present(blobs, keys[i]) then 0 else 1 + ReadableCount(blobs, keys, i + 1)
  }

  function Pending(blobs: map<Sha, Bytes>, keys: seq<BlobKey>, s: ReaderState): Bytes {
    if s.current.Some? then s.current.value + Stream(blobs, keys, s.index + 1) else Stream(blobs, keys, s.index)
  }

  function PendingEnd(blobs: map<Sha, Bytes>, keys: seq<BlobKey>, s: ReaderState): ReadResult {
    StreamEnd(blobs, keys, if s.current.Some? then s.index + 1 else s.index)
  }

  /** A bound on the Reads that still return no error. */
  function Potential(blobs: map<Sha, Bytes>, keys: seq<BlobKey>, s: ReaderState): nat {
    |Pending(blobs, keys, s)| +
    if s.current.Some? then 1 + ReadableCount(blobs, keys, s.index + 1) else ReadableCount(blobs, keys, s.index)
  }

  lemma ReadChunkProgress(blobs: map<Sha, Bytes>, keys: seq<BlobKey>, index: nat, current: Bytes, size: nat)
    requires size > 0
    ensures var s, (r, s') := ReaderState(index, Some(current)), ReadChunk(index, current, size);
            && r.Chunk?
            && Pending(blobs, keys, s) == r.bytes + Pending(blobs, keys, s')
            && PendingEnd(blobs, keys, s) == PendingEnd(blobs, keys, s')
            && Potential(blobs, keys, s') < Potential(blobs, keys, s)
  {
    hide Stream, StreamEnd, ReadableCount;
    var rest := Stream(blobs, keys, index + 1);
    assert [] + rest == rest;
    assert Take(current, size) + Drop(current, size) == current;
    assert current + rest == Take(current, size) + (Drop(current, size) + rest);
  }

  /** A Read returns the next of the pending bytes, or tells how they end. */
  lemma ReadStepProgress(blobs: map<Sha, Bytes>, keys: seq<BlobKey>, s: ReaderState, size: nat)
    requires size > 0
    ensures var (r, s') := ReadStep(blobs, keys, s, size);
            if r.Chunk? then
              && Pending(blobs, keys, s) == r.bytes + Pending(blobs, keys, s')
              && PendingEnd(blobs, keys, s) == PendingEnd(blobs, keys, s')
              && Potential(blobs, keys, s') < Potential(blobs, keys, s)
            else Pending(blobs, keys, s) == [] && r == PendingEnd(blobs, keys, s)
  {
    hide ReadChunk;
    if s.current.Some? {
      ReadChunkProgress(blobs, keys, s.index, s.current.value, size);
    } else if s.index < |keys| && Present(blobs, keys[s.index]) {
      ReadChunkProgress(blobs, keys, s.index, blobs[keys[s.index].sha1.value], size);
    }
  }

  /** A caller that reads with these buffer sizes until something other than bytes comes
      back: all bytes it got, how it ended, and the number of calls. */
  datatype Reading = Reading(got: Bytes, end: Option<ReadResult>, calls: nat)

  function ReadAll(blobs: map<Sha, Bytes>, keys: seq<BlobKey>, s: ReaderState, sizes: seq<nat>): Reading
    decreases |sizes|
  {
    if sizes == [] then Reading([], None, 0)
    else
      match ReadStep(blobs, keys, s, sizes[0])
      case (Chunk(c), s') =>
        var rest := ReadAll(blobs, keys, s', sizes[1..]);
        Reading(c + rest.got, rest.end, rest.calls + 1)
      case (r, _) => Reading([], Some(r), 1)
  }

  lemma {:induction false} ReadAllFrom(blobs: map<Sha, Bytes>, keys: seq<BlobKey>, s: ReaderState, sizes: seq<nat>)
    requires forall i :: 0 <= i < |sizes| ==> sizes[i] > 0
    ensures var r, p := ReadAll(blobs, keys, s, sizes), Pending(blobs, keys, s);
            && r.got <= p
            && (r.end.Some? ==> r.got == p && r.end == Some(PendingEnd(blobs, keys, s)))
            && r.calls <= Potential(blobs, keys, s) + 1
            && r.calls <= |sizes| && (r.end.None? ==> r.calls == |sizes|)
            && (|sizes| > Potential(blobs, keys, s) ==> r.end.Some?)
    decreases |sizes|
  {
    hide Pending, PendingEnd, Potential, ReadStep;
    if sizes != [] {
      ReadStepProgress(blobs, keys, s, sizes[0]);
      var (r, s') := ReadStep(blobs, keys, s, sizes[0]);
      if r.Chunk? {
        ReadAllFrom(blobs, keys, s', sizes[1..]);
        assert r.bytes + ReadAll(blobs, keys, s', sizes[1..]).got <= r.bytes + Pending(blobs, keys, s');
      }
    }
  }

  /** Whatever non-empty buffers are used, what has been read is a prefix of the blobs
      before the first unreadable one; the reader ends only after all of that, with
      EOF only if every blob was readable, within (bytes + blobs + 1) reads. */
  lemma ReadsConcatenation(blobs: map<Sha, Bytes>, keys: seq<BlobKey>, sizes: seq<nat>)
    requires forall i :: 0 <= i < |sizes| ==> sizes[i] > 0
    ensures var r, all := ReadAll(blobs, keys, ReaderState(0, None), sizes), Stream(blobs, keys, 0);
            && r.got <= all
            && (r.end.Some? ==> r.got == all && r.end == Some(StreamEnd(blobs, keys, 0)))
            && (r.end == Some(Eof) ==> forall k :: k in keys ==> Present(blobs, k))
            && r.calls <= |all| + |keys| + 1
            && r.calls <= |sizes| && (r.end.None? ==> r.calls == |sizes|)
            && (|sizes| > |all| + |keys| ==> r.end.Some?)
  {
    ReadAllFrom(blobs, keys, ReaderState(0, None), sizes);
    EofMeansReadable(blobs, keys, 0);
  }

  lemma {:induction false} EofMeansReadable(blobs: map<Sha, Bytes>, keys: seq<BlobKey>, i: nat)
    requires i <= |keys|
    ensures StreamEnd(blobs, keys, i) == Eof <==> forall j :: i <= j < |keys| ==> Present(blobs, keys[j])
    decreases |keys| - i
  {
    if i < |keys| { EofMeansReadable(blobs, keys, i + 1); }
  }

  /** The reader panics exactly on a nil SHA1 with only present blobs before it. */
  lemma {:induction false} NilKeyExactly(blobs: map<Sha, Bytes>, keys: seq<BlobKey>, i: nat)
    requires i <= |keys|
    ensures StreamEnd(blobs, keys, i) == NilKey <==>
            exists k :: i <= k < |keys| && keys[k].sha1 == None &&
                        forall j :: i <= j < k ==> keys[j].sha1.Some? && keys[j].sha1.value in blobs
    decreases |keys| - i
  {
    if i < |keys| {
      NilKeyExactly(blobs, keys, i + 1);
      if StreamEnd(blobs, keys, i) == NilKey && keys[i].sha1.Some? {
        var k :| i + 1 <= k < |keys| && keys[k].sha1 == None &&
                 forall j :: i + 1 <= j < k ==> keys[j].sha1.Some? && keys[j].sha1.value in blobs;
        assert i <= k;
      }
    }
  }

  // ---------- The file system ----------

  datatype Entry = Dir | File(contents: Bytes)

  /** Entries by the components of their path; the root and the working directory
      always exist. */
  type Entries = map<Parts, Entry>

  predicate IsDir(e: Entries, q: Parts) {
    q == [] || q == [Slash()] || (q in e && e[q].Dir?)
  }

  predicate Exists(e: Entries, q: Parts) {
    q == [] || q == [Slash()] || q in e
  }

  predicate HasParent(e: Entries, q: Parts) {
    q != [] && IsDir(e, q[..|q| - 1])
  }

  predicate CanOpen(e: Entries, q: Parts) {
    !IsDir(e, q) && HasParent(e, q)
  }

  class FileSystem {
    var entries: Entries
    var handles: nat  // files open for writing

    constructor (entries: Entries)
      ensures this.entries == entries && handles == 0
    {
      this.entries, handles := entries, 0;
    }

    /** os.Mkdir. */
    method Mkdir(path: Bytes) returns (ok: bool)
      modifies `entries
      ensures ok == (!Exists(old(entries), PartsOf(path)) && HasParent(old(entries), PartsOf(path)))
      ensures entries == if ok then old(entries)[PartsOf(path) := Dir] else old(entries)
    {
      var q := PartsOf(path);
      ok := !Exists(entries, q) && HasParent(entries, q);
      if ok { entries := entries[q := Dir]; }
    }

    /** os.OpenFile with O_CREATE and O_TRUNC. */
    method Create(path: Bytes) returns (ok: bool)
      modifies this
      ensures ok == CanOpen(old(entries), PartsOf(path))
      ensures entries == if ok then old(entries)[PartsOf(path) := File([])] else old(entries)
      ensures handles == old(handles) + if ok then 1 else 0
    {
      var q := PartsOf(path);
      ok := CanOpen(entries, q);
      if ok { entries, handles := entries[q := File([])], handles + 1; }
    }
  }

  /** `data` written at the start of a file that was filled with `size` zeros. */
  function Laid(data: Bytes, size: nat): Bytes {
    if |data| >= size then data else data + Zeros(size - |data|)
  }

  /** Cut or filled with zeros to `size` bytes. */
  function Resized(contents: Bytes, size: nat): Bytes {
    Take(contents, size) + Zeros(if size > |contents| then size - |contents| else 0)
  }

  function Overwrite(contents: Bytes, pos: nat, s: Bytes): Bytes {
    Take(contents, pos) + s + Drop(contents, pos + |s|)
  }

  lemma OverwriteLaid(done: Bytes, size: nat, s: Bytes)
    ensures Overwrite(Laid(done, size), |done|, s) == Laid(done + s, size)
  {
    var c := Laid(done, size);
    assert Take(c, |done|) == done;
    assert Drop(c, |done| + |s|) == Zeros(if |done| + |s| >= size then 0 else size - |done| - |s|);
  }

  /** An open file: writes go to the current position. */
  class OpenFile {
    const fs: FileSystem
    const path: Parts
    var pos: nat
    var closed: bool

    constructor (fs: FileSystem, path: Parts)
      ensures this.fs == fs && this.path == path && pos == 0 && !closed
    {
      this.fs, this.path, pos, closed := fs, path, 0, false;
    }

    predicate Open()
      reads this, fs
    {
      !closed && path in fs.entries && fs.entries[path].File?
    }

    method Truncate(size: nat)
      requires Open()
      modifies fs`entries
      ensures fs.entries == old(fs.entries)[path := File(Resized(old(fs.entries)[path].contents, size))]
    {
      fs.entries := fs.entries[path := File(Resized(fs.entries[path].contents, size))];
    }

    method Write(s: Bytes)
      requires Open()
      modifies `pos, fs`entries
      ensures Open() && pos == old(pos) + |s|
      ensures fs.entries == old(fs.entries)[path := File(Overwrite(old(fs.entries)[path].contents, old(pos), s))]
    {
      fs.entries := fs.entries[path := File(Overwrite(fs.entries[path].contents, pos, s))];
      pos := pos + |s|;
    }

    method Close()
      requires !closed && fs.handles > 0
      modifies `closed, fs`handles
      ensures closed && fs.handles == old(fs.handles) - 1
    {
      closed := true;
      fs.handles := fs.handles - 1;
    }
  }

  /** bufio.Writer: bytes wait in `buf` until it is full or flushed. */
  class BufferedWriter {
    const f: OpenFile
    const size: nat
    var buf: Bytes

    constructor (f: OpenFile, size: nat)
      ensures this.f == f && this.size == size && buf == []
    {
      this.f, this.size, buf := f, size, [];
    }

    /** So far `data` has been written through this writer, the file was pre-sized to
        `total` zeros, and the other entries are `others`. */
    ghost predicate Wrote(data: Bytes, total: nat, others: Entries)
      reads this, f, f.fs
    {
      && f.Open() && f.pos + |buf| == |data| && data[f.pos..] == buf
      && f.fs.entries == others[f.path := File(Laid(data[..f.pos], total))]
    }

    method Flush(ghost data: Bytes, ghost total: nat, ghost others: Entries)
      requires Wrote(data, total, others)
      modifies this, f`pos, f.fs`entries
      ensures Wrote(data, total, others) && buf == []
    {
      OverwriteLaid(data[..f.pos], total, buf);
      assert data[..f.pos] + buf == data;
      f.Write(buf);
      buf := [];
      assert data[..f.pos] == data;
    }

    method Write(s: Bytes, ghost data: Bytes, ghost total: nat, ghost others: Entries)
      requires Wrote(data, total, others)
      modifies this, f`pos, f.fs`entries
      ensures Wrote(data + s, total, others)
    {
      buf := buf + s;
      assert (data + s)[..f.pos] == data[..f.pos];
      assert (data + s)[f.pos..] == buf;
      if |buf| > size { Flush(data + s, total, others); }
    }
  }

  // ---------- DownloadNode ----------

  datatype Status = Restored | CouldNotOpen | NodePanic

  /** What the restored file holds: the blobs before the first unreadable one, then zeros
      up to the recorded size. A size beyond int64 makes Truncate fail on a new file. */
  function NodeContents(blobs: map<Sha, Bytes>, n: Node): Bytes {
    if n.uncompressedDataSize >= TWO_63 then []
    else Laid(Stream(blobs, n.dataBlobKeys, 0), n.uncompressedDataSize)
  }

  /** The contents are as long as the recorded size, or longer if the blobs are; they begin
      with the blobs, and all bytes behind them are 0. A size beyond int64 leaves the file empty. */
  lemma NodeContentsExactly(blobs: map<Sha, Bytes>, n: Node)
    ensures var c, s, size := NodeContents(blobs, n), Stream(blobs, n.dataBlobKeys, 0), n.uncompressedDataSize;
            if size >= 9_223_372_036_854_775_808 then c == []
            else
              && |c| == (if |s| < size then size else |s|)
              && s <= c
              && forall i :: |s| <= i < |c| ==> c[i] == 0
  {
    hide Stream;
  }

  /** What is read is one blob after another, up to the first that is missing. */
  lemma StreamExactly(blobs: map<Sha, Bytes>, keys: seq<BlobKey>, i: nat)
    requires i < |keys|
    ensures keys[i].sha1.Some? && keys[i].sha1.value in blobs ==>
              Stream(blobs, keys, i) == blobs[keys[i].sha1.value] + Stream(blobs, keys, i + 1)
    ensures keys[i].sha1 == None || keys[i].sha1.value !in blobs ==> Stream(blobs, keys, i) == []
    ensures Stream(blobs, keys, |keys|) == []
  {
  }

  /** io.Copy: write what each Read returns, until one returns an error. */
  method Copy(w: BufferedWriter, r: BlobKeysReader, bufferSize: nat, ghost total: nat, ghost others: Entries)
    returns (end: ReadResult)
    requires bufferSize > 0 && w.Wrote([], total, others) && r.State() == ReaderState(0, None)
    modifies w, w.f`pos, w.f.fs`entries, r
    ensures w.Wrote(Stream(r.blobs, r.blobKeys, 0), total, others)
    ensures end == StreamEnd(r.blobs, r.blobKeys, 0)
  {
    hide Stream, StreamEnd, ReadStep, Laid, Overwrite;
    ghost var data: Bytes := [];
    ghost var all := Pending(r.blobs, r.blobKeys, r.State());
    var p := new byte[bufferSize];
    while true
      invariant w.Wrote(data, total, others)
      invariant all == data + Pending(r.blobs, r.blobKeys, r.State())
      invariant PendingEnd(r.blobs, r.blobKeys, r.State()) == StreamEnd(r.blobs, r.blobKeys, 0)
      decreases Potential(r.blobs, r.blobKeys, r.State())
    {
      ReadStepProgress(r.blobs, r.blobKeys, r.State(), p.Length);
      var n, result := r.Read(p);
      if !result.Chunk? {
        assert data + [] == data;
        return result;
      }
      assert (data + result.bytes) + Pending(r.blobs, r.blobKeys, r.State()) == all;
      w.Write(p[..n], data, total, others);
      data := data + p[..n];
    }
  }

  /** The file is closed on every path, and by then all that was written has been flushed:
      a closed file cannot be written to. Only a file that cannot be given its size stays
      open. */
  method DownloadNode(node: Node, blobs: map<Sha, Bytes>, fs: FileSystem, destinationPath: Bytes, bufferSize: nat)
    returns (status: Status)
    requires bufferSize > 0
    modifies fs
    ensures status == CouldNotOpen <==>
            !CanOpen(old(fs.entries), PartsOf(destinationPath)) || node.uncompressedDataSize >= TWO_63
    ensures !CanOpen(old(fs.entries), PartsOf(destinationPath)) ==> fs.entries == old(fs.entries)
    ensures CanOpen(old(fs.entries), PartsOf(destinationPath)) ==>
            fs.entries == old(fs.entries)[PartsOf(destinationPath) := File(NodeContents(blobs, node))]
    ensures fs.handles == old(fs.handles) +
              if CanOpen(old(fs.entries), PartsOf(destinationPath)) && node.uncompressedDataSize >= TWO_63 then 1 else 0
    ensures status == NodePanic <==>
            status != CouldNotOpen && StreamEnd(blobs, node.dataBlobKeys, 0) == NilKey
  {
    hide PartsOf, Stream, StreamEnd, ReadStep;
    var q := PartsOf(destinationPath);
    ghost var before := fs.entries;
    var created := fs.Create(destinationPath);
    if !created { return CouldNotOpen; }
    var size := node.uncompressedDataSize;
    if Wire.ToInt(size) < 0 { return CouldNotOpen; }  // Truncate
    var f := new OpenFile(fs, q);
    f.Truncate(size);
    assert Resized([], size) == Laid([], size);
    assert fs.entries == before[q := File(Laid([], size))];
    var w := new BufferedWriter(f, 4096);
    var r := new BlobKeysReader(blobs, node.dataBlobKeys);
    assert w.Wrote([], size, before);
    var end := Copy(w, r, bufferSize, size, before);
    // The deferred calls, which run after a panic too: Flush first, then Close.
    w.Flush(Stream(blobs, node.dataBlobKeys, 0), size, before);
    f.Close();
    assert Stream(blobs, node.dataBlobKeys, 0)[..f.pos] == Stream(blobs, node.dataBlobKeys, 0);
    status := if end.NilKey? then NodePanic else Restored;
  }
}
