/** Restoring a directory (DownloadTree in arq/repo.go) and the recover command
    (main.go): re-resolving every child from the root, string by string, amounts to
    a plain recursive copy of the backup tree. */
module TreeRestore {
  import opened Buffers
  import opened Paths
  import opened TargetPaths
  import opened TreeFormat
  import opened PathResolution
  import opened FileRestore

  // ---------- The backup tree as a file system ----------

  /** What the backup holds at these names below tree h: following names, with the last
      node of a name standing for it. */
  function EntryAt(b: Backup, h: Sha, names: seq<Bytes>): Option<Entry>
    decreases |names|
  {
    if h !in b.trees then None
    else if names == [] then Some(Dir)
    else
      match ScanNodes(b.trees[h].nodes, names[0])
      case Scanned(Some(n)) =>
        if n.flags.isTree then
          if FirstKey(n).Some? then EntryAt(b, FirstKey(n).value, names[1..]) else None
        else if |names| == 1 then Some(File(NodeContents(b.blobs, n)))
        else None
      case _ => None
  }

  /** The same, from a node. */
  function NodeEntry(b: Backup, n: Node, names: seq<Bytes>): Option<Entry> {
    if n.flags.isTree then
      if FirstKey(n).Some? then EntryAt(b, FirstKey(n).value, names) else None
    else if names == [] then Some(File(NodeContents(b.blobs, n)))
    else None
  }

  /** A node that DownloadTree gets past: a name that stands for itself, a first data key
      that FindNode can follow, and for a file no data key that makes the reader panic. */
  predicate GoodNode(b: Backup, n: Node) {
    && n.name.Some? && ValidName(n.name.value)
    && n.dataBlobKeys != [] && Reachable(b, FirstKey(n))
    && (!n.flags.isTree ==> StreamEnd(b.blobs, n.dataBlobKeys, 0) != NilKey)
  }

  predicate GoodNodes(b: Backup, nodes: seq<Node>) {
    forall i :: 0 <= i < |nodes| ==> GoodNode(b, nodes[i])
  }

  /** Tree h and the trees below it have only good nodes. Nothing is asked of the rest of
      the backup. */
  ghost predicate GoodBelow(b: Backup, rank: Sha -> nat, h: Sha)
    requires Merkle(b, rank)
    decreases rank(h)
  {
    h in b.trees ==>
      && GoodNodes(b, b.trees[h].nodes)
      && forall n :: n in b.trees[h].nodes && n.flags.isTree && FirstKey(n).Some? ==>
           GoodBelow(b, rank, FirstKey(n).value)
  }

  /** A file name, or none at all. */
  predicate SafeName(name: Option<Bytes>) {
    name.Some? ==> ValidName(name.value)
  }

  /** The names in tree h and below are file names: what keeps the restore inside its
      destination and makes it end. */
  ghost predicate SafeNames(b: Backup, rank: Sha -> nat, h: Sha)
    requires Merkle(b, rank)
    decreases rank(h)
  {
    h in b.trees ==>
      forall n :: n in b.trees[h].nodes ==>
        && SafeName(n.name)
        && (n.flags.isTree && FirstKey(n).Some? ==> SafeNames(b, rank, FirstKey(n).value))
  }

  lemma {:induction false} GoodIsSafe(b: Backup, rank: Sha -> nat, h: Sha)
    requires Merkle(b, rank) && GoodBelow(b, rank, h)
    ensures SafeNames(b, rank, h)
    decreases rank(h)
  {
    if h in b.trees {
      var nodes := b.trees[h].nodes;
      forall n | n in nodes
        ensures SafeName(n.name) && (n.flags.isTree && FirstKey(n).Some? ==> SafeNames(b, rank, FirstKey(n).value))
      {
        var i :| 0 <= i < |nodes| && nodes[i] == n;
        assert GoodNode(b, nodes[i]);
        if n.flags.isTree { GoodIsSafe(b, rank, FirstKey(n).value); }
      }
    }
  }

  // ---------- Before and after ----------

  function Lookup(e: Entries, q: Parts): Option<Entry> {
    if q in e then Some(e[q]) else None
  }

  predicate SameKind(x: Entry, y: Entry) {
    x.Dir? == y.Dir?
  }

  /** Every entry lies in a directory. */
  ghost predicate Closed(e: Entries) {
    forall q :: q in e ==> q != [] && (q == [Slash()] || HasParent(e, q))
  }

  /** A place below the root and the working directory. */
  predicate Proper(d: Parts) {
    d != [] && d != [Slash()] && d[0] != []
  }

  /** Mkdir will leave a directory here. */
  predicate Ready(e: Entries, d: Parts) {
    IsDir(e, d) || (!Exists(e, d) && HasParent(e, d))
  }

  /** Whatever already is at or below d has the kind the backup has there; in
      particular a destination with nothing in it. */
  ghost predicate CompatibleTree(e: Entries, d: Parts, b: Backup, h: Sha) {
    forall q :: d <= q && q in e ==>
      EntryAt(b, h, q[|d|..]).Some? && SameKind(e[q], EntryAt(b, h, q[|d|..]).value)
  }

  ghost predicate CompatibleNode(e: Entries, d: Parts, b: Backup, n: Node) {
    forall q :: d <= q && q in e ==>
      NodeEntry(b, n, q[|d|..]).Some? && SameKind(e[q], NodeEntry(b, n, q[|d|..]).value)
  }

  /** The entry wanted at q once tree h has been restored to d. */
  function Wanted(e: Entries, d: Parts, b: Backup, h: Sha, q: Parts): Option<Entry> {
    if Ready(e, d) && d <= q && EntryAt(b, h, q[|d|..]).Some? then EntryAt(b, h, q[|d|..]) else Lookup(e, q)
  }

  /** Exactly the image of the backup tree at d, and nothing else changed. */
  ghost predicate RestoredTree(before: Entries, after: Entries, d: Parts, b: Backup, h: Sha) {
    forall q :: Lookup(after, q) == Wanted(before, d, b, h, q)
  }

  ghost predicate RestoredNode(before: Entries, after: Entries, d: Parts, b: Backup, n: Node, ready: bool) {
    forall q :: Lookup(after, q) ==
      if ready && d <= q && NodeEntry(b, n, q[|d|..]).Some? then NodeEntry(b, n, q[|d|..]) else Lookup(before, q)
  }

  /** Nothing but what is at or below d has changed. */
  ghost predicate Contained(before: Entries, after: Entries, d: Parts) {
    forall q :: !(d <= q) ==> Lookup(after, q) == Lookup(before, q)
  }

  predicate Seen(nodes: seq<Node>, i: nat, name: Bytes)
    requires i <= |nodes|
  {
    exists j :: 0 <= j < i && nodes[j].name == Some(name)
  }

  /** The entry at q while the loop has done the first i nodes. */
  function WantedUpTo(e: Entries, d: Parts, b: Backup, h: Sha, i: nat, q: Parts): Option<Entry>
    requires h in b.trees && i <= |b.trees[h].nodes|
  {
    if Ready(e, d) && d <= q && (q == d || Seen(b.trees[h].nodes, i, q[|d|])) && EntryAt(b, h, q[|d|..]).Some?
    then EntryAt(b, h, q[|d|..])
    else Lookup(e, q)
  }

  ghost predicate Progress(before: Entries, e: Entries, d: Parts, b: Backup, h: Sha, i: nat)
    requires h in b.trees && i <= |b.trees[h].nodes|
  {
    forall q :: Lookup(e, q) == WantedUpTo(before, d, b, h, i, q)
  }

  lemma {:induction false} NothingBelow(e: Entries, d: Parts, q: Parts)
    requires Closed(e) && Proper(d) && !IsDir(e, d) && d <= q && q != d
    ensures q !in e
    decreases |q|
  {
    if q in e {
      var p := q[..|q| - 1];
      assert HasParent(e, q);
      assert d <= p && p != [] && p != [Slash()];
      if p != d { NothingBelow(e, d, p); }
    }
  }

  lemma RootIsDir(b: Backup, h: Sha)
    requires h in b.trees
    ensures EntryAt(b, h, []) == Some(Dir)
  {
  }

  /** After Mkdir, before the first node. */
  lemma MkdirProgress(before: Entries, e: Entries, d: Parts, b: Backup, h: Sha)
    requires h in b.trees && Proper(d) && Closed(before) && CompatibleTree(before, d, b, h)
    requires e == if !Exists(before, d) && HasParent(before, d) then before[d := Dir] else before
    ensures Progress(before, e, d, b, h, 0)
  {
    hide EntryAt, HasParent, Closed;
    assert d[|d|..] == [];
    RootIsDir(b, h);
    forall q
      ensures Lookup(e, q) == WantedUpTo(before, d, b, h, 0, q)
    {
    }
  }

  /** The entries below a name are those of the node it resolves to. */
  lemma ChildEntry(b: Backup, h: Sha, name: Bytes, m: Node)
    requires h in b.trees && ScanNodes(b.trees[h].nodes, name) == Scanned(Some(m))
    ensures forall names: seq<Bytes> :: EntryAt(b, h, [name] + names) == NodeEntry(b, m, names)
  {
    hide ScanNodes;
    forall names: seq<Bytes>
      ensures EntryAt(b, h, [name] + names) == NodeEntry(b, m, names)
    {
      assert ([name] + names)[1..] == names;
    }
  }

  /** A name that some node has is found, unless looking for it panics. */
  lemma {:induction false} NameFound(nodes: seq<Node>, i: nat)
    requires i < |nodes| && nodes[i].name.Some?
    ensures ScanNodes(nodes, nodes[i].name.value) != Scanned(None)
    decreases |nodes|
  {
    if i < |nodes| - 1 { NameFound(nodes[..|nodes| - 1], i); }
  }

  lemma SuffixStep(d: Parts, name: Bytes, q: Parts)
    requires d + [name] <= q
    ensures d <= q && q != d && q[|d|] == name && q[|d|..] == [name] + q[|d| + 1..]
  {
    assert (d + [name])[|d|] == name;
  }

  /** The child's part of the destination is compatible when its turn comes. */
  lemma ChildCompatible(before: Entries, e: Entries, d: Parts, b: Backup, h: Sha, i: nat, m: Node, name: Bytes)
    requires h in b.trees && i < |b.trees[h].nodes| && CompatibleTree(before, d, b, h)
    requires Progress(before, e, d, b, h, i)
    requires forall names: seq<Bytes> :: EntryAt(b, h, [name] + names) == NodeEntry(b, m, names)
    ensures CompatibleNode(e, d + [name], b, m)
  {
    hide EntryAt, NodeEntry, Seen;
    forall q | d + [name] <= q && q in e
      ensures NodeEntry(b, m, q[|d + [name]|..]).Some? && SameKind(e[q], NodeEntry(b, m, q[|d + [name]|..]).value)
    {
      SuffixStep(d, name, q);
      assert Lookup(e, q) == WantedUpTo(before, d, b, h, i, q);
      assert EntryAt(b, h, [name] + q[|d| + 1..]) == NodeEntry(b, m, q[|d| + 1..]);
    }
  }

  /** Restoring the child advances the loop. */
  lemma ChildProgress(
      before: Entries, e: Entries, e': Entries, d: Parts, b: Backup, h: Sha, i: nat, m: Node, name: Bytes)
    requires h in b.trees && i < |b.trees[h].nodes| && b.trees[h].nodes[i].name == Some(name)
    requires Progress(before, e, d, b, h, i)
    requires RestoredNode(e, e', d + [name], b, m, Ready(before, d))
    requires forall names: seq<Bytes> :: EntryAt(b, h, [name] + names) == NodeEntry(b, m, names)
    ensures Progress(before, e', d, b, h, i + 1)
  {
    hide EntryAt, NodeEntry, Ready;
    var nodes := b.trees[h].nodes;
    forall q
      ensures Lookup(e', q) == WantedUpTo(before, d, b, h, i + 1, q)
    {
      assert Lookup(e, q) == WantedUpTo(before, d, b, h, i, q);
      if d + [name] <= q {
        SuffixStep(d, name, q);
        assert nodes[i].name == Some(q[|d|]);
        assert EntryAt(b, h, [name] + q[|d| + 1..]) == NodeEntry(b, m, q[|d| + 1..]);
      } else if d <= q && q != d {
        assert q[..|d| + 1] == d + [q[|d|]];
        assert Seen(nodes, i + 1, q[|d|]) <==> Seen(nodes, i, q[|d|]);
      }
    }
  }

  /** When every node has been done, the tree is there. */
  lemma AllDone(before: Entries, e: Entries, d: Parts, b: Backup, h: Sha)
    requires h in b.trees && Progress(before, e, d, b, h, |b.trees[h].nodes|)
    ensures RestoredTree(before, e, d, b, h)
  {
    var nodes := b.trees[h].nodes;
    forall q
      ensures Lookup(e, q) == Wanted(before, d, b, h, q)
    {
      assert Lookup(e, q) == WantedUpTo(before, d, b, h, |nodes|, q);
      if d <= q && q != d && EntryAt(b, h, q[|d|..]).Some? {
        assert q[|d|..][0] == q[|d|];
        ScanIn(nodes, q[|d|]);
        var m := ScanNodes(nodes, q[|d|]).last.value;
        var j :| 0 <= j < |nodes| && nodes[j] == m;
        assert Seen(nodes, |nodes|, q[|d|]);
      }
    }
  }

  // ---------- When a restore panics ----------

  /** Whether there is a directory here, or Mkdir can make one in a parent that is ready. */
  predicate DirHere(e: Entries, d: Parts, ready: bool) {
    IsDir(e, d) || (!Exists(e, d) && ready)
  }

  /** Restoring a file panics exactly if it could be opened and given its size, and its
      reader comes to a data key without a SHA1. */
  predicate FilePanics(b: Backup, m: Node, e: Entries, d: Parts, ready: bool) {
    ready && !IsDir(e, d) && m.uncompressedDataSize < TWO_63 && StreamEnd(b.blobs, m.dataBlobKeys, 0) == NilKey
  }

  /** Node i of tree h makes the restore to d panic: it has no name, or looking its name up
      panics, or the last node of that name has a first key that cannot be followed, or is
      a directory or a file whose own restore panics. */
  ghost predicate NodePanics(b: Backup, rank: Sha -> nat, h: Sha, i: nat, e: Entries, d: Parts, ready: bool)
    requires Merkle(b, rank) && h in b.trees && i < |b.trees[h].nodes|
    decreases rank(h), 0
  {
    var nodes := b.trees[h].nodes;
    var name := nodes[i].name;
    name.None? ||
    var scan := ScanNodes(nodes, name.value);
    scan.ScanPanic? ||
    (scan.last.Some? &&
      var m, q := scan.last.value, d + [name.value];
      ScanIn(nodes, name.value);
      (!Reachable(b, FirstKey(m)) ||
        if m.flags.isTree then TreePanics(b, rank, FirstKey(m).value, e, q, DirHere(e, q, ready))
        else FilePanics(b, m, e, q, ready)))
  }

  /** Restoring tree h to d, where `ready` says that there is a directory, panics exactly if
      one of its nodes makes it panic. */
  ghost predicate TreePanics(b: Backup, rank: Sha -> nat, h: Sha, e: Entries, d: Parts, ready: bool)
    requires Merkle(b, rank)
    decreases rank(h), 1
  {
    h in b.trees && exists i: nat :: i < |b.trees[h].nodes| && NodePanics(b, rank, h, i, e, d, ready)
  }

  lemma NoTreeNoPanic(b: Backup, rank: Sha -> nat, h: Sha, e: Entries, d: Parts, ready: bool)
    requires Merkle(b, rank) && h !in b.trees
    ensures !TreePanics(b, rank, h, e, d, ready)
  {
  }

  /** A node without a name or without data keys always does. */
  lemma NamelessOrKeylessPanics(b: Backup, rank: Sha -> nat, h: Sha, n: Node, e: Entries, d: Parts, ready: bool)
    requires Merkle(b, rank) && h in b.trees && n in b.trees[h].nodes && (n.name == None || n.dataBlobKeys == [])
    ensures TreePanics(b, rank, h, e, d, ready)
  {
    var nodes := b.trees[h].nodes;
    var i :| 0 <= i < |nodes| && nodes[i] == n;
    if n.name.Some? { ScanPanicsExactly(nodes, n.name.value); }
    assert NodePanics(b, rank, h, i, e, d, ready);
  }

  /** So does the last node of a name whose first data key has no SHA1. */
  lemma NilFirstKeyPanics(b: Backup, rank: Sha -> nat, h: Sha, i: nat, e: Entries, d: Parts, ready: bool)
    requires Merkle(b, rank) && h in b.trees && i < |b.trees[h].nodes|
    requires b.trees[h].nodes[i].dataBlobKeys != [] && b.trees[h].nodes[i].dataBlobKeys[0].sha1 == None
    requires forall j :: i < j < |b.trees[h].nodes| ==> b.trees[h].nodes[j].name != b.trees[h].nodes[i].name
    ensures TreePanics(b, rank, h, e, d, ready)
  {
    var nodes := b.trees[h].nodes;
    var name := nodes[i].name;
    if name.Some? && ScanNodes(nodes, name.value) != ScanPanic {
      LastIsFound(nodes, i);
    }
    assert NodePanics(b, rank, h, i, e, d, ready);
  }

  /** In a tree whose nodes all have names and data keys, the last node of a name panics for
      exactly these reasons. */
  lemma LastNodePanicsExactly(b: Backup, rank: Sha -> nat, h: Sha, i: nat, e: Entries, d: Parts, ready: bool)
    requires Merkle(b, rank) && h in b.trees && i < |b.trees[h].nodes|
    requires forall n :: n in b.trees[h].nodes ==> n.name.Some? && n.dataBlobKeys != []
    requires forall j :: i < j < |b.trees[h].nodes| ==> b.trees[h].nodes[j].name != b.trees[h].nodes[i].name
    ensures var m := b.trees[h].nodes[i];
            var q, first := d + [m.name.value], m.dataBlobKeys[0].sha1;
            NodePanics(b, rank, h, i, e, d, ready) <==>
              || first == None
              || first.value in b.crashing
              || (m.flags.isTree && TreePanics(b, rank, first.value, e, q, IsDir(e, q) || (q !in e && ready)))
              || (!m.flags.isTree && ready && !IsDir(e, q) && m.uncompressedDataSize < 9_223_372_036_854_775_808
                  && exists k :: 0 <= k < |m.dataBlobKeys| && m.dataBlobKeys[k].sha1 == None &&
                       forall j :: 0 <= j < k ==> m.dataBlobKeys[j].sha1.Some? &&
                                                  m.dataBlobKeys[j].sha1.value in b.blobs)
  {
    hide StreamEnd, TreePanics;
    var nodes := b.trees[h].nodes;
    var m := nodes[i];
    var q := d + [m.name.value];
    ScanPanicsExactly(nodes, m.name.value);
    LastIsFound(nodes, i);
    NilKeyExactly(b.blobs, m.dataBlobKeys, 0);
  }

  lemma {:induction false} LastIsFound(nodes: seq<Node>, i: nat)
    requires i < |nodes| && nodes[i].name.Some? && ScanNodes(nodes, nodes[i].name.value) != ScanPanic
    requires forall j :: i < j < |nodes| ==> nodes[j].name != nodes[i].name
    ensures ScanNodes(nodes, nodes[i].name.value) == Scanned(Some(nodes[i]))
    decreases |nodes|
  {
    if i < |nodes| - 1 { LastIsFound(nodes[..|nodes| - 1], i); }
  }

  /** The restore of a tree with only good nodes never panics. */
  lemma {:induction false} GoodNeverPanics(b: Backup, rank: Sha -> nat, h: Sha, e: Entries, d: Parts, ready: bool)
    requires Merkle(b, rank) && GoodBelow(b, rank, h)
    ensures !TreePanics(b, rank, h, e, d, ready)
    decreases rank(h)
  {
    hide ScanNodes, StreamEnd;
    if h in b.trees {
      var nodes := b.trees[h].nodes;
      forall i: nat | i < |nodes|
        ensures !NodePanics(b, rank, h, i, e, d, ready)
      {
        assert GoodNode(b, nodes[i]);
        var name := nodes[i].name.value;
        ChildGood(b, rank, h, name);
        var scan := ScanNodes(nodes, name);
        if scan.Scanned? && scan.last.Some? && scan.last.value.flags.isTree {
          var q := d + [name];
          GoodNeverPanics(b, rank, FirstKey(scan.last.value).value, e, q, DirHere(e, q, ready));
        }
      }
    }
  }

  // ---------- What is on the disk while a restore goes on ----------

  /** At and below d nothing has changed, but that directories and files of the tree have
      been made, and files written over. */
  ghost predicate OnlyAdds(before: Entries, e: Entries, d: Parts, b: Backup, h: Sha) {
    forall q :: d <= q ==> Added(Lookup(before, q), Lookup(e, q), EntryAt(b, h, q[|d|..]))
  }

  ghost predicate OnlyAddsNode(before: Entries, e: Entries, d: Parts, b: Backup, n: Node) {
    forall q :: d <= q ==> Added(Lookup(before, q), Lookup(e, q), NodeEntry(b, n, q[|d|..]))
  }

  predicate Added(before: Option<Entry>, after: Option<Entry>, wanted: Option<Entry>) {
    || after == before
    || (after == wanted && wanted == Some(Dir) && before == None)
    || (after == wanted && wanted.Some? && wanted.value.File? && before != Some(Dir))
  }

  lemma MkdirAdds(before: Entries, e: Entries, d: Parts, b: Backup, h: Sha)
    requires h in b.trees && Proper(d)
    requires e == if !Exists(before, d) && HasParent(before, d) then before[d := Dir] else before
    ensures OnlyAdds(before, e, d, b, h) && IsDir(e, d) == Ready(before, d)
  {
    hide EntryAt, HasParent;
    assert d[|d|..] == [];
    RootIsDir(b, h);
  }

  lemma FileAdds(before: Entries, e: Entries, d: Parts, b: Backup, m: Node)
    requires !m.flags.isTree && Proper(d)
    requires e == if CanOpen(before, d) then before[d := File(NodeContents(b.blobs, m))] else before
    ensures OnlyAddsNode(before, e, d, b, m)
  {
    hide NodeContents;
    assert d[|d|..] == [];
  }

  lemma ChildAdds(before: Entries, e: Entries, e': Entries, d: Parts, b: Backup, h: Sha, m: Node, name: Bytes)
    requires OnlyAdds(before, e, d, b, h) && OnlyAddsNode(e, e', d + [name], b, m) && Contained(e, e', d + [name])
    requires forall names: seq<Bytes> :: EntryAt(b, h, [name] + names) == NodeEntry(b, m, names)
    ensures OnlyAdds(before, e', d, b, h) && IsDir(e', d) == IsDir(e, d)
  {
    hide EntryAt, NodeEntry;
    assert !(d + [name] <= d) && Lookup(e', d) == Lookup(e, d);
    forall q | d <= q
      ensures Added(Lookup(before, q), Lookup(e', q), EntryAt(b, h, q[|d|..]))
    {
      if d + [name] <= q {
        SuffixStep(d, name, q);
        assert EntryAt(b, h, [name] + q[|d| + 1..]) == NodeEntry(b, m, q[|d| + 1..]);
      }
    }
  }

  lemma OnlyAddsChild(before: Entries, e: Entries, d: Parts, b: Backup, h: Sha, m: Node, name: Bytes)
    requires OnlyAdds(before, e, d, b, h)
    requires forall names: seq<Bytes> :: EntryAt(b, h, [name] + names) == NodeEntry(b, m, names)
    ensures OnlyAddsNode(before, e, d + [name], b, m)
  {
    hide EntryAt, NodeEntry;
    forall q | d + [name] <= q
      ensures Added(Lookup(before, q), Lookup(e, q), NodeEntry(b, m, q[|d + [name]|..]))
    {
      SuffixStep(d, name, q);
      assert EntryAt(b, h, [name] + q[|d| + 1..]) == NodeEntry(b, m, q[|d| + 1..]);
    }
  }

  /** For a child directory it makes no difference whether it is looked at before the restore
      or when its turn comes. */
  lemma ReadyKept(before: Entries, e: Entries, d: Parts, b: Backup, m: Node, name: Bytes, ready: bool)
    requires OnlyAddsNode(before, e, d + [name], b, m) && Closed(e) && Proper(d) && (IsDir(e, d) ==> ready)
    requires m.flags.isTree && FirstKey(m).Some? && FirstKey(m).value in b.trees
    ensures DirHere(e, d + [name], ready) == DirHere(before, d + [name], ready)
    ensures IsDir(e, d + [name]) ==> DirHere(before, d + [name], ready)
  {
    var q := d + [name];
    assert q[|q|..] == [] && q[..|q| - 1] == d;
    RootIsDir(b, FirstKey(m).value);
    assert Added(Lookup(before, q), Lookup(e, q), Some(Dir));
  }

  lemma FileKept(before: Entries, e: Entries, d: Parts, b: Backup, m: Node)
    requires OnlyAddsNode(before, e, d, b, m) && Proper(d) && !m.flags.isTree
    ensures IsDir(e, d) == IsDir(before, d)
  {
    assert d[|d|..] == [];
    assert Added(Lookup(before, d), Lookup(e, d), NodeEntry(b, m, []));
  }

  /** So the disk may as well be looked at before the restore to see whether it panics. */
  lemma {:induction false} PanicsKept(
      b: Backup, rank: Sha -> nat, h: Sha, before: Entries, e: Entries, d: Parts, ready: bool)
    requires Merkle(b, rank) && OnlyAdds(before, e, d, b, h) && Closed(e) && Proper(d) && (IsDir(e, d) ==> ready)
    ensures TreePanics(b, rank, h, e, d, ready) == TreePanics(b, rank, h, before, d, ready)
    decreases rank(h), 0
  {
    hide EntryAt, NodeEntry, ScanNodes, OnlyAdds, OnlyAddsNode, Closed, FilePanics, DirHere, IsDir;
    if h in b.trees {
      forall i: nat | i < |b.trees[h].nodes|
        ensures NodePanics(b, rank, h, i, e, d, ready) == NodePanics(b, rank, h, i, before, d, ready)
      {
        var nodes := b.trees[h].nodes;
        var name := nodes[i].name;
        if name.Some? && ScanNodes(nodes, name.value).Scanned? && ScanNodes(nodes, name.value).last.Some? {
          var m := ScanNodes(nodes, name.value).last.value;
          ScanIn(nodes, name.value);
          ChildEntry(b, h, name.value, m);
          OnlyAddsChild(before, e, d, b, h, m, name.value);
          if Reachable(b, FirstKey(m)) { ChildPanicsKept(b, rank, before, e, d, m, name.value, ready); }
        }
      }
    }
  }

  lemma ChildPanicsKept(
      b: Backup, rank: Sha -> nat, before: Entries, e: Entries, d: Parts, m: Node, name: Bytes, ready: bool)
    requires Merkle(b, rank) && OnlyAddsNode(before, e, d + [name], b, m) && Closed(e) && Proper(d)
    requires (IsDir(e, d) ==> ready) && FirstKey(m).Some?
    ensures var q := d + [name];
            if m.flags.isTree then
              TreePanics(b, rank, FirstKey(m).value, e, q, DirHere(e, q, ready)) ==
              TreePanics(b, rank, FirstKey(m).value, before, q, DirHere(before, q, ready))
            else FilePanics(b, m, e, q, ready) == FilePanics(b, m, before, q, ready)
    decreases rank(FirstKey(m).value), 1
  {
    hide EntryAt, ScanNodes, Closed, StreamEnd, NodePanics;
    var q := d + [name];
    if !m.flags.isTree {
      FileKept(before, e, q, b, m);
    } else if FirstKey(m).value in b.trees {
      ReadyKept(before, e, d, b, m, name, ready);
      PanicsKept(b, rank, FirstKey(m).value, before, e, q, DirHere(before, q, ready));
    }
  }

  // ---------- DownloadTree ----------

  datatype TreeStatus = TreeRestored | TreeNotFound | FindFailed | TreePanic

  /** Below these names the root behaves as tree h. */
  ghost predicate LeadsTo(b: Backup, names: seq<Bytes>, h: Sha) {
    b.head.Some? && forall c: seq<Bytes> :: c != [] ==>
      Descend(b, b.head.value.root, None, names + c) == Descend(b, Some(h), None, c)
  }

  /** One name further. */
  function NodeFound(b: Backup, scan: Scan): FindResult {
    match scan
    case ScanPanic => Crashed
    case Scanned(None) => Failed
    case Scanned(Some(m)) =>
      if Reachable(b, FirstKey(m)) then Found(GetTree(b, FirstKey(m).value), Some(m)) else Crashed
  }

  lemma DescendOne(b: Backup, h: Sha, name: Bytes)
    requires h in b.trees && Reachable(b, Some(h))
    ensures Descend(b, Some(h), None, [name]) == NodeFound(b, ScanNodes(b.trees[h].nodes, name))
  {
    hide ScanNodes;
    assert [name][1..] == [];
  }

  lemma LeadsToChild(b: Backup, names: seq<Bytes>, h: Sha, name: Bytes, m: Node)
    requires LeadsTo(b, names, h) && h in b.trees && Reachable(b, Some(h))
    requires ScanNodes(b.trees[h].nodes, name) == Scanned(Some(m)) && FirstKey(m).Some?
    ensures LeadsTo(b, names + [name], FirstKey(m).value)
  {
    hide ScanNodes;
    forall c: seq<Bytes> | c != []
      ensures Descend(b, b.head.value.root, None, (names + [name]) + c) == Descend(b, FirstKey(m), None, c)
    {
      assert (names + [name]) + c == names + ([name] + c);
      assert ([name] + c)[0] == name && ([name] + c)[1..] == c;
      assert Descend(b, FirstKey(m), Some(m), c) == Descend(b, FirstKey(m), None, c);
    }
  }

  /** Opening the child's file creates exactly the file entry. */
  lemma FileRestored(before: Entries, e: Entries, d: Parts, b: Backup, m: Node, ready: bool)
    requires !m.flags.isTree && CompatibleNode(before, d, b, m) && Closed(before) && Proper(d)
    requires ready == HasParent(before, d)
    requires e == if CanOpen(before, d) then before[d := File(NodeContents(b.blobs, m))] else before
    ensures RestoredNode(before, e, d, b, m, ready)
  {
    hide NodeContents, EntryAt, Closed, HasParent;
    assert d[|d|..] == [];
    assert !IsDir(before, d) by {
      if d in before { assert SameKind(before[d], NodeEntry(b, m, d[|d|..]).value); }
    }
    forall q
      ensures Lookup(e, q) ==
        if ready && d <= q && NodeEntry(b, m, q[|d|..]).Some? then NodeEntry(b, m, q[|d|..]) else Lookup(before, q)
    {
      if d <= q { assert q == d <==> q[|d|..] == []; }
    }
  }

  /** A child can be created exactly where Mkdir left a directory. */
  lemma ChildReady(before: Entries, e: Entries, d: Parts, b: Backup, h: Sha, i: nat, name: Bytes)
    requires h in b.trees && i <= |b.trees[h].nodes| && Progress(before, e, d, b, h, i) && Proper(d)
    ensures Proper(d + [name]) && HasParent(e, d + [name]) == Ready(before, d)
  {
    hide Seen;
    assert (d + [name])[..|d|] == d && d[|d|..] == [];
    assert Lookup(e, d) == WantedUpTo(before, d, b, h, i, d);
  }

  /** A restored subtree is a restored node. */
  lemma SubtreeRestored(before: Entries, e: Entries, d: Parts, b: Backup, m: Node, ready: bool)
    requires m.flags.isTree && FirstKey(m).Some? && CompatibleNode(before, d, b, m)
    requires Proper(d) && ready == HasParent(before, d) && Closed(before)
    requires RestoredTree(before, e, d, b, FirstKey(m).value)
    ensures RestoredNode(before, e, d, b, m, ready)
  {
    var h := FirstKey(m).value;
    assert d[|d|..] == [];
    if h in b.trees {
      assert Ready(before, d) == ready by {
        if d in before { assert SameKind(before[d], NodeEntry(b, m, d[|d|..]).value); }
      }
    }
    forall q
      ensures Lookup(e, q) ==
        if ready && d <= q && NodeEntry(b, m, q[|d|..]).Some? then NodeEntry(b, m, q[|d|..]) else Lookup(before, q)
    {
      assert Lookup(e, q) == Wanted(before, d, b, h, q);
    }
  }

  /** A file written or left alone. */
  lemma FileContained(before: Entries, e: Entries, d: Parts, contents: Bytes)
    requires Closed(before) && Proper(d)
    requires e == if CanOpen(before, d) then before[d := File(contents)] else before
    ensures Closed(e) && Contained(before, e, d)
  {
    forall q | q in e
      ensures q != [] && (q == [Slash()] || HasParent(e, q))
    {
      if CanOpen(before, d) && q in before && q != [Slash()] && q[..|q| - 1] == d { NothingBelow(before, d, q); }
    }
  }

  lemma MkdirContained(before: Entries, e: Entries, d: Parts)
    requires Closed(before) && Proper(d)
    requires e == if !Exists(before, d) && HasParent(before, d) then before[d := Dir] else before
    ensures Closed(e) && Contained(before, e, d)
  {
  }

  lemma ContainedStep(before: Entries, e: Entries, e': Entries, d: Parts, name: Bytes)
    requires Contained(before, e, d) && Contained(e, e', d + [name])
    ensures Contained(before, e', d)
  {
    assert d == (d + [name])[..|d|];
    forall q | !(d <= q) ensures Lookup(e', q) == Lookup(before, q) {
      assert Lookup(e', q) == Lookup(e, q) == Lookup(before, q);
    }
  }

  /** The path of a child of the tree being restored, put together as a string, resolves to
      what its name means in that tree: the last node of that name, and its tree if the
      store has one. It never leads nowhere. */
  lemma ChildFound(
      b: Backup, rank: Sha -> nat, base: seq<Bytes>, names: seq<Bytes>, h: Sha, sourcePath: Bytes, i: nat)
    requires Merkle(b, rank) && ValidNames(base) && ValidNames(names)
    requires b.head.Some? && b.head.value.path == Absolute(base)
    requires PartsOf(sourcePath) == [Slash()] + (base + names)
    requires LeadsTo(b, names, h) && h in b.trees && Reachable(b, Some(h))
    requires i < |b.trees[h].nodes| && b.trees[h].nodes[i].name.Some?
    requires ValidName(b.trees[h].nodes[i].name.value)
    ensures var name := b.trees[h].nodes[i].name.value; var r := FindNodeSpec(b, rank, Join(sourcePath, name)).result;
            && PartsOf(Join(sourcePath, name)) == [Slash()] + (base + (names + [name]))
            && r == NodeFound(b, ScanNodes(b.trees[h].nodes, name)) && !r.Failed?
            && ValidNames(names + [name])
            && (r.Found? ==> FirstKey(r.node.value).Some? && LeadsTo(b, names + [name], FirstKey(r.node.value).value))
  {
    hide Join, ScanNodes, Descend, LeadsTo, FindNodeSpec, ValidName, PartsOf, Render;
    var name := b.trees[h].nodes[i].name.value;
    PartsOfJoin(sourcePath, name);
    assert ([Slash()] + (base + names)) + [name] == [Slash()] + (base + (names + [name]));
    assert ValidNames(names + [name]);
    assert Absolute(base + (names + [name])) + [] == Join(sourcePath, name);
    FindNodeIsDescend(b, rank, base, names + [name], []);
    LeadsToOne(b, names, h, name);
    DescendOne(b, h, name);
    NameFound(b.trees[h].nodes, i);
    var scan := ScanNodes(b.trees[h].nodes, name);
    if scan.Scanned? && FirstKey(scan.last.value).Some? { LeadsToChild(b, names, h, name, scan.last.value); }
  }

  lemma LeadsToOne(b: Backup, names: seq<Bytes>, h: Sha, name: Bytes)
    requires LeadsTo(b, names, h)
    ensures Descend(b, b.head.value.root, None, names + [name]) == Descend(b, Some(h), None, [name])
  {
  }

  lemma ProperChild(d: Parts, name: Bytes)
    requires Proper(d)
    ensures Proper(d + [name])
  {
  }

  lemma NamesOfNode(b: Backup, rank: Sha -> nat, h: Sha, i: nat)
    requires Merkle(b, rank) && SafeNames(b, rank, h) && h in b.trees && i < |b.trees[h].nodes|
    ensures var name := b.trees[h].nodes[i].name;
            name.Some? ==> ValidName(name.value)
  {
    assert SafeName(b.trees[h].nodes[i].name);
  }

  /** Where the child's turn begins. */
  lemma ChildBefore(before: Entries, e: Entries, d: Parts, b: Backup, h: Sha, i: nat, m: Node, name: Bytes)
    requires h in b.trees && i < |b.trees[h].nodes| && CompatibleTree(before, d, b, h) && Proper(d)
    requires Progress(before, e, d, b, h, i) && ScanNodes(b.trees[h].nodes, name) == Scanned(Some(m))
    ensures HasParent(e, d + [name]) == Ready(before, d) && CompatibleNode(e, d + [name], b, m)
    ensures forall names: seq<Bytes> :: EntryAt(b, h, [name] + names) == NodeEntry(b, m, names)
    ensures m.flags.isTree && FirstKey(m).Some? ==> CompatibleTree(e, d + [name], b, FirstKey(m).value)
  {
    ChildEntry(b, h, name, m);
    ChildReady(before, e, d, b, h, i, name);
    ChildCompatible(before, e, d, b, h, i, m, name);
    if m.flags.isTree && FirstKey(m).Some? { CompatibleSubtree(e, d + [name], b, m); }
  }

  /** The node that a name resolves to is one of the tree's. */
  lemma ChildGood(b: Backup, rank: Sha -> nat, h: Sha, name: Bytes)
    requires Merkle(b, rank) && h in b.trees
    ensures ScanNodes(b.trees[h].nodes, name) == ScanPanic ==> !GoodBelow(b, rank, h)
    ensures var scan := ScanNodes(b.trees[h].nodes, name);
            scan.Scanned? && scan.last.Some? ==>
              var m := scan.last.value;
              && m.name == Some(name)
              && (FirstKey(m).Some? ==> rank(FirstKey(m).value) < rank(h))
              && (SafeNames(b, rank, h) && m.flags.isTree && FirstKey(m).Some? ==>
                    SafeNames(b, rank, FirstKey(m).value))
              && (GoodBelow(b, rank, h) ==>
                    GoodNode(b, m) && (m.flags.isTree ==> GoodBelow(b, rank, FirstKey(m).value)))
  {
    var nodes := b.trees[h].nodes;
    ScanIn(nodes, name);
    ScanPanicsExactly(nodes, name);
    var scan := ScanNodes(nodes, name);
    if scan.Scanned? && scan.last.Some? {
      var i :| 0 <= i < |nodes| && nodes[i] == scan.last.value;
    } else if scan.ScanPanic? {
      var n :| n in nodes && (n.name == None || (n.name == Some(name) && n.dataBlobKeys == []));
      var i :| 0 <= i < |nodes| && nodes[i] == n;
      assert !GoodNode(b, nodes[i]);
    }
  }

  /** Where the restore of tree h stands: its source path names a place below the commit's
      path that leads to h, or it has gone astray and h is the commit's root. */
  ghost predicate Stands(b: Backup, rank: Sha -> nat, base: seq<Bytes>, path: seq<Bytes>, h: Sha)
    requires Merkle(b, rank)
  {
    && b.head.Some?
    && if base <= path then LeadsTo(b, path[|base|..], h)
       else b.head.value.root == Some(h) && NoParentNames(b, rank, Some(h))
  }

  /** The child of a path that has gone astray is not found, or it is the commit's root. */
  lemma StrayChild(
      b: Backup, rank: Sha -> nat, base: seq<Bytes>, path: seq<Bytes>, h: Sha, sourcePath: Bytes, name: Bytes)
    requires Merkle(b, rank) && ValidNames(base) && ValidNames(path) && ValidName(name) && !(base <= path)
    requires Stands(b, rank, base, path, h) && b.head.value.path == Absolute(base)
    requires PartsOf(sourcePath) == [Slash()] + path
    ensures var r := FindNodeSpec(b, rank, Join(sourcePath, name)).result;
            && PartsOf(Join(sourcePath, name)) == [Slash()] + (path + [name]) && ValidNames(path + [name])
            && (r.Found? ==>
                  && r == Descend(b, Some(h), None, []) && Stands(b, rank, base, path + [name], h)
                  && Astray(base, path + [name]) < Astray(base, path))
  {
    hide Join, FindNodeSpec, Descend, PartsOf, Absolute, NoParentNames, NamesIn, Spells;
    var target := Join(sourcePath, name);
    PartsOfJoin(sourcePath, name);
    assert ([Slash()] + path) + [name] == [Slash()] + (path + [name]);
    assert target == Absolute(path + [name]) by { AbsoluteIsRender(path + [name]); }
    if HasPrefix(target, Absolute(base)) {
      var s := target[|Absolute(base)|..];
      assert target == Absolute(base) + s;
      FindNodeExactly(b, rank, base, s);
      if Spells(base, s) {
        if NamesIn(s) != [] {
          SpelledParts(base, s);
          assert path + [name] == ([Slash()] + (path + [name]))[1..] == ([Slash()] + (base + NamesIn(s)))[1..];
          WithinPath(base, path, name, NamesIn(s));
        } else {
          LessAstray(base, path, name, s);
          if base <= path + [name] { RootLeads(b, base, path + [name], h); }
        }
      }
    } else {
      NotBelow(b, rank, target);
    }
  }

  lemma AbsoluteIsRender(path: seq<Bytes>)
    ensures Absolute(path) == Render([Slash()] + path)
  {
  }

  lemma NotBelow(b: Backup, rank: Sha -> nat, target: Bytes)
    requires Merkle(b, rank) && b.head.Some? && !HasPrefix(target, b.head.value.path)
    ensures !FindNodeSpec(b, rank, target).result.Found?
  {
  }

  lemma RootLeads(b: Backup, base: seq<Bytes>, path: seq<Bytes>, h: Sha)
    requires b.head.Some? && b.head.value.root == Some(h) && path == base
    ensures LeadsTo(b, path[|base|..], h)
  {
    hide Descend;
    forall c: seq<Bytes> | c != []
      ensures Descend(b, Some(h), None, path[|base|..] + c) == Descend(b, Some(h), None, c)
    {
      assert path[|base|..] + c == c;
    }
  }

  /** The tree that the restore of a child goes on with. */
  function NextTree(node: Option<Node>, h: Sha): Sha {
    if node.Some? && FirstKey(node.value).Some? then FirstKey(node.value).value else h
  }

  /** What looking up a child comes to, and why restoring it is a smaller task. */
  lemma NextCall(
      b: Backup, rank: Sha -> nat, base: seq<Bytes>, path: seq<Bytes>, h: Sha, sourcePath: Bytes, i: nat)
    requires Merkle(b, rank) && ValidNames(base) && ValidNames(path) && PartsOf(sourcePath) == [Slash()] + path
    requires Stands(b, rank, base, path, h) && b.head.value.path == Absolute(base) && SafeNames(b, rank, h)
    requires h in b.trees && Reachable(b, Some(h)) && i < |b.trees[h].nodes|
    requires b.trees[h].nodes[i].name.Some? && ValidName(b.trees[h].nodes[i].name.value)
    ensures var name := b.trees[h].nodes[i].name.value;
            var r := FindNodeSpec(b, rank, Join(sourcePath, name)).result;
            && PartsOf(Join(sourcePath, name)) == [Slash()] + (path + [name]) && ValidNames(path + [name])
            && (base <= path ==> r == NodeFound(b, ScanNodes(b.trees[h].nodes, name)) && !r.Failed?)
            && (r.Found? ==>
                  var t := NextTree(r.node, h);
                  && Reachable(b, Some(t)) && r.tree == GetTree(b, t) && Stands(b, rank, base, path + [name], t)
                  && (r.node.None? || r.node.value.flags.isTree ==>
                        && SafeNames(b, rank, t)
                        && (Astray(base, path + [name]) < Astray(base, path) ||
                            (Astray(base, path + [name]) == Astray(base, path) && rank(t) < rank(h)))))
  {
    hide Join, ScanNodes, FindNodeSpec, Absolute, SafeNames, GoodBelow, LeadsTo, NoParentNames, ValidName, PartsOf,
         GoodNode;
    var name := b.trees[h].nodes[i].name.value;
    if base <= path {
      var names := path[|base|..];
      assert path == base + names;
      NamesAfter(base, path);
      ChildFound(b, rank, base, names, h, sourcePath, i);
      ChildGood(b, rank, h, name);
      assert base + (names + [name]) == path + [name];
      assert (path + [name])[|base|..] == names + [name];
      assert ValidNames(path + [name]);
    } else {
      StrayChild(b, rank, base, path, h, sourcePath, name);
    }
  }

  lemma NamesAfter(base: seq<Bytes>, path: seq<Bytes>)
    requires ValidNames(path) && base <= path
    ensures ValidNames(path[|base|..])
  {
    forall i | 0 <= i < |path| - |base| ensures ValidName(path[|base|..][i]) {
      assert path[|base|..][i] == path[|base| + i];
    }
  }

  /** The loop has come to node i: so far only entries of the tree have been added, and no
      node has panicked. */
  ghost predicate Onward(b: Backup, rank: Sha -> nat, h: Sha, i: nat, before: Entries, e: Entries, d: Parts)
    requires Merkle(b, rank) && h in b.trees && i <= |b.trees[h].nodes|
  {
    && OnlyAdds(before, e, d, b, h) && IsDir(e, d) == Ready(before, d)
    && forall j: nat :: j < i ==> !NodePanics(b, rank, h, j, before, d, Ready(before, d))
  }

  /** Whether node i panics is decided by what its lookup, its restore or its file meets when
      its turn comes. */
  lemma ChildTurn(b: Backup, rank: Sha -> nat, h: Sha, i: nat, before: Entries, e: Entries, d: Parts)
    requires Merkle(b, rank) && h in b.trees && i < |b.trees[h].nodes| && Onward(b, rank, h, i, before, e, d)
    requires Closed(e) && Proper(d)
    ensures var name, panics := b.trees[h].nodes[i].name, NodePanics(b, rank, h, i, before, d, Ready(before, d));
            if name.None? then panics
            else
              var found, q := NodeFound(b, ScanNodes(b.trees[h].nodes, name.value)), d + [name.value];
              && (found.Crashed? ==> panics)
              && (found.Found? ==>
                    && FirstKey(found.node.value).Some?
                    && if found.node.value.flags.isTree then
                         panics == TreePanics(b, rank, FirstKey(found.node.value).value, e, q, Ready(e, q))
                       else
                         panics == (CanOpen(e, q) && found.node.value.uncompressedDataSize < TWO_63 &&
                                    StreamEnd(b.blobs, found.node.value.dataBlobKeys, 0) == NilKey))
  {
    hide EntryAt, NodeEntry, ScanNodes, OnlyAdds, OnlyAddsNode, Closed, StreamEnd, TreePanics, IsDir, Exists;
    var nodes := b.trees[h].nodes;
    if nodes[i].name.Some? {
      var name := nodes[i].name.value;
      var found, q := NodeFound(b, ScanNodes(nodes, name)), d + [name];
      if found.Found? {
        var m := found.node.value;
        ScanIn(nodes, name);
        ChildEntry(b, h, name, m);
        OnlyAddsChild(before, e, d, b, h, m, name);
        ChildPanicsKept(b, rank, before, e, d, m, name, Ready(before, d));
        assert q[..|q| - 1] == d && q != [];
      }
    }
  }

  lemma ChildDone(
      b: Backup, rank: Sha -> nat, h: Sha, i: nat, before: Entries, e: Entries, e': Entries, d: Parts, m: Node,
      name: Bytes)
    requires Merkle(b, rank) && h in b.trees && i < |b.trees[h].nodes| && Onward(b, rank, h, i, before, e, d)
    requires ScanNodes(b.trees[h].nodes, name) == Scanned(Some(m))
    requires OnlyAddsNode(e, e', d + [name], b, m) && Contained(e, e', d + [name])
    ensures OnlyAdds(before, e', d, b, h)
    ensures !NodePanics(b, rank, h, i, before, d, Ready(before, d)) ==> Onward(b, rank, h, i + 1, before, e', d)
  {
    hide OnlyAdds, OnlyAddsNode, NodePanics, ScanNodes, EntryAt, NodeEntry, Contained, IsDir;
    ChildEntry(b, h, name, m);
    ChildAdds(before, e, e', d, b, h, m, name);
  }

  lemma SubtreeAdds(before: Entries, e: Entries, d: Parts, b: Backup, m: Node)
    requires m.flags.isTree && FirstKey(m).Some? && OnlyAdds(before, e, d, b, FirstKey(m).value)
    ensures OnlyAddsNode(before, e, d, b, m)
  {
  }

  lemma MkdirOnward(b: Backup, rank: Sha -> nat, h: Sha, before: Entries, e: Entries, d: Parts)
    requires Merkle(b, rank) && h in b.trees && Proper(d)
    requires e == if !Exists(before, d) && HasParent(before, d) then before[d := Dir] else before
    ensures Onward(b, rank, h, 0, before, e, d)
  {
    hide OnlyAdds;
    MkdirAdds(before, e, d, b, h);
  }

  lemma OnwardEnds(b: Backup, rank: Sha -> nat, h: Sha, i: nat, before: Entries, e: Entries, d: Parts)
    requires Merkle(b, rank) && h in b.trees && i <= |b.trees[h].nodes| && Onward(b, rank, h, i, before, e, d)
    ensures OnlyAdds(before, e, d, b, h)
    ensures i == |b.trees[h].nodes| ==> !TreePanics(b, rank, h, before, d, Ready(before, d))
    ensures i < |b.trees[h].nodes| && NodePanics(b, rank, h, i, before, d, Ready(before, d)) ==>
              TreePanics(b, rank, h, before, d, Ready(before, d))
  {
    hide OnlyAdds, NodePanics;
  }

  /** What looking up a node by the string of its path comes to. */
  ghost function NodeLookup(b: Backup, rank: Sha -> nat, sourcePath: Bytes, n: Node): FindResult
    requires Merkle(b, rank)
  {
    if n.name.None? then Crashed else FindNodeSpec(b, rank, Join(sourcePath, n.name.value)).result
  }

  ghost predicate AllFound(b: Backup, rank: Sha -> nat, sourcePath: Bytes, nodes: seq<Node>)
    requires Merkle(b, rank)
  {
    forall n :: n in nodes ==> NodeLookup(b, rank, sourcePath, n).Found?
  }

  /** The plain recursive image of tree h. Whatever the nodes are, file names keep the restore
      inside the destination and let it end; below a source path that names what it resolves
      to it panics exactly if a node makes it panic, and even then only entries of the tree
      have been made. */
  method DownloadTree(
      b: Backup, ghost rank: Sha -> nat, ghost base: seq<Bytes>, ghost path: seq<Bytes>, ghost h: Sha,
      tree: Option<Tree>, fs: FileSystem, sourcePath: Bytes, destinationPath: Bytes, bufferSize: nat)
    returns (status: TreeStatus)
    requires Merkle(b, rank) && SafeNames(b, rank, h) && bufferSize > 0
    requires ValidNames(base) && ValidNames(path) && PartsOf(sourcePath) == [Slash()] + path
    requires Stands(b, rank, base, path, h) && b.head.value.path == Absolute(base)
    requires Reachable(b, Some(h)) && tree == GetTree(b, h)
    requires Proper(PartsOf(destinationPath)) && Closed(fs.entries)
    modifies fs
    ensures status == TreeNotFound <==> tree.None?
    ensures tree.None? ==> fs.entries == old(fs.entries)
    ensures status == TreeRestored ==> AllFound(b, rank, sourcePath, tree.value.nodes)
    ensures status == FindFailed ==> exists n :: n in tree.value.nodes && NodeLookup(b, rank, sourcePath, n).Failed?
    ensures Closed(fs.entries) && Contained(old(fs.entries), fs.entries, PartsOf(destinationPath))
    ensures base <= path && tree.Some? ==>
              var d := PartsOf(destinationPath);
              status == if TreePanics(b, rank, h, old(fs.entries), d, Ready(old(fs.entries), d)) then TreePanic
                        else TreeRestored
    ensures base <= path ==> OnlyAdds(old(fs.entries), fs.entries, PartsOf(destinationPath), b, h)
    ensures base <= path && status != TreePanic &&
            (tree.Some? ==> CompatibleTree(old(fs.entries), PartsOf(destinationPath), b, h)) ==>
              RestoredTree(old(fs.entries), fs.entries, PartsOf(destinationPath), b, h)
    decreases Astray(base, path), rank(h), 1
  {
    hide PartsOf, EntryAt, NodeEntry, ScanNodes, Absolute, LeadsTo, Join, FindNodeSpec, ValidName, ValidNames,
         SafeNames, WantedUpTo, Wanted, Closed, CompatibleTree, CompatibleNode, RestoredNode, NodeContents, Proper,
         GoodBelow, Contained, Progress, RestoredTree, Ready, StreamEnd, Stands, Astray, Merkle, Exists, HasParent,
         IsDir, CanOpen, OnlyAdds, OnlyAddsNode, NodePanics, TreePanics, Onward, NodeLookup;
    ghost var before, d := fs.entries, PartsOf(destinationPath);
    if tree.None? {
      NothingRestored(before, d, b, h);
      return TreeNotFound;
    }
    ghost var tracked := base <= path;
    ghost var fits := tracked && CompatibleTree(before, d, b, h);
    var _ := fs.Mkdir(destinationPath);
    MkdirContained(before, fs.entries, d);
    MkdirOnward(b, rank, h, before, fs.entries, d);
    if fits { MkdirProgress(before, fs.entries, d, b, h); }
    var nodes := tree.value.nodes;
    for i := 0 to |nodes|
      invariant Closed(fs.entries) && Contained(before, fs.entries, d)
      invariant tracked ==> Onward(b, rank, h, i, before, fs.entries, d)
      invariant fits ==> Progress(before, fs.entries, d, b, h, i)
      invariant AllFound(b, rank, sourcePath, nodes[..i])
    {
      assert nodes[..i + 1] == nodes[..i] + [nodes[i]];
      if tracked { OnwardEnds(b, rank, h, i, before, fs.entries, d); }
      status := DownloadChild(b, rank, base, path, h, nodes, i, before, fs, sourcePath, destinationPath, bufferSize);
      if !status.TreeRestored? { return; }
    }
    assert nodes[..|nodes|] == nodes;
    if tracked { OnwardEnds(b, rank, h, |nodes|, before, fs.entries, d); }
    if fits { AllDone(before, fs.entries, d, b, h); }
    status := TreeRestored;
  }

  lemma LookupIsFind(b: Backup, rank: Sha -> nat, sourcePath: Bytes, n: Node)
    requires Merkle(b, rank)
    ensures n.name.None? ==> NodeLookup(b, rank, sourcePath, n) == Crashed
    ensures n.name.Some? ==>
              NodeLookup(b, rank, sourcePath, n) == FindNodeSpec(b, rank, Join(sourcePath, n.name.value)).result
  {
  }

  /** One turn of that loop; `before` is the disk as it was when the restore of tree h began. */
  method DownloadChild(
      b: Backup, ghost rank: Sha -> nat, ghost base: seq<Bytes>, ghost path: seq<Bytes>, ghost h: Sha,
      nodes: seq<Node>, i: nat, ghost before: Entries, fs: FileSystem, sourcePath: Bytes, destinationPath: Bytes,
      bufferSize: nat)
    returns (status: TreeStatus)
    requires Merkle(b, rank) && SafeNames(b, rank, h) && bufferSize > 0
    requires ValidNames(base) && ValidNames(path) && PartsOf(sourcePath) == [Slash()] + path
    requires Stands(b, rank, base, path, h) && b.head.value.path == Absolute(base)
    requires Reachable(b, Some(h)) && h in b.trees && nodes == b.trees[h].nodes && i < |nodes|
    requires Proper(PartsOf(destinationPath)) && Closed(fs.entries)
    requires Contained(before, fs.entries, PartsOf(destinationPath))
    requires base <= path ==> Onward(b, rank, h, i, before, fs.entries, PartsOf(destinationPath))
    modifies fs
    ensures status == FindFailed <==> NodeLookup(b, rank, sourcePath, nodes[i]).Failed?
    ensures status == TreeRestored ==> NodeLookup(b, rank, sourcePath, nodes[i]).Found?
    ensures !status.TreeNotFound? && Closed(fs.entries) && Contained(before, fs.entries, PartsOf(destinationPath))
    ensures base <= path ==>
              var d := PartsOf(destinationPath);
              && OnlyAdds(before, fs.entries, d, b, h)
              && if NodePanics(b, rank, h, i, before, d, Ready(before, d)) then status == TreePanic
                 else status == TreeRestored && Onward(b, rank, h, i + 1, before, fs.entries, d)
    ensures base <= path && CompatibleTree(before, PartsOf(destinationPath), b, h) && status == TreeRestored &&
            Progress(before, old(fs.entries), PartsOf(destinationPath), b, h, i) ==>
              Progress(before, fs.entries, PartsOf(destinationPath), b, h, i + 1)
    decreases Astray(base, path), rank(h), 0
  {
    hide PartsOf, EntryAt, NodeEntry, ScanNodes, Absolute, LeadsTo, Join, FindNodeSpec, ValidName, ValidNames,
         SafeNames, WantedUpTo, Wanted, Closed, CompatibleTree, CompatibleNode, RestoredNode, NodeContents, Proper,
         GoodBelow, Contained, Progress, RestoredTree, Ready, StreamEnd, Stands, Astray, Merkle, Exists, HasParent,
         IsDir, CanOpen, OnlyAdds, OnlyAddsNode, NodePanics, TreePanics, Onward, NodeLookup;
    LookupIsFind(b, rank, sourcePath, nodes[i]);
    ghost var e, d, tracked := fs.entries, PartsOf(destinationPath), base <= path;
    if tracked {
      ChildTurn(b, rank, h, i, before, e, d);
      OnwardEnds(b, rank, h, i, before, e, d);
    }
    if nodes[i].name.None? { return TreePanic; }
    var name := nodes[i].name.value;
    NamesOfNode(b, rank, h, i);
    NextCall(b, rank, base, path, h, sourcePath, i);
    PartsOfJoin(destinationPath, name);
    ProperChild(d, name);
    var subSourcePath := Join(sourcePath, name);
    var subDestinationPath := Join(destinationPath, name);
    var found, _ := FindNode(b, rank, subSourcePath);
    if found.Failed? { return FindFailed; }
    if found.Crashed? { return TreePanic; }
    if found.node.None? || found.node.value.flags.isTree {
      var s := DownloadTree(b, rank, base, path + [name], NextTree(found.node, h), found.tree, fs, subSourcePath,
                            subDestinationPath, bufferSize);
      if tracked {
        if s.TreeNotFound? { NoTreeNoPanic(b, rank, NextTree(found.node, h), e, d + [name], Ready(e, d + [name])); }
        TreeTurn(b, rank, h, i, before, e, fs.entries, d, found.node.value, name, s.TreePanic?);
      }
      status := if s.TreePanic? then TreePanic else TreeRestored;  // other errors are only logged
    } else {
      var s := DownloadNode(found.node.value, b.blobs, fs, subDestinationPath, bufferSize);
      FileContained(e, fs.entries, d + [name], NodeContents(b.blobs, found.node.value));
      if tracked { FileTurn(b, rank, h, i, before, e, fs.entries, d, found.node.value, name, s.NodePanic?); }
      status := if s.NodePanic? then TreePanic else TreeRestored;
    }
    ContainedStep(before, e, fs.entries, d, name);
  }

  /** What a restored directory means for the tree it is in. */
  lemma TreeTurn(
      b: Backup, rank: Sha -> nat, h: Sha, i: nat, before: Entries, e: Entries, e': Entries, d: Parts, m: Node,
      name: Bytes, panicked: bool)
    requires Merkle(b, rank) && h in b.trees && i < |b.trees[h].nodes| && b.trees[h].nodes[i].name == Some(name)
    requires Onward(b, rank, h, i, before, e, d) && Closed(e) && Proper(d)
    requires ScanNodes(b.trees[h].nodes, name) == Scanned(Some(m)) && m.flags.isTree && FirstKey(m).Some?
    requires OnlyAdds(e, e', d + [name], b, FirstKey(m).value) && Contained(e, e', d + [name])
    requires !panicked && (FirstKey(m).value in b.trees ==> CompatibleTree(e, d + [name], b, FirstKey(m).value)) ==>
               RestoredTree(e, e', d + [name], b, FirstKey(m).value)
    requires NodePanics(b, rank, h, i, before, d, Ready(before, d)) == panicked
    ensures OnlyAdds(before, e', d, b, h)
    ensures !panicked ==> Onward(b, rank, h, i + 1, before, e', d)
    ensures !panicked && CompatibleTree(before, d, b, h) && Progress(before, e, d, b, h, i) ==>
              Progress(before, e', d, b, h, i + 1)
  {
    hide EntryAt, NodeEntry, ScanNodes, CompatibleTree, CompatibleNode, RestoredNode, Contained, Progress, RestoredTree,
         Ready, OnlyAdds, OnlyAddsNode, NodePanics, Onward, Closed, Proper, HasParent;
    SubtreeAdds(e, e', d + [name], b, m);
    ChildDone(b, rank, h, i, before, e, e', d, m, name);
    if !panicked && CompatibleTree(before, d, b, h) && Progress(before, e, d, b, h, i) {
      ChildBefore(before, e, d, b, h, i, m, name);
      ProperChild(d, name);
      SubtreeRestored(e, e', d + [name], b, m, Ready(before, d));
      ChildProgress(before, e, e', d, b, h, i, m, name);
    }
  }

  /** And a restored file. */
  lemma FileTurn(
      b: Backup, rank: Sha -> nat, h: Sha, i: nat, before: Entries, e: Entries, e': Entries, d: Parts, m: Node,
      name: Bytes, panicked: bool)
    requires Merkle(b, rank) && h in b.trees && i < |b.trees[h].nodes| && b.trees[h].nodes[i].name == Some(name)
    requires Onward(b, rank, h, i, before, e, d) && Closed(e) && Proper(d)
    requires ScanNodes(b.trees[h].nodes, name) == Scanned(Some(m)) && !m.flags.isTree
    requires e' == if CanOpen(e, d + [name]) then e[d + [name] := File(NodeContents(b.blobs, m))] else e
    requires Contained(e, e', d + [name])
    requires NodePanics(b, rank, h, i, before, d, Ready(before, d)) == panicked
    ensures OnlyAdds(before, e', d, b, h)
    ensures !panicked ==> Onward(b, rank, h, i + 1, before, e', d)
    ensures !panicked && CompatibleTree(before, d, b, h) && Progress(before, e, d, b, h, i) ==>
              Progress(before, e', d, b, h, i + 1)
  {
    hide EntryAt, NodeEntry, ScanNodes, CompatibleTree, CompatibleNode, RestoredNode, Contained, Progress, NodeContents,
         Ready, OnlyAdds, OnlyAddsNode, NodePanics, Onward, Closed, Proper, HasParent, IsDir, CanOpen;
    ProperChild(d, name);
    FileAdds(e, e', d + [name], b, m);
    ChildDone(b, rank, h, i, before, e, e', d, m, name);
    if !panicked && CompatibleTree(before, d, b, h) && Progress(before, e, d, b, h, i) {
      ChildBefore(before, e, d, b, h, i, m, name);
      FileRestored(e, e', d + [name], b, m, Ready(before, d));
      ChildProgress(before, e, e', d, b, h, i, m, name);
    }
  }

  lemma CompatibleSubtree(e: Entries, d: Parts, b: Backup, m: Node)
    requires m.flags.isTree && FirstKey(m).Some? && CompatibleNode(e, d, b, m)
    ensures CompatibleTree(e, d, b, FirstKey(m).value)
  {
  }

  lemma NothingRestored(e: Entries, d: Parts, b: Backup, h: Sha)
    requires h !in b.trees
    ensures RestoredTree(e, e, d, b, h) && Contained(e, e, d) && OnlyAdds(e, e, d, b, h)
  {
  }

  // ---------- Names that are no file names ----------

  /** With a node named "..", the restore of the directory `names + [c]` looks up its parent
      and restores that again, which comes back to this directory: it does not end. */
  lemma ParentNameReturns(b: Backup, rank: Sha -> nat, base: seq<Bytes>, names: seq<Bytes>, c: Bytes)
    requires Merkle(b, rank) && ValidNames(base) && ValidNames(names) && ValidName(c)
    requires b.head.Some? && b.head.value.path == Absolute(base)
    ensures Join(Absolute(base + (names + [c])), DotDot()) == Absolute(base + names)
    ensures FindNodeSpec(b, rank, Join(Absolute(base + (names + [c])), DotDot())).result ==
            Descend(b, b.head.value.root, None, names)
  {
    hide Join, FindNodeSpec, Descend;
    var above := base + names;
    assert base + (names + [c]) == above + [c];
    assert ValidNames(above) && ValidNames(above + [c]);
    JoinParent(above, c);
    assert Absolute(above) + [] == Absolute(above);
    FindNodeIsDescend(b, rank, base, names, []);
  }

  /** In the commit's root /a/b a node named "../b." is looked up as /a/b., which resolves to
      that root again, and would be written beside the destination. */
  lemma SlashedNameEscapes(b: Backup, rank: Sha -> nat, base: seq<Bytes>, last: Bytes, destinationPath: Bytes)
    requires Merkle(b, rank) && ValidNames(base) && ValidName(last) && b.head.Some?
    requires b.head.value.path == Absolute(base + [last])
    requires RootedParts(PartsOf(destinationPath)) && |PartsOf(destinationPath)| > 1
    requires PartsOf(destinationPath)[|PartsOf(destinationPath)| - 1] != last + Dot()
    ensures var name := DotDot() + Slash() + (last + Dot()); var d := PartsOf(destinationPath);
            && FindNodeSpec(b, rank, Join(Absolute(base + [last]), name)).result ==
               Descend(b, b.head.value.root, None, [])
            && !(d <= PartsOf(Join(destinationPath, name)))
  {
    hide FindNodeSpec, Descend, Join, PartsOf, Absolute, Spells;
    var all := base + [last];
    JoinDotted(base, last);
    DottedName(last);
    JoinBeside(destinationPath, last + Dot());
    FoldDot();
    RelativeSpells(all, Dot());
    FindNodeExactly(b, rank, all, Dot());
  }

  // ---------- recover ----------

  datatype RecoverStatus = DestinationExists | SourceNotFound | Recovered | NotRecovered | RecoverPanic

  /** The tree that a resolved path leads to. */
  function Resolved(b: Backup, node: Option<Node>): Option<Sha> {
    if node.Some? then FirstKey(node.value) else if b.head.Some? then b.head.value.root else None
  }

  lemma FoundLeads(b: Backup, names: seq<Bytes>)
    requires b.head.Some? && Descend(b, b.head.value.root, None, names).Found?
    ensures var f := Descend(b, b.head.value.root, None, names); var h := Resolved(b, f.node);
            && Reachable(b, h) && f.tree == GetTree(b, h.value) && LeadsTo(b, names, h.value)
            && (names == [] <==> f.node == None) && (names == [] ==> h == b.head.value.root)
  {
    hide ScanNodes;
    var root := b.head.value.root;
    var f := Descend(b, root, None, names);
    forall c: seq<Bytes> | c != []
      ensures Resolved(b, f.node).Some? && Descend(b, root, None, names + c) == Descend(b, Resolved(b, f.node), None, c)
    {
      if names == [] {
        assert names + c == c;
      } else {
        DescendAppend(b, root, None, names, c);
      }
    }
    if names != [] { DescendAppend(b, root, None, names, []); }
  }

  /** A destination that does not exist has nothing in it. */
  lemma Fresh(e: Entries, path: Bytes)
    requires Closed(e) && !Exists(e, PartsOf(path))
    ensures Proper(PartsOf(path)) && forall q :: PartsOf(path) <= q ==> q !in e
  {
    var d := PartsOf(path);
    PartsNormal(path);
    assert d != [] && (ValidName(d[0]) || d[0] == Slash() || d[0] == DotDot());
    forall q | d <= q ensures q !in e {
      if q != d { NothingBelow(e, d, q); }
    }
  }

  /** What recover needs of a source path that begins with the commit's path: file names in
      the tree it restores, and no node named ".." for a path that does not name what it
      resolves to, or does not spell out names at all. */
  ghost predicate SafeSource(b: Backup, rank: Sha -> nat, base: seq<Bytes>, sourcePath: Bytes)
    requires Merkle(b, rank) && b.head.Some?
  {
    var s, root := TrimPrefix(sourcePath, Absolute(base)), b.head.value.root;
    var f := Descend(b, root, None, NamesIn(s));
    && (!Spells(base, s) || !Names(base, sourcePath) ==> NoParentNames(b, rank, root))
    && (Spells(base, s) && f.Found? && (f.node.None? || f.node.value.flags.isTree) && Resolved(b, f.node).Some? ==>
          SafeNames(b, rank, Resolved(b, f.node).value))
  }

  /** The source path stands for the commit's path and the names it resolves to. */
  predicate Names(base: seq<Bytes>, sourcePath: Bytes) {
    PartsOf(sourcePath) == [Slash()] + (base + NamesIn(TrimPrefix(sourcePath, Absolute(base))))
  }

  /** What the command does, whatever the source path: nothing if the destination exists,
      or the path is not below the commit's, or does not spell out names that lead
      somewhere; one file for a file; and for a directory nothing outside the destination,
      and exactly the backup's tree if the path names it and its nodes are good. */
  method Recover(
      b: Backup, ghost rank: Sha -> nat, ghost base: seq<Bytes>,
      fs: FileSystem, sourcePath: Bytes, destinationPath: Bytes, bufferSize: nat)
    returns (status: RecoverStatus)
    requires Merkle(b, rank) && bufferSize > 0 && Closed(fs.entries)
    requires ValidNames(base) && b.head.Some? && b.head.value.path == Absolute(base)
    requires HasPrefix(sourcePath, Absolute(base)) ==> SafeSource(b, rank, base, sourcePath)
    modifies fs
    ensures var before, d, s := old(fs.entries), PartsOf(destinationPath), TrimPrefix(sourcePath, Absolute(base));
            var f := Descend(b, b.head.value.root, None, NamesIn(s));
            if Exists(before, d) then status == DestinationExists && fs.entries == before
            else if !HasPrefix(sourcePath, Absolute(base)) then status == SourceNotFound && fs.entries == before
            else if !Spells(base, s) then
              && status == (if FindNodeSpec(b, rank, sourcePath).result.Crashed? then RecoverPanic else SourceNotFound)
              && fs.entries == before
            else if f.Failed? then status == SourceNotFound && fs.entries == before
            else if f.Crashed? then status == RecoverPanic && fs.entries == before
            else if f.node.None? || f.node.value.flags.isTree then
              && Resolved(b, f.node).Some? && Contained(before, fs.entries, d)
              && status in {Recovered, NotRecovered, RecoverPanic}
              && (f.tree.Some? && status == Recovered ==> AllFound(b, rank, sourcePath, f.tree.value.nodes))
              && (status == NotRecovered ==>
                    f.tree.Some? && exists n :: n in f.tree.value.nodes && NodeLookup(b, rank, sourcePath, n).Failed?)
              && (Names(base, sourcePath) ==>
                    var h := Resolved(b, f.node).value;
                    && status == (if TreePanics(b, rank, h, before, d, Ready(before, d)) then RecoverPanic
                                  else Recovered)
                    && OnlyAdds(before, fs.entries, d, b, h)
                    && (status == Recovered ==> RestoredTree(before, fs.entries, d, b, h)))
            else
              && status in {Recovered, NotRecovered, RecoverPanic}
              && (status == NotRecovered <==>
                    !HasParent(before, d) || f.node.value.uncompressedDataSize >= TWO_63)
              && (status == RecoverPanic <==>
                    status != NotRecovered && StreamEnd(b.blobs, f.node.value.dataBlobKeys, 0) == NilKey)
              && fs.entries ==
                   if HasParent(before, d) then before[d := File(NodeContents(b.blobs, f.node.value))] else before
  {
    hide PartsOf, EntryAt, NodeEntry, ScanNodes, Absolute, LeadsTo, Walk, Descend, ValidName, Spells, NamesIn,
         Wanted, CompatibleTree, NodeContents, Proper, RestoredTree, Closed, StreamEnd, GoodBelow, SafeNames,
         NoParentNames, Contained, Stands, Names, TreePanics, OnlyAdds, Ready, NodeLookup, AllFound;
    ghost var before, d, s := fs.entries, PartsOf(destinationPath), TrimPrefix(sourcePath, Absolute(base));
    if Exists(fs.entries, PartsOf(destinationPath)) { return DestinationExists; }
    Fresh(before, destinationPath);
    if HasPrefix(sourcePath, Absolute(base)) {
      assert sourcePath == Absolute(base) + s;
      FindNodeExactly(b, rank, base, s);
    }
    var f, _ := FindNode(b, rank, sourcePath);
    if f.Failed? { return SourceNotFound; }
    if f.Crashed? { return RecoverPanic; }
    assert Spells(base, s) && f == Descend(b, b.head.value.root, None, NamesIn(s));
    FoundLeads(b, NamesIn(s));
    if f.node.None? || f.node.value.flags.isTree {
      ghost var h := Resolved(b, f.node).value;
      NothingToContradict(before, d, b, h);
      ghost var path := SourceStands(b, rank, base, sourcePath, h);
      if f.tree.None? { NoTreeNoPanic(b, rank, h, before, d, Ready(before, d)); }
      var t := DownloadTree(b, rank, base, path, h, f.tree, fs, sourcePath, destinationPath, bufferSize);
      status := match t
        case TreePanic => RecoverPanic
        case FindFailed => NotRecovered
        case _ => Recovered;
    } else {
      var t := DownloadNode(f.node.value, b.blobs, fs, destinationPath, bufferSize);
      status := match t case Restored => Recovered case CouldNotOpen => NotRecovered case NodePanic => RecoverPanic;
    }
  }

  /** The source path that resolves to tree h names it, or has gone astray and h is the root. */
  lemma SourceStands(b: Backup, rank: Sha -> nat, base: seq<Bytes>, sourcePath: Bytes, h: Sha)
    returns (path: seq<Bytes>)
    requires Merkle(b, rank) && ValidNames(base) && b.head.Some? && HasPrefix(sourcePath, Absolute(base))
    requires var s := TrimPrefix(sourcePath, Absolute(base));
             && Spells(base, s) && LeadsTo(b, NamesIn(s), h)
             && (NamesIn(s) == [] ==> b.head.value.root == Some(h))
             && (!Names(base, sourcePath) ==> NoParentNames(b, rank, b.head.value.root))
    ensures PartsOf(sourcePath) == [Slash()] + path && ValidNames(path) && Stands(b, rank, base, path, h)
    ensures Names(base, sourcePath) ==> base <= path
  {
    hide PartsOf, Absolute, LeadsTo, NoParentNames, NamesIn, Spells;
    var s := TrimPrefix(sourcePath, Absolute(base));
    AbsoluteNormal(base);
    assert Rooted(sourcePath) by { AbsoluteRooted(base); }
    RootedNormal(sourcePath);
    path := NamesIn(sourcePath);
    assert sourcePath == Absolute(base) + s;
    if NamesIn(s) != [] {
      SpelledParts(base, s);
      assert path == ([Slash()] + (base + NamesIn(s)))[1..] == base + NamesIn(s);
      assert path[|base|..] == NamesIn(s);
    } else if Names(base, sourcePath) {
      assert path == ([Slash()] + (base + []))[1..] == base;
      RootLeads(b, base, path, h);
    } else if base <= path {
      RootNamed(base, path, s);
    }
  }

  lemma NothingToContradict(e: Entries, d: Parts, b: Backup, h: Sha)
    requires forall q :: d <= q ==> q !in e
    ensures CompatibleTree(e, d, b, h)
  {
  }

  // ---------- Best-effort recovery ----------

  /** The same backup with some trees or blobs gone. */
  ghost predicate Damaged(less: Backup, b: Backup) {
    && less.head == b.head && less.crashing <= b.crashing
    && (forall h :: h in less.trees ==> h in b.trees && less.trees[h] == b.trees[h])
    && (forall h :: h in less.blobs ==> h in b.blobs && less.blobs[h] == b.blobs[h])
  }

  lemma {:induction false} LessNilKey(less: map<Sha, Bytes>, blobs: map<Sha, Bytes>, keys: seq<BlobKey>, i: nat)
    requires forall h :: h in less ==> h in blobs
    requires StreamEnd(blobs, keys, i) != NilKey
    ensures StreamEnd(less, keys, i) != NilKey
    decreases |keys| - i
  {
    if i < |keys| && Present(less, keys[i]) { LessNilKey(less, blobs, keys, i + 1); }
  }

  /** The restore of a damaged backup does not panic if that of the whole one does not. */
  lemma {:induction false} DamagedStaysGood(less: Backup, b: Backup, rank: Sha -> nat, h: Sha)
    requires Damaged(less, b) && Merkle(b, rank) && GoodBelow(b, rank, h)
    ensures Merkle(less, rank) && GoodBelow(less, rank, h)
    decreases rank(h)
  {
    hide StreamEnd;
    if h in less.trees {
      var nodes := b.trees[h].nodes;
      forall i | 0 <= i < |nodes|
        ensures GoodNode(less, nodes[i])
        ensures nodes[i].flags.isTree ==> GoodBelow(less, rank, FirstKey(nodes[i]).value)
      {
        assert GoodNode(b, nodes[i]);
        if nodes[i].flags.isTree {
          DamagedStaysGood(less, b, rank, FirstKey(nodes[i]).value);
        } else {
          LessNilKey(less.blobs, b.blobs, nodes[i].dataBlobKeys, 0);
        }
      }
    }
  }

  /** Of what the backup has on the way to these names nothing is gone: no tree, and for
      a file none of its blobs. */
  predicate Intact(less: Backup, b: Backup, h: Sha, names: seq<Bytes>)
    decreases |names|
  {
    h in b.trees ==>
      && h in less.trees
      && (names != [] ==>
            match ScanNodes(b.trees[h].nodes, names[0])
            case Scanned(Some(n)) =>
              if n.flags.isTree then FirstKey(n).Some? ==> Intact(less, b, FirstKey(n).value, names[1..])
              else forall k :: k in n.dataBlobKeys && Present(b.blobs, k) ==> Present(less.blobs, k)
            case _ => true)
  }

  lemma {:induction false} SameStream(less: map<Sha, Bytes>, blobs: map<Sha, Bytes>, keys: seq<BlobKey>, i: nat)
    requires forall h :: h in less ==> h in blobs && less[h] == blobs[h]
    requires forall k :: k in keys && Present(blobs, k) ==> Present(less, k)
    ensures Stream(less, keys, i) == Stream(blobs, keys, i)
    decreases |keys| - i
  {
    if i < |keys| { SameStream(less, blobs, keys, i + 1); }
  }

  /** What is not touched by the damage is the same entry in both. */
  lemma {:induction false} IntactEntry(less: Backup, b: Backup, h: Sha, names: seq<Bytes>)
    requires Damaged(less, b) && Intact(less, b, h, names)
    ensures EntryAt(less, h, names) == EntryAt(b, h, names)
    decreases |names|
  {
    hide ScanNodes;
    if h in b.trees && names != [] {
      match ScanNodes(b.trees[h].nodes, names[0])
      case Scanned(Some(n)) =>
        if n.flags.isTree {
          if FirstKey(n).Some? { IntactEntry(less, b, FirstKey(n).value, names[1..]); }
        } else {
          SameStream(less.blobs, b.blobs, n.dataBlobKeys, 0);
        }
      case _ =>
    }
  }

  /** And nothing appears that the whole backup does not have. */
  lemma {:induction false} DamageInventsNothing(less: Backup, b: Backup, h: Sha, names: seq<Bytes>)
    requires Damaged(less, b) && EntryAt(less, h, names).Some?
    ensures EntryAt(b, h, names).Some? && SameKind(EntryAt(b, h, names).value, EntryAt(less, h, names).value)
    decreases |names|
  {
    hide ScanNodes, NodeContents;
    if names != [] {
      match ScanNodes(b.trees[h].nodes, names[0])
      case Scanned(Some(n)) =>
        if n.flags.isTree { DamageInventsNothing(less, b, FirstKey(n).value, names[1..]); }
      case _ =>
    }
  }

  /** Best effort: compared with a run on the complete backup, a run with some trees or
      blobs gone leaves every intact file and directory exactly the same, and leaves
      nothing at or below the destination that the complete run does not have. */
  lemma BestEffort(
      before: Entries, whole: Entries, partial: Entries, d: Parts, less: Backup, b: Backup, h: Sha, names: seq<Bytes>)
    requires Damaged(less, b) && Ready(before, d)
    requires RestoredTree(before, whole, d, b, h) && RestoredTree(before, partial, d, less, h)
    ensures Intact(less, b, h, names) ==> Lookup(partial, d + names) == Lookup(whole, d + names)
    ensures Lookup(partial, d + names).Some? && Lookup(before, d + names).None? ==>
              && Lookup(whole, d + names).Some?
              && SameKind(Lookup(partial, d + names).value, Lookup(whole, d + names).value)
  {
    hide EntryAt, Intact, Damaged, Ready;
    var q := d + names;
    assert q[|d|..] == names;
    assert Lookup(whole, q) == Wanted(before, d, b, h, q) && Lookup(partial, q) == Wanted(before, d, less, h, q);
    if Intact(less, b, h, names) { IntactEntry(less, b, h, names); }
    if EntryAt(less, h, names).Some? { DamageInventsNothing(less, b, h, names); }
  }

  // ---------- The image, node by node ----------

  /** What the backup holds below a tree is a directory for the tree itself, and for a name
      the file or the directory of the last node that has it. */
  lemma EntryOfLastNode(b: Backup, h: Sha, i: nat, names: seq<Bytes>)
    requires h in b.trees && forall n :: n in b.trees[h].nodes ==> n.name.Some? && n.dataBlobKeys != []
    ensures EntryAt(b, h, []) == Some(Dir)
    ensures names != [] && i < |b.trees[h].nodes| && b.trees[h].nodes[i].name == Some(names[0]) &&
            (forall j :: i < j < |b.trees[h].nodes| ==> b.trees[h].nodes[j].name != Some(names[0])) ==>
              var n := b.trees[h].nodes[i];
              EntryAt(b, h, names) ==
                if n.flags.isTree then
                  if n.dataBlobKeys[0].sha1.Some? then EntryAt(b, n.dataBlobKeys[0].sha1.value, names[1..]) else None
                else if |names| == 1 then Some(File(NodeContents(b.blobs, n))) else None
    ensures names != [] && (forall n :: n in b.trees[h].nodes ==> n.name != Some(names[0])) ==>
              EntryAt(b, h, names) == None
  {
    hide NodeContents, ScanNodes;
    if names != [] {
      var nodes := b.trees[h].nodes;
      ScanPanicsExactly(nodes, names[0]);
      ScanIn(nodes, names[0]);
      if i < |nodes| && nodes[i].name == Some(names[0]) &&
         forall j :: i < j < |nodes| ==> nodes[j].name != Some(names[0]) {
        LastIsFound(nodes, i);
      }
    }
  }
}
