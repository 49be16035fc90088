/** FindNode (arq/pack_set_index.go): resolving a path string against the tree of
    trees that a backup's HEAD commit roots. */
module PathResolution {
  import opened Buffers
  import opened Paths
  import opened TargetPaths
  import opened TreeFormat

  /** The commit, as far as FindNode uses it: `root` is None when the key or its SHA1
      is nil. */
  datatype Head = Head(path: Bytes, root: Option<Sha>)

  /** What can be fetched: a fixed partial map from SHA1s to trees and to bytes.
      `crashing` are the SHA1s of stored trees that the reader panics on. */
  datatype Backup = Backup(head: Option<Head>, trees: map<Sha, Tree>, crashing: set<Sha>, blobs: map<Sha, Bytes>)

  datatype FindResult = Found(tree: Option<Tree>, node: Option<Node>) | Failed | Crashed

  function GetTree(b: Backup, h: Sha): Option<Tree> {
    if h in b.trees then Some(b.trees[h]) else None
  }

  /** Neither a nil SHA1 nor a tree that the reader panics on. */
  predicate Reachable(b: Backup, hash: Option<Sha>) {
    hash.Some? && hash.value !in b.crashing
  }

  /** Content addressing: a tree's SHA1 covers those of its children, so no chain of
      first data keys comes back to where it began. */
  ghost predicate Merkle(b: Backup, rank: Sha -> nat) {
    forall h: Sha, n :: h in b.trees && n in b.trees[h].nodes && FirstKey(n).Some? ==>
      rank(FirstKey(n).value) < rank(h)
  }

  function FirstKey(n: Node): Option<Sha> {
    if n.dataBlobKeys == [] then None else n.dataBlobKeys[0].sha1
  }

  // ---------- The loop over a tree's nodes ----------

  datatype Scan = Scanned(last: Option<Node>) | ScanPanic

  /** Every node is looked at, and the last match wins. A nil name panics, as does a
      match without data keys. */
  function ScanNodes(nodes: seq<Node>, name: Bytes): Scan {
    if nodes == [] then Scanned(None)
    else
      var n := nodes[|nodes| - 1];
      match ScanNodes(nodes[..|nodes| - 1], name)
      case ScanPanic => ScanPanic
      case Scanned(before) =>
        if n.name.None? then ScanPanic
        else if n.name.value != name then Scanned(before)
        else if n.dataBlobKeys == [] then ScanPanic
        else Scanned(Some(n))
  }

  method FindInNodes(nodes: seq<Node>, name: Bytes) returns (r: Scan)
    ensures r == ScanNodes(nodes, name)
  {
    var found := None;
    for i := 0 to |nodes|
      invariant ScanNodes(nodes[..i], name) == Scanned(found)
    {
      assert nodes[..i + 1][..i] == nodes[..i];
      var n := nodes[i];
      if n.name.None? {
        PanicStays(nodes, i + 1, name);
        return ScanPanic;
      }
      if n.name.value == name {
        if n.dataBlobKeys == [] {
          PanicStays(nodes, i + 1, name);
          return ScanPanic;
        }
        found := Some(n);
      }
    }
    assert nodes[..|nodes|] == nodes;
    r := Scanned(found);
  }

  lemma {:induction false} PanicStays(nodes: seq<Node>, i: nat, name: Bytes)
    requires i <= |nodes| && ScanNodes(nodes[..i], name) == ScanPanic
    ensures ScanNodes(nodes, name) == ScanPanic
    decreases |nodes|
  {
    if i == |nodes| {
      assert nodes[..i] == nodes;
    } else {
      assert nodes[..|nodes| - 1][..i] == nodes[..i];
      PanicStays(nodes[..|nodes| - 1], i, name);
    }
  }

  /** The loop panics exactly if some node has no name, or one of that name has no data
      keys. */
  lemma {:induction false} ScanPanicsExactly(nodes: seq<Node>, name: Bytes)
    ensures ScanNodes(nodes, name) == ScanPanic <==>
            exists n :: n in nodes && (n.name == None || (n.name == Some(name) && n.dataBlobKeys == []))
    decreases |nodes|
  {
    if nodes != [] {
      var k := |nodes| - 1;
      ScanPanicsExactly(nodes[..k], name);
      assert forall n :: n in nodes <==> n in nodes[..k] || n == nodes[k];
    }
  }

  /** Node i is the last one of that name. */
  ghost predicate LastMatch(nodes: seq<Node>, i: nat, name: Bytes) {
    i < |nodes| && nodes[i].name == Some(name) && forall j :: i < j < |nodes| ==> nodes[j].name != Some(name)
  }

  /** The scan returns the last node of that name, if there is one. */
  lemma {:induction false} ScanIsLastMatch(nodes: seq<Node>, name: Bytes)
    requires forall n :: n in nodes ==> n.name.Some? && n.dataBlobKeys != []
    ensures match ScanNodes(nodes, name)
            case ScanPanic => false
            case Scanned(None) => forall i :: 0 <= i < |nodes| ==> nodes[i].name != Some(name)
            case Scanned(Some(n)) => exists i: nat :: LastMatch(nodes, i, name) && nodes[i] == n
    decreases |nodes|
  {
    if nodes != [] {
      var k := |nodes| - 1;
      ScanIsLastMatch(nodes[..k], name);
      if nodes[k].name == Some(name) {
        assert LastMatch(nodes, k, name);
      } else if ScanNodes(nodes[..k], name).last.Some? {
        var i: nat :| LastMatch(nodes[..k], i, name) && nodes[..k][i] == ScanNodes(nodes[..k], name).last.value;
        assert LastMatch(nodes, i, name);
      }
    }
  }

  // ---------- The string-driven walk ----------

  datatype Walked = Walked(result: FindResult, iterations: nat)

  /** The loop of FindNode as a recursion over its three variables. */
  ghost function Walk(
      b: Backup, rank: Sha -> nat, target: Bytes, current: Bytes, hash: Option<Sha>, node: Option<Node>): Walked
    requires Merkle(b, rank)
    decreases hash.Some?, if hash.Some? then rank(hash.value) else 0
  {
    if !Reachable(b, hash) then Walked(Crashed, 1)
    else
      var next := NextElement(target, current);
      var tree := GetTree(b, hash.value);
      if next == Dot() then Walked(Found(tree, node), 1)
      else if tree.None? then Walked(Crashed, 1)
      else
        match ScanNodes(tree.value.nodes, next)
        case ScanPanic => Walked(Crashed, 1)
        case Scanned(None) => Walked(Failed, 1)
        case Scanned(Some(n)) =>
          ScanIn(tree.value.nodes, next);
          var rest := Walk(b, rank, target, Join(current, next), FirstKey(n), Some(n));
          Walked(rest.result, rest.iterations + 1)
  }

  lemma {:induction false} ScanIn(nodes: seq<Node>, name: Bytes)
    ensures match ScanNodes(nodes, name)
            case Scanned(Some(n)) => n in nodes && n.name == Some(name) && n.dataBlobKeys != []
            case _ => true
    decreases |nodes|
  {
    if nodes != [] { ScanIn(nodes[..|nodes| - 1], name); }
  }

  ghost function FindNodeSpec(b: Backup, rank: Sha -> nat, target: Bytes): Walked
    requires Merkle(b, rank)
  {
    if b.head.None? || !HasPrefix(target, b.head.value.path) then Walked(Failed, 0)
    else Walk(b, rank, target, b.head.value.path, b.head.value.root, None)
  }

  method FindNode(b: Backup, ghost rank: Sha -> nat, targetPath: Bytes)
    returns (r: FindResult, ghost iterations: nat)
    requires Merkle(b, rank)
    ensures r == FindNodeSpec(b, rank, targetPath).result
    ensures iterations == FindNodeSpec(b, rank, targetPath).iterations
  {
    hide NextElement, ScanNodes, Join;
    iterations := 0;
    if b.head.None? { return Failed, 0; }
    var commit := b.head.value;
    if !HasPrefix(targetPath, commit.path) { return Failed, 0; }
    var currentNode: Option<Node> := None;
    var currentHash := commit.root;
    var currentPath := commit.path;
    ghost var spec := FindNodeSpec(b, rank, targetPath);
    while true
      invariant spec == Walked(Walk(b, rank, targetPath, currentPath, currentHash, currentNode).result,
                               iterations + Walk(b, rank, targetPath, currentPath, currentHash, currentNode).iterations)
      decreases currentHash.Some?, if currentHash.Some? then rank(currentHash.value) else 0
    {
      iterations := iterations + 1;
      if !Reachable(b, currentHash) { return Crashed, iterations; }
      var nextPathElement := NextElement(targetPath, currentPath);
      var tree := GetTree(b, currentHash.value);
      if nextPathElement == Dot() { return Found(tree, currentNode), iterations; }
      if tree.None? { return Crashed, iterations; }
      var found := FindInNodes(tree.value.nodes, nextPathElement);
      if found.ScanPanic? { return Crashed, iterations; }
      if found.last.None? { return Failed, iterations; }
      ScanIn(tree.value.nodes, nextPathElement);
      currentNode := found.last;
      currentHash := found.last.value.dataBlobKeys[0].sha1;
      currentPath := Join(currentPath, nextPathElement);
    }
  }

  // ---------- Descent by components ----------

  /** Following names from a tree, with no strings involved. */
  function Descend(b: Backup, hash: Option<Sha>, node: Option<Node>, names: seq<Bytes>): FindResult
    decreases |names|
  {
    if !Reachable(b, hash) then Crashed
    else if names == [] then Found(GetTree(b, hash.value), node)
    else if hash.value !in b.trees then Crashed
    else
      match ScanNodes(b.trees[hash.value].nodes, names[0])
      case ScanPanic => Crashed
      case Scanned(None) => Failed
      case Scanned(Some(n)) => Descend(b, FirstKey(n), Some(n), names[1..])
  }

  /** Descending in two parts. */
  lemma {:induction false} DescendAppend(b: Backup, hash: Option<Sha>, node: Option<Node>, a: seq<Bytes>, c: seq<Bytes>)
    requires a != [] && Descend(b, hash, node, a).Found?
    ensures var n := Descend(b, hash, node, a).node;
            && n.Some? && Reachable(b, FirstKey(n.value))
            && Descend(b, hash, node, a).tree == GetTree(b, FirstKey(n.value).value)
            && Descend(b, hash, node, a + c) == Descend(b, FirstKey(n.value), n, c)
    decreases |a|
  {
    hide ScanNodes;
    var n := ScanNodes(b.trees[hash.value].nodes, a[0]).last.value;
    assert (a + c)[0] == a[0] && (a + c)[1..] == a[1..] + c;
    if |a| == 1 {
      assert a[1..] == [] && a[1..] + c == c;
    } else {
      DescendAppend(b, FirstKey(n), Some(n), a[1..], c);
    }
  }

  /** No tree reachable from this one has a node named "..": no file system has one. */
  ghost predicate NoParentNames(b: Backup, rank: Sha -> nat, hash: Option<Sha>)
    requires Merkle(b, rank)
    decreases hash.Some?, if hash.Some? then rank(hash.value) else 0
  {
    hash.Some? && hash.value in b.trees ==>
      forall n :: n in b.trees[hash.value].nodes ==>
        n.name != Some(DotDot()) && NoParentNames(b, rank, FirstKey(n))
  }

  // ---------- Targets that do not spell out names ----------

  /** Once the current path is no prefix of the target any more, the next element is the
      first name of the whole target for ever: the walk cannot end in a node. */
  lemma {:induction false} LostForever(
      b: Backup, rank: Sha -> nat, target: Bytes, done: seq<Bytes>, hash: Option<Sha>, node: Option<Node>)
    requires Merkle(b, rank) && ValidNames(done) && done != []
    requires !HasPrefix(target, Absolute(done)) && Rooted(target) && NamesIn(target) != []
    ensures !Walk(b, rank, target, Absolute(done), hash, node).result.Found?
    decreases hash.Some?, if hash.Some? then rank(hash.value) else 0
  {
    hide NextElement, ScanNodes, Absolute, Join, NamesIn;
    NextIsFirstName(target, Absolute(done));
    RootedNormal(target);
    var c := NamesIn(target)[0];
    assert ValidName(c);
    if Reachable(b, hash) && hash.value in b.trees {
      JoinAbsolute(done, c);
      var nodes := b.trees[hash.value].nodes;
      var scan := ScanNodes(nodes, c);
      if scan.Scanned? && scan.last.Some? {
        ScanIn(nodes, c);
        PrefixGrows(done, c);
        LostForever(b, rank, target, done + [c], FirstKey(scan.last.value), scan.last);
      }
    }
  }

  /** The target runs on past the current path without a slash: one more name is looked
      for, and after that the walk is lost. */
  lemma RunsOn(
      b: Backup, rank: Sha -> nat, done: seq<Bytes>, rest: Bytes, hash: Option<Sha>, node: Option<Node>)
    requires Merkle(b, rank) && ValidNames(done) && done != []
    requires rest != [] && !Rooted(rest) && NamesIn(rest) != []
    requires NoParentNames(b, rank, hash)
    ensures !Walk(b, rank, Absolute(done) + rest, Absolute(done), hash, node).result.Found?
  {
    hide NextElement, ScanNodes, Absolute, Join, NamesIn, PartsOf;
    var target := Absolute(done) + rest;
    var next := NamesIn(rest)[0];
    assert TrimPrefix(target, Absolute(done)) == rest;
    NextIsFirstName(target, Absolute(done));
    RelativeNormal(rest);
    assert next != Dot() by { if next != DotDot() { assert ValidName(next); } }
    if Reachable(b, hash) && hash.value in b.trees {
      var nodes := b.trees[hash.value].nodes;
      var scan := ScanNodes(nodes, next);
      if scan.Scanned? && scan.last.Some? {
        ScanIn(nodes, next);
        assert ValidName(next);
        JoinAbsolute(done, next);
        RunsOnLost(done, rest, next);
        LostForever(b, rank, target, done + [next], FirstKey(scan.last.value), scan.last);
      }
    }
  }

  // ---------- Every target ----------

  /** As long as the target has only been cut between its names, and what is left of it
      spells out the names it cleans to, the walk is the descent by names, in at most one
      iteration more than there are names left. If it does not spell them out, the walk
      ends in no node. */
  lemma {:induction false} WalkIsDescend(
      b: Backup, rank: Sha -> nat, target: Bytes, done: seq<Bytes>, rest: Bytes, hash: Option<Sha>, node: Option<Node>)
    requires Merkle(b, rank) && ValidNames(done) && target == Slashed(done) + rest && (rest == [] || Rooted(rest))
    requires done == [] ==> rest != [] && NamesIn(rest[1..]) == NamesIn(rest)
    ensures var w := Walk(b, rank, target, Absolute(done), hash, node);
            && (Follows(rest) ==>
                  w.result == Descend(b, hash, node, NamesIn(rest)) && w.iterations <= |NamesIn(rest)| + 1)
            && (!Follows(rest) && NoParentNames(b, rank, hash) ==> !w.result.Found?)
    decreases hash.Some?, if hash.Some? then rank(hash.value) else 0
  {
    hide NextElement, ScanNodes, Absolute, Join, NamesIn, Follows;
    WalkNext(target, done, rest);
    var names := NamesIn(rest);
    if Reachable(b, hash) && names != [] && hash.value in b.trees {
      var c, nodes := names[0], b.trees[hash.value].nodes;
      assert ValidName(c);
      JoinAbsolute(done, c);
      var scan := ScanNodes(nodes, c);
      if scan.Scanned? && scan.last.Some? {
        ScanIn(nodes, c);
        PathsGrow(done, c);
        if Slashed([c]) <= rest {
          var rest' := rest[|Slashed([c])|..];
          if rest' == [] || Rooted(rest') {
            FollowsStep(rest, c, rest');
            WalkIsDescend(b, rank, target, done + [c], rest', FirstKey(scan.last.value), scan.last);
          } else {
            RunOnNotSpelled(rest, c, rest');
            RunOnHasNames(rest, c, rest');
            assert target == Absolute(done + [c]) + rest';
            if NoParentNames(b, rank, hash) {
              RunsOn(b, rank, done + [c], rest', FirstKey(scan.last.value), scan.last);
            }
          }
        } else {
          NotWritten(rest, c);
          NotPrefix(Slashed(done), Slashed([c]), rest);
          TargetNotRoot(target, done, rest);
          LostForever(b, rank, target, done + [c], FirstKey(scan.last.value), scan.last);
        }
      }
    }
  }

  /** What FindNode makes of any target string that begins with the commit's path: if the
      rest spells out the names it cleans to, following these names from the root, in at
      most one iteration more than there are names; and if not, no node. */
  lemma FindNodeExactly(b: Backup, rank: Sha -> nat, base: seq<Bytes>, s: Bytes)
    requires Merkle(b, rank) && ValidNames(base) && b.head.Some? && b.head.value.path == Absolute(base)
    ensures var w := FindNodeSpec(b, rank, Absolute(base) + s);
            && (Spells(base, s) ==>
                  && w.result == Descend(b, b.head.value.root, None, NamesIn(s))
                  && w.iterations <= |NamesIn(s)| + 1)
            && (!Spells(base, s) && NoParentNames(b, rank, b.head.value.root) ==> !w.result.Found?)
  {
    hide NextElement, ScanNodes, Absolute, Join, NamesIn, Follows, Spells;
    var target, root := Absolute(base) + s, b.head.value.root;
    assert TrimPrefix(target, Absolute(base)) == s;
    AbsoluteNormal(base);
    if base == [] {
      NextIsFirstName(target, Absolute(base));
      if NamesIn(s) != [] && NamesIn(s)[0] == DotDot() {
        ParentNotSpelled(base, s);
        if Reachable(b, root) && root.value in b.trees { ScanIn(b.trees[root.value].nodes, DotDot()); }
      } else {
        NamesAfterSlash(s);
        SpellsIsFollows(base, s, target);
        WalkIsDescend(b, rank, target, [], target, root, None);
      }
    } else if s == [] || Rooted(s) {
      NamesOfRest(s);
      SpellsIsFollows(base, s, s);
      WalkIsDescend(b, rank, target, base, s, root, None);
    } else {
      NextIsFirstName(target, Absolute(base));
      RelativeSpells(base, s);
      if NamesIn(s) != [] && NoParentNames(b, rank, root) { RunsOn(b, rank, base, s, root, None); }
    }
  }

  /** FindNode of any names below the commit's path, with an idle end such as trailing
      slashes, is following the names from the root. */
  lemma FindNodeIsDescend(b: Backup, rank: Sha -> nat, base: seq<Bytes>, names: seq<Bytes>, t: Bytes)
    requires Merkle(b, rank) && ValidNames(base) && ValidNames(names) && Idle(t)
    requires b.head.Some? && b.head.value.path == Absolute(base)
    ensures var w := FindNodeSpec(b, rank, Absolute(base + names) + t);
            w.result == Descend(b, b.head.value.root, None, names) && w.iterations <= |names| + 1
  {
    hide Descend, Absolute, Idle, Spells, FindNodeSpec;
    SpelledNames(base, names, t);
    SuffixNames(base, names, t);
    FindNodeExactly(b, rank, base, Suffix(base, names, t));
  }

  // ---------- Targets that only share a string prefix with the commit's path ----------

  /** The check on the commit's path compares only strings. A target that runs on from it
      without a slash resolves exactly when what it runs on with cleans to ".", and then
      to the commit's root, whatever it names. */
  lemma BesideFoundExactly(b: Backup, rank: Sha -> nat, base: seq<Bytes>, s: Bytes)
    requires Merkle(b, rank) && ValidNames(base) && base != []
    requires b.head.Some? && b.head.value.path == Absolute(base)
    requires s != [] && !Rooted(s) && NoParentNames(b, rank, b.head.value.root)
    ensures var r := FindNodeSpec(b, rank, Absolute(base) + s).result;
            && (r.Found? <==> Clean(s) == Dot() && Reachable(b, b.head.value.root))
            && (r.Found? ==> r == Found(GetTree(b, b.head.value.root.value), None))
  {
    hide Clean, Absolute, FindNodeSpec, NamesIn;
    FindNodeExactly(b, rank, base, s);
    RelativeSpells(base, s);
    CleanDotExactly(s);
  }

  /** Below the commit's path, dots that climb to it or above it lead to its root. */
  lemma AboveIsRoot(b: Backup, rank: Sha -> nat, base: seq<Bytes>, s: Bytes)
    requires Merkle(b, rank) && ValidNames(base) && b.head.Some? && b.head.value.path == Absolute(base)
    requires Rooted(s) && Clean(s) == Slash()
    ensures FindNodeSpec(b, rank, Absolute(base) + s).result == Descend(b, b.head.value.root, None, [])
  {
    hide Absolute, FindNodeSpec;
    RootedNormal(s);
    FindNodeExactly(b, rank, base, s);
  }

  /** For the commit path /a/b the target /a/bx/.. names /a, the directory above, and
      resolves to the root of /a/b. */
  lemma SiblingsParent(b: Backup, rank: Sha -> nat, base: seq<Bytes>, x: Bytes)
    requires Merkle(b, rank) && ValidNames(base) && base != [] && ValidName(x)
    requires b.head.Some? && b.head.value.path == Absolute(base)
    ensures var target := Absolute(base) + (x + Slash() + DotDot());
            && PartsOf(target) == [Slash()] + base[..|base| - 1]
            && FindNodeSpec(b, rank, target).result == Descend(b, b.head.value.root, None, [])
  {
    hide FindNodeSpec, PartsOf, Absolute;
    ParentOfName(x);
    SiblingParts(base, x);
    FindNodeExactly(b, rank, base, x + Slash() + DotDot());
  }

  // ---------- Without the helpers ----------

  /** A nil SHA1 panics wherever it is reached, as does a tree that the reader panics on; a
      missing tree panics only when a name is to be looked up in it. */
  lemma DescendNowhere(b: Backup, hash: Option<Sha>, node: Option<Node>, names: seq<Bytes>)
    ensures hash == None ==> Descend(b, hash, node, names) == Crashed
    ensures hash.Some? && hash.value in b.crashing ==> Descend(b, hash, node, names) == Crashed
    ensures hash.Some? && hash.value !in b.crashing && hash.value !in b.trees ==>
              Descend(b, hash, node, names) == if names == [] then Found(None, node) else Crashed
    ensures hash.Some? && hash.value !in b.crashing && hash.value in b.trees && names == [] ==>
              Descend(b, hash, node, names) == Found(Some(b.trees[hash.value]), node)
  {
  }

  /** A name leads to the tree under the first data key of the last node of that name. */
  lemma DescendInto(b: Backup, h: Sha, node: Option<Node>, i: nat, names: seq<Bytes>)
    requires h in b.trees && h !in b.crashing && names != []
    requires forall n :: n in b.trees[h].nodes ==> n.name.Some? && n.dataBlobKeys != []
    ensures i < |b.trees[h].nodes| && b.trees[h].nodes[i].name == Some(names[0]) &&
            (forall j :: i < j < |b.trees[h].nodes| ==> b.trees[h].nodes[j].name != Some(names[0])) ==>
              var n := b.trees[h].nodes[i];
              Descend(b, Some(h), node, names) == Descend(b, n.dataBlobKeys[0].sha1, Some(n), names[1..])
    ensures (forall n :: n in b.trees[h].nodes ==> n.name != Some(names[0])) ==>
              Descend(b, Some(h), node, names) == Failed
  {
    var nodes := b.trees[h].nodes;
    ScanIsLastMatch(nodes, names[0]);
    var scan := ScanNodes(nodes, names[0]);
    if scan.last.Some? {
      var k: nat :| LastMatch(nodes, k, names[0]) && nodes[k] == scan.last.value;
      assert nodes[k] in nodes;
    }
  }

  /** A target that does not begin with the commit's path, or a missing commit, is an error. */
  lemma NotBelowFails(b: Backup, rank: Sha -> nat, target: Bytes)
    requires Merkle(b, rank)
    requires b.head == None || forall s: Bytes :: target != b.head.value.path + s
    ensures FindNodeSpec(b, rank, target).result == Failed
  {
    if b.head.Some? { PrefixExactly(target, b.head.value.path); }
  }
}
