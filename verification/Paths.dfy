/** Slash-separated paths: Go's path.Clean, path.Join and strings.Split as the restore
    uses them, and the list of components a path stands for. */
module Paths {
  import opened Buffers

  const SLASH: byte := 47
  const DOT: byte := 46

  function Slash(): Bytes { [SLASH] }
  function Dot(): Bytes { [DOT] }
  function DotDot(): Bytes { [DOT, DOT] }

  lemma SeparatorBytes()
    ensures Slash() == [47] && Dot() == [46] && DotDot() == [46, 46]
  {
  }

  // ---------- Split ----------

  /** strings.Split(p, "/"). */
  function Split(p: Bytes): (r: seq<Bytes>)
    ensures |r| > 0
  {
    if p == [] then [[]]
    else
      var rest := Split(p[1..]);
      if p[0] == SLASH then [[]] + rest else [[p[0]] + rest[0]] + rest[1..]
  }

  predicate SlashFree(c: Bytes) {
    SLASH !in c
  }

  lemma {:induction false} SplitPrefix(c: Bytes, t: Bytes)
    requires SlashFree(c)
    ensures Split(c + t) == [c + Split(t)[0]] + Split(t)[1..]
    decreases |c|
  {
    if c == [] {
      assert c + t == t && [] + Split(t)[0] == Split(t)[0];
    } else {
      SplitPrefix(c[1..], t);
      assert (c + t)[1..] == c[1..] + t;
      assert [c[0]] + (c[1..] + Split(t)[0]) == c + Split(t)[0];
    }
  }

  // ---------- Clean ----------

  /** The components a path stands for. An absolute one starts with the component "/";
      "." and empty components are gone and ".." is resolved where it can be. */
  type Parts = seq<Bytes>

  predicate Rooted(p: Bytes) {
    p != [] && p[0] == SLASH
  }

  /** One step of the lexical rules of path.Clean. */
  function Push(parts: Parts, c: Bytes): Parts {
    if c == [] || c == Dot() then parts
    else if c == DotDot() then
      if parts == [] || parts[|parts| - 1] == DotDot() then parts + [c]
      else if parts == [Slash()] then parts
      else parts[..|parts| - 1]
    else parts + [c]
  }

  function Fold(parts: Parts, cs: seq<Bytes>): Parts
    decreases |cs|
  {
    if cs == [] then parts else Fold(Push(parts, cs[0]), cs[1..])
  }

  function Start(p: Bytes): Parts {
    if Rooted(p) then [Slash()] else []
  }

  function PartsOf(p: Bytes): Parts {
    Fold(Start(p), Split(p))
  }

  /** "/c1/c2/..." */
  function Slashed(cs: seq<Bytes>): Bytes {
    if cs == [] then [] else Slash() + cs[0] + Slashed(cs[1..])
  }

  function Render(parts: Parts): Bytes {
    if parts == [] then Dot()
    else if parts[0] == Slash() then if |parts| == 1 then Slash() else Slashed(parts[1..])
    else parts[0] + Slashed(parts[1..])
  }

  /** path.Clean. */
  function Clean(p: Bytes): Bytes {
    Render(PartsOf(p))
  }

  /** path.Join of two elements: empty elements are skipped. */
  function Join(p: Bytes, c: Bytes): Bytes {
    if p != [] then Clean(p + Slash() + c)
    else if c != [] then Clean(c)
    else []
  }

  lemma JoinOfEmpty(p: Bytes, c: Bytes)
    ensures Join([], []) == [] && Join([], Slash() + c) == Clean(Slash() + c)
    ensures p != [] ==> Join(p, []) == Clean(p + Slash())
  {
    assert p + Slash() + [] == p + Slash();
  }

  // ---------- Normal component lists ----------

  /** A file name: it stands for itself wherever it is joined. */
  predicate ValidName(c: Bytes) {
    c != [] && c != Dot() && c != DotDot() && SlashFree(c)
  }

  predicate ValidNames(cs: seq<Bytes>) {
    forall i :: 0 <= i < |cs| ==> ValidName(cs[i])
  }

  /** What PartsOf produces: a leading "/" or some "..", then names. */
  predicate Normal(parts: Parts) {
    forall i :: 0 <= i < |parts| ==>
      || ValidName(parts[i])
      || (i == 0 && parts[i] == Slash())
      || (parts[i] == DotDot() && forall j :: 0 <= j < i ==> parts[j] == DotDot())
  }

  lemma {:induction false} FoldNormal(parts: Parts, cs: seq<Bytes>)
    requires Normal(parts) && forall c :: c in cs ==> SlashFree(c)
    ensures Normal(Fold(parts, cs))
    ensures parts != [] && parts[0] == Slash() ==> Fold(parts, cs) != [] && Fold(parts, cs)[0] == Slash()
    decreases |cs|
  {
    if cs != [] {
      FoldNormal(Push(parts, cs[0]), cs[1..]);
    }
  }

  lemma {:induction false} SplitSlashFree(p: Bytes)
    ensures forall c :: c in Split(p) ==> SlashFree(c)
  {
    if p != [] {
      SplitSlashFree(p[1..]);
      assert SlashFree(Split(p[1..])[0]);
    }
  }

  lemma PartsNormal(p: Bytes)
    ensures Normal(PartsOf(p))
  {
    SplitSlashFree(p);
    FoldNormal(Start(p), Split(p));
  }

  function Slashes(k: nat): Bytes {
    seq(k, _ => SLASH)
  }

  /** Splitting and folding back a rendered list of components, whatever the number of
      trailing slashes. */
  lemma {:induction false} FoldSlashed(parts: Parts, cs: seq<Bytes>, k: nat)
    requires Normal(parts + cs)
    requires forall i :: 0 <= i < |cs| ==> SlashFree(cs[i])
    ensures Split(Slashed(cs) + Slashes(k))[0] == []
    ensures Fold(parts, Split(Slashed(cs) + Slashes(k))) == parts + cs
    decreases |cs|, k
  {
    var p := Slashed(cs) + Slashes(k);
    if cs == [] {
      if k > 0 {
        assert p == Slashes(k) && p[1..] == Slashed([]) + Slashes(k - 1);
        FoldSlashed(parts, [], k - 1);
        assert Split(p) == [[]] + Split(p[1..]);
        assert Split(p)[1..] == Split(p[1..]);
      } else {
        assert p == [];
      }
      assert parts + cs == parts;
    } else {
      var c, rest := cs[0], Slashed(cs[1..]) + Slashes(k);
      assert p[1..] == c + rest;
      assert parts + cs == (parts + [c]) + cs[1..];
      FoldSlashed(parts + [c], cs[1..], k);
      SplitPrefix(c, rest);
      assert c + Split(rest)[0] == c;
      assert Split(p) == [[]] + ([c] + Split(rest)[1..]);
      PushNormal(parts, c, cs);
      assert Fold(parts, Split(p)) == Fold(Push(parts, c), Split(rest)[1..]) by {
        assert Split(p)[1..] == [c] + Split(rest)[1..];
        assert Split(p)[1..][1..] == Split(rest)[1..];
      }
      assert Fold(parts + [c], Split(rest)) == Fold(parts + [c], Split(rest)[1..]);
    }
  }

  lemma PushNormal(parts: Parts, c: Bytes, cs: seq<Bytes>)
    requires Normal(parts + cs) && cs != [] && c == cs[0] && SlashFree(c)
    ensures Push(parts, c) == parts + [c]
  {
    assert (parts + cs)[|parts|] == c;
    if c == DotDot() && parts != [] {
      assert (parts + cs)[|parts| - 1] == parts[|parts| - 1] == DotDot();
    }
  }

  lemma {:induction false} SlashedAppend(a: seq<Bytes>, b: seq<Bytes>)
    ensures Slashed(a + b) == Slashed(a) + Slashed(b)
    decreases |a|
  {
    if a == [] {
      assert a + b == b;
    } else {
      SlashedAppend(a[1..], b);
      assert (a + b)[1..] == a[1..] + b;
    }
  }

  /** Rendering a normal list and reading it back, trailing slashes included. */
  lemma PartsOfRender(parts: Parts, k: nat)
    requires Normal(parts)
    requires parts == [] ==> k == 0
    ensures PartsOf(Render(parts) + Slashes(k)) == parts
  {
    var p := Render(parts) + Slashes(k);
    if parts == [] {
      assert p == Dot() && Dot()[1..] == [];
      assert Split(Dot()) == [Dot()];
      assert [Dot()][1..] == [];
    } else if parts[0] == Slash() {
      RootedNames(parts);
      if |parts| == 1 {
        assert p == Slashed([]) + Slashes(k + 1);
        FoldSlashed([Slash()], [], k + 1);
        assert parts == [Slash()] + [];
      } else {
        FoldSlashed([Slash()], parts[1..], k);
        assert parts == [Slash()] + parts[1..];
      }
    } else {
      var rest := Slashed(parts[1..]) + Slashes(k);
      assert p == parts[0] + rest;
      FoldTail(parts, k);
    }
  }

  lemma RootedNames(parts: Parts)
    requires Normal(parts) && parts != [] && parts[0] == Slash()
    ensures ValidNames(parts[1..])
  {
    forall i | 0 <= i < |parts| - 1 ensures ValidName(parts[1..][i]) {
      assert parts[1..][i] == parts[i + 1];
      assert Slash() != DotDot();
    }
  }

  lemma FoldTail(parts: Parts, k: nat)
    requires Normal(parts) && parts != [] && parts[0] != Slash()
    ensures PartsOf(parts[0] + (Slashed(parts[1..]) + Slashes(k))) == parts
  {
    var c, rest := parts[0], Slashed(parts[1..]) + Slashes(k);
    assert ValidName(c) || c == DotDot();
    assert SlashFree(c);
    SplitPrefix(c, rest);
    assert parts == [c] + parts[1..];
    forall i | 0 <= i < |parts[1..]| ensures SlashFree(parts[1..][i]) {
      assert parts[1..][i] == parts[i + 1];
    }
    FoldSlashed([c], parts[1..], k);
    assert c + Split(rest)[0] == c;
    var p := c + rest;
    assert !Rooted(p) by { assert p[0] == c[0]; }
    assert Split(p)[0] == c && Split(p)[1..] == Split(rest)[1..];
    assert Fold([c], Split(rest)) == Fold([c], Split(rest)[1..]);
    assert Push([], c) == [c];
  }

  lemma CleanParts(p: Bytes)
    ensures PartsOf(Clean(p)) == PartsOf(p)
  {
    PartsNormal(p);
    PartsOfRender(PartsOf(p), 0);
    assert Render(PartsOf(p)) + Slashes(0) == Clean(p);
  }

  lemma {:induction false} FoldAppend(parts: Parts, a: seq<Bytes>, b: seq<Bytes>)
    ensures Fold(parts, a + b) == Fold(Fold(parts, a), b)
    decreases |a|
  {
    if a == [] {
      assert a + b == b;
    } else {
      FoldAppend(Push(parts, a[0]), a[1..], b);
      assert (a + b)[1..] == a[1..] + b;
    }
  }

  lemma {:induction false} SplitAppend(p: Bytes, c: Bytes)
    requires SlashFree(c)
    ensures Split(p + Slash() + c) == Split(p) + [c]
    decreases |p|
  {
    var q := p + Slash() + c;
    if p == [] {
      SplitPrefix(c, []);
      assert c + [] == c;
      assert q[1..] == c;
    } else {
      SplitAppend(p[1..], c);
      assert q[1..] == p[1..] + Slash() + c;
    }
  }

  /** Joining a file name to any path, clean or not, adds one component. */
  lemma PartsOfJoin(p: Bytes, c: Bytes)
    requires ValidName(c)
    ensures PartsOf(Join(p, c)) == PartsOf(p) + [c]
    ensures Join(p, c) == Render(PartsOf(p) + [c])
  {
    if p == [] {
      SplitPrefix(c, []);
      assert c + [] == c;
      assert Split(c) == [c] && Split([]) == [[]];
      assert !Rooted(c) by { assert c[0] in c; }
      assert [c][1..] == [] && Split(p)[1..] == [];
      assert Push([], c) == [c];
      assert PartsOf(p) == [] && PartsOf(c) == Fold([c], []);
      CleanParts(c);
    } else {
      var q := p + Slash() + c;
      SplitAppend(p, c);
      FoldAppend(Start(p), Split(p), [c]);
      assert Start(q) == Start(p);
      assert Fold(PartsOf(p), [c]) == PartsOf(p) + [c];
      CleanParts(q);
    }
  }

  // ---------- Folding the same components onto different lists ----------

  /** A ".." at the bottom of a relative path is never removed. */
  lemma {:induction false} DotDotStays(parts: Parts, cs: seq<Bytes>)
    requires parts != [] && parts[0] == DotDot()
    ensures Fold(parts, cs) != [] && Fold(parts, cs)[0] == DotDot()
    ensures !ValidNames(Fold(parts, cs))
    decreases |cs|
  {
    if cs != [] { DotDotStays(Push(parts, cs[0]), cs[1..]); }
  }

  lemma ClimbsAbove(cs: seq<Bytes>)
    requires cs != [] && cs[0] == DotDot()
    ensures !ValidNames(Fold([], cs))
  {
    assert Push([], cs[0]) == [cs[0]];
    DotDotStays([cs[0]], cs[1..]);
  }

  predicate AllSlashFree(cs: seq<Bytes>) {
    forall c :: c in cs ==> SlashFree(c)
  }

  lemma PushValid(parts: Parts, c: Bytes)
    requires ValidNames(parts) && SlashFree(c) && (c == DotDot() ==> parts != [])
    ensures ValidNames(Push(parts, c))
    ensures Push(parts, c) ==
            if c == DotDot() then parts[..|parts| - 1] else if ValidName(c) then parts + [c] else parts
  {
    if parts != [] { assert ValidName(parts[|parts| - 1]) && parts[|parts| - 1] != Slash(); }
  }

  /** Components that never climb above their start do the same on top of anything. */
  lemma {:induction false} FoldLift(below: Parts, parts: Parts, cs: seq<Bytes>)
    requires ValidNames(parts) && AllSlashFree(cs) && ValidNames(Fold(parts, cs))
    ensures Fold(below + parts, cs) == below + Fold(parts, cs)
    decreases |cs|
  {
    if cs != [] {
      var c := cs[0];
      if c == DotDot() && parts == [] {
        ClimbsAbove(cs);
        return;
      }
      PushValid(parts, c);
      assert Push(below + parts, c) == below + Push(parts, c);
      FoldLift(below, Push(parts, c), cs[1..]);
    }
  }

  /** One name more at the bottom: either the components never reach it, or they remove it
      and from then on it makes no difference. */
  lemma {:induction false} FoldDips(c: Bytes, parts: Parts, cs: seq<Bytes>)
    requires ValidName(c) && ValidNames(parts) && AllSlashFree(cs)
    ensures var r, with, without := Fold(parts, cs), Fold([Slash(), c] + parts, cs), Fold([Slash()] + parts, cs);
            if ValidNames(r) then with == [Slash(), c] + r && without == [Slash()] + r else with == without
    decreases |cs|
  {
    if cs == [] {
    } else if cs[0] == DotDot() && parts == [] {
      assert [Slash(), c] + parts == [Slash(), c] && [Slash()] + parts == [Slash()];
      ClimbsAbove(cs);
      assert Push([Slash(), c], cs[0]) == [Slash()];
    } else {
      PushValid(parts, cs[0]);
      assert Push([Slash(), c] + parts, cs[0]) == [Slash(), c] + Push(parts, cs[0]);
      assert Push([Slash()] + parts, cs[0]) == [Slash()] + Push(parts, cs[0]);
      FoldDips(c, Push(parts, cs[0]), cs[1..]);
    }
  }

  predicate RootedParts(parts: Parts) {
    parts != [] && parts[0] == Slash() && ValidNames(parts[1..])
  }

  lemma PushRooted(parts: Parts, c: Bytes)
    requires RootedParts(parts) && SlashFree(c)
    ensures RootedParts(Push(parts, c))
    ensures c == DotDot() ==> |Push(parts, c)| == if |parts| == 1 then 1 else |parts| - 1
    ensures c != DotDot() ==> |Push(parts, c)| == |parts| + if ValidName(c) then 1 else 0
  {
    if |parts| > 1 { assert parts[|parts| - 1] == parts[1..][|parts| - 2]; }
  }

  /** Components that do not climb above a relative start change the length of a longer
      absolute list by the same amount. */
  lemma {:induction false} FoldHeights(high: Parts, low: Parts, cs: seq<Bytes>)
    requires RootedParts(high) && ValidNames(low) && |high| > |low| && AllSlashFree(cs) && ValidNames(Fold(low, cs))
    ensures |Fold(high, cs)| - |high| == |Fold(low, cs)| - |low|
    decreases |cs|
  {
    if cs != [] {
      if cs[0] == DotDot() && low == [] {
        ClimbsAbove(cs);
        return;
      }
      PushRooted(high, cs[0]);
      PushValid(low, cs[0]);
      FoldHeights(Push(high, cs[0]), Push(low, cs[0]), cs[1..]);
    }
  }

  /** A longer absolute list stays the longer one, but does not gain on the shorter. */
  lemma {:induction false} FoldHigher(high: Parts, low: Parts, cs: seq<Bytes>)
    requires RootedParts(high) && RootedParts(low) && |high| >= |low| && AllSlashFree(cs)
    ensures |Fold(high, cs)| >= |Fold(low, cs)| && |Fold(high, cs)| - |high| <= |Fold(low, cs)| - |low|
    decreases |cs|
  {
    if cs != [] {
      PushRooted(high, cs[0]);
      PushRooted(low, cs[0]);
      FoldHigher(Push(high, cs[0]), Push(low, cs[0]), cs[1..]);
    }
  }

  lemma FoldFirst(parts: Parts, c: Bytes, cs: seq<Bytes>)
    ensures Fold(parts, [c] + cs) == Fold(Push(parts, c), cs)
  {
    assert ([c] + cs)[1..] == cs;
  }

  lemma SplitSlashed(c: Bytes, s: Bytes)
    requires SlashFree(c)
    ensures Split(Slash() + (c + s)) == [[]] + ([c + Split(s)[0]] + Split(s)[1..])
  {
    SplitPrefix(c, s);
    assert (Slash() + (c + s))[1..] == c + s;
  }

  lemma SlashedFirst(names: seq<Bytes>, s: Bytes)
    requires names != []
    ensures Slashed(names) + s == Slash() + (names[0] + (Slashed(names[1..]) + s))
    ensures |names| == 1 ==> Slashed(names[1..]) + s == s
    ensures |names| > 1 ==> Split(Slashed(names[1..]) + s)[0] == []
  {
    if |names| > 1 {
      SplitEmptyFirst(Slashed(names[1..]) + s);
    } else {
      assert Slashed(names[1..]) == [];
    }
  }

  /** Names in front of anything: the last one runs on to the next slash. */
  lemma {:induction false} SplitNames(names: seq<Bytes>, s: Bytes)
    requires ValidNames(names) && names != []
    ensures var k := |names| - 1;
            Split(Slashed(names) + s) == [[]] + names[..k] + [names[k] + Split(s)[0]] + Split(s)[1..]
    decreases |names|
  {
    hide Split, Slashed;
    var k, c, rest := |names| - 1, names[0], Slashed(names[1..]) + s;
    assert ValidName(c);
    SlashedFirst(names, s);
    SplitSlashed(c, rest);
    if k > 0 {
      SplitNames(names[1..], s);
      assert c + [] == c && [c] + names[1..][..k - 1] == names[..k];
    }
  }

  /** The same, folded. */
  lemma {:induction false} FoldNames(parts: Parts, names: seq<Bytes>, s: Bytes)
    requires ValidNames(names) && names != []
    ensures var k := |names| - 1;
            Fold(parts, Split(Slashed(names) + s)) ==
            Fold(parts + names[..k], [names[k] + Split(s)[0]] + Split(s)[1..])
    decreases |names|
  {
    hide Fold, Split, Slashed;
    var k, c, rest := |names| - 1, names[0], Slashed(names[1..]) + s;
    assert ValidName(c);
    SlashedFirst(names, s);
    SplitSlashed(c, rest);
    FoldFirst(parts, [], [c + Split(rest)[0]] + Split(rest)[1..]);
    if k == 0 {
      assert parts + names[..0] == parts;
    } else {
      assert c + [] == c;
      FoldFirst(parts, c, Split(rest)[1..]);
      FoldNames(parts + [c], names[1..], s);
      assert Split(rest) == [[]] + Split(rest)[1..];
      FoldFirst(parts + [c], [], Split(rest)[1..]);
      assert parts + [c] + names[1..][..k - 1] == parts + names[..k];
      assert names[1..][k - 1] == names[k];
    }
  }

  lemma SplitEmptyFirst(s: Bytes)
    ensures Split(s)[0] == [] <==> s == [] || Rooted(s)
  {
  }

  /** The names of the cleaned path, without its leading slash. */
  function NamesIn(p: Bytes): seq<Bytes> {
    var parts := PartsOf(p);
    if parts != [] && parts[0] == Slash() then parts[1..] else parts
  }

  lemma RootedNormal(p: Bytes)
    requires Rooted(p)
    ensures RootedParts(PartsOf(p)) && PartsOf(p) == [Slash()] + NamesIn(p) && ValidNames(NamesIn(p))
  {
    SplitSlashFree(p);
    PartsNormal(p);
    FoldNormal([Slash()], Split(p));
    RootedNames(PartsOf(p));
  }

  lemma RelativeNormal(p: Bytes)
    requires !Rooted(p)
    ensures NamesIn(p) == PartsOf(p)
    ensures NamesIn(p) != [] ==> NamesIn(p)[0] == DotDot() || ValidNames(NamesIn(p))
  {
    SplitSlashFree(p);
    FoldRelative([], Split(p));
  }

  lemma {:induction false} FoldRelative(parts: Parts, cs: seq<Bytes>)
    requires AllSlashFree(cs) && (ValidNames(parts) || parts[0] == DotDot())
    ensures ValidNames(Fold(parts, cs)) || Fold(parts, cs)[0] == DotDot()
    decreases |cs|
  {
    if cs != [] {
      if parts != [] && parts[0] == DotDot() {
        DotDotStays(parts, cs);
      } else {
        FoldRelative(Push(parts, cs[0]), cs[1..]);
      }
    }
  }
}
