/** The strings that FindNode cuts its path elements from (arq/pack_set_index.go), and what
    is left of a target after each cut. */
module TargetPaths {
  import opened Buffers
  import opened Paths

  // ---------- Absolute paths ----------

  /** The absolute path of these names. */
  function Absolute(names: seq<Bytes>): Bytes {
    Render([Slash()] + names)
  }

  lemma AbsoluteNormal(names: seq<Bytes>)
    requires ValidNames(names)
    ensures Normal([Slash()] + names)
    ensures Absolute(names) == if names == [] then Slash() else Slashed(names)
  {
    var parts := [Slash()] + names;
    assert parts[1..] == names;
    forall i | 0 <= i < |parts| ensures ValidName(parts[i]) || (i == 0 && parts[i] == Slash()) {
      if i > 0 { assert parts[i] == names[i - 1]; }
    }
  }

  lemma JoinAbsolute(done: seq<Bytes>, c: Bytes)
    requires ValidNames(done) && ValidName(c)
    ensures Join(Absolute(done), c) == Absolute(done + [c])
    ensures ValidNames(done + [c])
  {
    AbsoluteNormal(done);
    PartsOfRender([Slash()] + done, 0);
    assert Absolute(done) + Slashes(0) == Absolute(done);
    PartsOfJoin(Absolute(done), c);
    assert ([Slash()] + done) + [c] == [Slash()] + (done + [c]);
  }

  lemma PathsGrow(done: seq<Bytes>, c: Bytes)
    requires ValidNames(done) && ValidName(c)
    ensures ValidNames(done + [c]) && Slashed(done + [c]) == Slashed(done) + Slashed([c])
    ensures Absolute(done + [c]) == Slashed(done + [c])
  {
    AbsoluteNormal(done + [c]);
    SlashedAppend(done, [c]);
  }

  lemma PrefixGrows(done: seq<Bytes>, c: Bytes)
    requires ValidNames(done) && ValidName(c) && done != []
    ensures Absolute(done + [c]) == Absolute(done) + Slashed([c])
    ensures HasPrefix(Absolute(done + [c]), Absolute(done))
  {
    AbsoluteNormal(done);
    AbsoluteNormal(done + [c]);
    SlashedAppend(done, [c]);
  }

  lemma NotPrefix(a: Bytes, c: Bytes, rest: Bytes)
    requires !(c <= rest)
    ensures !HasPrefix(a + rest, a + c)
  {
    assert (a + rest)[|a|..] == rest && (a + c)[|a|..] == c;
  }

  // ---------- The next element ----------

  /** The next path element as FindNode cuts it out of the target string. */
  function NextElement(target: Bytes, current: Bytes): Bytes {
    var rest := Clean(TrimPrefix(target, current));
    var rest' := if rest == Slash() then Dot() else rest;
    Split(TrimPrefix(rest', Slash()))[0]
  }

  lemma SplitName(c: Bytes, tail: seq<Bytes>)
    requires SlashFree(c) && c != []
    ensures var p := c + Slashed(tail);
            p != Slash() && TrimPrefix(p, Slash()) == p && Split(p)[0] == c
  {
    var p := c + Slashed(tail);
    assert p[0] == c[0] && c[0] in c;
    SplitPrefix(c, Slashed(tail));
    assert Split(Slashed(tail))[0] == [];
    assert c + [] == c;
  }

  /** Trimming, cleaning and splitting the target cuts out the first name of what is left
      of it after the current path. */
  lemma NextIsFirstName(target: Bytes, current: Bytes)
    ensures var names := NamesIn(TrimPrefix(target, current));
            NextElement(target, current) == if names == [] then Dot() else names[0]
  {
    hide PartsOf;
    var parts := PartsOf(TrimPrefix(target, current));
    PartsNormal(TrimPrefix(target, current));
    var rest := Render(parts);
    assert Split(Dot())[0] == Dot() by { assert Dot()[1..] == []; }
    assert Slash()[0] != Dot()[0];
    if parts != [] && parts[0] != Slash() {
      assert ValidName(parts[0]) || parts[0] == DotDot();
      SplitName(parts[0], parts[1..]);
    } else if |parts| > 1 {
      RootedNames(parts);
      var names := parts[1..];
      assert ValidName(names[0]) && parts[1] == names[0];
      SplitName(names[0], names[1..]);
      assert rest == Slash() + (names[0] + Slashed(names[1..]));
      assert rest[1..] == names[0] + Slashed(names[1..]) && rest != Slash();
    }
  }

  // ---------- Targets that spell out the names they resolve to ----------

  /** Nothing, or slashes and names that lead back to where they start without climbing
      above it: "/", "//", "/.", "/x/..", but not "/../x". */
  predicate Idle(t: Bytes) {
    t == [] || (Rooted(t) && NamesIn(Dot() + t) == [])
  }

  /** `rest`, empty or starting with a slash, cleans to nothing, or is written as the names
      it cleans to and an idle end. */
  predicate Follows(rest: Bytes) {
    var names := NamesIn(rest);
    names == [] || (Slashed(names) <= rest && Idle(rest[|Slashed(names)|..]))
  }

  /** The target, the commit's path followed by s, spells out what s cleans to. */
  predicate Spells(base: seq<Bytes>, s: Bytes) {
    var target, names := Absolute(base) + s, NamesIn(s);
    || names == []
    || (&& ValidNames(names) && Slashed(base + names) <= target
        && Idle(target[|Slashed(base + names)|..]))
  }

  lemma IdleRooted(t: Bytes)
    requires Idle(t)
    ensures t == [] || Rooted(t)
  {
  }

  lemma SlashedRooted(names: seq<Bytes>, t: Bytes)
    requires t == [] || Rooted(t)
    ensures Slashed(names) + t == [] || Rooted(Slashed(names) + t)
  {
  }

  lemma IdleTail(t: Bytes)
    requires Idle(t)
    ensures Split(t)[0] == [] && Fold([], Split(t)[1..]) == []
  {
    SplitEmptyFirst(t);
    if t == [] {
    } else {
      SplitPrefix(Dot(), t);
      assert Dot() + [] == Dot();
      assert Split(Dot() + t)[1..] == Split(t)[1..];
      assert (Dot() + t)[0] == DOT;
      RelativeNormal(Dot() + t);
    }
  }

  lemma TailIdle(t: Bytes)
    requires t == [] || (Rooted(t) && Fold([], Split(t)[1..]) == [])
    ensures Idle(t)
  {
    if t != [] {
      SplitEmptyFirst(t);
      SplitPrefix(Dot(), t);
      assert Dot() + [] == Dot();
      assert Split(Dot() + t)[1..] == Split(t)[1..];
      assert (Dot() + t)[0] == DOT;
    }
  }

  /** An idle end changes nothing on any list. */
  lemma FoldIdle(parts: Parts, t: Bytes)
    requires Idle(t)
    ensures Fold(parts, Split(t)[1..]) == parts
  {
    IdleTail(t);
    SplitSlashFree(t);
    assert parts + [] == parts;
    FoldLift(parts, [], Split(t)[1..]);
  }

  /** Names and an idle end clean to those names. */
  lemma FoldSpelled(parts: Parts, names: seq<Bytes>, t: Bytes)
    requires ValidNames(names) && Idle(t)
    ensures Fold(parts, Split(Slashed(names) + t)) == parts + names
  {
    hide Idle;
    IdleTail(t);
    if names == [] {
      assert Slashed(names) + t == t && parts + names == parts;
      assert Split(t) == [[]] + Split(t)[1..];
      FoldIdle(parts, t);
    } else {
      var k := |names| - 1;
      FoldNames(parts, names, t);
      assert names[k] + [] == names[k];
      assert ValidName(names[k]);
      assert parts + names[..k] + [names[k]] == parts + names;
      FoldIdle(parts + names, t);
    }
  }

  lemma SlashesAreIdle(k: nat)
    ensures Idle(Slashes(k))
  {
    FoldSlashed([], [], k);
    if k > 0 {
      var t := Slashes(k);
      assert Slashed([]) + t == t;
      SplitEmptyFirst(t);
      assert Split(t) == [[]] + Split(t)[1..];
      TailIdle(t);
    }
  }

  // ---------- One name further ----------

  lemma CutFirst(c: Bytes, names: seq<Bytes>, t: Bytes)
    ensures Slashed([c] + names) + t == Slashed([c]) + (Slashed(names) + t)
    ensures (Slashed([c]) + (Slashed(names) + t))[|Slashed([c])|..] == Slashed(names) + t
    ensures names == [] ==> Slashed(names) + t == t
  {
    SlashedAppend([c], names);
  }

  lemma FollowsSplit(rest: Bytes) returns (t: Bytes)
    requires Follows(rest) && NamesIn(rest) != []
    ensures rest == Slashed(NamesIn(rest)) + t && Idle(t)
  {
    t := rest[|Slashed(NamesIn(rest))|..];
  }

  lemma SpelledFollows(rest: Bytes, t: Bytes)
    requires rest == Slashed(NamesIn(rest)) + t && Idle(t)
    ensures Follows(rest)
  {
    assert rest[|Slashed(NamesIn(rest))|..] == t;
  }

  lemma RestSpelled(rest: Bytes, names: seq<Bytes>, t: Bytes, cs: seq<Bytes>)
    requires rest == Slashed(names) + t && ValidNames(names) && Idle(t) && Split(rest) == [[]] + cs
    ensures Fold([], cs) == names
  {
    FoldSpelled([], names, t);
    assert [] + names == names;
  }

  lemma FollowsStepRooted(rest: Bytes, c: Bytes, rest': Bytes, cs: seq<Bytes>)
    requires ValidName(c) && rest == Slashed([c]) + rest' && Rooted(rest') && Split(rest') == [[]] + cs
    requires NamesIn(rest) != [] && NamesIn(rest)[0] == c
    requires [Slash()] + NamesIn(rest) == Fold([Slash(), c], cs) && ValidNames(NamesIn(rest))
    requires [Slash()] + NamesIn(rest') == Fold([Slash()], cs) && ValidNames(NamesIn(rest'))
    requires var r := Fold([], cs);
             if ValidNames(r) then Fold([Slash(), c], cs) == [Slash(), c] + r && Fold([Slash()], cs) == [Slash()] + r
             else Fold([Slash(), c], cs) == Fold([Slash()], cs)
    ensures Follows(rest) <==> Follows(rest')
    ensures Follows(rest) ==> NamesIn(rest) == [c] + NamesIn(rest')
  {
    hide Idle, NamesIn, Slashed, Fold, Follows, ValidName;
    var names, names', r := NamesIn(rest), NamesIn(rest'), Fold([], cs);
    assert names == ([Slash()] + names)[1..] && names' == ([Slash()] + names')[1..];
    assert ([Slash(), c] + r)[1..] == [c] + r && ([Slash()] + r)[1..] == r;
    assert ValidNames(r) ==> names == [c] + r && names' == r;
    if Follows(rest) {
      var t := FollowsSplit(rest);
      assert names == [c] + names[1..];
      CutFirst(c, names[1..], t);
      assert rest' == rest[|Slashed([c])|..] == Slashed(names[1..]) + t;
      RestSpelled(rest', names[1..], t, cs);
      SpelledFollows(rest', t);
    } else if Follows(rest') {
      if names' == [] {
        assert [Slash()] + names' == [Slash()];
        assert ValidNames(r);
        TailIdle(rest');
        CutFirst(c, [], rest');
        assert names == [c] + [];
        SpelledFollows(rest, rest');
      } else {
        var t := FollowsSplit(rest');
        RestSpelled(rest', names', t, cs);
        CutFirst(c, names', t);
        SpelledFollows(rest, t);
      }
    }
  }

  /** The first name is written out: the rest of the names and the same end remain. */
  lemma FollowsStep(rest: Bytes, c: Bytes, rest': Bytes)
    requires ValidName(c) && rest == Slashed([c]) + rest' && (rest' == [] || Rooted(rest'))
    requires NamesIn(rest) != [] && NamesIn(rest)[0] == c
    ensures Follows(rest) <==> Follows(rest')
    ensures Follows(rest) ==> NamesIn(rest) == [c] + NamesIn(rest')
  {
    hide Idle;
    var cs := Split(rest')[1..];
    assert Rooted(rest);
    RootedNormal(rest);
    SplitEmptyFirst(rest');
    SplitSlashFree(rest');
    FoldNames([Slash()], [c], rest');
    assert c + [] == c && [Slash()] + [c][..0] == [Slash()];
    assert ([c] + cs)[1..] == cs && Push([Slash()], c) == [Slash(), c];
    assert PartsOf(rest) == Fold([Slash(), c], cs);
    if rest' == [] {
      assert cs == [] && NamesIn(rest') == [];
      assert Idle([]) by { TailIdle([]); }
      assert Slashed([c]) <= rest;
    } else {
      RootedNormal(rest');
      assert Split(rest') == [[]] + cs;
      assert PartsOf(rest') == Fold([Slash()], cs);
      FoldDips(c, [], cs);
      assert [Slash(), c] + [] == [Slash(), c] && [Slash()] + [] == [Slash()];
      FollowsStepRooted(rest, c, rest', cs);
    }
  }

  lemma NamesOfRest(rest: Bytes)
    requires rest == [] || Rooted(rest)
    ensures ValidNames(NamesIn(rest)) && (NamesIn(rest) != [] ==> Rooted(rest))
  {
    if rest != [] { RootedNormal(rest); }
  }

  lemma WalkNext(target: Bytes, done: seq<Bytes>, rest: Bytes)
    requires ValidNames(done) && target == Slashed(done) + rest && (rest == [] || Rooted(rest))
    requires done == [] ==> rest != [] && NamesIn(rest[1..]) == NamesIn(rest)
    ensures ValidNames(NamesIn(rest))
    ensures NextElement(target, Absolute(done)) == if NamesIn(rest) == [] then Dot() else NamesIn(rest)[0]
    ensures NamesIn(rest) != [] ==> NamesIn(rest)[0] != Dot() && Rooted(rest)
    ensures NamesIn(rest) == [] ==> Follows(rest)
  {
    hide NamesIn;
    NextIsFirstName(target, Absolute(done));
    AbsoluteNormal(done);
    if done == [] {
      assert Slashed(done) + rest == rest && Slash() <= rest && rest[1..] == rest[|Slash()|..];
    } else {
      assert TrimPrefix(target, Absolute(done)) == rest;
    }
    NamesOfRest(rest);
    if NamesIn(rest) != [] { assert ValidName(NamesIn(rest)[0]); }
  }

  // ---------- Off the track ----------

  lemma NotWritten(rest: Bytes, c: Bytes)
    requires NamesIn(rest) != [] && NamesIn(rest)[0] == c && !(Slashed([c]) <= rest)
    ensures !Follows(rest)
  {
    hide Slashed, NamesIn, Idle;
    if Follows(rest) {
      var names := NamesIn(rest);
      var t := FollowsSplit(rest);
      assert names == [c] + names[1..];
      CutFirst(c, names[1..], t);
    }
  }

  lemma NoNames(t: Bytes)
    ensures Slashed([]) + t == t
  {
  }

  lemma TargetNotRoot(target: Bytes, done: seq<Bytes>, rest: Bytes)
    requires ValidNames(done) && target == Slashed(done) + rest && Rooted(rest) && NamesIn(rest) != []
    ensures Rooted(target) && NamesIn(target) != []
  {
    hide Fold, Split, Slashed, NamesIn;
    if done == [] {
      NoNames(rest);
    } else {
      var k, cs := |done| - 1, Split(rest)[1..];
      SlashedFirst(done, rest);
      RootedNormal(target);
      RootedNormal(rest);
      SplitEmptyFirst(rest);
      SplitSlashFree(rest);
      FoldNames([Slash()], done, rest);
      assert ValidName(done[k]) && done[k] + [] == done[k];
      assert [Slash()] + done[..k] + [done[k]] == [Slash()] + done;
      FoldFirst([Slash()] + done[..k], done[k], cs);
      assert Split(rest) == [[]] + cs;
      FoldFirst([Slash()], [], cs);
      assert ([Slash()] + done)[1..] == done;
      FoldHigher([Slash()] + done, [Slash()], cs);
      assert PartsOf(target) == Fold([Slash()] + done, cs) && PartsOf(rest) == Fold([Slash()], cs);
    }
  }

  /** A name that runs on into the rest of the target: the whole target does not clean to
      the root. */
  lemma RunOnNotRoot(parts: Parts, last: Bytes, rest: Bytes)
    requires RootedParts(parts) && ValidName(last) && rest != [] && !Rooted(rest)
    requires ValidNames(NamesIn(rest))
    ensures var s0, cs := Split(rest)[0], Split(rest)[1..]; var all := Fold(parts, [last + s0] + cs);
            && |all| >= |parts| + |NamesIn(rest)|
            && (NamesIn(rest) == [] ==> |all| == |parts| || all == parts + [last + s0])
  {
    var s0, cs := Split(rest)[0], Split(rest)[1..];
    SplitEmptyFirst(rest);
    SplitSlashFree(rest);
    RelativeNormal(rest);
    var low := Push([], s0);
    var high := parts + [last + s0];
    assert Split(rest) == [s0] + cs;
    assert SlashFree(s0);
    if s0 == DotDot() { ClimbsAbove(Split(rest)); }
    assert ValidName(last + s0) && RootedParts(high) by {
      assert SlashFree(last + s0) && |last + s0| >= 2 && (last + s0)[..|last|] == last;
      assert last + s0 != DotDot() by { if |last| == 1 { assert last[0] != DOT; } }
      assert high[1..] == parts[1..] + [last + s0];
    }
    assert ([last + s0] + cs)[1..] == cs && Push(parts, last + s0) == high;
    PushValid([], s0);
    FoldHeights(high, low, cs);
    if NamesIn(rest) == [] && low == [] {
      assert high + [] == high;
      FoldLift(high, [], cs);
    }
  }

  /** When the target runs on past the name just taken, what is left of it does not clean
      to nothing. */
  lemma RunOnHasNames(rest: Bytes, c: Bytes, rest': Bytes)
    requires ValidName(c) && rest == Slashed([c]) + rest' && rest' != [] && !Rooted(rest')
    requires NamesIn(rest) != [] && NamesIn(rest)[0] == c
    ensures NamesIn(rest') != []
  {
    hide NamesIn, Fold;
    var s0 := Split(rest')[0];
    SplitEmptyFirst(rest');
    assert Rooted(rest);
    RootedNormal(rest);
    FoldNames([Slash()], [c], rest');
    assert [Slash()] + [c][..0] == [Slash()];
    assert |c + s0| > |c| && ([Slash()] + [c + s0])[1] == c + s0;
    assert PartsOf(rest)[1] == c;
    if NamesIn(rest') == [] { RunOnNotRoot([Slash()], c, rest'); }
  }

  lemma RunOnNotSpelled(rest: Bytes, c: Bytes, rest': Bytes)
    requires rest == Slashed([c]) + rest' && rest' != [] && !Rooted(rest')
    requires NamesIn(rest) != [] && NamesIn(rest)[0] == c
    ensures !Follows(rest)
  {
    hide Idle, NamesIn, Slashed;
    if Follows(rest) {
      var names := NamesIn(rest);
      var t := FollowsSplit(rest);
      assert names == [c] + names[1..];
      CutFirst(c, names[1..], t);
      assert rest' == rest[|Slashed([c])|..] == Slashed(names[1..]) + t;
      IdleRooted(t);
      SlashedRooted(names[1..], t);
    }
  }

  lemma RunsOnLost(done: seq<Bytes>, rest: Bytes, next: Bytes)
    requires ValidNames(done) && done != [] && ValidName(next)
    requires rest != [] && !Rooted(rest) && NamesIn(rest) != [] && ValidNames(NamesIn(rest))
    ensures var target := Absolute(done) + rest;
            !HasPrefix(target, Absolute(done + [next])) && Rooted(target) && NamesIn(target) != []
  {
    hide NamesIn;
    var target, k := Absolute(done) + rest, |done| - 1;
    AbsoluteNormal(done);
    PrefixGrows(done, next);
    assert target[|Absolute(done)|] == rest[0];
    assert Absolute(done + [next])[|Absolute(done)|] == SLASH;
    assert Rooted(target);
    RootedNormal(target);
    FoldNames([Slash()], done, rest);
    assert ValidName(done[k]);
    assert RootedParts([Slash()] + done[..k]) by { assert ([Slash()] + done[..k])[1..] == done[..k]; }
    RunOnNotRoot([Slash()] + done[..k], done[k], rest);
  }

  // ---------- What follows the commit's path ----------

  lemma ParentNotSpelled(base: seq<Bytes>, s: Bytes)
    requires NamesIn(s) != [] && NamesIn(s)[0] == DotDot()
    ensures !Spells(base, s)
  {
    hide NamesIn;
    assert !ValidName(NamesIn(s)[0]);
  }

  /** Behind the root's slash any names that do not climb are the same as without it. */
  lemma NamesAfterSlash(s: Bytes)
    requires NamesIn(s) != [] ==> NamesIn(s)[0] != DotDot()
    ensures NamesIn(Slash() + s) == NamesIn(s) && ValidNames(NamesIn(s))
  {
    var p := Slash() + s;
    SplitSlashFree(s);
    assert p[1..] == s;
    assert Split(p) == [[]] + Split(s) && Split(p)[1..] == Split(s);
    RootedNormal(p);
    if Rooted(s) {
      RootedNormal(s);
    } else {
      RelativeNormal(s);
      FoldLift([Slash()], [], Split(s));
      assert [Slash()] + [] == [Slash()];
    }
  }

  /** `rest` is what is left after the names of the commit's path. */
  lemma SpellsIsFollows(base: seq<Bytes>, s: Bytes, rest: Bytes)
    requires ValidNames(base) && Absolute(base) + s == Slashed(base) + rest
    requires NamesIn(rest) == NamesIn(s) && ValidNames(NamesIn(s))
    ensures Spells(base, s) <==> Follows(rest)
  {
    hide NamesIn, Absolute, Idle, Slashed;
    var names, target := NamesIn(s), Absolute(base) + s;
    SlashedAppend(base, names);
    var p := Slashed(names);
    assert Slashed(base) + p <= Slashed(base) + rest <==> p <= rest by {
      if !(p <= rest) { NotPrefix(Slashed(base), p, rest); } else { assert rest == p + rest[|p|..]; }
    }
    if p <= rest {
      assert rest == p + rest[|p|..];
      assert target == (Slashed(base) + p) + rest[|p|..];
      assert target[|Slashed(base) + p|..] == rest[|p|..];
    }
  }

  /** Below a commit's path other than the root, only what starts with a slash spells
      out names. */
  lemma RelativeSpells(base: seq<Bytes>, s: Bytes)
    requires ValidNames(base) && base != [] && s != [] && !Rooted(s)
    ensures Spells(base, s) <==> NamesIn(s) == []
  {
    hide NamesIn, Idle;
    var names := NamesIn(s);
    AbsoluteNormal(base);
    if names != [] {
      SlashedAppend(base, names);
      assert Slashed(names)[0] == SLASH;
      NotPrefix(Slashed(base), Slashed(names), s);
    }
  }

  /** A target that spells out some names stands for the commit's path and these names. */
  lemma SpelledParts(base: seq<Bytes>, s: Bytes)
    requires ValidNames(base) && Spells(base, s) && NamesIn(s) != []
    ensures PartsOf(Absolute(base) + s) == [Slash()] + (base + NamesIn(s))
  {
    hide Absolute, NamesIn, Idle;
    var target, all := Absolute(base) + s, base + NamesIn(s);
    var t := target[|Slashed(all)|..];
    assert target == Slashed(all) + t;
    FoldSpelled([Slash()], all, t);
  }

  /** What follows the commit's path in the path of some names below it. */
  function Suffix(base: seq<Bytes>, names: seq<Bytes>, t: Bytes): Bytes {
    if base == [] && names != [] then names[0] + Slashed(names[1..]) + t else Slashed(names) + t
  }

  lemma SuffixNames(base: seq<Bytes>, names: seq<Bytes>, t: Bytes)
    requires ValidNames(names) && Idle(t)
    ensures NamesIn(Suffix(base, names, t)) == names
  {
    hide Idle;
    var s := Suffix(base, names, t);
    IdleRooted(t);
    FoldSpelled([Slash()], names, t);
    FoldSpelled([], names, t);
    assert ([Slash()] + names)[1..] == names && [] + names == names;
    if base == [] && names != [] {
      var p := Slashed(names) + t;
      assert p == Slash() + s && p[1..] == s;
      assert s[0] == names[0][0] && names[0][0] in names[0] by { assert ValidName(names[0]); }
      assert Split(p)[1..] == Split(s) && Split(p)[0] == [];
      RelativeNormal(s);
    } else {
      SlashedRooted(names, t);
    }
  }

  lemma SuffixSpelled(base: seq<Bytes>, names: seq<Bytes>, t: Bytes)
    requires ValidNames(base) && ValidNames(names)
    ensures Absolute(base + names) + t == Absolute(base) + Suffix(base, names, t)
    ensures names != [] ==> Absolute(base + names) == Slashed(base + names)
  {
    hide Absolute, Slashed;
    assert ValidNames(base + names);
    AbsoluteNormal(base);
    AbsoluteNormal(base + names);
    SlashedAppend(base, names);
    if names == [] {
      assert base + names == base && Slashed(names) + t == t by { NoNames(t); }
    } else if base == [] {
      assert base + names == names;
      SlashedFirst(names, t);
      assert names[0] + (Slashed(names[1..]) + t) == names[0] + Slashed(names[1..]) + t;
    } else {
      assert (Slashed(base) + Slashed(names)) + t == Slashed(base) + (Slashed(names) + t);
    }
  }

  lemma SpelledNames(base: seq<Bytes>, names: seq<Bytes>, t: Bytes)
    requires ValidNames(base) && ValidNames(names) && Idle(t)
    ensures Absolute(base + names) + t == Absolute(base) + Suffix(base, names, t)
    ensures Spells(base, Suffix(base, names, t))
  {
    hide Absolute, Idle, NamesIn, Slashed, Suffix;
    SuffixNames(base, names, t);
    SuffixSpelled(base, names, t);
    if names != [] { assert (Absolute(base + names) + t)[|Slashed(base + names)|..] == t; }
  }

  lemma CleanDotExactly(s: Bytes)
    requires !Rooted(s)
    ensures Clean(s) == Dot() <==> NamesIn(s) == []
  {
    hide PartsOf;
    PartsNormal(s);
    RelativeNormal(s);
    var parts := PartsOf(s);
    if parts != [] {
      assert ValidName(parts[0]) || parts[0] == DotDot();
      assert Render(parts)[..|parts[0]|] == parts[0];
    }
  }

  lemma FoldTwo(parts: Parts, a: Bytes, c: Bytes)
    ensures Fold(parts, [a, c]) == Push(Push(parts, a), c)
  {
    assert [a, c][1..] == [c] && [c][1..] == [];
    assert Fold(parts, [a, c]) == Fold(Push(parts, a), [c]) == Fold(Push(Push(parts, a), c), []);
  }

  lemma ParentOfName(x: Bytes)
    requires ValidName(x)
    ensures NamesIn(x + Slash() + DotDot()) == [] && !Rooted(x + Slash() + DotDot())
  {
    var s := x + Slash() + DotDot();
    SplitAppend(x, DotDot());
    SplitPrefix(x, []);
    assert x + [] == x && Split(s) == [x, DotDot()];
    assert s[0] == x[0] && x[0] in x;
    FoldTwo([], x, DotDot());
    assert Push([], x) == [x] && Push([x], DotDot()) == [];
  }

  /** /a/bx/.. stands for /a. */
  lemma SiblingParts(base: seq<Bytes>, x: Bytes)
    requires ValidNames(base) && base != [] && ValidName(x)
    ensures PartsOf(Absolute(base) + (x + Slash() + DotDot())) == [Slash()] + base[..|base| - 1]
  {
    hide Fold, Split, Slashed, Absolute;
    var s, k := x + Slash() + DotDot(), |base| - 1;
    AbsoluteNormal(base);
    AbsoluteRooted(base);
    FoldNames([Slash()], base, s);
    SplitAppend(x, DotDot());
    SplitWhole(x);
    assert Split(s) == [x] + [DotDot()];
    var parts, last := [Slash()] + base[..k], base[k] + x;
    assert ValidName(base[k]);
    assert SlashFree(last) && |last| >= 2 && last[..|base[k]|] == base[k];
    assert last != DotDot() by { if |base[k]| == 1 { assert base[k][0] != DOT; } }
    assert [last] + Split(s)[1..] == [last, DotDot()];
    assert Push(parts, last) == parts + [last] && Push(parts + [last], DotDot()) == parts;
    FoldTwo(parts, last, DotDot());
  }

  lemma SplitWhole(x: Bytes)
    requires SlashFree(x)
    ensures Split(x) == [x]
  {
    SplitPrefix(x, []);
    assert x + [] == x;
  }

  // ---------- Paths that do not name what they resolve to ----------

  /** How far a path is from naming something at or below the commit's path. */
  function Astray(base: seq<Bytes>, path: seq<Bytes>): nat {
    if base <= path then 0 else if |path| < |base| then 2 else 1
  }

  lemma {:induction false} NamesStay(parts: Parts, names: seq<Bytes>)
    requires ValidNames(names)
    ensures Fold(parts, names) == parts + names
    decreases |names|
  {
    if names == [] {
      assert parts + names == parts;
    } else {
      assert ValidName(names[0]) && Push(parts, names[0]) == parts + [names[0]];
      NamesStay(parts + [names[0]], names[1..]);
      assert parts + [names[0]] + names[1..] == parts + names;
    }
  }

  lemma SplitAbsolute(path: seq<Bytes>)
    requires ValidNames(path) && path != []
    ensures Split(Absolute(path)) == [[]] + path && PartsOf(Absolute(path)) == [Slash()] + path
  {
    hide Split, Absolute;
    var k := |path| - 1;
    AbsoluteNormal(path);
    SplitNames(path, []);
    SplitNothing();
    assert Slashed(path) + [] == Slashed(path) && path[k] + [] == path[k];
    assert [[]] + path[..k] + [path[k]] + [] == [[]] + path;
    PartsOfRender([Slash()] + path, 0);
    assert Absolute(path) + Slashes(0) == Absolute(path);
  }

  lemma SplitNothing()
    ensures Split([]) == [[]]
  {
  }

  lemma NotNothing(c: Bytes, names: seq<Bytes>)
    requires ValidNames(names) && names != []
    ensures Fold([], [c] + names) != []
  {
    FoldFirst([], c, names);
    NamesStay(Push([], c), names);
  }

  lemma WithinPath(base: seq<Bytes>, path: seq<Bytes>, name: Bytes, more: seq<Bytes>)
    requires path + [name] == base + more && more != []
    ensures base <= path
  {
    assert path == (path + [name])[..|path|];
  }

  /** One name further from a path astray, a path that still resolves to the commit's root
      is less astray. */
  lemma LessAstray(base: seq<Bytes>, path: seq<Bytes>, name: Bytes, s: Bytes)
    requires ValidNames(base) && base != [] && ValidNames(path + [name]) && !(base <= path)
    requires Absolute(path + [name]) == Absolute(base) + s && NamesIn(s) == []
    ensures Astray(base, path + [name]) < Astray(base, path)
  {
    hide Split, Slashed, Absolute, Fold;
    var all, k, s0, cs := path + [name], |base| - 1, Split(s)[0], Split(s)[1..];
    AbsoluteNormal(base);
    SplitAbsolute(all);
    SplitNames(base, s);
    assert all == ([[]] + all)[1..] == base[..k] + [base[k] + s0] + cs;
    assert Split(s) == [s0] + cs;
    SplitEmptyFirst(s);
    forall i | 0 <= i < |cs| ensures ValidName(cs[i]) {
      assert cs[i] == all[k + 1 + i];
    }
    if cs == [] {
      assert |all| == |base|;
    } else if s0 == [] {
      assert base[k] + [] == base[k];
      assert all == base + cs;
      WithinPath(base, path, name, cs);
    } else {
      RelativeNormal(s);
      NotNothing(s0, cs);
    }
  }

  /** A target that resolves to the commit's root and stands for something at or below the
      commit's path stands for that path itself. */
  lemma RootNamed(base: seq<Bytes>, path: seq<Bytes>, s: Bytes)
    requires ValidNames(base) && NamesIn(s) == [] && PartsOf(Absolute(base) + s) == [Slash()] + path && base <= path
    ensures path == base
  {
    hide Fold, Split, Slashed, Absolute, NamesIn;
    AbsoluteNormal(base);
    SplitSlashFree(s);
    SplitEmptyFirst(s);
    if base == [] {
      NamesAfterSlash(s);
      RootedNormal(Slash() + s);
      assert path == ([Slash()] + path)[1..];
    } else {
      var k, s0, cs := |base| - 1, Split(s)[0], Split(s)[1..];
      var parts := [Slash()] + base[..k];
      assert parts[1..] == base[..k] && ([Slash()] + base)[1..] == base;
      AbsoluteRooted(base);
      FoldNames([Slash()], base, s);
      if s0 == [] {
        assert base[k] + [] == base[k] && parts + [base[k]] == [Slash()] + base;
        FoldFirst(parts, base[k], cs);
        assert ValidName(base[k]);
        assert Split(s) == [[]] + cs;
        FoldFirst([Slash()], [], cs);
        FoldHigher([Slash()] + base, [Slash()], cs);
        RestIsRoot(s);
      } else {
        assert ([Slash()] + path)[1 + k] == path[k] == base[k];
        assert |base[k] + s0| > |base[k]| && (parts + [base[k] + s0])[1 + k] == base[k] + s0;
        RunOnNotRoot(parts, base[k], s);
      }
    }
  }

  lemma AbsoluteRooted(base: seq<Bytes>)
    requires ValidNames(base)
    ensures Absolute(base) != [] && Absolute(base)[0] == SLASH
  {
    AbsoluteNormal(base);
  }

  lemma RestIsRoot(s: Bytes)
    requires (s == [] || Rooted(s)) && NamesIn(s) == []
    ensures |Fold([Slash()], Split(s))| == 1
  {
    if s == [] {
      SplitNothing();
      FoldFirst([Slash()], [], []);
    } else {
      RootedNormal(s);
    }
  }

  // ---------- Joining what is no file name ----------

  lemma FoldDot()
    ensures PartsOf(Dot()) == []
  {
    PartsOfRender([], 0);
    assert Render([]) + Slashes(0) == Dot();
  }

  lemma DottedName(last: Bytes)
    requires ValidName(last)
    ensures ValidName(last + Dot())
  {
    assert last + Dot() != DotDot() by { if |last| == 1 { assert (last + Dot())[0] == last[0] != DOT; } }
    assert |last + Dot()| >= 2;
  }

  lemma SlashedOne(c: Bytes)
    ensures Slashed([c]) == Slash() + c
  {
    assert [c][1..] == [] && Slashed([]) == [];
    assert (Slash() + c) + [] == Slash() + c;
  }

  lemma OneLonger(base: seq<Bytes>, last: Bytes, x: Bytes)
    ensures Slashed(base + [last + x]) == Slashed(base + [last]) + x
  {
    hide Slashed;
    SlashedAppend(base, [last]);
    SlashedAppend(base, [last + x]);
    SlashedOne(last);
    SlashedOne(last + x);
    assert (Slashed(base) + (Slash() + last)) + x == Slashed(base) + (Slash() + (last + x));
  }

  lemma JoinDotted(base: seq<Bytes>, last: Bytes)
    requires ValidNames(base) && ValidName(last)
    ensures Join(Absolute(base + [last]), DotDot() + Slash() + (last + Dot())) == Absolute(base + [last]) + Dot()
  {
    hide Join, PartsOf, Slashed;
    var all, dotted := base + [last], base + [last + Dot()];
    DottedName(last);
    AbsoluteNormal(all);
    AbsoluteNormal(dotted);
    PartsOfRender([Slash()] + all, 0);
    assert Absolute(all) + Slashes(0) == Absolute(all);
    assert ([Slash()] + all)[1..] == all && ([Slash()] + all)[..|all|] == [Slash()] + base;
    JoinBeside(Absolute(all), last + Dot());
    assert [Slash()] + base + [last + Dot()] == [Slash()] + dotted;
    OneLonger(base, last, Dot());
  }

  lemma JoinParent(above: seq<Bytes>, c: Bytes)
    requires ValidNames(above) && ValidName(c)
    ensures Join(Absolute(above + [c]), DotDot()) == Absolute(above)
  {
    hide Render;
    var p, parts := Absolute(above + [c]), [Slash()] + (above + [c]);
    assert ValidNames(above + [c]);
    AbsoluteNormal(above + [c]);
    PartsOfRender(parts, 0);
    assert p + Slashes(0) == p;
    var q := p + Slash() + DotDot();
    SplitAppend(p, DotDot());
    FoldAppend(Start(p), Split(p), [DotDot()]);
    assert p[0] == SLASH by { assert p == Slashed(above + [c]); }
    assert Start(q) == Start(p);
    assert [DotDot()][1..] == [];
    assert parts[|parts| - 1] == c && parts[..|parts| - 1] == [Slash()] + above;
    assert Push(parts, DotDot()) == [Slash()] + above;
  }

  /** Joining "../x" to an absolute path below the root replaces its last name. */
  lemma JoinBeside(p: Bytes, x: Bytes)
    requires ValidName(x) && RootedParts(PartsOf(p)) && |PartsOf(p)| > 1
    ensures var parts := PartsOf(p); var r := Join(p, DotDot() + Slash() + x);
            r == Render(parts[..|parts| - 1] + [x]) && PartsOf(r) == parts[..|parts| - 1] + [x]
  {
    hide Render, Fold, Split;
    var parts := PartsOf(p);
    var r := p + Slash() + (DotDot() + Slash() + x);
    var up := p + Slash() + DotDot();
    assert r == up + Slash() + x;
    SplitAppend(p, DotDot());
    SplitAppend(up, x);
    assert Split(r) == Split(p) + [DotDot(), x];
    if !Rooted(p) { RelativeNormal(p); }
    FoldAppend(Start(p), Split(p), [DotDot(), x]);
    assert Start(r) == Start(p);
    FoldTwo(parts, DotDot(), x);
    assert parts[|parts| - 1] == parts[1..][|parts| - 2];
    assert Push(parts, DotDot()) == parts[..|parts| - 1];
    CleanParts(r);
  }
}
