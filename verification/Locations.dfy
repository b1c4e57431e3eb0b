/** Where a path leads in the in-memory filesystem: canonical paths, parents and filenames, without the tree. */
module Locations {
  import opened PathText
  import opened PathMeaning
  import opened PathParts
  import opened Paths

  /** FakeWeaklyCanonical: the normal form of the path, read in the current directory. */
  function Canonical(cwd: string, path: string): string {
    if path == "" then path
    else if Rooted(path) then NormalForm(path)
    else NormalForm(Appended(cwd, path))
  }

  /** The location, as names from the root, that a path denotes in the current directory. */
  function Where(cwd: string, path: string): seq<string> {
    Resolve(Resolve([], cwd), path)
  }

  /**
  Paths of the same meaning, and a path and its normal form, lead to the same location from any current
  directory.
  */
  lemma SameMeaningSamePlace(cwd: string, p: string, q: string)
    requires Meaning(p) == Meaning(q)
    ensures Where(cwd, p) == Where(cwd, q) == Where(cwd, NormalForm(p))
  {
    SameMeaning(p, q);
    NormalFormResolves(Resolve([], cwd), p);
  }

  lemma {:induction false} WalkSplit(dir: seq<string>, a: seq<string>, b: seq<string>)
    ensures Walk(dir, a + b) == Walk(Walk(dir, a), b)
  {
    if b == [] {
      assert a + b == a;
    } else {
      var m := |b| - 1;
      assert (a + b)[..|a + b| - 1] == a + b[..m];
      WalkSplit(dir, a, b[..m]);
    }
  }

  lemma TrailingSeparator(h: string)
    ensures Components(h + [SEP]) == Components(h)
  {
    assert h + [SEP] == h + [SEP] + "";
    ComponentsSplit(h, "");
  }

  lemma AppendedAfterSeparator(h: string, q: string)
    ensures Components(h + [SEP] + q) == Components(h + [SEP]) + Components(q)
  {
    TrailingSeparator(h);
    ComponentsSplit(h, q);
  }

  lemma AppendedComponents(p: string, q: string)
    requires p != "" && q != "" && !Rooted(q)
    ensures Components(Appended(p, q)) == Components(p) + Components(q)
  {
    if p[|p| - 1] == SEP {
      var h := p[..|p| - 1];
      assert p == h + [SEP];
      AppendedAfterSeparator(h, q);
    } else {
      ComponentsSplit(p, q);
    }
  }

  lemma AppendedEnds(p: string, q: string)
    requires p != "" && q != "" && !Rooted(q)
    ensures Rooted(Appended(p, q)) == Rooted(p) && Appended(p, q)[|Appended(p, q)| - 1] == q[|q| - 1]
  {
  }

  /** Appending puts exactly one separator between two paths, and adds none elsewhere. */
  lemma AppendedSingle(p: string, q: string)
    requires p != "" && q != "" && !Rooted(q) && Single(p) && Single(q)
    ensures Single(Appended(p, q))
  {
    if p[|p| - 1] == SEP {
      SingleParts(p, q);
    } else {
      SingleParts(p, [SEP]);
      SingleParts(p + [SEP], q);
    }
  }

  /** The full path that is normalised. */
  function Full(cwd: string, path: string): string {
    if Rooted(path) then path else Appended(cwd, path)
  }

  lemma FullPath(cwd: string, path: string)
    requires Rooted(cwd) && path != ""
    ensures Rooted(Full(cwd, path))
    ensures Resolve([], Full(cwd, path)) == Where(cwd, path)
    ensures Canonical(cwd, path) == NormalForm(Full(cwd, path))
  {
    if !Rooted(path) {
      AppendedEnds(cwd, path);
      AppendedComponents(cwd, path);
      WalkSplit([], Components(cwd), Components(path));
    }
  }

  lemma FullMark(cwd: string, path: string)
    requires Rooted(cwd) && path != ""
    ensures MarksDirectory(Full(cwd, path)) == MarksDirectory(path)
  {
    if !Rooted(path) {
      AppendedEnds(cwd, path);
      AppendedComponents(cwd, path);
      NoComponents(path);
      LastOfConcat(Components(cwd), Components(path));
    }
  }

  lemma LastOfConcat(a: seq<string>, b: seq<string>)
    requires b != []
    ensures EndsInDots(a + b) == EndsInDots(b)
  {
  }

  lemma RootedMeaning(p: string)
    requires Rooted(p)
    ensures Meaning(p) == Route(true, 0, Resolve([], p)) && AllNames(Resolve([], p))
  {
    MeaningNormal(p);
    ResolveFollows([], p);
  }

  /** A canonical path is a run of separators, or the spelling of the location with the directory mark of the path. */
  lemma CanonicalShape(cwd: string, path: string)
    requires Rooted(cwd) && path != ""
    ensures var c, at := Canonical(cwd, path), Where(cwd, path);
            && Rooted(c) && Resolve([], c) == at && AllNames(at)
            && ((SeparatorsOnly(c) && at == []) || c == Spell(Route(true, 0, at), MarksDirectory(path)))
  {
    var f := Full(cwd, path);
    FullPath(cwd, path);
    FullMark(cwd, path);
    RootedMeaning(f);
    NormalFormResolves([], f);
    if SeparatorsOnly(f) {
      NoComponents(f);
    } else {
      SpellComponents(Meaning(f), MarksDirectory(f));
    }
  }

  /** What an iterator over a rooted path visits after the root. */
  function StepsOf(c: string): seq<string> {
    if Stored(c) == [] then [] else Stored(c)[1..]
  }

  lemma CanonicalSteps(cwd: string, path: string)
    requires Rooted(cwd) && path != ""
    ensures var c, at := Canonical(cwd, path), Where(cwd, path);
            StepsOf(c) == at + if MarksDirectory(path) && at != [] then [""] else []
  {
    CanonicalShape(cwd, path);
    if SeparatorsOnly(Canonical(cwd, path)) {
      NoComponents(Canonical(cwd, path));
    } else {
      SpellSteps(Where(cwd, path), MarksDirectory(path));
    }
  }

  lemma RootedSteps(c: string)
    requires Rooted(c)
    ensures StepsOf(c) == Components(c) + if c[|c| - 1] == SEP && Components(c) != [] then [""] else []
  {
    AfterFirst(Components(c), if c[|c| - 1] == SEP && Components(c) != [] then [""] else []);
  }

  lemma AfterFirst(cs: seq<string>, tail: seq<string>)
    ensures ([ROOT] + cs + tail)[1..] == cs + tail && |[ROOT] + cs + tail| == 1 + |cs| + |tail|
    ensures |cs + tail| == 0 ==> cs + tail == []
  {
  }

  lemma SpellSteps(at: seq<string>, mark: bool)
    requires AllNames(at)
    ensures StepsOf(Spell(Route(true, 0, at), mark)) == at + if mark && at != [] then [""] else []
  {
    SpellEnd(at, mark);
    SpellComponents(Route(true, 0, at), mark);
    RootedSteps(Spell(Route(true, 0, at), mark));
  }

  lemma SpellEnd(at: seq<string>, mark: bool)
    requires AllNames(at)
    ensures var c := Spell(Route(true, 0, at), mark);
            c != "" && (c[|c| - 1] == SEP <==> mark || at == [])
    ensures Dots(0) + at == at
  {
    assert Dots(0) + at == at;
    if at != [] { JoinEnds(at); }
  }

  // ----- parents and filenames of canonical paths -----

  /**
  The slot a removal or creation addresses: the location itself, or the empty name in it for a directory
  spelling.
  */
  function Slot(cwd: string, path: string): seq<string> {
    Where(cwd, path) + if MarksDirectory(path) then [""] else []
  }

  function Parent(at: seq<string>): seq<string> {
    if at == [] then [] else at[..|at| - 1]
  }

  function Name(at: seq<string>): string {
    if at == [] then "" else at[|at| - 1]
  }

  lemma SlotUnmarked(cwd: string, path: string)
    requires Rooted(cwd) && path != "" && !MarksDirectory(path)
    ensures Slot(cwd, path) == Where(cwd, path) != []
    ensures Parent(Slot(cwd, path)) + [Name(Slot(cwd, path))] == Slot(cwd, path)
  {
    NameUnlessMarked(cwd, path);
    assert Slot(cwd, path) == Where(cwd, path);
  }

  /** A path not spelled as a directory names something below the root. */
  lemma NameUnlessMarked(cwd: string, path: string)
    requires Rooted(cwd) && path != "" && !MarksDirectory(path)
    ensures Where(cwd, path) != []
  {
    NoComponents(path);
    var cs := Components(path);
    ComponentsAre(path);
    assert cs != [];
    var m := |cs| - 1;
    var start := if Rooted(path) then [] else Resolve([], cwd);
    assert Walk(start, cs) == Go(Walk(start, cs[..m]), cs[m]);
    assert cs[m] != "";
  }

  lemma LastSeparatorIs(p: string, k: nat)
    requires k < |p| && p[k] == SEP && forall i :: k < i < |p| ==> p[i] != SEP
    ensures LastSeparator(p) == k
  {
  }

  /** A name, or nothing, after a separator is the filename; what stands before is the parent. */
  lemma SplitName(head: string, n: string)
    requires SEP !in n && (head != "" || n != "") && (head != "" ==> head[|head| - 1] != SEP)
    ensures var c := head + [SEP] + n;
            FilenameOf(c) == n && ParentDefined(c) && ParentOf(c) == if head == "" then ROOT else head
  {
    var c := head + [SEP] + n;
    var k := |head|;
    forall i | k < i < |c| ensures c[i] != SEP {
      assert c[i] == n[i - k - 1];
    }
    LastSeparatorIs(c, k);
    assert c[k + 1..] == n;
    if head == "" {
      assert c[1] != SEP;
    } else {
      assert c[k - 1] == head[k - 1];
      assert TrimEnd(c, k) == k;
      assert c[..k] == head;
    }
  }

  /** The last name of a location stands after the last separator of its spelling. */
  lemma SpellLast(at: seq<string>)
    requires AllNames(at) && at != []
    ensures var m := |at| - 1;
            Spell(Route(true, 0, at), false) ==
            (if m == 0 then "" else Spell(Route(true, 0, at[..m]), false)) + [SEP] + at[m]
  {
    SpellEnd(at, false);
    SpellEnd(at[..|at| - 1], false);
  }

  /** Splitting the spelling of a location below the root. */
  lemma SpellSplit(at: seq<string>)
    requires AllNames(at) && at != []
    ensures var c := Spell(Route(true, 0, at), false);
            && FilenameOf(c) == at[|at| - 1]
            && ParentDefined(c)
            && ParentOf(c) == Spell(Route(true, 0, at[..|at| - 1]), false)
  {
    var m := |at| - 1;
    var up, n := at[..m], at[m];
    SpellLast(at);
    SpellEnd(up, false);
    assert IsName(n);
    SplitName(if m == 0 then "" else Spell(Route(true, 0, up), false), n);
  }

  /** Splitting the spelling of a location as a directory. */
  lemma SpellSplitMarked(at: seq<string>)
    requires AllNames(at) && at != []
    ensures var c := Spell(Route(true, 0, at), true);
            FilenameOf(c) == "" && ParentDefined(c) && ParentOf(c) == Spell(Route(true, 0, at), false)
  {
    var p := Spell(Route(true, 0, at), false);
    SpellEnd(at, false);
    SpellSeparated(Route(true, 0, at));
    assert p + [SEP] == p + [SEP] + "";
    SplitName(p, "");
  }

  /** The parent path and filename of a canonical path address the slot. */
  lemma CanonicalSplit(cwd: string, path: string)
    requires Rooted(cwd) && path != ""
    ensures Slot(cwd, path) != []
    ensures var c, slot := Canonical(cwd, path), Slot(cwd, path);
            && ParentDefined(c) && ParentOf(c) != ""
            && Where(cwd, ParentOf(c)) == Parent(slot)
            && FilenameOf(c) == Name(slot)
            && (FilenameOf(c) == "" <==> MarksDirectory(path))
  {
    CanonicalShape(cwd, path);
    if MarksDirectory(path) {
      MarkedSplit(cwd, Canonical(cwd, path), Where(cwd, path));
    } else {
      NameUnlessMarked(cwd, path);
      UnmarkedSplit(cwd, Where(cwd, path));
    }
  }

  lemma UnmarkedSplit(cwd: string, at: seq<string>)
    requires AllNames(at) && at != []
    ensures var c := Spell(Route(true, 0, at), false);
            && !SeparatorsOnly(c)
            && ParentDefined(c) && ParentOf(c) != ""
            && Where(cwd, ParentOf(c)) == at[..|at| - 1]
            && FilenameOf(c) == at[|at| - 1] && FilenameOf(c) != ""
    ensures at + [] == at
  {
    SpellEnd(at, false);
    SpellSplit(at);
    SpelledWhere(cwd, at[..|at| - 1]);
    assert IsName(at[|at| - 1]);
  }

  lemma MarkedSplit(cwd: string, c: string, at: seq<string>)
    requires AllNames(at) && ((SeparatorsOnly(c) && at == []) || c == Spell(Route(true, 0, at), true))
    ensures ParentDefined(c) && ParentOf(c) != "" && Where(cwd, ParentOf(c)) == at && FilenameOf(c) == ""
    ensures (at + [""])[..|at|] == at
  {
    if at == [] {
      RootSplit(cwd, c);
    } else {
      SpellSplitMarked(at);
      SpelledWhere(cwd, at);
    }
  }

  lemma RootSplit(cwd: string, c: string)
    requires SeparatorsOnly(c) || c == Spell(Route(true, 0, []), true)
    ensures ParentDefined(c) && ParentOf(c) == c && c != "" && FilenameOf(c) == "" && Where(cwd, c) == []
  {
    SpellEnd([], true);
    assert OnlySeparators(c);
    NoComponents(c);
    assert c[|c| - 1] == SEP;
  }

  lemma SpelledWhere(cwd: string, at: seq<string>)
    requires AllNames(at)
    ensures var p := Spell(Route(true, 0, at), false); p != "" && Rooted(p) && Where(cwd, p) == at
  {
    var r := Route(true, 0, at);
    var p := Spell(r, false);
    SpellComponents(r, false);
    SpellRead(r, false);
    ResolveFollows(Resolve([], cwd), p);
  }
}
