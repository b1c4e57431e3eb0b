/** The path class: a string, and the parts it was split into. */
module Paths {
  import opened Common
  import opened PathText
  import opened PathMeaning
  import opened PathParts

  /** What the parser stores: the parts, but none for a path of a single part. */
  function Stored(p: string): seq<string> {
    if |PartsOf(p)| == 1 then [] else PartsOf(p)
  }

  // ----- position helpers -----

  /** find_last_of: the last separator among the first n characters, or -1. */
  function LastBelow(p: string, n: nat): (k: int)
    requires n <= |p|
    ensures -1 <= k < n
    ensures k >= 0 ==> p[k] == SEP
    ensures forall i :: k < i < n ==> p[i] != SEP
  {
    if n == 0 then -1 else if p[n - 1] == SEP then n - 1 else LastBelow(p, n - 1)
  }

  function LastSeparator(p: string): (k: int)
    ensures -1 <= k < |p|
  {
    LastBelow(p, |p|)
  }

  /** The text after the last separator; a path that ends with one has no filename. */
  function FilenameOf(p: string): string {
    p[LastSeparator(p) + 1..]
  }

  predicate OnlySeparators(p: string) {
    forall i :: 0 <= i < |p| ==> p[i] == SEP
  }

  /** Of the first n characters, how many are left without the separators at their end. */
  function TrimEnd(p: string, n: nat): (j: nat)
    requires n <= |p|
    ensures j <= n && (j > 0 ==> p[j - 1] != SEP)
    ensures forall i :: j <= i < n ==> p[i] == SEP
  {
    if n == 0 || p[n - 1] != SEP then n else TrimEnd(p, n - 1)
  }

  /**
  What the backward scan of ParentPath needs: something other than separators before the last
  separator, unless that is the first character. Without it the scan runs off the front, as in "//a".
  */
  predicate ParentDefined(p: string) {
    var k := LastSeparator(p);
    OnlySeparators(p) || k <= 0 || TrimEnd(p, k) > 0
  }

  /** The branch of ParentPath that scans: a separator that is not the first character, and something else. */
  predicate Scans(p: string) {
    !OnlySeparators(p) && LastSeparator(p) > 0
  }

  /**
  The backward scan of ParentPath from position k: where it stops, or None if it reads before the first
  character.
  */
  function ScanBack(p: string, k: nat): Option<nat>
    requires k <= |p|
  {
    if k == 0 then None else if p[k - 1] == SEP then ScanBack(p, k - 1) else Some(k)
  }

  /** The path before its last component, without trailing separators. */
  function ParentOf(p: string): string {
    var k := LastSeparator(p);
    if p == "" then ""
    else if OnlySeparators(p) then p
    else if k == 0 then ROOT
    else if k < 0 then ""
    else p[..TrimEnd(p, k)]
  }

  /** operator/=, on the strings: an absolute right-hand side replaces the left one. */
  function Appended(p: string, q: string): string {
    if p == "" || Rooted(q) then q
    else if p[|p| - 1] == SEP then p + q
    else p + [SEP] + q
  }

  /** What appending a path to itself gives: a separator that was added is appended once more. */
  function SelfAppended(p: string): string {
    Appended(p, p) + if p == "" || Rooted(p) || p[|p| - 1] == SEP then [] else [SEP]
  }

  /** The condition of AddPreferredSeperatorIfNeeded. */
  predicate NeedsSeparator(parts: seq<string>, list: seq<string>, native: string)
    requires parts != [] && list != [] && native != ""
  {
    var last := parts[|parts| - 1];
    (last == DOT || last == DOTDOT) && list[|list| - 1] != DOTDOT && (|list| != 1 || native[0] != SEP)
  }

  class Path {
    var native: string
    var parts: seq<string>

    ghost predicate Valid()
      reads this
    {
      parts == Stored(native)
    }

    constructor (path: string)
      ensures Valid() && native == path
    {
      native := path;
      parts := [];
      new;
      Parse();
    }

    /** Parse: the root, the non-empty pieces between separators, and an empty part for a trailing separator. */
    method Parse()
      modifies this`parts
      ensures Valid()
    {
      parts := [];
      if native == "" {
        return;
      }
      var startsWithSeparator := native[0] == SEP;
      if startsWithSeparator {
        parts := parts + [ROOT];
      }
      AddPieces();
      if |parts| == 1 { NoComponents(native); }
      var isMultipart := |parts| > 1;
      var endsWithSeparator := native[|native| - 1] == SEP;
      EndsAndParts(native);
      if endsWithSeparator && (isMultipart || !startsWithSeparator) {
        parts := parts + [""];
      }
      if |parts| == 1 {
        parts := [];
      }
    }

    /** AddPathPartToParts: read up to the next separator until the text is used up. */
    method AddPieces()
      modifies this`parts
      ensures parts == old(parts) + Components(native)
    {
      var at := 0;
      ghost var found := [];
      assert native[0..] == native;
      while at < |native|
        invariant 0 <= at <= |native|
        invariant parts == old(parts) + found
        invariant found + Components(native[at..]) == Components(native)
      {
        var end := NextSeparator(at);
        var piece := native[at..end];
        NextPiece(native, found, at, end);
        if piece != "" {
          parts := parts + [piece];
          found := found + [piece];
        }
        at := if end < |native| then end + 1 else end;
      }
    }

    /** Where getline stops: at the next separator or at the end. */
    method NextSeparator(at: nat) returns (end: nat)
      requires at <= |native|
      ensures at <= end <= |native|
      ensures forall i :: at <= i < end ==> native[i] != SEP
      ensures end < |native| ==> native[end] == SEP
    {
      end := at;
      while end < |native| && native[end] != SEP
        invariant at <= end <= |native|
        invariant forall i :: at <= i < end ==> native[i] != SEP
      {
        end := end + 1;
      }
    }

    /** LexicallyNormal: the rewriting passes compute the one-pass normal form. */
    method LexicallyNormal() returns (r: string)
      requires Valid()
      ensures r == NormalForm(native)
    {
      if parts == [] {
        SinglePart(native);
        return native;
      }
      ghost var route, trail := Meaning(native), native[|native| - 1] == SEP;
      var list := DropDots(parts);
      ghost var cs := AfterDots(native);
      if list == [] {
        EmptyListMeansDot(native, cs);
        return DOT;
      }
      list, cs := CancelMoveUps(list, route.rooted, trail, cs, route);
      ghost var dots := CancelledShape(list, route.rooted, trail, cs, route);
      if list == [] {
        EmptyListMeansDot(native, cs);
        return DOT;
      }
      r := Finish(list, dots, route);
    }

    /** Steps 6 to 8 and the assembly of the result. */
    method Finish(cancelled: seq<string>, ghost dots: nat, ghost route: Route) returns (r: string)
      requires Valid() && parts != [] && cancelled != [] && route == Meaning(native) && native != ""
      requires AllNames(route.names) && route == Route(route.rooted, if route.rooted then 0 else dots, route.names)
      requires cancelled == Lay(route.rooted, Dots(dots) + route.names, native[|native| - 1] == SEP)
      ensures r == NormalForm(native)
    {
      FinishSpells(native, dots, cancelled);
      var list := DropMoveUpsAfterRoot(cancelled);
      list := DropTrailingSeparator(list);
      r := Assemble(list);
      if r == "" {
        return DOT;
      }
      r := AddSeparatorIfNeeded(list, r);
    }

    /** copy_if in step 4. */
    method DropDots(from: seq<string>) returns (out: seq<string>)
      ensures out == WithoutDots(from)
    {
      out := [];
      var k := 0;
      while k < |from|
        invariant 0 <= k <= |from|
        invariant out == WithoutDots(from[..k])
      {
        assert from[..k + 1][..k] == from[..k];
        if from[k] != DOT {
          out := out + [from[k]];
        }
        k := k + 1;
      }
      assert from[..|from|] == from;
    }

    /** AddPreferredSeperatorIfNeeded. */
    method AddSeparatorIfNeeded(list: seq<string>, text: string) returns (r: string)
      requires parts != [] && list != [] && native != ""
      ensures r == if NeedsSeparator(parts, list, native) then text + [SEP] else text
    {
      r := text;
      var lastWasDot := parts[|parts| - 1] == DOT || parts[|parts| - 1] == DOTDOT;
      if lastWasDot && list[|list| - 1] != DOTDOT && (|list| != 1 || native[0] != SEP) {
        r := r + [SEP];
      }
    }

    /** ParentPath. */
    method ParentPath() returns (r: string)
      requires Valid() && ParentDefined(native)
      ensures r == ParentOf(native)
      ensures Scans(native) ==> ScanBack(native, LastSeparator(native)) == Some(|r|)
    {
      if native == "" {
        return "";
      }
      var first := 0;
      while first < |native| && native[first] == SEP
        invariant 0 <= first <= |native| && OnlySeparators(native[..first])
      {
        first := first + 1;
      }
      if first == |native| {
        assert native[..first] == native;
        return native;
      }
      var position := LastSeparator(native);
      if position == 0 {
        return ROOT;
      }
      if position < 0 {
        return "";
      }
      ghost var last := position;
      while native[position - 1] == SEP
        invariant 0 < position <= last && TrimEnd(native, position) == TrimEnd(native, last) > 0
        invariant ScanBack(native, position) == ScanBack(native, last)
        decreases position
      {
        position := position - 1;
      }
      r := native[..position];
    }

    /** Filename: the end of the path that has no separator, after one or after nothing. */
    method Filename() returns (r: string)
      requires Valid()
      ensures |r| <= |native| && native == native[..|native| - |r|] + r && SEP !in r
      ensures |r| < |native| ==> native[|native| - |r| - 1] == SEP
      ensures r == FilenameOf(native)
    {
      FilenameEnds(native);
      if native == "" {
        return "";
      }
      var position := LastSeparator(native) + 1;
      if position == |native| {
        return "";
      }
      r := native[position..];
    }

    /** operator/=, which reads the right-hand side after the separator was added. */
    method Append(other: Path)
      requires Valid()
      modifies this
      ensures Valid()
      ensures other != this ==> native == Appended(old(native), old(other.native))
      ensures other == this ==> native == SelfAppended(old(native))
    {
      if native == "" || (other.native != "" && other.native[0] == SEP) {
        native := other.native;
      } else {
        if native[|native| - 1] != SEP {
          native := native + [SEP];
        }
        native := native + other.native;
      }
      Parse();
    }
  }

  // ----- appending a path to itself -----

  /** A separator behind a path that is not empty does not change its meaning. */
  lemma SeparatorAfter(p: string, end: string)
    requires end == []
    ensures p != "" ==> Meaning(p + [SEP]) == Meaning(p)
  {
    assert p + [SEP] + end == p + [SEP];
    ComponentsSplit(p, end);
    assert Components(end) == [];
    assert Components(p) + [] == Components(p);
  }

  /**
  A path appended to itself is the path appended to an equal one exactly if it is empty, absolute, or ends in a
  separator. Otherwise a separator follows, so it is spelled as a directory, but it means the same.
  */
  lemma SelfAppendDiffers(p: string)
    ensures var plain := p == "" || Rooted(p) || p[|p| - 1] == SEP;
            && (SelfAppended(p) == Appended(p, p) <==> plain)
            && (!plain ==> SelfAppended(p) == p + [SEP] + p + [SEP] && MarksDirectory(SelfAppended(p)))
    ensures Meaning(SelfAppended(p)) == Meaning(Appended(p, p))
    ensures SelfAppended("a") == "a/a/" && Appended("a", "a") == "a/a"
  {
    assert SelfAppended(p) == Appended(p, p) ==> |SelfAppended(p)| == |Appended(p, p)|;
    SeparatorAfter(Appended(p, p), []);
  }

  // ----- parent and filename -----

  /**
  Appending the filename to the parent path rebuilds a path with a filename exactly when its last
  separator does not follow another separator.
  */
  lemma ParentAppendFilename(p: string)
    requires FilenameOf(p) != "" && ParentDefined(p)
    ensures var k := LastSeparator(p);
            Appended(ParentOf(p), FilenameOf(p)) == p <==> k <= 0 || p[k - 1] != SEP
  {
    var k, f := LastSeparator(p), FilenameOf(p);
    FilenameEnds(p);
    if k == 0 {
      assert p == ROOT + f;
    } else if k > 0 {
      var j := TrimEnd(p, k);
      assert p[..j][j - 1] == p[j - 1] && f[0] == p[k + 1];
      assert j == k ==> p == p[..j] + [SEP] + f;
    }
  }

  /** A filename is the end of the path that has no separator, after one or after nothing. */
  lemma FilenameEnds(p: string)
    ensures var f := FilenameOf(p);
            && |f| == |p| - LastSeparator(p) - 1 && p == p[..|p| - |f|] + f && SEP !in f
            && (|f| < |p| ==> p[|p| - |f| - 1] == SEP)
  {
  }

  lemma {:induction false} ScanTrims(p: string, k: nat)
    requires k <= |p|
    ensures ScanBack(p, k) == if TrimEnd(p, k) == 0 then None else Some(TrimEnd(p, k))
  {
    if k > 0 && p[k - 1] == SEP {
      ScanTrims(p, k - 1);
    }
  }

  /**
  The scan of ParentPath reads before the first character exactly where its condition fails: where
  nothing but separators stands before the last one. "//a" is such a path.
  */
  lemma ParentScanEscapes(p: string)
    ensures ParentDefined(p) <==> (Scans(p) ==> ScanBack(p, LastSeparator(p)).Some?)
    ensures Scans(p) ==>
              (ScanBack(p, LastSeparator(p)).None? <==> forall i :: 0 <= i < LastSeparator(p) ==> p[i] == SEP)
    ensures Scans("//a") && ScanBack("//a", LastSeparator("//a")).None?
  {
    if LastSeparator(p) > 0 { ScanTrims(p, LastSeparator(p)); }
    var q := "//a";
    assert LastBelow(q, 2) == 1;
    assert LastBelow(q, 3) == LastBelow(q, 2);
    assert ScanBack(q, 1) == ScanBack(q, 0);
    assert q[2] != SEP;
  }

  // ----- parsing -----

  lemma EndsAndParts(p: string)
    requires p != ""
    ensures !Rooted(p) ==> Components(p) != []
  {
    NoComponents(p);
  }

  lemma PieceComponents(p: string, at: nat, end: nat)
    requires at <= end <= |p| && (forall i :: at <= i < end ==> p[i] != SEP) && (end < |p| ==> p[end] == SEP)
    ensures Components(p[at..]) ==
            (if at < end then [p[at..end]] else []) + Components(p[if end < |p| then end + 1 else end..])
  {
    var s := p[at..];
    RunUnique(s, end - at);
    assert s[..end - at] == p[at..end];
    assert s[end - at..] == p[end..];
    if end < |p| {
      assert p[end..][1..] == p[end + 1..];
    }
  }

  lemma NextPiece(p: string, found: seq<string>, at: nat, end: nat)
    requires at <= end <= |p| && (forall i :: at <= i < end ==> p[i] != SEP) && (end < |p| ==> p[end] == SEP)
    requires found + Components(p[at..]) == Components(p)
    ensures found + (if at < end then [p[at..end]] else []) + Components(p[if end < |p| then end + 1 else end..])
         == Components(p)
  {
    PieceComponents(p, at, end);
  }

  lemma StoredLay(p: string)
    requires Stored(p) != []
    ensures p != "" && Stored(p) == Lay(Rooted(p), Components(p), p[|p| - 1] == SEP)
  {
    NoComponents(p);
  }

  /** A path of a single part is its own normal form, and so is a run of separators and the empty path. */
  lemma SinglePart(p: string)
    requires Stored(p) == []
    ensures NormalForm(p) == p
  {
    NoComponents(p);
    if p != "" && !SeparatorsOnly(p) {
      if Components(p) == [] {
        assert p == ROOT;
        assert ReadAll(Origin(p), []) == Origin(p);
        assert Join(Dots(0) + []) == "";
      } else {
        OneComponent(p);
        var c := Components(p)[0];
        assert Components(p) == [c];
        var o := Origin(p);
        assert [c][..0] == [] && ReadAll(o, [c]) == Read(o, c);
        if c == DOTDOT {
          assert Dots(1) + [] == [DOTDOT];
        } else if c != DOT {
          assert Dots(0) + [c] == [c];
        }
      }
    }
  }

  lemma OneComponent(p: string)
    requires Stored(p) == [] && Components(p) != []
    ensures !Rooted(p) && Components(p) == [p] && p[|p| - 1] != SEP
  {
    assert |PartsOf(p)| == 1;
    OneRun(p);
  }

  lemma OneRun(p: string)
    requires p != "" && p[0] != SEP && p[|p| - 1] != SEP && |Components(p)| == 1
    ensures Components(p) == [p]
  {
    var n, rest := Run(p), p[Run(p)..];
    assert rest != "" ==> rest[|rest| - 1] == p[|p| - 1];
    NoComponents(rest);
    assert p[..|p|] == p;
  }

  // ----- the passes -----

  /** The list of step 4 is laid out over the components without dots. */
  lemma AfterDots(p: string) returns (cs: seq<string>)
    requires Stored(p) != []
    ensures p != "" && LaidOut(WithoutDots(Stored(p)), Rooted(p), p[|p| - 1] == SEP, cs, Meaning(p))
    ensures Meaning(p).rooted == Rooted(p) && Normal(Meaning(p))
  {
    cs := WithoutDots(Components(p));
    StoredLay(p);
    ComponentsAre(p);
    MeaningNormal(p);
    WithoutDotsReads(Origin(p), Components(p));
    WithoutDotsLay(Rooted(p), Components(p), p[|p| - 1] == SEP);
  }

  lemma EmptyListMeansDot(p: string, cs: seq<string>)
    requires Stored(p) != [] && p != ""
    requires LaidOut([], Rooted(p), p[|p| - 1] == SEP, cs, Meaning(p))
    ensures NormalForm(p) == DOT
  {
    assert |Lay(Rooted(p), cs, p[|p| - 1] == SEP)| == 0;
    assert cs == [];
  }

  lemma EmptyTextMeansDot(p: string)
    requires Stored(p) != [] && Meaning(p) == Route(false, 0, [])
    ensures NormalForm(p) == DOT
  {
    StoredLay(p);
    NoComponents(p);
    MeaningNormal(p);
  }

  /** What steps 6 and 7 leave of a list without cancelling pairs. */
  lemma AfterDrops(dots: nat, r: Route, trail: bool)
    requires AllNames(r.names) && r == Route(r.rooted, if r.rooted then 0 else dots, r.names)
    ensures NoTrailingSeparator(NoMoveUpsAfterRoot(Lay(r.rooted, Dots(dots) + r.names, trail))) ==
            Lay(r.rooted, Dots(r.ups) + r.names, trail && (r.rooted || r.ups == 0 || r.names != []))
  {
    if r.rooted {
      RootedDrop(dots, r.names, trail);
    } else {
      assert Lay(false, Dots(dots) + r.names, trail) != [] ==> !IsRoot(Lay(false, Dots(dots) + r.names, trail)[0]);
    }
    AfterTrailDrop(r, trail);
  }

  lemma RootedDrop(dots: nat, names: seq<string>, trail: bool)
    requires AllNames(names)
    ensures NoMoveUpsAfterRoot(Lay(true, Dots(dots) + names, trail)) == Lay(true, Dots(0) + names, trail)
  {
    var tail := if trail then [""] else [];
    var list := [ROOT] + (Dots(dots) + names) + tail;
    ConcatFour([ROOT], Dots(dots), names, tail);
    var rest := Dots(dots) + (names + tail);
    assert list[1..] == rest;
    LeadingDotsUnique(rest, dots);
    assert list[1 + dots..] == names + tail;
    assert Dots(0) + names == names;
    assert [ROOT] + (names + tail) == [ROOT] + names + tail;
  }

  lemma ConcatFour(a: seq<string>, b: seq<string>, c: seq<string>, d: seq<string>)
    ensures a + (b + c) + d == a + (b + (c + d))
  {
  }

  lemma AfterTrailDrop(r: Route, trail: bool)
    requires Normal(r)
    ensures NoTrailingSeparator(Lay(r.rooted, Dots(r.ups) + r.names, trail)) ==
            Lay(r.rooted, Dots(r.ups) + r.names, trail && (r.rooted || r.ups == 0 || r.names != []))
  {
    var cs := Dots(r.ups) + r.names;
    var list := Lay(r.rooted, cs, trail);
    if trail && cs != [] {
      assert list[|list| - 2] == cs[|cs| - 1];
      assert r.names != [] ==> cs[|cs| - 1] == r.names[|r.names| - 1];
      assert list[..|list| - 1] == Lay(r.rooted, cs, false);
    } else if cs != [] {
      assert list[|list| - 1] == cs[|cs| - 1];
    }
  }

  lemma LeadingDotsUnique(cs: seq<string>, n: nat)
    requires n <= |cs| && (forall i :: 0 <= i < n ==> cs[i] == DOTDOT) && (n < |cs| ==> cs[n] != DOTDOT)
    ensures LeadingDots(cs) == n
  {
  }

  lemma LaySolid(rooted: bool, cs: seq<string>, trail: bool)
    requires AllComponents(cs)
    ensures Solid(Lay(rooted, cs, trail))
    ensures forall i :: 1 <= i < |Lay(rooted, cs, trail)| ==> !IsRoot(Lay(rooted, cs, trail)[i])
  {
  }

  lemma JoinTrail(cs: seq<string>, trail: bool)
    ensures Join(cs + if trail then [""] else []) == Join(cs) + if trail && cs != [] then [SEP] else []
  {
    if trail {
      assert (cs + [""])[..|cs|] == cs;
      if cs == [] { assert cs + [""] == [""]; }
    } else {
      assert cs + [] == cs;
    }
  }

  /** The assembled string is the spelling of the route up to the mark. */
  lemma AssembledLay(r: Route, keep: bool)
    requires Normal(r) && (keep ==> r.rooted || r.ups == 0 || r.names != [])
    ensures var s := Assembled(Lay(r.rooted, Dots(r.ups) + r.names, keep));
            && (s == "" <==> !r.rooted && r.ups == 0 && r.names == [])
            && (s != "" ==> s == Spell(r, keep))
  {
    var cs := Dots(r.ups) + r.names;
    var tail := if keep then [""] else [];
    JoinTrail(cs, keep);
    assert AllComponents(cs);
    if cs != [] { JoinEnds(cs); }
    if r.rooted {
      AssembledRooted(cs, tail);
    } else {
      AssembledRelative(cs, tail);
    }
  }

  lemma AssembledRooted(cs: seq<string>, tail: seq<string>)
    ensures Assembled([ROOT] + cs + tail) == ROOT + Join(cs + tail)
  {
    assert ([ROOT] + cs + tail)[1..] == cs + tail;
  }

  lemma AssembledRelative(cs: seq<string>, tail: seq<string>)
    requires AllComponents(cs) && (tail == [] || tail == [""])
    ensures Assembled([] + cs + tail) == Join(cs + tail)
  {
    assert [] + cs + tail == cs + tail;
    assert cs + tail != [] ==> !IsRoot((cs + tail)[0]);
  }

  /**
  The text that is assembled from a list has its components in their order, begins with a separator exactly if the
  list begins with the root, has no two separators in a row, and ends in one for a trailing empty part.
  */
  lemma AssembledText(rooted: bool, cs: seq<string>, trail: bool)
    requires AllComponents(cs)
    ensures var s := Assembled(Lay(rooted, cs, trail));
            && Components(s) == cs && Rooted(s) == rooted && Single(s)
            && (EndsInSeparator(s) <==> if cs == [] then rooted else trail)
  {
    var tail, mark := if trail then [""] else [], if trail && cs != [] then [SEP] else [];
    JoinTrail(cs, trail);
    BodyText(cs, mark);
    if rooted {
      AssembledRooted(cs, tail);
      AfterRoot(Join(cs) + mark);
    } else {
      AssembledRelative(cs, tail);
    }
  }

  lemma BodyText(cs: seq<string>, mark: string)
    requires AllComponents(cs) && (mark == [] || (mark == [SEP] && cs != []))
    ensures var b := Join(cs) + mark;
            && Components(b) == cs && !Rooted(b) && Single(b)
            && (EndsInSeparator(b) <==> mark != []) && (b == [] <==> cs == [])
  {
    ComponentsJoin(cs);
    JoinSingle(cs);
    if cs != [] { JoinEnds(cs); }
    SingleParts(Join(cs), mark);
    SeparatorComponents(Join(cs), mark, []);
  }

  lemma AfterRoot(b: string)
    requires !Rooted(b) && Single(b)
    ensures Components([SEP] + b) == Components(b) && Single([SEP] + b)
    ensures EndsInSeparator([SEP] + b) <==> b == [] || EndsInSeparator(b)
  {
    SingleParts([SEP], b);
    assert ([SEP] + b)[1..] == b;
  }

  lemma SeparatorComponents(p: string, mark: string, end: string)
    requires mark == [] || mark == [SEP]
    requires end == []
    ensures Components(p + mark) == Components(p)
  {
    if mark == [] {
      assert p + mark == p;
    } else {
      assert p + [SEP] + end == p + mark;
      ComponentsSplit(p, end);
    }
  }

  /** No parts are stored exactly for the empty path, for separators alone, and for one component alone. */
  lemma NoParts(p: string)
    ensures Stored(p) == [] <==> OnlySeparators(p) || SEP !in p
  {
    NoComponents(p);
    if SEP !in p && p != "" {
      ComponentAlone(p);
    } else if |Components(p)| == 1 && !Rooted(p) && !EndsInSeparator(p) {
      OneRun(p);
      ComponentInside(p);
    }
  }

  lemma ComponentInside(p: string)
    requires Components(p) == [p]
    ensures SEP !in p
  {
    ComponentsAre(p);
    assert IsComponent(Components(p)[0]);
  }

  /** Assembling the stored parts of a path with single separators gives the path back. */
  lemma PartsRoundTrip(p: string)
    requires Stored(p) != [] && Single(p)
    ensures Assembled(Stored(p)) == p
  {
    StoredLay(p);
    NoComponents(p);
    ComponentsAre(p);
    AssembledText(Rooted(p), Components(p), EndsInSeparator(p));
    TextDetermined(Assembled(Stored(p)), p);
  }

  lemma MarkOf(p: string)
    requires Stored(p) != []
    ensures var last := Stored(p)[|Stored(p)| - 1];
            && MarksDirectory(p) == (p[|p| - 1] == SEP || last == DOT || last == DOTDOT)
            && (p[|p| - 1] == SEP ==> last == "")
  {
    StoredLay(p);
    NoComponents(p);
  }

  /** When the last separator is added. */
  lemma NeedsMark(p: string, r: Route, keep: bool)
    requires Stored(p) != [] && r == Meaning(p) && (r.rooted || r.ups > 0 || r.names != [])
    requires keep == (p[|p| - 1] == SEP && (r.rooted || r.ups == 0 || r.names != []))
    ensures Lay(r.rooted, Dots(r.ups) + r.names, keep) != []
    ensures NeedsSeparator(Stored(p), Lay(r.rooted, Dots(r.ups) + r.names, keep), p) ==
            (p[|p| - 1] != SEP && MarksDirectory(p) && r.names != [])
  {
    MarkOf(p);
    MeaningNormal(p);
    LastOfLay(r);
  }

  /** The last separator is added exactly where the spelling has one and the list did not supply it. */
  lemma MarkAdded(p: string, r: Route, keep: bool, needed: bool)
    requires Stored(p) != [] && r == Meaning(p)
    requires keep == (p[|p| - 1] == SEP && (r.rooted || r.ups == 0 || r.names != []))
    requires needed == (p[|p| - 1] != SEP && MarksDirectory(p) && r.names != [])
    ensures Spell(r, keep) + (if needed then [SEP] else []) == NormalForm(p)
  {
    NoComponents(p);
    assert Spell(r, keep) + [] == Spell(r, keep);
    if r.names != [] { SpellSeparated(r); }
  }

  /** Steps 7 and 8 on the final list: assembled, with the last separator, it is the normal form. */
  lemma LaySpells(p: string, r: Route, keep: bool)
    requires Stored(p) != [] && p != "" && r == Meaning(p) && AllNames(r.names) && (r.rooted ==> r.ups == 0)
    requires keep == (p[|p| - 1] == SEP && (r.rooted || r.ups == 0 || r.names != []))
    ensures var list := Lay(r.rooted, Dots(r.ups) + r.names, keep);
            && (Assembled(list) == "" ==> NormalForm(p) == DOT)
            && (Assembled(list) != "" ==>
                  && list != []
                  && Assembled(list) + (if NeedsSeparator(Stored(p), list, p) then [SEP] else []) == NormalForm(p))
  {
    AssembledLay(r, keep);
    if !r.rooted && r.ups == 0 && r.names == [] {
      EmptyTextMeansDot(p);
    } else {
      NeedsMark(p, r, keep);
      MarkAdded(p, r, keep, p[|p| - 1] != SEP && MarksDirectory(p) && r.names != []);
    }
  }

  /** Steps 6 to 8 spell the normal form. */
  lemma FinishSpells(p: string, dots: nat, cancelled: seq<string>)
    requires Stored(p) != [] && p != "" && cancelled != []
    requires var r := Meaning(p); AllNames(r.names) && r == Route(r.rooted, if r.rooted then 0 else dots, r.names)
    requires cancelled == Lay(Meaning(p).rooted, Dots(dots) + Meaning(p).names, p[|p| - 1] == SEP)
    ensures var list := NoTrailingSeparator(NoMoveUpsAfterRoot(cancelled));
            && Solid(list) && (forall i :: 1 <= i < |list| ==> !IsRoot(list[i]))
            && (Assembled(list) == "" ==> NormalForm(p) == DOT)
            && (Assembled(list) != "" ==>
                  && list != []
                  && Assembled(list) + (if NeedsSeparator(Stored(p), list, p) then [SEP] else []) == NormalForm(p))
  {
    var r, trail := Meaning(p), p[|p| - 1] == SEP;
    var keep := trail && (r.rooted || r.ups == 0 || r.names != []);
    AfterDrops(dots, r, trail);
    LaySolid(r.rooted, Dots(r.ups) + r.names, keep);
    LaySpells(p, r, keep);
  }

  lemma LastOfLay(r: Route)
    requires Normal(r) && (r.rooted || r.ups > 0 || r.names != [])
    ensures var list := Lay(r.rooted, Dots(r.ups) + r.names, false);
            && list != []
            && (list[|list| - 1] == DOTDOT <==> r.names == [] && !r.rooted)
            && (r.names == [] && r.rooted ==> |list| == 1)
            && (r.names != [] && r.rooted ==> |list| > 1)
  {
    var cs := Dots(r.ups) + r.names;
    var list := Lay(r.rooted, cs, false);
    if cs != [] {
      assert list[|list| - 1] == cs[|cs| - 1];
      assert r.names != [] ==> cs[|cs| - 1] == r.names[|r.names| - 1];
    }
  }

  lemma SpellSeparated(r: Route)
    requires r.names != []
    ensures Spell(r, true) == Spell(r, false) + [SEP]
  {
    assert Join(Dots(r.ups) + r.names) + [] == Join(Dots(r.ups) + r.names);
  }
}
