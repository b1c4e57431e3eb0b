/**
What a path means: the one-pass reading of its components with a stack, its normal spelling, and the
directory it resolves to from a starting directory.
*/
module PathMeaning {
  import opened PathText

  /** From the root or from the start, so many levels up, and then down by these names. */
  datatype Route = Route(rooted: bool, ups: nat, names: seq<string>)

  predicate IsName(c: string) {
    IsComponent(c) && c != DOT && c != DOTDOT
  }

  predicate AllNames(cs: seq<string>) {
    forall i :: 0 <= i < |cs| ==> IsName(cs[i])
  }

  /** Routes that can arise: real names only, and no way up from the root. */
  predicate Normal(r: Route) {
    AllNames(r.names) && (r.rooted ==> r.ups == 0)
  }

  /** Reading one component: a name is pushed, a dot-dot pops, or counts once there is nothing to pop. */
  function Read(r: Route, c: string): Route {
    if c == DOT || c == "" then r
    else if c != DOTDOT then r.(names := r.names + [c])
    else if r.names != [] then r.(names := r.names[..|r.names| - 1])
    else if r.rooted then r
    else r.(ups := r.ups + 1)
  }

  function ReadAll(r: Route, cs: seq<string>): Route {
    if cs == [] then r else Read(ReadAll(r, cs[..|cs| - 1]), cs[|cs| - 1])
  }

  predicate Rooted(p: string) {
    p != "" && p[0] == SEP
  }

  function Origin(p: string): Route {
    Route(Rooted(p), 0, [])
  }

  function Meaning(p: string): Route {
    ReadAll(Origin(p), Components(p))
  }

  predicate EndsInDots(cs: seq<string>) {
    cs != [] && (cs[|cs| - 1] == DOT || cs[|cs| - 1] == DOTDOT)
  }

  /** The path is spelled as a directory: it ends with a separator, a dot or a dot-dot. */
  predicate MarksDirectory(p: string) {
    p != "" && (p[|p| - 1] == SEP || EndsInDots(Components(p)))
  }

  function Dots(n: nat): seq<string> {
    seq(n, _ => DOTDOT)
  }

  /** The normal spelling of a route. */
  function Spell(r: Route, mark: bool): string {
    var body := Join(Dots(r.ups) + r.names) + if mark && r.names != [] then [SEP] else [];
    if r.rooted then [SEP] + body else if r.ups == 0 && r.names == [] then DOT else body
  }

  /** Nothing but separators, and more than one of them: the paths the normaliser leaves alone. */
  predicate SeparatorsOnly(p: string) {
    |p| > 1 && forall i :: 0 <= i < |p| ==> p[i] == SEP
  }

  /** The normal form of a path, in one pass. */
  function NormalForm(p: string): string {
    if p == "" || SeparatorsOnly(p) then p else Spell(Meaning(p), MarksDirectory(p))
  }

  // ----- reading -----

  lemma {:induction false} ReadAllSplit(r: Route, a: seq<string>, b: seq<string>)
    ensures ReadAll(r, a + b) == ReadAll(ReadAll(r, a), b)
  {
    if b == [] {
      assert a + b == a;
    } else {
      var m := |b| - 1;
      assert (a + b)[..|a + b| - 1] == a + b[..m];
      ReadAllSplit(r, a, b[..m]);
    }
  }

  lemma {:induction false} ReadAllNormal(r: Route, cs: seq<string>)
    requires Normal(r) && AllComponents(cs)
    ensures Normal(ReadAll(r, cs)) && ReadAll(r, cs).rooted == r.rooted
  {
    if cs != [] { ReadAllNormal(r, cs[..|cs| - 1]); }
  }

  lemma MeaningNormal(p: string)
    ensures Normal(Meaning(p)) && Meaning(p).rooted == Rooted(p)
  {
    ComponentsAre(p);
    ReadAllNormal(Origin(p), Components(p));
  }

  lemma {:induction false} ReadNames(r: Route, ns: seq<string>)
    requires AllNames(ns)
    ensures ReadAll(r, ns) == r.(names := r.names + ns)
  {
    if ns != [] {
      var m := |ns| - 1;
      ReadNames(r, ns[..m]);
      assert ns == ns[..m] + [ns[m]];
    }
  }

  lemma {:induction false} ReadDots(r: Route, n: nat)
    requires r.names == []
    ensures ReadAll(r, Dots(n)) == if r.rooted then r else r.(ups := r.ups + n)
  {
    if n > 0 {
      assert Dots(n)[..n - 1] == Dots(n - 1);
      ReadDots(r, n - 1);
    }
  }

  // ----- spelling and reading back -----

  lemma SpellComponents(r: Route, mark: bool)
    requires Normal(r)
    ensures Components(Spell(r, mark)) == if !r.rooted && r.ups == 0 && r.names == [] then [DOT]
        else Dots(r.ups) + r.names
    ensures Rooted(Spell(r, mark)) == r.rooted
  {
    var cs := Dots(r.ups) + r.names;
    assert AllComponents(cs);
    ComponentsJoin(cs);
    var body := Join(cs) + if mark && r.names != [] then [SEP] else [];
    if mark && r.names != [] {
      ComponentsSplit(Join(cs), "");
      assert body == Join(cs) + [SEP] + "";
    } else {
      assert body == Join(cs);
    }
    assert Components(body) == cs;
    if r.rooted {
      assert ([SEP] + body)[1..] == body;
    } else if cs != [] {
      JoinEnds(cs);
    } else {
      ComponentAlone(DOT);
    }
  }

  /** Reading the normal spelling of a route gives the route back. */
  lemma SpellRead(r: Route, mark: bool)
    requires Normal(r)
    ensures Meaning(Spell(r, mark)) == r
  {
    var p := Spell(r, mark);
    SpellComponents(r, mark);
    var o := Origin(p);
    if !r.rooted && r.ups == 0 && r.names == [] {
      assert ReadAll(o, [DOT]) == Read(ReadAll(o, []), DOT);
    } else {
      ReadAllSplit(o, Dots(r.ups), r.names);
      ReadDots(o, r.ups);
      ReadNames(ReadAll(o, Dots(r.ups)), r.names);
      assert [] + r.names == r.names;
    }
  }

  /** The directory mark survives where it matters. */
  lemma SpellMark(r: Route, mark: bool)
    requires Normal(r) && r.names != []
    ensures MarksDirectory(Spell(r, mark)) == mark
  {
    SpellComponents(r, mark);
    SpellSingle(r, mark);
    var cs := Dots(r.ups) + r.names;
    assert cs[|cs| - 1] == r.names[|r.names| - 1] && IsName(cs[|cs| - 1]);
  }

  lemma SpellNotSeparators(r: Route, mark: bool)
    requires Normal(r)
    ensures Spell(r, mark) != "" && !SeparatorsOnly(Spell(r, mark))
  {
    SpellComponents(r, mark);
    NoComponents(Spell(r, mark));
    if r.rooted && r.names == [] { assert Spell(r, mark) == [SEP]; }
  }

  /** Normalising twice is normalising once. */
  lemma NormalFormIdempotent(p: string)
    ensures NormalForm(NormalForm(p)) == NormalForm(p)
  {
    if p != "" && !SeparatorsOnly(p) {
      var r, mark := Meaning(p), MarksDirectory(p);
      MeaningNormal(p);
      SpellRead(r, mark);
      SpellNotSeparators(r, mark);
      if r.names != [] { SpellMark(r, mark); }
    }
  }

  /**
  In a normal form dot-dots are a leading run, absent from rooted paths, and a lone dot stands for no component
  at all.
  */
  lemma NormalFormShape(p: string)
    requires p != "" && !SeparatorsOnly(p)
    ensures var r, cs := Meaning(p), Components(NormalForm(p));
            && Rooted(NormalForm(p)) == Rooted(p)
            && (cs == Dots(r.ups) + r.names || (cs == [DOT] && !r.rooted && r.ups == 0 && r.names == []))
            && AllNames(r.names) && (Rooted(p) ==> r.ups == 0)
  {
    MeaningNormal(p);
    SpellComponents(Meaning(p), MarksDirectory(p));
  }

  /** A normal spelling has single separators, and ends in one as a directory mark, or if it is the root. */
  lemma SpellSingle(r: Route, mark: bool)
    requires Normal(r)
    ensures Single(Spell(r, mark))
    ensures EndsInSeparator(Spell(r, mark)) <==> if r.names == [] then r.rooted else mark
  {
    var cs := Dots(r.ups) + r.names;
    assert AllComponents(cs);
    JoinSingle(cs);
    if cs != [] {
      JoinEnds(cs);
      var tail := if mark && r.names != [] then [SEP] else [];
      SingleParts(Join(cs), tail);
      if r.rooted { SingleParts([SEP], Join(cs) + tail); }
    }
  }

  /** The components of the normal form: the way up and the names, or a lone dot. */
  function NormalComponents(r: Route): seq<string> {
    if !r.rooted && r.ups == 0 && r.names == [] then [DOT] else Dots(r.ups) + r.names
  }

  /**
  The normal form is the only text that has its components, begins with a separator exactly if the path does, has
  no two separators in a row, and ends in one exactly if it is the root or a name that is marked as a directory.
  */
  lemma NormalFormOnly(p: string, n: string)
    requires p != "" && !SeparatorsOnly(p)
    ensures n == NormalForm(p) <==>
            && Components(n) == NormalComponents(Meaning(p)) && Rooted(n) == Rooted(p) && Single(n)
            && (EndsInSeparator(n) <==> if Meaning(p).names == [] then Rooted(p) else MarksDirectory(p))
  {
    var r, mark := Meaning(p), MarksDirectory(p);
    MeaningNormal(p);
    SpellComponents(r, mark);
    SpellSingle(r, mark);
    if Components(n) == NormalComponents(r) && Rooted(n) == Rooted(p) && Single(n)
        && (EndsInSeparator(n) <==> if r.names == [] then Rooted(p) else mark) {
      TextDetermined(n, Spell(r, mark));
    }
  }

  // ----- resolving from a directory -----

  /** One step of a walk through directories, whose root is its own parent. */
  function Go(dir: seq<string>, c: string): seq<string> {
    if c == DOT || c == "" then dir
    else if c == DOTDOT then if dir == [] then dir else dir[..|dir| - 1]
    else dir + [c]
  }

  function Walk(dir: seq<string>, cs: seq<string>): seq<string> {
    if cs == [] then dir else Go(Walk(dir, cs[..|cs| - 1]), cs[|cs| - 1])
  }

  /** The directory, as the names from the root, that a path denotes when read in directory `dir`. */
  function Resolve(dir: seq<string>, p: string): seq<string> {
    Walk(if Rooted(p) then [] else dir, Components(p))
  }

  /** Following a route from a directory. */
  function Follow(r: Route, dir: seq<string>): seq<string> {
    if r.rooted then r.names
    else (if r.ups <= |dir| then dir[..|dir| - r.ups] else []) + r.names
  }

  lemma {:induction false} WalkFollows(dir: seq<string>, rooted: bool, cs: seq<string>)
    ensures Walk(if rooted then [] else dir, cs) == Follow(ReadAll(Route(rooted, 0, []), cs), dir)
  {
    if cs == [] {
      assert dir[..|dir| - 0] + [] == dir;
    } else {
      var m := |cs| - 1;
      WalkFollows(dir, rooted, cs[..m]);
      ReadFollows(ReadAll(Route(rooted, 0, []), cs[..m]), cs[m], dir);
    }
  }

  lemma ReadFollows(r: Route, c: string, dir: seq<string>)
    ensures Follow(Read(r, c), dir) == Go(Follow(r, dir), c)
  {
    var up := if r.ups <= |dir| then dir[..|dir| - r.ups] else [];
    if c == DOTDOT && r.names == [] && !r.rooted {
      assert up + r.names == up;
      if r.ups < |dir| { assert up[..|up| - 1] == dir[..|dir| - (r.ups + 1)]; }
    } else if c == DOTDOT && r.names != [] && !r.rooted {
      assert (up + r.names)[..|up + r.names| - 1] == up + r.names[..|r.names| - 1];
    } else if c != DOTDOT && c != DOT && c != "" && !r.rooted {
      assert up + r.names + [c] == up + (r.names + [c]);
    }
  }

  lemma ResolveFollows(dir: seq<string>, p: string)
    ensures Resolve(dir, p) == Follow(Meaning(p), dir)
  {
    WalkFollows(dir, Rooted(p), Components(p));
  }

  /** Normalising a path does not change what it resolves to, from any directory. */
  lemma NormalFormResolves(dir: seq<string>, p: string)
    ensures Resolve(dir, NormalForm(p)) == Resolve(dir, p)
  {
    if p != "" && !SeparatorsOnly(p) {
      MeaningNormal(p);
      SpellRead(Meaning(p), MarksDirectory(p));
      ResolveFollows(dir, p);
      ResolveFollows(dir, NormalForm(p));
    }
  }

  // ----- paths with the same meaning -----

  /** A name longer than all of the given ones. */
  function LongName(ns: seq<string>): (n: string)
    ensures n != "" && n !in ns && forall i :: 0 <= i < |ns| ==> |ns[i]| < |n|
  {
    if ns == [] then "a"
    else
      var n := LongName(ns[..|ns| - 1]);
      if |n| > |ns[|ns| - 1]| then n else ns[|ns| - 1] + "a"
  }

  /**
  Two paths resolve alike from every directory exactly when they have the same meaning: a route keeps
  nothing a directory could not see, and loses nothing one could.
  */
  lemma SameMeaning(p: string, q: string)
    ensures Meaning(p) == Meaning(q) <==> forall dir :: Resolve(dir, p) == Resolve(dir, q)
  {
    if Meaning(p) == Meaning(q) {
      forall dir ensures Resolve(dir, p) == Resolve(dir, q) {
        ResolveFollows(dir, p);
        ResolveFollows(dir, q);
      }
    } else {
      var r, t := Meaning(p), Meaning(q);
      MeaningNormal(p);
      MeaningNormal(q);
      var dir := Distinguishing(r, t);
      ResolveFollows(dir, p);
      ResolveFollows(dir, q);
    }
  }

  function Copies(n: nat, x: string): seq<string> {
    seq(n, _ => x)
  }

  lemma NoFewerCopies(x: string, i: nat, a: seq<string>, j: nat, b: seq<string>)
    requires x !in a && Copies(i, x) + a == Copies(j, x) + b
    ensures j <= i
  {
    var s := Copies(j, x) + b;
    assert forall k :: 0 <= k < j ==> s[k] == x;
    assert forall k :: i <= k < |s| ==> s[k] == a[k - i];
    assert forall k :: 0 <= k < |a| ==> a[k] in a && a[k] != x;
    assert i < |s| ==> s[i] != x;
  }

  lemma CopiesInjective(x: string, i: nat, a: seq<string>, j: nat, b: seq<string>)
    requires x !in a && x !in b && Copies(i, x) + a == Copies(j, x) + b
    ensures i == j && a == b
  {
    NoFewerCopies(x, i, a, j, b);
    NoFewerCopies(x, j, b, i, a);
    assert a == (Copies(i, x) + a)[i..] && b == (Copies(j, x) + b)[j..];
  }

  lemma FollowCopies(r: Route, n: nat, x: string)
    requires r.ups <= n
    ensures Follow(r, Copies(n, x)) == Copies(if r.rooted then 0 else n - r.ups, x) + r.names
  {
    assert Copies(0, x) + r.names == r.names;
    assert Copies(n, x)[..n - r.ups] == Copies(n - r.ups, x);
  }

  lemma Distinguishing(r: Route, t: Route) returns (dir: seq<string>)
    requires Normal(r) && Normal(t) && r != t
    ensures Follow(r, dir) != Follow(t, dir)
  {
    var x := LongName(r.names + t.names);
    var n := r.ups + t.ups + 1;
    dir := Copies(n, x);
    FollowCopies(r, n, x);
    FollowCopies(t, n, x);
    if Follow(r, dir) == Follow(t, dir) {
      CopiesInjective(x, if r.rooted then 0 else n - r.ups, r.names, if t.rooted then 0 else n - t.ups, t.names);
      assert false;
    }
  }
}
