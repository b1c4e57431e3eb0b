/** Separators, components and joining: the text of POSIX paths. */
module PathText {

  const SEP := '/'
  const DOT := "."
  const DOTDOT := ".."
  const ROOT := "/"

  /** The length of the leading run of characters other than the separator. */
  function Run(s: string): (n: nat)
    ensures n <= |s|
    ensures forall i :: 0 <= i < n ==> s[i] != SEP
    ensures n < |s| ==> s[n] == SEP
  {
    if s == "" || s[0] == SEP then 0 else 1 + Run(s[1..])
  }

  /** The components of a path: the maximal non-empty runs between separators. */
  function Components(s: string): seq<string> {
    if s == "" then []
    else if s[0] == SEP then Components(s[1..])
    else [s[..Run(s)]] + Components(s[Run(s)..])
  }

  /** A component: not empty, and without a separator. */
  predicate IsComponent(c: string) {
    c != "" && SEP !in c
  }

  predicate AllComponents(cs: seq<string>) {
    forall i :: 0 <= i < |cs| ==> IsComponent(cs[i])
  }

  lemma {:induction false} ComponentsAre(s: string)
    ensures AllComponents(Components(s))
    decreases |s|
  {
    if s == "" {
    } else if s[0] == SEP {
      ComponentsAre(s[1..]);
    } else {
      ComponentsAre(s[Run(s)..]);
    }
  }

  lemma RunUnique(s: string, n: nat)
    requires n <= |s| && (forall i :: 0 <= i < n ==> s[i] != SEP) && (n < |s| ==> s[n] == SEP)
    ensures Run(s) == n
  {
  }

  /** A separator splits the components. */
  lemma {:induction false} ComponentsSplit(a: string, b: string)
    ensures Components(a + [SEP] + b) == Components(a) + Components(b)
    decreases |a|
  {
    if a == "" {
      SplitFront(b);
    } else if a[0] == SEP {
      ComponentsSplit(a[1..], b);
      SkipSeparator(a, b);
    } else {
      ComponentsSplit(a[Run(a)..], b);
      SkipRun(a, b);
    }
  }

  lemma SplitFront(b: string)
    ensures Components("" + [SEP] + b) == Components("") + Components(b)
  {
    assert ("" + [SEP] + b)[1..] == b;
  }

  lemma SkipSeparator(a: string, b: string)
    requires a != "" && a[0] == SEP && Components(a[1..] + [SEP] + b) == Components(a[1..]) + Components(b)
    ensures Components(a + [SEP] + b) == Components(a) + Components(b)
  {
    assert (a + [SEP] + b)[1..] == a[1..] + [SEP] + b;
  }

  lemma SkipRun(a: string, b: string)
    requires a != "" && a[0] != SEP
    requires Components(a[Run(a)..] + [SEP] + b) == Components(a[Run(a)..]) + Components(b)
    ensures Components(a + [SEP] + b) == Components(a) + Components(b)
  {
    var s := a + [SEP] + b;
    FirstRun(a, b, s);
    AtRun(s);
    AtRun(a);
    Regroup([a[..Run(a)]], Components(a[Run(a)..]), Components(b));
  }

  lemma AtRun(s: string)
    requires s != "" && s[0] != SEP
    ensures Components(s) == [s[..Run(s)]] + Components(s[Run(s)..])
  {
  }

  lemma Regroup(a: seq<string>, b: seq<string>, c: seq<string>)
    ensures a + (b + c) == a + b + c
  {
  }

  lemma FirstRun(a: string, b: string, s: string)
    requires a != "" && a[0] != SEP && s == a + [SEP] + b
    ensures Run(s) == Run(a) && s[..Run(a)] == a[..Run(a)] && s[Run(a)..] == a[Run(a)..] + [SEP] + b
  {
    RunUnique(s, Run(a));
  }

  lemma ComponentAlone(c: string)
    requires IsComponent(c)
    ensures Components(c) == [c]
  {
    RunUnique(c, |c|);
    assert c[..|c|] == c && c[|c|..] == "";
  }

  /** Components separated by single separators. */
  function Join(cs: seq<string>): string {
    if cs == [] then ""
    else if |cs| == 1 then cs[0]
    else Join(cs[..|cs| - 1]) + [SEP] + cs[|cs| - 1]
  }

  lemma {:induction false} ComponentsJoin(cs: seq<string>)
    requires AllComponents(cs)
    ensures Components(Join(cs)) == cs
  {
    if |cs| == 1 {
      ComponentAlone(cs[0]);
    } else if |cs| > 1 {
      var m := |cs| - 1;
      ComponentsJoin(cs[..m]);
      ComponentsSplit(Join(cs[..m]), cs[m]);
      ComponentAlone(cs[m]);
      assert cs == cs[..m] + [cs[m]];
    }
  }

  /** A joined path neither begins nor ends with a separator, and is empty only without components. */
  lemma {:induction false} JoinEnds(cs: seq<string>)
    requires AllComponents(cs) && cs != []
    ensures Join(cs) != "" && Join(cs)[0] == cs[0][0]
    ensures Join(cs)[|Join(cs)| - 1] == cs[|cs| - 1][|cs[|cs| - 1]| - 1]
  {
    if |cs| > 1 { JoinEnds(cs[..|cs| - 1]); }
  }

  /** No two separators follow each other. */
  predicate Single(s: string) {
    forall i :: 0 < i < |s| ==> s[i - 1] != SEP || s[i] != SEP
  }

  predicate EndsInSeparator(s: string) {
    s != "" && s[|s| - 1] == SEP
  }

  lemma SingleParts(a: string, b: string)
    requires Single(a) && Single(b) && !(EndsInSeparator(a) && b != "" && b[0] == SEP)
    ensures Single(a + b)
  {
  }

  lemma {:induction false} JoinSingle(cs: seq<string>)
    requires AllComponents(cs)
    ensures Single(Join(cs))
  {
    if |cs| > 1 {
      var m := |cs| - 1;
      JoinSingle(cs[..m]);
      JoinEnds(cs[..m]);
      SingleParts(Join(cs[..m]), [SEP]);
      SingleParts(Join(cs[..m]) + [SEP], cs[m]);
    }
  }

  /** A text with single separators is determined by its components and by where it begins and ends with one. */
  lemma {:induction false} TextDetermined(s: string, t: string)
    requires Single(s) && Single(t) && Components(s) == Components(t)
    requires (s != "" && s[0] == SEP) == (t != "" && t[0] == SEP) && EndsInSeparator(s) == EndsInSeparator(t)
    ensures s == t
    decreases |s|
  {
    if Components(s) == [] {
      AtMostOne(s);
      AtMostOne(t);
    } else if s[0] == SEP {
      AfterSeparator(s);
      AfterSeparator(t);
      TextDetermined(s[1..], t[1..]);
      assert s == [SEP] + s[1..] && t == [SEP] + t[1..];
    } else {
      var n := Run(s);
      SameFirstRun(s, t);
      RestsAgree(s, t, n);
      TextDetermined(s[n..], t[n..]);
      assert s == s[..n] + s[n..] && t == t[..n] + t[n..];
    }
  }

  lemma AfterSeparator(s: string)
    requires Single(s) && Components(s) != [] && s[0] == SEP
    ensures |s| > 1 && s[1] != SEP && Single(s[1..]) && EndsInSeparator(s[1..]) == EndsInSeparator(s)
    ensures Components(s[1..]) == Components(s)
  {
    RestSingle(s, 1);
  }

  /** After equal first runs both texts are over, or go on with a separator. */
  lemma RestsAgree(s: string, t: string, n: nat)
    requires Single(s) && Single(t) && EndsInSeparator(s) == EndsInSeparator(t)
    requires 0 < n == Run(s) == Run(t) && Components(s[n..]) == Components(t[n..])
    ensures Single(s[n..]) && Single(t[n..]) && EndsInSeparator(s[n..]) == EndsInSeparator(t[n..])
    ensures s[n..] == "" <==> t[n..] == ""
    ensures (s[n..] != "" ==> s[n..][0] == SEP) && (t[n..] != "" ==> t[n..][0] == SEP)
  {
    RestSingle(s, n);
    RestSingle(t, n);
    NoComponents(s[n..]);
    NoComponents(t[n..]);
  }

  lemma AtMostOne(s: string)
    requires Single(s) && Components(s) == []
    ensures s == "" || s == [SEP]
  {
    NoComponents(s);
  }

  lemma SameFirstRun(s: string, t: string)
    requires s != "" && s[0] != SEP && t != "" && t[0] != SEP && Components(s) == Components(t)
    ensures Run(s) == Run(t) && s[..Run(s)] == t[..Run(s)] && Components(s[Run(s)..]) == Components(t[Run(s)..])
  {
    AtRun(s);
    AtRun(t);
    SameHead(s[..Run(s)], Components(s[Run(s)..]), t[..Run(t)], Components(t[Run(t)..]));
  }

  lemma SameHead(a: string, x: seq<string>, b: string, y: seq<string>)
    requires [a] + x == [b] + y
    ensures a == b && x == y
  {
    assert a == ([a] + x)[0] && b == ([b] + y)[0];
    assert x == ([a] + x)[1..] && y == ([b] + y)[1..];
  }

  lemma RestSingle(s: string, n: nat)
    requires Single(s) && n <= |s|
    ensures Single(s[n..]) && (n < |s| ==> EndsInSeparator(s[n..]) == EndsInSeparator(s))
  {
  }

  /** A path without any component consists of separators. */
  lemma {:induction false} NoComponents(s: string)
    ensures Components(s) == [] <==> forall i :: 0 <= i < |s| ==> s[i] == SEP
    decreases |s|
  {
    if s != "" && s[0] == SEP {
      NoComponents(s[1..]);
      assert forall i :: 1 <= i < |s| ==> s[i] == s[1..][i - 1];
    }
  }
}
