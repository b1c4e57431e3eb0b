/**
The normaliser as it is written: a list of parts, rewritten by repeated passes. The list holds the
root as a part of its own and an empty part for a trailing separator.
*/
module PathParts {
  import opened PathText
  import opened PathMeaning

  predicate IsRoot(part: string) {
    part != "" && part[0] == SEP
  }

  /** The parts of a path of more than one part, as the parser lists them. */
  function PartsOf(p: string): seq<string> {
    (if Rooted(p) then [ROOT] else []) + Components(p) +
    (if p != "" && p[|p| - 1] == SEP && Components(p) != [] then [""] else [])
  }

  /** How such lists are laid out: perhaps the root, then components, then perhaps an empty part. */
  function Lay(rooted: bool, cs: seq<string>, trail: bool): seq<string> {
    (if rooted then [ROOT] else []) + cs + if trail then [""] else []
  }

  // ----- step 4: dots -----

  function WithoutDots(cs: seq<string>): seq<string> {
    if cs == [] then []
    else WithoutDots(cs[..|cs| - 1]) + if cs[|cs| - 1] == DOT then [] else [cs[|cs| - 1]]
  }

  lemma {:induction false} WithoutDotsReads(r: Route, cs: seq<string>)
    requires AllComponents(cs)
    ensures ReadAll(r, WithoutDots(cs)) == ReadAll(r, cs)
    ensures AllComponents(WithoutDots(cs)) && DOT !in WithoutDots(cs)
  {
    if cs != [] {
      var m := |cs| - 1;
      WithoutDotsReads(r, cs[..m]);
      var w := WithoutDots(cs[..m]);
      if cs[m] == DOT {
        assert WithoutDots(cs) == w;
      } else {
        assert WithoutDots(cs)[..|w|] == w;
      }
    }
  }

  lemma {:induction false} WithoutDotsAppend(a: seq<string>, b: seq<string>)
    ensures WithoutDots(a + b) == WithoutDots(a) + WithoutDots(b)
  {
    if b == [] {
      assert a + b == a;
    } else {
      var m := |b| - 1;
      assert (a + b)[..|a + b| - 1] == a + b[..m];
      WithoutDotsAppend(a, b[..m]);
    }
  }

  lemma WithoutDotsLay(rooted: bool, cs: seq<string>, trail: bool)
    ensures WithoutDots(Lay(rooted, cs, trail)) == Lay(rooted, WithoutDots(cs), trail)
  {
    var head := if rooted then [ROOT] else [];
    var tail := if trail then [""] else [];
    WithoutDotsAppend(head + cs, tail);
    WithoutDotsAppend(head, cs);
  }

  // ----- step 5: names followed by dot-dots -----

  /** A name immediately followed by a dot-dot stands at i-1 and i. */
  predicate Cancels(parts: seq<string>, i: nat) {
    0 < i < |parts| && parts[i] == DOTDOT && parts[i - 1] != DOTDOT && !IsRoot(parts[i - 1])
  }

  /** All parts but the last are non-empty: the code looks at their first character. */
  predicate Solid(parts: seq<string>) {
    forall i :: 0 <= i < |parts| - 1 ==> parts[i] != ""
  }

  /** Erasing such a pair does not change what the components read to. */
  lemma CancelReads(r: Route, a: seq<string>, n: string, b: seq<string>)
    requires IsName(n)
    ensures ReadAll(r, a + [n, DOTDOT] + b) == ReadAll(r, a + b)
  {
    var mid := ReadAll(r, a);
    ReadAllSplit(r, a + [n, DOTDOT], b);
    ReadAllSplit(r, a, [n, DOTDOT]);
    ReadAllSplit(r, a, b);
    assert [n, DOTDOT][..1] == [n] && [n][..0] == [];
    assert ReadAll(mid, [n]) == Read(mid, n);
    assert ReadAll(mid, [n, DOTDOT]) == Read(Read(mid, n), DOTDOT);
    assert (mid.names + [n])[..|mid.names|] == mid.names;
  }

  /** The list is laid out over components without dots that read to r. */
  ghost predicate LaidOut(parts: seq<string>, rooted: bool, trail: bool, cs: seq<string>, r: Route) {
    && parts == Lay(rooted, cs, trail)
    && AllComponents(cs) && DOT !in cs
    && ReadAll(Route(rooted, 0, []), cs) == r
  }

  /**
  RemovePotentialFileNamesFollowedByMoveUpsAndSeparator: erase the first pair and start over, until there is
  none.
  */
  method CancelMoveUps(parts: seq<string>, ghost rooted: bool, ghost trail: bool, ghost cs0: seq<string>,
      ghost r: Route)
    returns (out: seq<string>, ghost cs: seq<string>)
    requires LaidOut(parts, rooted, trail, cs0, r)
    ensures LaidOut(out, rooted, trail, cs, r)
    ensures forall i :: !Cancels(out, i)
  {
    out, cs := parts, cs0;
    var again := true;
    while again
      invariant LaidOut(out, rooted, trail, cs, r)
      invariant !again ==> forall i :: !Cancels(out, i)
      decreases |out|, again
    {
      again := false;
      if out == [] { break; }
      var current := 1;
      while current < |out|
        invariant 1 <= current <= |out|
        invariant forall i: nat :: i < current ==> !Cancels(out, i)
      {
        var previous := current - 1;
        LaidOutSolid(out, rooted, trail, cs, r);
        if out[current] == DOTDOT && out[previous] != DOTDOT && out[previous][0] != SEP {
          cs := CancelAt(out, rooted, trail, cs, r, current);
          out := out[..previous] + out[current + 1..];
          again := true;
          break;
        }
        current := current + 1;
      }
    }
  }

  lemma LaidOutSolid(parts: seq<string>, rooted: bool, trail: bool, cs: seq<string>, r: Route)
    requires LaidOut(parts, rooted, trail, cs, r)
    ensures Solid(parts)
  {
  }

  /** Where component k stands in the list, and what erasing it and the next one leaves. */
  lemma LayErase(rooted: bool, cs: seq<string>, trail: bool, k: nat)
    requires k + 1 < |cs|
    ensures var i := k + if rooted then 1 else 0;
            var parts := Lay(rooted, cs, trail);
            && parts[i] == cs[k] && parts[i + 1] == cs[k + 1]
            && parts[..i] + parts[i + 2..] == Lay(rooted, cs[..k] + cs[k + 2..], trail)
  {
  }

  lemma CancelAt(parts: seq<string>, rooted: bool, trail: bool, cs: seq<string>, r: Route,
      i: nat) returns (cs': seq<string>)
    requires LaidOut(parts, rooted, trail, cs, r) && Cancels(parts, i)
    ensures LaidOut(parts[..i - 1] + parts[i + 1..], rooted, trail, cs', r)
  {
    var k := i - 1 - if rooted then 1 else 0;
    assert k >= 0 && k + 1 < |cs|;
    LayErase(rooted, cs, trail, k);
    cs' := cs[..k] + cs[k + 2..];
    PairOut(cs, k);
    assert cs[k] in cs;
    CancelReads(Route(rooted, 0, []), cs[..k], cs[k], cs[k + 2..]);
  }

  lemma PairOut(cs: seq<string>, k: nat)
    requires k + 1 < |cs|
    ensures cs == cs[..k] + [cs[k], cs[k + 1]] + cs[k + 2..]
    ensures AllComponents(cs) ==> AllComponents(cs[..k] + cs[k + 2..])
  {
  }

  lemma NoPairLeft(rooted: bool, cs: seq<string>, trail: bool, k: nat)
    requires !Cancels(Lay(rooted, cs, trail), k + if rooted then 1 else 0)
    requires 0 < k < |cs| && AllComponents(cs) && cs[k] == DOTDOT
    ensures cs[k - 1] == DOTDOT
  {
    LayErase(rooted, cs, trail, k - 1);
  }

  /** Components without a name before a dot-dot have their dot-dots in front. */
  lemma DotsInFront(cs: seq<string>) returns (dots: nat, names: seq<string>)
    requires AllComponents(cs) && DOT !in cs
    requires forall k :: 0 < k < |cs| && cs[k] == DOTDOT ==> cs[k - 1] == DOTDOT
    ensures cs == Dots(dots) + names && AllNames(names)
  {
    dots := LeadingDots(cs);
    names := cs[dots..];
    NoDotsAfter(cs, dots);
  }

  /** A list without a cancelling pair has its dot-dots in front, and reads accordingly. */
  lemma CancelledShape(parts: seq<string>, rooted: bool, trail: bool, cs: seq<string>, r: Route) returns (dots: nat)
    requires LaidOut(parts, rooted, trail, cs, r) && forall i :: !Cancels(parts, i)
    ensures cs == Dots(dots) + r.names && AllNames(r.names)
    ensures r == Route(rooted, if rooted then 0 else dots, r.names)
  {
    forall k | 0 < k < |cs| && cs[k] == DOTDOT ensures cs[k - 1] == DOTDOT {
      NoPairLeft(rooted, cs, trail, k);
    }
    var names;
    dots, names := DotsInFront(cs);
    ReadShape(rooted, dots, names);
  }

  lemma ReadShape(rooted: bool, dots: nat, names: seq<string>)
    requires AllNames(names)
    ensures ReadAll(Route(rooted, 0, []), Dots(dots) + names) == Route(rooted, if rooted then 0 else dots, names)
  {
    ReadAllSplit(Route(rooted, 0, []), Dots(dots), names);
    ReadDots(Route(rooted, 0, []), dots);
    ReadNames(ReadAll(Route(rooted, 0, []), Dots(dots)), names);
    assert [] + names == names;
  }

  function LeadingDots(cs: seq<string>): (n: nat)
    ensures n <= |cs| && (forall i :: 0 <= i < n ==> cs[i] == DOTDOT) && (n < |cs| ==> cs[n] != DOTDOT)
  {
    if cs == [] || cs[0] != DOTDOT then 0 else 1 + LeadingDots(cs[1..])
  }

  lemma {:induction false} NoDotsAfter(cs: seq<string>, n: nat)
    requires n <= |cs| && (n < |cs| ==> cs[n] != DOTDOT)
    requires forall k :: 0 < k < |cs| && cs[k] == DOTDOT ==> cs[k - 1] == DOTDOT
    ensures forall k :: n <= k < |cs| ==> cs[k] != DOTDOT
    decreases |cs| - n
  {
    if n + 1 < |cs| { NoDotsAfter(cs, n + 1); }
  }

  // ----- step 6: dot-dots after the root -----

  function NoMoveUpsAfterRoot(parts: seq<string>): seq<string> {
    if parts != [] && IsRoot(parts[0]) then [parts[0]] + parts[1 + LeadingDots(parts[1..])..] else parts
  }

  /** RemovePotentialMoveUpsAndSeparatorsAfterRoot. */
  method DropMoveUpsAfterRoot(parts: seq<string>) returns (out: seq<string>)
    requires parts != []
    ensures out == NoMoveUpsAfterRoot(parts)
  {
    out := parts;
    if out[0] != "" && out[0][0] == SEP {
      assert out == [parts[0]] + parts[1 + 0..];
      ghost var dropped := 0;
      while 1 < |out|
        invariant 0 <= dropped <= LeadingDots(parts[1..])
        invariant out == [parts[0]] + parts[1 + dropped..]
        decreases |out|
      {
        if out[1] == DOTDOT {
          assert out[1] == parts[1..][dropped];
          out := [out[0]] + out[2..];
          dropped := dropped + 1;
        } else {
          break;
        }
      }
    }
  }

  // ----- step 7: a trailing separator after a dot-dot -----

  function NoTrailingSeparator(parts: seq<string>): seq<string> {
    var n := |parts|;
    if n >= 2 && parts[n - 1] == "" && (parts[n - 2] == DOTDOT || parts[n - 2] == DOT) then parts[..n - 1] else parts
  }

  /** The list ends with a dot or dot-dot, and an empty part for the separator after it. */
  predicate SeparatorAfterDots(parts: seq<string>) {
    |parts| >= 2 && parts[|parts| - 1] == "" && EndsInDots(parts[..|parts| - 1])
  }

  /**
  RemovePotentialTrailingDirectorySeparator: at most an empty part is taken off, only after dots, and none is
  left after dots.
  */
  method DropTrailingSeparator(parts: seq<string>) returns (out: seq<string>)
    ensures out == parts || (parts == out + [""] && EndsInDots(out))
    ensures !SeparatorAfterDots(out)
    ensures out == NoTrailingSeparator(parts)
  {
    out := parts;
    if |out| >= 2 {
      var last := |out| - 1;
      if out[last] == "" && (out[last - 1] == DOTDOT || out[last - 1] == DOT) {
        out := out[..last];
      }
    }
  }

  // ----- putting the string together -----

  function Assembled(parts: seq<string>): string {
    if parts != [] && IsRoot(parts[0]) then parts[0] + Join(parts[1..]) else Join(parts)
  }

  lemma JoinNext(cs: seq<string>, k: nat)
    requires k < |cs|
    ensures Join(cs[..k + 1]) == (if k == 0 then "" else Join(cs[..k]) + [SEP]) + cs[k]
  {
    assert cs[..k + 1][..k] == cs[..k];
  }

  lemma AssembledNext(parts: seq<string>, k: nat)
    requires k < |parts|
    ensures Assembled(parts[..k + 1]) ==
            Assembled(parts[..k]) + (if k > (if IsRoot(parts[0]) then 1 else 0) then [SEP] else []) + parts[k]
  {
    if k == 0 {
      OnePart(parts);
    } else if IsRoot(parts[0]) {
      RootedNext(parts, k);
    } else {
      PlainPrefix(parts, k);
      PlainPrefix(parts, k + 1);
      JoinNext(parts, k);
    }
  }

  lemma RootedNext(parts: seq<string>, k: nat)
    requires 0 < k < |parts| && IsRoot(parts[0])
    ensures Assembled(parts[..k + 1]) == Assembled(parts[..k]) + (if k > 1 then [SEP] else []) + parts[k]
  {
    var cs := parts[1..];
    RootedPrefix(parts, k);
    RootedPrefix(parts, k + 1);
    JoinNext(cs, k - 1);
    Glue(parts[0], Join(cs[..k - 1]), if k > 1 then [SEP] else [], parts[k]);
  }

  lemma Glue(a: string, b: string, c: string, d: string)
    ensures a + (b + c + d) == a + b + c + d && (b == [] && c == [] ==> b + c + d == d)
  {
  }

  lemma OnePart(parts: seq<string>)
    requires parts != []
    ensures Assembled(parts[..1]) == parts[0] && Assembled(parts[..0]) == []
  {
    assert parts[..1][1..] == [];
  }

  lemma PlainPrefix(parts: seq<string>, k: nat)
    requires 0 < k <= |parts| && !IsRoot(parts[0])
    ensures Assembled(parts[..k]) == Join(parts[..k])
  {
  }

  lemma RootedPrefix(parts: seq<string>, k: nat)
    requires 0 < k <= |parts| && IsRoot(parts[0])
    ensures Assembled(parts[..k]) == parts[0] + Join(parts[1..][..k - 1])
  {
    assert parts[..k][1..] == parts[1..][..k - 1];
  }

  /** CreatePathStringFromParts: parts joined by separators, none after the root. */
  method Assemble(parts: seq<string>) returns (s: string)
    requires Solid(parts) && forall i :: 1 <= i < |parts| ==> !IsRoot(parts[i])
    ensures s == Assembled(parts)
  {
    s := "";
    var separate := false;
    var k := 0;
    while k < |parts|
      invariant 0 <= k <= |parts| && s == Assembled(parts[..k])
      invariant k < |parts| ==> separate == (k > if IsRoot(parts[0]) then 1 else 0)
    {
      AssembledNext(parts, k);
      if separate {
        s := s + [SEP];
      }
      s := s + parts[k];
      if parts[k] != "" && parts[k][0] != SEP {
        separate := true;
      }
      k := k + 1;
    }
    assert parts[..|parts|] == parts;
  }
}
