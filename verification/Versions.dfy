/** Bazel module versions: their grammar, their sort keys, and the order of the report. */
module Versions {
  import opened Common

  predicate IsDigit(c: char) {
    '0' <= c <= '9'
  }

  predicate ReleaseChar(c: char) {
    'a' <= c <= 'z' || 'A' <= c <= 'Z' || IsDigit(c) || c == '.'
  }

  predicate ExtraChar(c: char) {
    ReleaseChar(c) || c == '-'
  }

  predicate AllDigits(s: string) {
    forall i :: 0 <= i < |s| ==> IsDigit(s[i])
  }

  predicate AllRelease(s: string) {
    forall i :: 0 <= i < |s| ==> ReleaseChar(s[i])
  }

  predicate AllExtra(s: string) {
    forall i :: 0 <= i < |s| ==> ExtraChar(s[i])
  }

  // ----- the grammar -----

  /** A version, without build metadata; no prerelease is the empty one. */
  datatype Version = Version(release: string, prerelease: string)

  /** Where the characters of the release from i on end. */
  function ReleaseEnd(s: string, i: nat): (j: nat)
    requires i <= |s|
    ensures i <= j <= |s|
    decreases |s| - i
  {
    if i < |s| && ReleaseChar(s[i]) then ReleaseEnd(s, i + 1) else i
  }

  /** The same for the characters of a prerelease or of build metadata. */
  function ExtraEnd(s: string, i: nat): (j: nat)
    requires i <= |s|
    ensures i <= j <= |s|
    decreases |s| - i
  {
    if i < |s| && ExtraChar(s[i]) then ExtraEnd(s, i + 1) else i
  }

  /** The end of an optional part that a mark introduces, from i on; none if the mark is there and the part is empty. */
  function PartEnd(s: string, i: nat, mark: char): (r: Option<nat>)
    requires i <= |s|
    ensures r.Some? ==> i <= r.value <= |s|
  {
    if i < |s| && s[i] == mark then
      var j := ExtraEnd(s, i + 1);
      if j == i + 1 then None else Some(j)
    else Some(i)
  }

  /** What matching the pattern gives; as in Python, its end may be before a final newline. */
  function Parse(s: string): Option<Version> {
    var a := ReleaseEnd(s, 0);
    if a == 0 then None
    else
      match PartEnd(s, a, '-')
      case None => None
      case Some(b) =>
        match PartEnd(s, b, '+')
        case None => None
        case Some(c) =>
          if c == |s| || (c == |s| - 1 && s[c] == '\n')
          then Some(Version(s[..a], if b == a then "" else s[a + 1..b]))
          else None
  }

  // ----- keys -----

  /** A sort key of an identifier, compared component by component. */
  datatype Ident = Ident(kind: int, number: nat, text: string)

  datatype Key = Key(release: seq<Ident>, rank: int, prerelease: seq<Ident>)

  function Value(digits: string): nat
    requires AllDigits(digits)
  {
    if digits == "" then 0
    else Value(digits[..|digits| - 1]) * 10 + (digits[|digits| - 1] as int - '0' as int)
  }

  function IdentifierKey(s: string): Ident {
    if s != "" && AllDigits(s) then Ident(0, Value(s), "") else Ident(1, 0, s)
  }

  function Dot(s: string, i: nat): (j: nat)
    requires i <= |s|
    ensures i <= j <= |s|
    decreases |s| - i
  {
    if i < |s| && s[i] != '.' then Dot(s, i + 1) else i
  }

  /** The keys of the identifiers between the dots. */
  function Keys(s: string): seq<Ident>
    decreases |s|
  {
    var n := Dot(s, 0);
    if n == |s| then [IdentifierKey(s)] else [IdentifierKey(s[..n])] + Keys(s[n + 1..])
  }

  function VersionKey(s: string): Key {
    match Parse(s)
    case None => Key([IdentifierKey(s)], 1, [])
    case Some(v) =>
      if v.prerelease == "" then Key(Keys(v.release), 1, []) else Key(Keys(v.release), 0, Keys(v.prerelease))
  }

  // ----- the order -----

  function CompareInt(a: int, b: int): int {
    if a < b then -1 else if a == b then 0 else 1
  }

  function CompareChar(a: char, b: char): int {
    CompareInt(a as int, b as int)
  }

  /** The order of Python's lists: by the first difference, or the shorter one first. */
  function Lex<T>(cmp: (T, T) -> int, a: seq<T>, b: seq<T>): int {
    if a == [] || b == [] then CompareInt(|a|, |b|)
    else if cmp(a[0], b[0]) != 0 then cmp(a[0], b[0])
    else Lex(cmp, a[1..], b[1..])
  }

  function Then(first: int, second: int): int {
    if first != 0 then first else second
  }

  function CompareIdent(a: Ident, b: Ident): int {
    Then(CompareInt(a.kind, b.kind), Then(CompareInt(a.number, b.number), Lex(CompareChar, a.text, b.text)))
  }

  function CompareKey(a: Key, b: Key): int {
    Then(Lex(CompareIdent, a.release, b.release),
         Then(CompareInt(a.rank, b.rank), Lex(CompareIdent, a.prerelease, b.prerelease)))
  }

  function CompareVersions(left: string, right: string): int {
    if left == right then 0
    else if VersionKey(left) == VersionKey(right) then 0
    else if CompareKey(VersionKey(left), VersionKey(right)) < 0 then -1 else 1
  }

  ghost predicate Order<T(!new)>(cmp: (T, T) -> int) {
    && (forall x, y :: -1 <= cmp(x, y) <= 1 && cmp(x, y) == -cmp(y, x))
    && (forall x, y :: cmp(x, y) == 0 <==> x == y)
    && (forall x, y, z :: cmp(x, y) <= 0 && cmp(y, z) <= 0 ==> cmp(x, z) <= 0)
  }

  lemma {:induction false} LexSwaps<T(!new)>(cmp: (T, T) -> int, a: seq<T>, b: seq<T>)
    requires Order(cmp)
    ensures -1 <= Lex(cmp, a, b) <= 1 && Lex(cmp, a, b) == -Lex(cmp, b, a)
    ensures Lex(cmp, a, b) == 0 <==> a == b
  {
    if a != [] && b != [] {
      LexSwaps(cmp, a[1..], b[1..]);
      assert a == [a[0]] + a[1..] && b == [b[0]] + b[1..];
    }
  }

  lemma {:induction false} LexChains<T(!new)>(cmp: (T, T) -> int, a: seq<T>, b: seq<T>, c: seq<T>)
    requires Order(cmp) && Lex(cmp, a, b) <= 0 && Lex(cmp, b, c) <= 0
    ensures Lex(cmp, a, c) <= 0
  {
    if a != [] && b != [] && c != [] {
      if cmp(a[0], b[0]) == 0 && cmp(b[0], c[0]) == 0 {
        LexChains(cmp, a[1..], b[1..], c[1..]);
      }
    }
  }

  lemma CharOrder()
    ensures Order(CompareChar)
  {
  }

  lemma IdentChains(a: Ident, b: Ident, c: Ident)
    requires CompareIdent(a, b) <= 0 && CompareIdent(b, c) <= 0
    ensures CompareIdent(a, c) <= 0
  {
    CharOrder();
    LexSwaps(CompareChar, a.text, b.text);
    LexSwaps(CompareChar, b.text, c.text);
    if Lex(CompareChar, a.text, b.text) <= 0 && Lex(CompareChar, b.text, c.text) <= 0 {
      LexChains(CompareChar, a.text, b.text, c.text);
    }
  }

  lemma IdentOrder()
    ensures Order(CompareIdent)
  {
    CharOrder();
    forall x: Ident, y: Ident
      ensures -1 <= CompareIdent(x, y) <= 1 && CompareIdent(x, y) == -CompareIdent(y, x)
      ensures CompareIdent(x, y) == 0 <==> x == y
    {
      LexSwaps(CompareChar, x.text, y.text);
    }
    forall x: Ident, y: Ident, z: Ident | CompareIdent(x, y) <= 0 && CompareIdent(y, z) <= 0
      ensures CompareIdent(x, z) <= 0
    {
      IdentChains(x, y, z);
    }
  }

  lemma KeySwaps(a: Key, b: Key)
    ensures -1 <= CompareKey(a, b) <= 1 && CompareKey(a, b) == -CompareKey(b, a)
    ensures CompareKey(a, b) == 0 <==> a == b
  {
    IdentOrder();
    LexSwaps(CompareIdent, a.release, b.release);
    LexSwaps(CompareIdent, a.prerelease, b.prerelease);
  }

  lemma KeyChains(a: Key, b: Key, c: Key)
    requires CompareKey(a, b) <= 0 && CompareKey(b, c) <= 0
    ensures CompareKey(a, c) <= 0
  {
    IdentOrder();
    LexSwaps(CompareIdent, a.release, b.release);
    LexSwaps(CompareIdent, b.release, c.release);
    LexSwaps(CompareIdent, a.release, c.release);
    LexChains(CompareIdent, a.release, b.release, c.release);
    if a.release == c.release {
      LexSwaps(CompareIdent, b.release, a.release);
    }
    if Lex(CompareIdent, a.prerelease, b.prerelease) <= 0 && Lex(CompareIdent, b.prerelease, c.prerelease) <= 0 {
      LexChains(CompareIdent, a.prerelease, b.prerelease, c.prerelease);
    }
  }

  /** The comparison is total: it is the order of the keys, and equal exactly on equal keys. */
  lemma CompareIsKeyOrder(a: string, b: string)
    ensures CompareVersions(a, b) == CompareKey(VersionKey(a), VersionKey(b))
    ensures CompareVersions(a, b) == -CompareVersions(b, a) && CompareVersions(a, a) == 0
    ensures CompareVersions(a, b) == 0 <==> VersionKey(a) == VersionKey(b)
  {
    KeySwaps(VersionKey(a), VersionKey(b));
  }

  /** ... and transitive. */
  lemma CompareChains(a: string, b: string, c: string)
    requires CompareVersions(a, b) <= 0 && CompareVersions(b, c) <= 0
    ensures CompareVersions(a, c) <= 0
    ensures CompareVersions(a, c) == 0 ==> CompareVersions(a, b) == 0 && CompareVersions(b, c) == 0
  {
    CompareIsKeyOrder(a, b);
    CompareIsKeyOrder(b, c);
    CompareIsKeyOrder(a, c);
    CompareIsKeyOrder(c, a);
    KeyChains(VersionKey(a), VersionKey(b), VersionKey(c));
    if CompareVersions(a, c) == 0 {
      KeySwaps(VersionKey(a), VersionKey(b));
      KeySwaps(VersionKey(b), VersionKey(c));
    }
  }

  // ----- what the keys mean -----

  /** A version as it is written: build metadata and a final newline may follow. */
  function Spelled(v: Version, build: string, newline: bool): string {
    v.release + Minus(v) + Plus(build) + End(newline)
  }

  predicate Accepted(v: Version, build: string) {
    v.release != "" && AllRelease(v.release) && AllExtra(v.prerelease) && AllExtra(build)
  }

  lemma {:induction false} ReleaseEndIs(s: string, i: nat, j: nat)
    requires i <= j <= |s| && (forall k :: i <= k < j ==> ReleaseChar(s[k])) && (j < |s| ==> !ReleaseChar(s[j]))
    ensures ReleaseEnd(s, i) == j
    decreases j - i
  {
    if i < j { ReleaseEndIs(s, i + 1, j); }
  }

  lemma {:induction false} ReleaseEndMeans(s: string, i: nat)
    requires i <= |s|
    ensures var j := ReleaseEnd(s, i); forall k :: i <= k < j ==> ReleaseChar(s[k])
    decreases |s| - i
  {
    if i < |s| && ReleaseChar(s[i]) { ReleaseEndMeans(s, i + 1); }
  }

  lemma {:induction false} ExtraEndIs(s: string, i: nat, j: nat)
    requires i <= j <= |s| && (forall k :: i <= k < j ==> ExtraChar(s[k])) && (j < |s| ==> !ExtraChar(s[j]))
    ensures ExtraEnd(s, i) == j
    decreases j - i
  {
    if i < j { ExtraEndIs(s, i + 1, j); }
  }

  lemma {:induction false} ExtraEndMeans(s: string, i: nat)
    requires i <= |s|
    ensures var j := ExtraEnd(s, i); forall k :: i <= k < j ==> ExtraChar(s[k])
    decreases |s| - i
  {
    if i < |s| && ExtraChar(s[i]) { ExtraEndMeans(s, i + 1); }
  }

  /** An optional part, as written, is what the parser finds. */
  lemma PartIs(s: string, head: string, mark: char, part: string, text: string, tail: string)
    requires s == head + text + tail && text == (if part == "" then "" else [mark] + part)
    requires AllExtra(part) && (tail != "" ==> !ExtraChar(tail[0]) && tail[0] != mark)
    ensures PartEnd(s, |head|, mark) == Some(|head| + |text|)
  {
    if part != "" {
      var i := |head| + 1;
      forall k | i <= k < i + |part| ensures ExtraChar(s[k]) {
        assert s[k] == part[k - i];
      }
      ExtraEndIs(s, i, i + |part|);
    }
  }

  /** What the parser returns, given where the parts end. */
  lemma ParseAt(s: string, a: nat, b: nat, c: nat)
    requires a <= |s| && b <= |s|
    requires ReleaseEnd(s, 0) == a && PartEnd(s, a, '-') == Some(b) && PartEnd(s, b, '+') == Some(c)
    ensures Parse(s) == if a > 0 && (c == |s| || (c == |s| - 1 && s[c] == '\n'))
                        then Some(Version(s[..a], if b == a then "" else s[a + 1..b]))
                        else None
  {
  }

  function Minus(v: Version): string {
    if v.prerelease == "" then "" else "-" + v.prerelease
  }

  function Plus(build: string): string {
    if build == "" then "" else "+" + build
  }

  function End(newline: bool): string {
    if newline then "\n" else ""
  }

  lemma Grouped(a: string, b: string, c: string, d: string)
    ensures a + b + c + d == a + b + (c + d) && a + b + c + d == a + (b + c + d)
    ensures (a + b + c + d)[..|a|] == a && (a + b + c + d)[|a|..|a| + |b|] == b
    ensures |a + b + c + d| == |a| + |b| + |c| + |d|
    ensures (a + b + c + d)[|a| + |b| + |c|..] == d
  {
  }

  lemma TailStarts(build: string, newline: bool)
    ensures var tail := Plus(build) + End(newline); tail != "" ==> tail[0] == '+' || tail[0] == '\n'
  {
  }

  lemma RestStarts(v: Version, build: string, newline: bool)
    ensures var rest := Minus(v) + Plus(build) + End(newline); rest != "" ==> !ReleaseChar(rest[0])
  {
  }

  lemma SpelledRelease(v: Version, build: string, newline: bool, s: string)
    requires Accepted(v, build) && s == Spelled(v, build, newline)
    ensures ReleaseEnd(s, 0) == |v.release|
  {
    Grouped(v.release, Minus(v), Plus(build), End(newline));
    RestStarts(v, build, newline);
    ReleaseEnds(v.release, Minus(v) + Plus(build) + End(newline), s);
  }

  lemma SpelledPrerelease(v: Version, build: string, newline: bool, s: string)
    requires Accepted(v, build) && s == Spelled(v, build, newline)
    ensures PartEnd(s, |v.release|, '-') == Some(|v.release| + |Minus(v)|)
  {
    Grouped(v.release, Minus(v), Plus(build), End(newline));
    TailStarts(build, newline);
    PartIs(s, v.release, '-', v.prerelease, Minus(v), Plus(build) + End(newline));
  }

  lemma SpelledBuild(v: Version, build: string, newline: bool, s: string)
    requires Accepted(v, build) && s == Spelled(v, build, newline)
    ensures var b := |v.release| + |Minus(v)|; b <= |s| && PartEnd(s, b, '+') == Some(b + |Plus(build)|)
  {
    PartIs(s, v.release + Minus(v), '+', build, Plus(build), End(newline));
  }

  lemma SpelledPieces(v: Version, build: string, newline: bool, s: string, a: nat, b: nat, c: nat)
    requires s == Spelled(v, build, newline) && a == |v.release| && b == a + |Minus(v)| && c == b + |Plus(build)|
    ensures c <= |s| && s[..a] == v.release && v.prerelease == if b == a then "" else s[a + 1..b]
    ensures c == |s| || (c == |s| - 1 && s[c] == '\n')
  {
    Grouped(v.release, Minus(v), Plus(build), End(newline));
    PrereleaseIs(v, s, a);
    assert s[c..] == End(newline);
  }

  /** Where the parts of a version end in a text. */
  ghost predicate CutAt(s: string, v: Version, a: nat, b: nat, c: nat) {
    && 0 < a <= b <= c <= |s| && ReleaseEnd(s, 0) == a && PartEnd(s, a, '-') == Some(b) && PartEnd(s, b, '+') == Some(c)
    && s[..a] == v.release && v.prerelease == (if b == a then "" else s[a + 1..b])
    && (c == |s| || (c == |s| - 1 && s[c] == '\n'))
  }

  lemma CutParses(s: string, v: Version, a: nat, b: nat, c: nat)
    requires CutAt(s, v, a, b, c)
    ensures Parse(s) == Some(v)
  {
    ParseAt(s, a, b, c);
  }

  lemma SpelledCut(v: Version, build: string, newline: bool, s: string)
    requires Accepted(v, build) && s == Spelled(v, build, newline)
    ensures var a := |v.release|;
            CutAt(s, v, a, a + |Minus(v)|, a + |Minus(v)| + |Plus(build)|)
  {
    var a := |v.release|;
    SpelledPieces(v, build, newline, s, a, a + |Minus(v)|, a + |Minus(v)| + |Plus(build)|);
    SpelledRelease(v, build, newline, s);
    SpelledPrerelease(v, build, newline, s);
    SpelledBuild(v, build, newline, s);
  }

  /** The parser reads every version that is written as the grammar says. */
  lemma ParseSpelled(v: Version, build: string, newline: bool)
    requires Accepted(v, build)
    ensures Parse(Spelled(v, build, newline)) == Some(v)
  {
    var a := |v.release|;
    SpelledCut(v, build, newline, Spelled(v, build, newline));
    CutParses(Spelled(v, build, newline), v, a, a + |Minus(v)|, a + |Minus(v)| + |Plus(build)|);
  }

  lemma PrereleaseIs(v: Version, s: string, a: nat)
    requires a + |Minus(v)| <= |s| && s[a..a + |Minus(v)|] == Minus(v)
    ensures v.prerelease == if Minus(v) == "" then "" else s[a + 1..a + |Minus(v)|]
  {
    if v.prerelease != "" {
      assert Minus(v)[1..] == v.prerelease;
      assert s[a + 1..a + |Minus(v)|] == s[a..a + |Minus(v)|][1..];
    }
  }

  lemma ReleaseEnds(release: string, rest: string, s: string)
    requires s == release + rest && AllRelease(release) && (rest != "" ==> !ReleaseChar(rest[0]))
    ensures ReleaseEnd(s, 0) == |release|
  {
    ReleaseEndIs(s, 0, |release|);
  }

  lemma PartText(s: string, i: nat, mark: char)
    requires i <= |s| && PartEnd(s, i, mark).Some?
    ensures var j := PartEnd(s, i, mark).value;
            && s[i..j] == (if j == i then "" else [mark] + s[i + 1..j])
            && (j > i ==> j > i + 1 && AllExtra(s[i + 1..j]))
  {
    if i < |s| { ExtraEndMeans(s, i + 1); }
  }

  /** ... and nothing else. */
  lemma ParsedIsSpelled(s: string) returns (build: string, newline: bool)
    requires Parse(s).Some?
    ensures Accepted(Parse(s).value, build) && s == Spelled(Parse(s).value, build, newline)
  {
    var a := ReleaseEnd(s, 0);
    var b := PartEnd(s, a, '-').value;
    var c := PartEnd(s, b, '+').value;
    build := if c == b then "" else s[b + 1..c];
    newline := c < |s|;
    ReleaseEndMeans(s, 0);
    PartText(s, a, '-');
    PartText(s, b, '+');
    ParseAt(s, a, b, c);
    Reassembled(s, a, b, c, build, newline);
  }

  lemma Reassembled(s: string, a: nat, b: nat, c: nat, build: string, newline: bool)
    requires a <= b <= c <= |s| && s[c..] == End(newline) && s[b..c] == Plus(build)
    requires b != a + 1 && s[a..b] == (if b == a then "" else "-" + s[a + 1..b])
    ensures s == Spelled(Version(s[..a], if b == a then "" else s[a + 1..b]), build, newline)
  {
    FourPieces(s, a, b, c);
  }

  lemma FourPieces(s: string, a: nat, b: nat, c: nat)
    requires a <= b <= c <= |s|
    ensures s == s[..a] + s[a..b] + s[b..c] + s[c..]
  {
  }

  /** Build metadata has no influence on the order. */
  lemma BuildIgnored(v: Version, build: string, build': string, other: string)
    requires Accepted(v, build) && Accepted(v, build')
    ensures CompareVersions(Spelled(v, build, false), Spelled(v, build', false)) == 0
    ensures CompareVersions(Spelled(v, build, false), other) == CompareVersions(Spelled(v, build', false), other)
  {
    ParseSpelled(v, build, false);
    ParseSpelled(v, build', false);
    CompareIsKeyOrder(Spelled(v, build, false), other);
    CompareIsKeyOrder(Spelled(v, build', false), other);
  }

  /** A prerelease is below its release. */
  lemma PrereleaseBelow(v: Version)
    requires Accepted(v, "") && v.prerelease != ""
    ensures CompareVersions(Spelled(v, "", false), v.release) == -1
  {
    ParseSpelled(v, "", false);
    var r := Version(v.release, "");
    ParseSpelled(r, "", false);
    assert Spelled(r, "", false) == v.release;
    IdentOrder();
    LexSwaps(CompareIdent, Keys(v.release), Keys(v.release));
    CompareIsKeyOrder(Spelled(v, "", false), v.release);
  }

  lemma {:induction false} KeysOfExtension(r: string, more: string)
    ensures Keys(r + "." + more) == Keys(r) + Keys(more)
    decreases |r|
  {
    var n := Dot(r, 0);
    KeysAtDot(r);
    KeysAtDot(r + "." + more);
    ExtensionDot(r, more);
    if n < |r| {
      KeysOfExtension(r[n + 1..], more);
      RegroupKeys([IdentifierKey(r[..n])], Keys(r[n + 1..]), Keys(more));
    }
  }

  lemma KeysAtDot(s: string)
    ensures var n := Dot(s, 0);
            Keys(s) == if n == |s| then [IdentifierKey(s)] else [IdentifierKey(s[..n])] + Keys(s[n + 1..])
  {
  }

  lemma ExtensionDot(r: string, more: string)
    ensures var s, n := r + "." + more, Dot(r, 0);
            && Dot(s, 0) == n && n < |s| && s[..n] == r[..n]
            && s[n + 1..] == (if n == |r| then more else r[n + 1..] + "." + more)
            && (n == |r| ==> r[..n] == r)
  {
    var s, n := r + "." + more, Dot(r, 0);
    DotMeans(r, 0);
    ExtensionText(r, more, n);
    forall k | 0 <= k < n ensures s[k] != '.' { assert s[k] == r[k]; }
    DotIs(s, 0, n);
  }

  lemma ExtensionText(r: string, more: string, n: nat)
    requires n <= |r|
    ensures var s := r + "." + more;
            && s[..n] == r[..n] && s[n] == (if n == |r| then '.' else r[n])
            && s[n + 1..] == (if n == |r| then more else r[n + 1..] + "." + more)
            && (n == |r| ==> r[..n] == r)
  {
  }

  lemma RegroupKeys(a: seq<Ident>, b: seq<Ident>, c: seq<Ident>)
    ensures a + (b + c) == a + b + c
  {
  }

  lemma {:induction false} DotIs(s: string, i: nat, j: nat)
    requires i <= j <= |s| && (forall k :: i <= k < j ==> s[k] != '.') && (j < |s| ==> s[j] == '.')
    ensures Dot(s, i) == j
    decreases j - i
  {
    if i < j { DotIs(s, i + 1, j); }
  }

  lemma {:induction false} DotMeans(s: string, i: nat)
    requires i <= |s|
    ensures var j := Dot(s, i); (forall k :: i <= k < j ==> s[k] != '.') && (j < |s| ==> s[j] == '.')
    decreases |s| - i
  {
    if i < |s| && s[i] != '.' { DotMeans(s, i + 1); }
  }

  lemma {:induction false} LexPrefix(a: seq<Ident>, b: seq<Ident>)
    requires b != []
    ensures Lex(CompareIdent, a, a + b) == -1
  {
    if a != [] {
      IdentOrder();
      assert (a + b)[1..] == a[1..] + b;
      assert CompareIdent(a[0], a[0]) == 0;
      LexPrefix(a[1..], b);
    }
  }

  /** A release is below every release that continues it. */
  lemma LongerIsAbove(r: string, more: string)
    requires r != "" && AllRelease(r) && AllRelease(more)
    ensures CompareVersions(r, r + "." + more) == -1
  {
    var v, w := Version(r, ""), Version(r + "." + more, "");
    ParseSpelled(v, "", false);
    ParseSpelled(w, "", false);
    assert Spelled(v, "", false) == r && Spelled(w, "", false) == r + "." + more;
    KeysOfExtension(r, more);
    LexPrefix(Keys(r), Keys(more));
    CompareIsKeyOrder(r, r + "." + more);
  }

  lemma NoDots(s: string)
    requires AllDigits(s)
    ensures Dot(s, 0) == |s| && AllRelease(s)
  {
    DotIs(s, 0, |s|);
  }

  /** Numeric identifiers compare by their values, after any common release. */
  lemma NumbersByValue(r: string, a: string, b: string)
    requires r != "" && AllRelease(r) && a != "" && AllDigits(a) && b != "" && AllDigits(b)
    ensures CompareVersions(r + "." + a, r + "." + b) == CompareInt(Value(a), Value(b))
  {
    var v, w := Version(r + "." + a, ""), Version(r + "." + b, "");
    NoDots(a);
    NoDots(b);
    ParseSpelled(v, "", false);
    ParseSpelled(w, "", false);
    assert Spelled(v, "", false) == r + "." + a && Spelled(w, "", false) == r + "." + b;
    KeysOfExtension(r, a);
    KeysOfExtension(r, b);
    LexCommon(Keys(r), IdentifierKey(a), IdentifierKey(b));
    CompareIsKeyOrder(r + "." + a, r + "." + b);
  }

  lemma {:induction false} LexCommon(h: seq<Ident>, x: Ident, y: Ident)
    ensures Lex(CompareIdent, h + [x], h + [y]) == CompareIdent(x, y)
  {
    if h != [] {
      IdentOrder();
      assert (h + [x])[1..] == h[1..] + [x] && (h + [y])[1..] == h[1..] + [y];
      assert CompareIdent(h[0], h[0]) == 0;
      LexCommon(h[1..], x, y);
    } else {
      assert [x][1..] == [] && [y][1..] == [];
    }
  }

  // ----- the report -----

  /** Among the first i strings, the one at `at` is the first of the greatest. */
  ghost predicate FirstGreatest(cmp: (string, string) -> int, xs: seq<string>, i: nat, at: nat) {
    && at < i <= |xs|
    && (forall j :: 0 <= j < i ==> cmp(xs[j], xs[at]) <= 0)
    && (forall j :: 0 <= j < at ==> cmp(xs[j], xs[at]) < 0)
  }

  /** A total preorder. */
  ghost predicate Ranks(cmp: (string, string) -> int) {
    && (forall x, y :: cmp(x, y) == -cmp(y, x))
    && (forall x, y, z :: cmp(x, y) <= 0 && cmp(y, z) <= 0 ==>
          cmp(x, z) <= 0 && (cmp(x, z) == 0 ==> cmp(x, y) == 0 && cmp(y, z) == 0))
  }

  lemma CompareRanks()
    ensures Ranks(CompareVersions)
  {
    forall x, y ensures CompareVersions(x, y) == -CompareVersions(y, x) {
      CompareIsKeyOrder(x, y);
    }
    forall x, y, z | CompareVersions(x, y) <= 0 && CompareVersions(y, z) <= 0
      ensures CompareVersions(x, z) <= 0
      ensures CompareVersions(x, z) == 0 ==> CompareVersions(x, y) == 0 && CompareVersions(y, z) == 0
    {
      CompareChains(x, y, z);
    }
  }

  lemma GreatestStep(cmp: (string, string) -> int, xs: seq<string>, i: nat, at: nat)
    requires Ranks(cmp) && FirstGreatest(cmp, xs, i, at) && i < |xs|
    ensures FirstGreatest(cmp, xs, i + 1, if cmp(xs[at], xs[i]) < 0 then i else at)
  {
  }

  /** _highest: the first of the greatest. */
  method Highest(versions: seq<string>) returns (best: string)
    requires versions != []
    ensures best in versions
    ensures forall v :: v in versions ==> CompareVersions(v, best) <= 0
    ensures exists k: nat :: FirstGreatest(CompareVersions, versions, |versions|, k) && versions[k] == best
  {
    CompareRanks();
    best := versions[0];
    ghost var at := 0;
    var i := 1;
    while i < |versions|
      invariant 1 <= i <= |versions| && FirstGreatest(CompareVersions, versions, i, at) && versions[at] == best
    {
      GreatestStep(CompareVersions, versions, i, at);
      CompareIsKeyOrder(best, versions[i]);
      if CompareKey(VersionKey(best), VersionKey(versions[i])) < 0 {
        best := versions[i];
        at := i;
      }
      i := i + 1;
    }
  }

  datatype Verdict = Unknown | ByCommit | Agree | Differs
  datatype Direction = NoDirection | RefIntLower | RefIntHigher

  /** Consumers asked for something else than the pin; a commit (an empty version) is never what they asked for. */
  ghost predicate Disagree(version: string, wanted: seq<string>) {
    wanted != [] && (version == "" || exists w :: w in wanted && w != version)
  }

  datatype Judgement = Judgement(verdict: Verdict, direction: Direction)

  /** What a judgement of a pin says about the versions that consumers asked for. */
  ghost predicate Right(j: Judgement, version: string, wanted: seq<string>) {
    && (j.verdict == Differs <==> Disagree(version, wanted))
    && (j.verdict == Agree <==> wanted != [] && !Disagree(version, wanted))
    && (j.verdict == ByCommit <==> wanted == [] && version == "")
    && (j.direction == NoDirection <==> version == "" || j.verdict != Differs)
    && (j.direction == RefIntLower <==> version != "" && exists w :: w in wanted && CompareVersions(version, w) < 0)
    && (j.direction == RefIntHigher <==>
          version != "" && j.verdict == Differs && forall w :: w in wanted ==> CompareVersions(version, w) >= 0)
  }

  /** The judgement of a pin in _build_report: its version (empty for a commit) against what consumers asked for. */
  method Judge(version: string, wanted: seq<string>) returns (j: Judgement)
    ensures Right(j, version, wanted)
    ensures wanted == [] ==> j == Judgement(if version == "" then ByCommit else Unknown, NoDirection)
    ensures wanted != [] && version == "" ==> j == Judgement(Differs, NoDirection)
    ensures wanted != [] && version != "" && (forall w :: w in wanted ==> w == version) ==>
              j == Judgement(Agree, NoDirection)
    ensures version != "" && (exists w :: w in wanted && w != version) ==>
              j.verdict == Differs && j.direction in {RefIntLower, RefIntHigher}
  {
    if wanted == [] {
      return Judgement(if version == "" then ByCommit else Unknown, NoDirection);
    }
    if version == "" {
      return Judgement(Differs, NoDirection);
    }
    if forall w :: w in wanted ==> w == version {
      SameIsEqual(version, wanted);
      return Judgement(Agree, NoDirection);
    }
    var highest := Highest(wanted);
    var order := CompareVersions(version, highest);
    forall w | w in wanted && CompareVersions(version, w) < 0 ensures order < 0 {
      CompareChains(version, w, highest);
    }
    j := Judgement(Differs, if order < 0 then RefIntLower else RefIntHigher);
  }

  lemma SameIsEqual(version: string, wanted: seq<string>)
    requires forall w :: w in wanted ==> w == version
    ensures forall w :: w in wanted ==> CompareVersions(version, w) == 0
  {
  }

  /** The pins and what was asked for them. */
  datatype Pins = Pins(version: map<string, string>, declared: map<string, seq<string>>)

  function Wanted(p: Pins, name: string): seq<string> {
    if name in p.declared then p.declared[name] else []
  }

  /** The names among the first n whose pin disagrees, in their order. */
  ghost function Conflicts(p: Pins, names: seq<string>, n: nat): seq<string>
    requires n <= |names| && forall k :: 0 <= k < |names| ==> names[k] in p.version
  {
    if n == 0 then []
    else Conflicts(p, names, n - 1)
         + if Disagree(p.version[names[n - 1]], Wanted(p, names[n - 1])) then [names[n - 1]] else []
  }

  /** The conflicts are the names at exactly the positions where the pin disagrees, from the first to the last. */
  lemma {:induction false} ConflictsAre(p: Pins, names: seq<string>, n: nat) returns (at: seq<nat>)
    requires n <= |names| && forall k :: 0 <= k < |names| ==> names[k] in p.version
    ensures |at| == |Conflicts(p, names, n)|
    ensures forall i :: 0 <= i < |at| ==> at[i] < n && Conflicts(p, names, n)[i] == names[at[i]]
    ensures forall i, j :: 0 <= i < j < |at| ==> at[i] < at[j]
    ensures forall k :: 0 <= k < n ==> (k in at <==> Disagree(p.version[names[k]], Wanted(p, names[k])))
  {
    at := [];
    if n > 0 {
      at := ConflictsAre(p, names, n - 1);
      if Disagree(p.version[names[n - 1]], Wanted(p, names[n - 1])) {
        at := at + [n - 1];
      }
    }
  }

  /** An entry of the report, which keeps the order of its names. */
  datatype Entry = Entry(name: string, judgement: Judgement)

  /** An entry is the right judgement of the pin of its name. */
  ghost predicate RightEntry(p: Pins, name: string, e: Entry) {
    e.name == name && name in p.version && Right(e.judgement, p.version[name], Wanted(p, name))
  }

  /** The loop of _build_report over the sorted names: every pin is judged, and the conflicts are listed in order. */
  method BuildReport(p: Pins, names: seq<string>) returns (report: seq<Entry>, conflicts: seq<string>)
    requires forall k :: 0 <= k < |names| ==> names[k] in p.version
    ensures |report| == |names| && forall k :: 0 <= k < |names| ==> RightEntry(p, names[k], report[k])
    ensures forall k :: 0 <= k < |names| && names[k] in p.declared ==>
              Right(report[k].judgement, p.version[names[k]], p.declared[names[k]])
    ensures conflicts == Conflicts(p, names, |names|)
  {
    report, conflicts := [], [];
    while |report| < |names|
      invariant |report| <= |names| && forall k :: 0 <= k < |report| ==> RightEntry(p, names[k], report[k])
      invariant conflicts == Conflicts(p, names, |report|)
    {
      ghost var n := |report|;
      var name := names[|report|];
      var entry := JudgeEntry(p, name);
      assert RightEntry(p, names[n], entry);
      if entry.judgement.verdict == Differs {
        conflicts := conflicts + [name];
      }
      report := report + [entry];
    }
  }

  method JudgeEntry(p: Pins, name: string) returns (e: Entry)
    requires name in p.version
    ensures RightEntry(p, name, e) && (e.judgement.verdict == Differs <==> Disagree(p.version[name], Wanted(p, name)))
  {
    var j := Judge(p.version[name], Wanted(p, name));
    e := Entry(name, j);
  }

  /**
  A pin that is reported higher is above every requested version exactly if none of them has its rank; otherwise
  it is only not below them.
  */
  lemma HigherIsAbove(j: Judgement, version: string, wanted: seq<string>)
    requires Right(j, version, wanted) && j.direction == RefIntHigher
    ensures (forall w :: w in wanted ==> CompareVersions(version, w) > 0) <==>
            (forall w :: w in wanted ==> VersionKey(w) != VersionKey(version))
  {
    forall w | w in wanted ensures CompareVersions(version, w) > 0 <==> VersionKey(w) != VersionKey(version) {
      CompareIsKeyOrder(version, w);
    }
  }

  /** A pin that differs from the one request in build metadata only is reported higher, and is of equal rank. */
  lemma HigherThoughEqual(v: Version, build: string, j: Judgement)
    requires Accepted(v, build) && build != ""
    requires Right(j, Spelled(v, build, false), [Spelled(v, "", false)])
    ensures j.direction == RefIntHigher && CompareVersions(Spelled(v, build, false), Spelled(v, "", false)) == 0
  {
    BuildIgnored(v, build, "", "");
    var pin, wanted := Spelled(v, build, false), [Spelled(v, "", false)];
    assert |pin| > |wanted[0]|;
    assert wanted[0] in wanted && wanted[0] != pin && pin != "";
    assert forall w :: w in wanted ==> CompareVersions(pin, w) == 0;
  }

  /** A pin that is the highest of several requests is reported higher, although one asked for exactly it. */
  lemma HigherThoughRequested(a: string, b: string, j: Judgement)
    requires a != b && b != "" && CompareVersions(b, a) >= 0 && Right(j, b, [a, b])
    ensures j.direction == RefIntHigher && b in [a, b]
  {
    var wanted := [a, b];
    assert a in wanted && Disagree(b, wanted);
    assert forall w :: w in wanted ==> CompareVersions(b, w) >= 0;
  }

  /** "2.0" against requests for "1.0" and "2.0" is such a pin. */
  lemma TwoRequests(one: string, two: string, j: Judgement)
    requires one == "1.0" && two == "2.0" && Right(j, two, [one, two])
    ensures j.direction == RefIntHigher
  {
    assert one == "1" + "." + "0" && two == "2" + "." + "0";
    DigitKey("1", 1);
    DigitKey("2", 2);
    CompareIsKeyOrder(two, one);
    FirstDecides(2, 1);
    HigherThoughRequested(one, two, j);
  }

  lemma FirstDecides(n: nat, m: nat)
    requires m < n
    ensures CompareKey(Key([Ident(0, n, ""), Ident(0, 0, "")], 1, []),
        Key([Ident(0, m, ""), Ident(0, 0, "")], 1, [])) == 1
  {
    assert CompareIdent(Ident(0, n, ""), Ident(0, m, "")) == 1;
  }

  lemma DigitKey(d: string, n: nat)
    requires |d| == 1 && IsDigit(d[0]) && n == d[0] as int - '0' as int
    ensures VersionKey(d + "." + "0") == Key([Ident(0, n, ""), Ident(0, 0, "")], 1, [])
  {
    var v := Version(d + "." + "0", "");
    ParseSpelled(v, "", false);
    assert Spelled(v, "", false) == v.release;
    KeysOfExtension(d, "0");
    OneDigit(d, n);
    OneDigit("0", 0);
    assert [Ident(0, n, "")] + [Ident(0, 0, "")] == [Ident(0, n, ""), Ident(0, 0, "")];
  }

  lemma OneDigit(d: string, n: nat)
    requires |d| == 1 && IsDigit(d[0]) && n == d[0] as int - '0' as int
    ensures Keys(d) == [Ident(0, n, "")]
  {
    NoDots(d);
    assert Value(d[..0]) == 0;
  }
}
