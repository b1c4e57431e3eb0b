/**
The order of versions in words: without sort keys, and without the values of numbers. Identifiers between dots are
compared one after the other; numbers are below texts, numbers compare by their digits, texts by their characters.
*/
module VersionOrder {
  import opened Common
  import opened Versions

  // ----- texts -----

  /** Up to position i the two are alike; there the first one ends, or has the smaller character. */
  predicate SmallerAt(a: string, b: string, i: nat) {
    i <= |a| && i < |b| && a[..i] == b[..i] && (i == |a| || a[i] < b[i])
  }

  ghost predicate TextBelow(a: string, b: string) {
    exists i: nat :: SmallerAt(a, b, i)
  }

  ghost predicate LexAt<T(!new)>(cmp: (T, T) -> int, a: seq<T>, b: seq<T>, i: nat) {
    && i <= |a| && i < |b| && (forall k :: 0 <= k < i ==> cmp(a[k], b[k]) == 0)
    && (i == |a| || cmp(a[i], b[i]) < 0)
  }

  /** A list is below another exactly if it is at the first difference, or ends before one. */
  lemma {:induction false} LexMeans<T(!new)>(cmp: (T, T) -> int, a: seq<T>, b: seq<T>)
    ensures Lex(cmp, a, b) < 0 <==> exists i: nat :: LexAt(cmp, a, b, i)
  {
    if a == [] || b == [] {
      assert a == [] && b != [] ==> LexAt(cmp, a, b, 0);
    } else if cmp(a[0], b[0]) != 0 {
      assert cmp(a[0], b[0]) < 0 ==> LexAt(cmp, a, b, 0);
    } else {
      LexMeans(cmp, a[1..], b[1..]);
      LexTail(cmp, a, b);
    }
  }

  lemma LexTail<T(!new)>(cmp: (T, T) -> int, a: seq<T>, b: seq<T>)
    requires a != [] && b != [] && cmp(a[0], b[0]) == 0
    ensures (exists i: nat :: LexAt(cmp, a[1..], b[1..], i)) <==> (exists i: nat :: LexAt(cmp, a, b, i))
  {
    if i: nat :| LexAt(cmp, a[1..], b[1..], i) {
      forall k | 0 <= k < i + 1 ensures cmp(a[k], b[k]) == 0 {
        if k > 0 { assert cmp(a[1..][k - 1], b[1..][k - 1]) == 0; }
      }
      assert LexAt(cmp, a, b, i + 1);
    }
    if i: nat :| LexAt(cmp, a, b, i) {
      assert i > 0;
      assert LexAt(cmp, a[1..], b[1..], i - 1);
    }
  }

  lemma TextMeans(a: string, b: string)
    ensures Lex(CompareChar, a, b) < 0 <==> TextBelow(a, b)
  {
    LexMeans(CompareChar, a, b);
    forall i: nat ensures LexAt(CompareChar, a, b, i) <==> SmallerAt(a, b, i) {
      CharsAt(a, b, i);
    }
  }

  lemma CharsAt(a: string, b: string, i: nat)
    ensures LexAt(CompareChar, a, b, i) <==> SmallerAt(a, b, i)
  {
    if i <= |a| && i < |b| {
      if a[..i] == b[..i] {
        forall k | 0 <= k < i ensures CompareChar(a[k], b[k]) == 0 {
          assert a[k] == a[..i][k] && b[k] == b[..i][k];
        }
      }
    }
  }

  // ----- numbers -----

  predicate Numeric(a: string) {
    a != "" && AllDigits(a)
  }

  /** A number without its leading zeros. */
  function Trim(a: string): string {
    if a != "" && a[0] == '0' then Trim(a[1..]) else a
  }

  /** Of two numbers, the one with fewer digits is smaller; with equally many, the first different digit decides. */
  ghost predicate NumberBelow(a: string, b: string) {
    |Trim(a)| < |Trim(b)| || (|Trim(a)| == |Trim(b)| && TextBelow(Trim(a), Trim(b)))
  }

  lemma {:induction false} ZeroInFront(a: string)
    requires AllDigits(a)
    ensures AllDigits("0" + a) && Value("0" + a) == Value(a)
  {
    if a == "" {
      assert "0" + a == "0" && "0"[..0] == "";
    } else {
      var m := |a| - 1;
      ZeroInFront(a[..m]);
      assert ("0" + a)[..|a|] == "0" + a[..m];
    }
  }

  lemma {:induction false} TrimValue(a: string)
    requires AllDigits(a)
    ensures AllDigits(Trim(a)) && Value(Trim(a)) == Value(a) && (Trim(a) != "" ==> Trim(a)[0] != '0')
  {
    if a != "" && a[0] == '0' {
      TrimValue(a[1..]);
      ZeroInFront(a[1..]);
      assert a == "0" + a[1..];
    }
  }

  function Power(n: nat): nat {
    if n == 0 then 1 else 10 * Power(n - 1)
  }

  lemma {:induction false} PowerGrows(m: nat, n: nat)
    requires m <= n
    ensures 0 < Power(m) <= Power(n)
  {
    if m < n { PowerGrows(m, n - 1); } else if m > 0 { PowerGrows(m - 1, n - 1); }
  }

  lemma {:induction false} ValueRange(a: string)
    requires AllDigits(a)
    ensures Value(a) < Power(|a|) && (a != "" && a[0] != '0' ==> Power(|a| - 1) <= Value(a))
  {
    if a != "" {
      var m := |a| - 1;
      ValueRange(a[..m]);
      if m > 0 { assert a[..m][0] == a[0]; }
    }
  }

  /** Two texts of one length, by their last characters. */
  lemma LastDecides(a: string, b: string)
    requires |a| == |b| > 0
    ensures var m := |a| - 1;
            TextBelow(a, b) <==> TextBelow(a[..m], b[..m]) || (a[..m] == b[..m] && a[m] < b[m])
  {
    var m := |a| - 1;
    if i: nat :| SmallerAt(a, b, i) {
      if i < m {
        assert a[..m][..i] == a[..i] && b[..m][..i] == b[..i];
        assert SmallerAt(a[..m], b[..m], i);
      }
    }
    if i: nat :| SmallerAt(a[..m], b[..m], i) {
      assert a[..m][..i] == a[..i] && b[..m][..i] == b[..i];
      assert SmallerAt(a, b, i);
    }
    if a[..m] == b[..m] && a[m] < b[m] { assert SmallerAt(a, b, m); }
  }

  lemma {:induction false} SameLength(a: string, b: string)
    requires AllDigits(a) && AllDigits(b) && |a| == |b|
    ensures Value(a) < Value(b) <==> TextBelow(a, b)
    ensures Value(a) == Value(b) <==> a == b
    decreases |a|
  {
    if a == "" {
      assert !exists i: nat :: SmallerAt(a, b, i);
    } else {
      var m := |a| - 1;
      SameLength(a[..m], b[..m]);
      SameLength(b[..m], a[..m]);
      LastDecides(a, b);
      assert a == a[..m] + [a[m]] && b == b[..m] + [b[m]];
    }
  }

  lemma FewerDigits(a: string, b: string)
    requires AllDigits(a) && AllDigits(b) && |a| < |b| && b[0] != '0'
    ensures Value(a) < Value(b)
  {
    ValueRange(a);
    ValueRange(b);
    PowerGrows(|a|, |b| - 1);
  }

  lemma NumberMeans(a: string, b: string)
    requires AllDigits(a) && AllDigits(b)
    ensures Value(a) < Value(b) <==> NumberBelow(a, b)
    ensures Value(a) == Value(b) <==> Trim(a) == Trim(b)
  {
    var x, y := Trim(a), Trim(b);
    TrimValue(a);
    TrimValue(b);
    if |x| < |y| {
      FewerDigits(x, y);
    } else if |x| > |y| {
      FewerDigits(y, x);
    } else {
      SameLength(x, y);
    }
  }

  // ----- identifiers -----

  /** Numbers are below texts. */
  ghost predicate Below(a: string, b: string) {
    if Numeric(a) && Numeric(b) then NumberBelow(a, b)
    else if Numeric(a) || Numeric(b) then Numeric(a)
    else TextBelow(a, b)
  }

  predicate Same(a: string, b: string) {
    if Numeric(a) && Numeric(b) then Trim(a) == Trim(b) else a == b
  }

  lemma IdentifierMeans(a: string, b: string)
    ensures CompareIdent(IdentifierKey(a), IdentifierKey(b)) < 0 <==> Below(a, b)
    ensures CompareIdent(IdentifierKey(a), IdentifierKey(b)) == 0 <==> Same(a, b)
  {
    if Numeric(a) && Numeric(b) {
      NumberMeans(a, b);
    }
    CharOrder();
    TextMeans(a, b);
    LexSwaps(CompareChar, a, b);
  }

  // ----- lists of identifiers -----

  ghost predicate ListSmallerAt(x: seq<string>, y: seq<string>, i: nat) {
    && i <= |x| && i < |y| && (forall k :: 0 <= k < i ==> Same(x[k], y[k]))
    && (i == |x| || Below(x[i], y[i]))
  }

  ghost predicate ListBelow(x: seq<string>, y: seq<string>) {
    exists i: nat :: ListSmallerAt(x, y, i)
  }

  predicate ListSame(x: seq<string>, y: seq<string>) {
    |x| == |y| && forall k :: 0 <= k < |x| ==> Same(x[k], y[k])
  }

  /** The keys of identifiers. */
  function KeysOf(x: seq<string>): seq<Ident> {
    seq(|x|, k requires 0 <= k < |x| => IdentifierKey(x[k]))
  }

  lemma ListMeans(x: seq<string>, y: seq<string>)
    ensures Lex(CompareIdent, KeysOf(x), KeysOf(y)) < 0 <==> ListBelow(x, y)
    ensures Lex(CompareIdent, KeysOf(x), KeysOf(y)) == 0 <==> ListSame(x, y)
  {
    var a, b := KeysOf(x), KeysOf(y);
    LexMeans(CompareIdent, a, b);
    forall i: nat ensures LexAt(CompareIdent, a, b, i) <==> ListSmallerAt(x, y, i) {
      IdentifiersAt(x, y, i);
    }
    IdentOrder();
    LexSwaps(CompareIdent, a, b);
    EqualKeys(x, y);
  }

  lemma IdentifiersAt(x: seq<string>, y: seq<string>, i: nat)
    ensures LexAt(CompareIdent, KeysOf(x), KeysOf(y), i) <==> ListSmallerAt(x, y, i)
  {
    if i <= |x| && i < |y| {
      forall k | 0 <= k < i ensures CompareIdent(KeysOf(x)[k], KeysOf(y)[k]) == 0 <==> Same(x[k], y[k]) {
        IdentifierMeans(x[k], y[k]);
      }
      if i < |x| { IdentifierMeans(x[i], y[i]); }
    }
  }

  lemma EqualKeys(x: seq<string>, y: seq<string>)
    ensures KeysOf(x) == KeysOf(y) <==> ListSame(x, y)
  {
    if |x| == |y| {
      IdentOrder();
      forall k | 0 <= k < |x| ensures KeysOf(x)[k] == KeysOf(y)[k] <==> Same(x[k], y[k]) {
        IdentifierMeans(x[k], y[k]);
      }
    } else {
      assert |KeysOf(x)| != |KeysOf(y)|;
    }
  }

  // ----- versions -----

  /** The identifiers between the dots. */
  function Split(s: string): seq<string>
    decreases |s|
  {
    if Dot(s, 0) == |s| then [s] else [s[..Dot(s, 0)]] + Split(s[Dot(s, 0) + 1..])
  }

  /** The identifiers of the release; a text that is no version is one identifier. */
  function Release(s: string): seq<string> {
    match Parse(s)
    case None => [s]
    case Some(v) => Split(v.release)
  }

  /** The identifiers of the prerelease, or none. */
  function Prerelease(s: string): seq<string> {
    match Parse(s)
    case None => []
    case Some(v) => if v.prerelease == "" then [] else Split(v.prerelease)
  }

  /** The release decides, then whether there is a prerelease, then the prerelease. */
  ghost predicate VersionBelow(a: string, b: string) {
    || ListBelow(Release(a), Release(b))
    || (ListSame(Release(a), Release(b)) && Prerelease(a) != [] && Prerelease(b) == [])
    || (ListSame(Release(a), Release(b)) && Prerelease(a) != [] && ListBelow(Prerelease(a), Prerelease(b)))
  }

  lemma {:induction false} KeysSplit(s: string)
    ensures Keys(s) == KeysOf(Split(s)) && Split(s) != []
    decreases |s|
  {
    var n := Dot(s, 0);
    KeysAtDot(s);
    SplitStep(s, n);
    if n < |s| {
      KeysSplit(s[n + 1..]);
      KeysOfHead(s[..n], Split(s[n + 1..]));
    } else {
      KeysOfHead(s, []);
    }
  }

  lemma KeysOfHead(a: string, x: seq<string>)
    ensures KeysOf([a] + x) == [IdentifierKey(a)] + KeysOf(x) && [a] + [] == [a]
  {
  }

  lemma KeyIs(s: string)
    ensures VersionKey(s) == Key(KeysOf(Release(s)), if Prerelease(s) == [] then 1 else 0, KeysOf(Prerelease(s)))
  {
    match Parse(s)
    case None =>
      assert KeysOf([s]) == [IdentifierKey(s)];
    case Some(v) =>
      KeysSplit(v.release);
      KeysSplit(v.prerelease);
  }

  /** The comparison of versions is the order in words, on all strings. */
  lemma CompareMeans(a: string, b: string)
    ensures CompareVersions(a, b) == -1 <==> VersionBelow(a, b)
    ensures CompareVersions(a, b) == 1 <==> VersionBelow(b, a)
    ensures CompareVersions(a, b) == 0 <==>
            ListSame(Release(a), Release(b)) && ListSame(Prerelease(a), Prerelease(b))
  {
    CompareIsKeyOrder(a, b);
    KeyBelow(a, b);
    KeyBelow(b, a);
    KeySwaps(VersionKey(a), VersionKey(b));
    KeyIs(a);
    KeyIs(b);
    EqualKeys(Release(a), Release(b));
    EqualKeys(Prerelease(a), Prerelease(b));
  }

  lemma KeyBelow(a: string, b: string)
    ensures CompareKey(VersionKey(a), VersionKey(b)) < 0 <==> VersionBelow(a, b)
  {
    KeyIs(a);
    KeyIs(b);
    ListMeans(Release(a), Release(b));
    ListMeans(Prerelease(a), Prerelease(b));
    assert KeysOf([]) == [];
    if Prerelease(b) == [] { NothingBelowNone(Prerelease(a)); }
  }

  lemma NothingBelowNone(x: seq<string>)
    ensures !ListBelow(x, [])
  {
  }

  // ----- the characters of versions -----

  /** The release has letters, digits and dots; a prerelease and build metadata also have dashes; nothing else. */
  lemma Alphabet(c: char)
    ensures c in "azAZ09." ==> ReleaseChar(c) && ExtraChar(c)
    ensures ExtraChar(c) && c != '-' ==> ReleaseChar(c)
    ensures ExtraChar('-') && !ReleaseChar('-')
    ensures c in "+_/:@[`{ ,\n" ==> !ExtraChar(c)
  {
  }

  // ----- how texts are split -----

  lemma SplitOne(s: string)
    requires '.' !in s
    ensures Split(s) == [s]
  {
    DotIs(s, 0, |s|);
  }

  /** A dot splits the identifiers. */
  lemma {:induction false} SplitAtDot(r: string, more: string)
    ensures Split(r + "." + more) == Split(r) + Split(more)
    decreases |r|
  {
    var n := Dot(r, 0);
    ExtensionDot(r, more);
    if n == |r| {
      SplitStep(r, n);
      SplitStep(r + "." + more, n);
    } else {
      SplitAtDot(r[n + 1..], more);
      SplitHead(r, more, r + "." + more, n);
    }
  }

  lemma SplitHead(r: string, more: string, s: string, n: nat)
    requires n == Dot(r, 0) == Dot(s, 0) && n < |r| && n < |s| && s[..n] == r[..n]
    requires Split(s[n + 1..]) == Split(r[n + 1..]) + Split(more)
    ensures Split(s) == Split(r) + Split(more)
  {
    SplitStep(r, n);
    SplitStep(s, n);
    RegroupTexts([r[..n]], Split(r[n + 1..]), Split(more));
  }

  lemma RegroupTexts(a: seq<string>, b: seq<string>, c: seq<string>)
    ensures a + (b + c) == a + b + c
  {
  }

  lemma SplitStep(s: string, n: nat)
    requires n == Dot(s, 0)
    ensures Split(s) == if n == |s| then [s] else [s[..n]] + Split(s[n + 1..])
  {
  }

  lemma SameItself(x: seq<string>)
    ensures ListSame(x, x) && !ListBelow(x, x)
  {
    forall i: nat ensures !ListSmallerAt(x, x, i) {
      if i < |x| { NotBelowItself(x[i]); }
    }
  }

  lemma ReleaseOf(r: string)
    requires r != "" && AllRelease(r)
    ensures Release(r) == Split(r) && Prerelease(r) == []
  {
    ParseSpelled(Version(r, ""), "", false);
    assert Spelled(Version(r, ""), "", false) == r;
  }

  // ----- versions that differ in one identifier -----

  lemma CommonHead(h: seq<string>, a: string, x: seq<string>, b: string, y: seq<string>)
    requires !Same(a, b)
    ensures ListBelow(h + [a] + x, h + [b] + y) <==> Below(a, b)
  {
    var p, q, n := h + [a] + x, h + [b] + y, |h|;
    assert p[n] == a && q[n] == b && forall k :: 0 <= k < n ==> p[k] == h[k] && q[k] == h[k];
    if Below(a, b) { assert ListSmallerAt(p, q, n); }
    if i: nat :| ListSmallerAt(p, q, i) {
      assert i <= n;
      if i < n { NotBelowItself(h[i]); }
    }
  }

  lemma NotBelowItself(a: string)
    ensures !Below(a, a)
  {
    IdentifierMeans(a, a);
    assert Same(a, a);
  }

  /** After a common beginning, the last identifiers decide. */
  lemma LastIdentifierDecides(r: string, a: string, b: string)
    requires r != "" && AllRelease(r) && AllRelease(a) && AllRelease(b) && '.' !in a && '.' !in b && !Same(a, b)
    ensures CompareVersions(r + "." + a, r + "." + b) == -1 <==> Below(a, b)
  {
    SplitAtDot(r, a);
    SplitAtDot(r, b);
    SplitOne(a);
    SplitOne(b);
    DifferAfter(r + "." + a, r + "." + b, Split(r), a, [], b, []);
  }

  /** After a common beginning, the first identifiers of different rank decide, whatever follows them. */
  lemma FirstIdentifierDecides(r: string, a: string, more: string, b: string, more': string)
    requires r != "" && AllRelease(r) && AllRelease(a) && AllRelease(b) && '.' !in a && '.' !in b && !Same(a, b)
    requires AllRelease(more) && AllRelease(more')
    ensures CompareVersions(r + "." + a + "." + more, r + "." + b + "." + more') == -1 <==> Below(a, b)
  {
    var v, w := r + "." + a, r + "." + b;
    SplitAtDot(r, a);
    SplitAtDot(r, b);
    SplitOne(a);
    SplitOne(b);
    SplitAtDot(v, more);
    SplitAtDot(w, more');
    DifferAfter(v + "." + more, w + "." + more', Split(r), a, Split(more), b, Split(more'));
  }

  lemma DifferAfter(v: string, w: string, h: seq<string>, a: string, x: seq<string>, b: string, y: seq<string>)
    requires v != "" && AllRelease(v) && w != "" && AllRelease(w) && !Same(a, b)
    requires Split(v) == h + [a] + x && Split(w) == h + [b] + y
    ensures CompareVersions(v, w) == -1 <==> Below(a, b)
  {
    ReleaseOf(v);
    ReleaseOf(w);
    CompareMeans(v, w);
    CommonHead(h, a, x, b, y);
    assert !ListSame(h + [a] + x, h + [b] + y) by {
      assert (h + [a] + x)[|h|] == a && (h + [b] + y)[|h|] == b;
    }
  }

  lemma DigitsRelease(a: string)
    requires AllDigits(a)
    ensures AllRelease(a) && '.' !in a
  {
  }

  /** A number without a leading zero is above every number with fewer digits. */
  lemma MoreDigitsAbove(r: string, a: string, b: string)
    requires r != "" && AllRelease(r) && Numeric(a) && Numeric(b) && |a| < |b| && b[0] != '0'
    ensures CompareVersions(r + "." + a, r + "." + b) == -1
  {
    FewerDigits(a, b);
    NumbersByValue(r, a, b);
  }

  /** Of two numbers with equally many digits, the one with the smaller digit at the first difference is below. */
  lemma FirstDigitDecides(r: string, a: string, b: string, i: nat)
    requires r != "" && AllRelease(r) && Numeric(a) && Numeric(b) && |a| == |b|
    requires i < |a| && a[..i] == b[..i] && a[i] < b[i]
    ensures CompareVersions(r + "." + a, r + "." + b) == -1
  {
    assert SmallerAt(a, b, i);
    SameLength(a, b);
    NumbersByValue(r, a, b);
  }

  /** Leading zeros do not matter. */
  lemma ZerosIgnored(r: string, a: string)
    requires r != "" && AllRelease(r) && Numeric(a)
    ensures CompareVersions(r + "." + ("0" + a), r + "." + a) == 0
  {
    ZeroInFront(a);
    NumbersByValue(r, "0" + a, a);
  }

  /** A number is below every other identifier. */
  lemma NumbersFirst(r: string, a: string, b: string)
    requires r != "" && AllRelease(r) && Numeric(a) && AllRelease(b) && '.' !in b && !AllDigits(b)
    ensures CompareVersions(r + "." + a, r + "." + b) == -1
  {
    DigitsRelease(a);
    LastIdentifierDecides(r, a, b);
  }

  /** Other identifiers compare by their first different character, or the shorter one is below. */
  lemma FirstCharacterDecides(r: string, a: string, b: string, i: nat)
    requires r != "" && AllRelease(r) && AllRelease(a) && AllRelease(b) && '.' !in a && '.' !in b
    requires !AllDigits(a) && !AllDigits(b)
    requires i <= |a| && i < |b| && a[..i] == b[..i] && (i == |a| || a[i] < b[i])
    ensures CompareVersions(r + "." + a, r + "." + b) == -1
  {
    assert SmallerAt(a, b, i);
    LastIdentifierDecides(r, a, b);
  }

  /** Prereleases of one release compare by their identifiers. */
  lemma PrereleasesCompare(r: string, a: string, b: string)
    requires r != "" && AllRelease(r) && a != "" && AllExtra(a) && b != "" && AllExtra(b)
    ensures CompareVersions(r + "-" + a, r + "-" + b) == -1 <==> ListBelow(Split(a), Split(b))
  {
    PrereleaseOf(r, a, r + "-" + a);
    PrereleaseOf(r, b, r + "-" + b);
    SameItself(Split(r));
    CompareMeans(r + "-" + a, r + "-" + b);
  }

  lemma PrereleaseOf(r: string, a: string, s: string)
    requires r != "" && AllRelease(r) && a != "" && AllExtra(a) && s == r + "-" + a
    ensures Release(s) == Split(r) && Prerelease(s) == Split(a) && Split(a) != []
  {
    ParsePrerelease(r, a, s);
    SplitStep(a, Dot(a, 0));
  }

  lemma ParsePrerelease(r: string, a: string, s: string)
    requires r != "" && AllRelease(r) && a != "" && AllExtra(a) && s == r + "-" + a
    ensures Parse(s) == Some(Version(r, a))
  {
    var v := Version(r, a);
    SpelledIs(v, [], s);
    ParseSpelled(v, [], false);
  }

  lemma SpelledIs(v: Version, build: string, s: string)
    requires v.prerelease != "" && build == [] && s == v.release + "-" + v.prerelease
    ensures Spelled(v, build, false) == s
  {
  }

  /** The pair that a comparison of texts gets wrong. */
  lemma TenAboveSix(r: string, ten: string, six: string)
    requires r == "0.0" && ten == "10" && six == "6"
    ensures CompareVersions(r + "." + ten, r + "." + six) == 1
  {
    MoreDigitsAbove(r, six, ten);
    CompareIsKeyOrder(r + "." + ten, r + "." + six);
  }
}
