/** The GPIO monitor of the remote app: samples of a switch, and the debounced values it hands to the shared state. */
module Debounce {

  /** A successful read of the line, with the clock reading that the loop takes for it. */
  datatype Sample = Sample(pressed: bool, at: int)

  /** A call of SetOutboundState by the monitor, at a sample. */
  datatype Issue = Issue(k: nat, value: bool)

  /** Where the run of equal samples that ends at k begins. */
  function RunStart(s: seq<Sample>, k: nat): (r: nat)
    requires k < |s|
    ensures r <= k
    ensures forall i :: r <= i <= k ==> s[i].pressed == s[k].pressed
    ensures r > 0 ==> s[r - 1].pressed != s[k].pressed
  {
    if k == 0 || s[k - 1].pressed != s[k].pressed then k else RunStart(s, k - 1)
  }

  /** The value at k has been seen for the debounce period, or is the one found at start-up. */
  predicate Confirmed(s: seq<Sample>, k: nat, period: int)
    requires k < |s|
  {
    k == 0 || (RunStart(s, k) < k && s[k].at - s[RunStart(s, k)].at >= period)
  }

  /** The value at the last confirmed sample up to k. */
  function Stable(s: seq<Sample>, k: nat, period: int): bool
    requires k < |s|
  {
    if k == 0 || Confirmed(s, k, period) then s[k].pressed else Stable(s, k - 1, period)
  }

  /** Something is issued exactly when the stable value changes, where an unpressed switch at start-up is no change. */
  predicate Issues(s: seq<Sample>, k: nat, period: int)
    requires k < |s|
  {
    Stable(s, k, period) != (k > 0 && Stable(s, k - 1, period))
  }

  function IssuedUpTo(s: seq<Sample>, n: nat, period: int): seq<Issue>
    requires n <= |s|
  {
    if n == 0 then []
    else IssuedUpTo(s, n - 1, period)
         + if Issues(s, n - 1, period) then [Issue(n - 1, Stable(s, n - 1, period))] else []
  }

  /**
  MonitorGpio, on the samples read before the app stops or a read fails; s[0] is the read before the loop. The
  result is what it passes to SetOutboundState, and when.
  */
  method MonitorGpio(s: seq<Sample>, period: int) returns (issued: seq<Issue>)
    ensures issued == IssuedUpTo(s, |s|, period)
  {
    issued := [];
    if s == [] {
      return;
    }
    var candidate := s[0].pressed;
    var stable := candidate;
    var since := s[0].at;
    ghost var sinceAt := 0;
    if stable {
      issued := issued + [Issue(0, stable)];
    }
    var k := 1;
    assert IssuedUpTo(s, 0, period) == [];
    while k < |s|
      invariant 1 <= k <= |s|
      invariant candidate == s[k - 1].pressed && sinceAt == RunStart(s, k - 1) && since == s[sinceAt].at
      invariant stable == Stable(s, k - 1, period)
      invariant issued == IssuedUpTo(s, k, period)
    {
      var pressed := s[k].pressed;
      if pressed != candidate {
        candidate := pressed;
        since := s[k].at;
        sinceAt := k;
      } else if candidate != stable && s[k].at - since >= period {
        stable := candidate;
        issued := issued + [Issue(k, stable)];
      }
      k := k + 1;
    }
  }

  /** Every issue of the loop follows samples that all had the issued value over at least the period. */
  lemma {:induction false} IssuesAreSteady(s: seq<Sample>, n: nat, period: int, j: nat)
    requires n <= |s| && j < |IssuedUpTo(s, n, period)|
    ensures var issue := IssuedUpTo(s, n, period)[j];
            && issue.k < n
            && issue.value == s[issue.k].pressed
            && (issue.k > 0 ==>
                  exists r :: 0 <= r < issue.k && s[issue.k].at - s[r].at >= period
                              && forall i :: r <= i <= issue.k ==> s[i].pressed == issue.value)
  {
    if j < |IssuedUpTo(s, n - 1, period)| {
      IssuesAreSteady(s, n - 1, period, j);
    } else {
      var k := n - 1;
      assert k > 0 ==> Confirmed(s, k, period);
      assert RunStart(s, k) <= k;
    }
  }

  /** A pulse shorter than the period never reaches the shared state: nothing is issued while it lasts. */
  lemma {:induction false} ShortPulsesIgnored(s: seq<Sample>, n: nat, period: int, a: nat, b: nat, j: nat)
    requires n <= |s| && 0 < a <= b < |s| && j < |IssuedUpTo(s, n, period)|
    requires s[a - 1].pressed != s[a].pressed && forall i :: a <= i <= b ==> s[i].pressed == s[a].pressed
    requires forall i :: a <= i <= b ==> s[i].at - s[a].at < period
    ensures !(a <= IssuedUpTo(s, n, period)[j].k <= b)
  {
    if j < |IssuedUpTo(s, n - 1, period)| {
      ShortPulsesIgnored(s, n - 1, period, a, b, j);
    } else if a <= n - 1 <= b {
      RunStartIs(s, n - 1, a);
    }
  }

  lemma RunStartIs(s: seq<Sample>, k: nat, a: nat)
    requires 0 < a <= k < |s| && s[a - 1].pressed != s[a].pressed
    requires forall i :: a <= i <= k ==> s[i].pressed == s[a].pressed
    ensures RunStart(s, k) == a
  {
    var r := RunStart(s, k);
    assert s[k].pressed == s[a].pressed;
  }

  /** The issued values alternate, starting with true; the last one is the stable value. */
  lemma {:induction false} IssuesAlternate(s: seq<Sample>, n: nat, period: int)
    requires n <= |s|
    ensures forall j :: 0 <= j < |IssuedUpTo(s, n, period)| ==> IssuedUpTo(s, n, period)[j].value == (j % 2 == 0)
    ensures (n > 0 && Stable(s, n - 1, period)) == (|IssuedUpTo(s, n, period)| % 2 == 1)
  {
    if n > 0 {
      IssuesAlternate(s, n - 1, period);
    }
  }

  /** A switch that is pressed at start-up is issued at once; nothing is issued at start-up for an idle one. */
  lemma {:induction false} StartUp(s: seq<Sample>, n: nat, period: int)
    requires 0 < n <= |s|
    ensures var issued := IssuedUpTo(s, n, period);
            if s[0].pressed then issued != [] && issued[0] == Issue(0, true)
            else forall j :: 0 <= j < |issued| ==> issued[j].k > 0
  {
    if n == 1 {
      assert IssuedUpTo(s, 0, period) == [];
    } else {
      StartUp(s, n - 1, period);
      var before, issued := IssuedUpTo(s, n - 1, period), IssuedUpTo(s, n, period);
      assert forall j :: 0 <= j < |before| ==> issued[j] == before[j];
      assert |before| < |issued| ==> issued[|before|].k == n - 1;
    }
  }

  /** The stable value is the last one issued, or the unpressed one if nothing was issued. */
  lemma LastIssued(s: seq<Sample>, k: nat, period: int)
    requires k < |s|
    ensures var issued := IssuedUpTo(s, k + 1, period);
            Stable(s, k, period) == (issued != [] && issued[|issued| - 1].value)
  {
    var issued := IssuedUpTo(s, k + 1, period);
    IssuesAlternate(s, k + 1, period);
    if issued != [] {
      assert issued[|issued| - 1].value == ((|issued| - 1) % 2 == 0);
    }
  }

  lemma {:induction false} RunReachesBack(s: seq<Sample>, a: nat, b: nat)
    requires a <= b < |s| && (forall i :: a <= i <= b ==> s[i].pressed == s[b].pressed)
    ensures RunStart(s, b) <= a
  {
    if a < b { RunReachesBack(s, a, b - 1); }
  }

  predicate InOrder(s: seq<Sample>) {
    forall i, j :: 0 <= i <= j < |s| ==> s[i].at <= s[j].at
  }

  /**
  A value seen over the period reaches the shared state: it is then the last value issued, or, if nothing was
  issued, the unpressed one.
  */
  lemma SteadyReaches(s: seq<Sample>, period: int, a: nat, b: nat)
    requires a < b < |s| && (forall i :: a <= i <= b ==> s[i].pressed == s[b].pressed)
    requires InOrder(s) && s[b].at - s[a].at >= period
    ensures var issued := IssuedUpTo(s, b + 1, period);
            s[b].pressed == (issued != [] && issued[|issued| - 1].value)
  {
    RunReachesBack(s, a, b);
    assert s[RunStart(s, b)].at <= s[a].at;
    LastIssued(s, b, period);
  }
}
