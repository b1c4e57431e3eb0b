/**
Progress of the condition variable. Between two steps of the environment (a new call, a spurious wakeup, the
clock) its threads take only finitely many steps: a measure of the state falls with each of them. When none of
them can step, every wait that has a reason to end is over. No fairness is assumed.
*/
module CondVarProgress {
  import opened Common
  import opened CondVar
  import opened CondVarSafety

  // ----- sums over maps -----

  /** The sum of the values of the names below b. */
  function Sum(ranks: map<nat, nat>, b: nat): nat {
    if b == 0 then 0 else Sum(ranks, b - 1) + if b - 1 in ranks then ranks[b - 1] else 0
  }

  lemma {:induction false} SumChange(ranks: map<nat, nat>, k: nat, v: nat, b: nat)
    requires k in ranks
    ensures Sum(ranks[k := v], b) + (if k < b then ranks[k] else 0) == Sum(ranks, b) + if k < b then v else 0
  {
    if b > 0 { SumChange(ranks, k, v, b - 1); }
  }

  lemma {:induction false} SumGrows(ranks: map<nat, nat>, ranks': map<nat, nat>, more: nat, b: nat)
    requires ranks'.Keys == ranks.Keys && forall k :: k in ranks ==> ranks'[k] <= ranks[k] + more
    ensures Sum(ranks', b) <= Sum(ranks, b) + more * b
  {
    if b > 0 {
      SumGrows(ranks, ranks', more, b - 1);
      assert more * b == more * (b - 1) + more;
      assert b - 1 in ranks' <==> b - 1 in ranks;
    }
  }

  // ----- the measure -----

  /** What a signal costs: the steps of a woken waiter until it sleeps again. */
  const TURN := 9

  /** What a registered callback costs: the steps of the stopper that runs it, and a signal for every waiter. */
  function Callback(b: nat): nat {
    TURN * b + 4
  }

  /** The steps of a waiter until it sleeps or is done, where b bounds the number of waiters. */
  function WaitRank(pc: WaitPc, due: bool, stop: bool, b: nat): nat {
    match pc
    case CallerLock => 22 + TURN * b
    case TestDeadline => 21 + TURN * b
    case CountIn => 20 + TURN * b
    case TestToken => 19 + TURN * b
    case Register => 18 + TURN * b
    case SelfLock => 16 + TURN * b
    case SelfNotify => 15 + TURN * b
    case SelfRelease => 14
    case TestPredicate => 13
    case LockInner => 12
    case TestStop => 11
    case ReleaseUser => 10
    case Block => 9
    case Asleep(signalled) => if signalled && !due then 8 + TURN else 8
    case ReleaseInner => if due then 7 else 16
    case RelockUser => if due then 6 else 15
    case TestTime => if due || stop then 5 else 14
    case Deregister(_) => 4
    case CountOut(_) => 3
    case Returned(_) => 2
    case Consumed => 1
    case WaitDone => 0
  }

  function WaiterRank(s: State, w: nat, b: nat): nat
    requires w in s.waiters
  {
    var me := s.waiters[w];
    WaitRank(me.pc, Due(s, me.deadline), me.token in s.stopped, b) + if w in s.armed then Callback(b) else 0
  }

  function SetRank(pc: SetPc, b: nat): nat {
    match pc
    case SetLock => 7 + TURN * b
    case SetValue => 6 + TURN * b
    case SetUnlockFirst => 5 + TURN * b
    case NotifyLock(_) => 4 + TURN * b
    case NotifyAll(_) => 3 + TURN * b
    case NotifyRelease(_) => 2
    case SetUnlockLast => 1
    case SetDone => 0
  }

  function StopRank(pc: StopPc, b: nat): nat {
    match pc
    case StopLock => 4
    case StopSet => 3
    case StopLoop => 2
    case CallLock(_) => 5 + TURN * b
    case CallNotify(_) => 4 + TURN * b
    case CallRelease(_) => 3
    case StopUnlock => 1
    case StopDone => 0
  }

  function WaiterRanks(s: State, b: nat): map<nat, nat> {
    map w | w in s.waiters :: WaiterRank(s, w, b)
  }

  function SetterRanks(s: State, b: nat): map<nat, nat> {
    map x | x in s.setters :: SetRank(s.setters[x].pc, b)
  }

  function StopperRanks(s: State, b: nat): map<nat, nat> {
    map x | x in s.stoppers :: StopRank(s.stoppers[x].pc, b)
  }

  function Measure(s: State, b: nat): nat {
    Sum(WaiterRanks(s, b), b) + Sum(SetterRanks(s, b), b) + Sum(StopperRanks(s, b), b)
  }

  ghost predicate NamedBelow(s: State, b: nat) {
    forall k :: k in s.waiters || k in s.setters || k in s.stoppers ==> k < b
  }

  // ----- waiters -----

  /** The program counter falls; it pays for a callback when it registers one, and for all signals it sends. */
  lemma WaitFalls(s: State, me: Waiter, b: nat)
    requires !me.pc.WaitDone? && (me.pc == Asleep(false) ==> Due(s, me.deadline))
    ensures var due, stop := Due(s, me.deadline), me.token in s.stopped;
            WaitRank(WaitNext(s, me), due, stop, b)
            + (if me.pc.SelfNotify? then TURN * b else 0) + (if me.pc.Register? && !stop then Callback(b) else 0)
            < WaitRank(me.pc, due, stop, b)
  {
  }

  /** A waiter's step lowers its own rank, by a signal for everyone if it notifies. */
  lemma WaiterFalls(s: State, w: nat, consume: bool, b: nat)
    requires WaiterEnabled(s, w)
    ensures var s', pc := WaiterNext(s, w, consume), s.waiters[w].pc;
            WaiterRank(s', w, b) + (if pc.SelfNotify? then TURN * b else 0) < WaiterRank(s, w, b)
  {
    WaitFalls(s, s.waiters[w], b);
  }

  /** It leaves the other waiters' ranks alone, or adds a turn to them. */
  lemma OthersRanks(s: State, w: nat, consume: bool, b: nat, v: nat)
    requires WaiterEnabled(s, w) && v in s.waiters && v != w
    ensures var s' := WaiterNext(s, w, consume);
            && v in s'.waiters
            && WaiterRank(s', v, b) <= WaiterRank(s, v, b) + if s.waiters[w].pc.SelfNotify? then TURN else 0
  {
  }

  lemma WaitersLower(s: State, w: nat, consume: bool, b: nat)
    requires WaiterEnabled(s, w) && w < b
    ensures Sum(WaiterRanks(WaiterNext(s, w, consume), b), b) < Sum(WaiterRanks(s, b), b)
  {
    var s' := WaiterNext(s, w, consume);
    var ranks, ranks' := WaiterRanks(s, b), WaiterRanks(s', b);
    var more := if s.waiters[w].pc.SelfNotify? then TURN else 0;
    WaiterFalls(s, w, consume, b);
    SumChange(ranks, w, ranks'[w], b);
    forall v | v in ranks ensures v in ranks' && ranks'[v] <= ranks[w := ranks'[w]][v] + more {
      if v != w { OthersRanks(s, w, consume, b, v); }
    }
    SumGrows(ranks[w := ranks'[w]], ranks', more, b);
  }

  lemma WaiterLowers(s: State, w: nat, consume: bool, b: nat)
    requires WaiterEnabled(s, w) && NamedBelow(s, b)
    ensures Measure(WaiterNext(s, w, consume), b) < Measure(s, b)
  {
    var s' := WaiterNext(s, w, consume);
    WaitersLower(s, w, consume, b);
    assert SetterRanks(s', b) == SetterRanks(s, b) && StopperRanks(s', b) == StopperRanks(s, b);
  }

  // ----- notifications and stops -----

  /** notify_all adds at most a turn to each waiter. */
  lemma SignalCosts(s: State, s': State, b: nat)
    requires s' == s.(waiters := SignalAll(s.waiters))
    ensures Sum(WaiterRanks(s', b), b) <= Sum(WaiterRanks(s, b), b) + TURN * b
  {
    SumGrows(WaiterRanks(s, b), WaiterRanks(s', b), TURN, b);
  }

  /** Waiters' ranks depend on the waiters, the callbacks, the stopped tokens and the clock only. */
  lemma SameWaiters(s: State, s': State, b: nat)
    requires s'.waiters == s.waiters && s'.armed == s.armed && s'.stopped == s.stopped && s'.now == s.now
    ensures WaiterRanks(s', b) == WaiterRanks(s, b)
  {
  }

  lemma SetterLowers(s: State, x: nat, b: nat)
    requires SetterEnabled(s, x) && NamedBelow(s, b)
    ensures Measure(SetterNext(s, x), b) < Measure(s, b)
  {
    var s', pc := SetterNext(s, x), s.setters[x].pc;
    SumChange(SetterRanks(s, b), x, SetRank(s'.setters[x].pc, b), b);
    assert SetterRanks(s', b) == SetterRanks(s, b)[x := SetRank(s'.setters[x].pc, b)];
    assert StopperRanks(s', b) == StopperRanks(s, b);
    var t := s.(waiters := s'.waiters);
    SameWaiters(t, s', b);
    if pc.NotifyAll? { SignalCosts(s, t, b); }
  }

  /** Stopping a token raises no rank. */
  lemma StopCostsNothing(s: State, s': State, b: nat)
    requires s'.waiters == s.waiters && s'.armed == s.armed && s.stopped <= s'.stopped && s'.now == s.now
    ensures Sum(WaiterRanks(s', b), b) <= Sum(WaiterRanks(s, b), b)
  {
    SumGrows(WaiterRanks(s, b), WaiterRanks(s', b), 0, b);
  }

  /** Picking a callback takes its cost off the waiter. */
  lemma PickPays(s: State, s': State, pick: nat, b: nat)
    requires pick in s.waiters && pick in s.armed && pick < b
    requires s'.waiters == s.waiters && s'.armed == s.armed - {pick} && s'.stopped == s.stopped && s'.now == s.now
    ensures Sum(WaiterRanks(s', b), b) + Callback(b) == Sum(WaiterRanks(s, b), b)
  {
    SumChange(WaiterRanks(s, b), pick, WaiterRank(s', pick, b), b);
    assert WaiterRanks(s', b) == WaiterRanks(s, b)[pick := WaiterRank(s', pick, b)];
  }

  lemma StopperLowers(s: State, x: nat, pick: nat, b: nat)
    requires StopperEnabled(s, x, pick) && NamedBelow(s, b)
    ensures Measure(StopperNext(s, x, pick), b) < Measure(s, b)
  {
    var s', me := StopperNext(s, x, pick), s.stoppers[x];
    SumChange(StopperRanks(s, b), x, StopRank(s'.stoppers[x].pc, b), b);
    assert StopperRanks(s', b) == StopperRanks(s, b)[x := StopRank(s'.stoppers[x].pc, b)];
    assert SetterRanks(s', b) == SetterRanks(s, b);
    match me.pc
    case StopSet => StopCostsNothing(s, s', b);
    case StopLoop => if Pickable(s, me.token, pick) { PickPays(s, s', pick, b); } else { SameWaiters(s, s', b); }
    case CallNotify(_) =>
      var t := s.(waiters := s'.waiters);
      SameWaiters(t, s', b);
      SignalCosts(s, t, b);
    case _ => SameWaiters(s, s', b);
  }

  // ----- the theorem -----

  lemma OwnStepLowers(s: State, step: Step, b: nat)
    requires NamedBelow(s, b) && OwnStep(step) && Enabled(s, step)
    ensures Measure(Next(s, step), b) < Measure(s, b)
  {
    match step
    case WaiterStep(w, consume) => WaiterLowers(s, w, consume, b);
    case SetterStep(x) => SetterLowers(s, x, b);
    case StopperStep(x, pick) => StopperLowers(s, x, pick, b);
  }

  /** What own steps leave: the threads, the waits' tokens and deadlines, the clock; stopped tokens stay stopped. */
  ghost predicate SameCalls(s: State, s': State) {
    && s'.waiters.Keys == s.waiters.Keys && s'.setters.Keys == s.setters.Keys && s'.stoppers.Keys == s.stoppers.Keys
    && s'.now == s.now && s.stopped <= s'.stopped
    && forall w :: w in s.waiters ==>
         s'.waiters[w].token == s.waiters[w].token && s'.waiters[w].deadline == s.waiters[w].deadline
  }

  lemma OwnStepKeeps(s: State, step: Step)
    requires OwnStep(step) && Enabled(s, step)
    ensures SameCalls(s, Next(s, step))
  {
  }

  /** `states` continues a run from state s with steps of the threads only. */
  ghost predicate Continues(s: State, states: seq<State>, steps: seq<Step>) {
    && |states| == |steps| + 1 && states[0] == s
    && forall i {:trigger steps[i]} :: 0 <= i < |steps| ==>
         OwnStep(steps[i]) && Enabled(states[i], steps[i]) && states[i + 1] == Next(states[i], steps[i])
  }

  lemma {:induction false} ContinuationBounded(s: State, states: seq<State>, steps: seq<Step>, b: nat, i: nat)
    requires Inv(s) && NamedBelow(s, b) && Continues(s, states, steps) && i <= |steps|
    ensures Inv(states[i]) && SameCalls(s, states[i]) && i + Measure(states[i], b) <= Measure(s, b)
  {
    if i > 0 {
      ContinuationBounded(s, states, steps, b, i - 1);
      ContinuationStep(s, states, steps, b, i - 1);
    }
  }

  lemma ContinuationStep(s: State, states: seq<State>, steps: seq<Step>, b: nat, i: nat)
    requires Continues(s, states, steps) && i < |steps|
    requires Inv(states[i]) && SameCalls(s, states[i]) && NamedBelow(s, b)
    ensures Inv(states[i + 1]) && SameCalls(s, states[i + 1])
    ensures Measure(states[i + 1], b) < Measure(states[i], b)
  {
    InvStep(states[i], steps[i]);
    OwnStepLowers(states[i], steps[i], b);
    OwnStepKeeps(states[i], steps[i]);
  }

  /** Every notifier and stopper is done, and so is every wait whose token was stopped or deadline had passed in s. */
  ghost predicate Ended(s: State, last: State) {
    && Settled(last) && SameCalls(s, last)
    && forall w :: w in s.waiters && (s.waiters[w].token in s.stopped || Due(s, s.waiters[w].deadline)) ==>
         last.waiters[w].pc == WaitDone
  }

  lemma ContinuationEnds(s: State, later: seq<State>, more: seq<Step>, b: nat)
    requires Inv(s) && NamedBelow(s, b) && Continues(s, later, more)
    ensures |more| <= Measure(s, b) && (Stuck(later[|more|]) ==> Ended(s, later[|more|]))
  {
    ContinuationBounded(s, later, more, b, |more|);
    if Stuck(later[|more|]) { StuckMeansSettled(later[|more|]); }
  }

  /**
  From any reachable state there is a bound on the steps that the threads can still take before the next call,
  spurious wakeup or tick of the clock, whatever their interleaving. A continuation that cannot be extended ends
  with all notifications and stop requests done and every wait over that was stopped or whose time was up; a
  waiter still asleep has an unstopped token, a false predicate and time left.
  */
  lemma WaitsEnd(states: seq<State>, steps: seq<Step>) returns (bound: nat)
    requires IsRun(states, steps)
    ensures forall later: seq<State>, more: seq<Step> :: Continues(states[|steps|], later, more) ==>
              |more| <= bound && (Stuck(later[|more|]) ==> Ended(states[|steps|], later[|more|]))
  {
    var s := states[|steps|];
    RunInv(states, steps, |steps|);
    var b := Above(s.waiters.Keys + s.setters.Keys + s.stoppers.Keys);
    bound := Measure(s, b);
    forall later: seq<State>, more: seq<Step> | Continues(s, later, more)
      ensures |more| <= bound && (Stuck(later[|more|]) ==> Ended(s, later[|more|]))
    {
      ContinuationEnds(s, later, more, b);
    }
  }
}
