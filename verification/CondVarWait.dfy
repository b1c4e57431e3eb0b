/**
What single calls on the condition variable do: a wait on its own, until it returns or sleeps, and a change of the
predicate under the mutex.
*/
module CondVarWait {
  import opened Common
  import opened CondVar
  import opened CondVarSafety

  // ----- a wait on its own -----

  /** State t follows from state s by n steps of waiter w. */
  ghost predicate Steps(s: State, w: nat, n: nat, t: State) {
    if n == 0 then t == s
    else exists u :: Steps(s, w, n - 1, u) && WaiterEnabled(u, w) && t == WaiterNext(u, w, false)
  }

  ghost predicate Leads(s: State, w: nat, t: State) {
    exists n: nat :: Steps(s, w, n, t)
  }

  lemma LeadsHere(s: State, w: nat)
    ensures Leads(s, w, s)
  {
    assert Steps(s, w, 0, s);
  }

  lemma LeadsOn(s: State, w: nat, t: State)
    requires Leads(s, w, t) && WaiterEnabled(t, w)
    ensures Leads(s, w, WaiterNext(t, w, false))
  {
    var n: nat :| Steps(s, w, n, t);
    assert Steps(s, w, n + 1, WaiterNext(t, w, false));
  }

  /** Waiter w has come from s to this program counter; the mutexes have these owners, and little else changed. */
  ghost predicate At(s: State, w: nat, t: State, pc: WaitPc, user: Option<Thread>, inner: Option<Thread>) {
    && Leads(s, w, t) && w in s.waiters && w in t.waiters && t.waiters[w] == s.waiters[w].(pc := pc)
    && t.user == user && t.inner == inner
    && t.pred == s.pred && t.now == s.now && t.stopped == s.stopped && t.stoppers == s.stoppers
  }

  lemma OneStep(s: State, w: nat, t: State, pc: WaitPc, user: Option<Thread>, inner: Option<Thread>)
      returns (t': State)
    requires At(s, w, t, pc, user, inner) && WaiterEnabled(t, w)
    ensures var me := s.waiters[w].(pc := pc);
            At(s, w, t', WaitNext(s, me), WaitUser(user, w, pc), WaitInner(inner, w, pc, me.token in s.stopped))
  {
    LeadsOn(s, w, t);
    t' := WaiterNext(t, w, false);
  }

  /** The wait has a reason to end. */
  predicate Over(s: State, me: Waiter) {
    s.pred || me.token in s.stopped || Due(s, me.deadline)
  }

  /** How a wait ends if nobody else steps: with the mutex and the value of the predicate, or asleep without both. */
  ghost predicate Ends(s: State, w: nat, t: State) {
    && w in s.waiters
    && if Over(s, s.waiters[w]) then At(s, w, t, Returned(s.pred), Some(OfWaiter(w)), None)
       else At(s, w, t, Asleep(false), None, None)
  }

  lemma Leaves(s: State, w: nat, t: State, result: bool) returns (t': State)
    requires At(s, w, t, Deregister(result), Some(OfWaiter(w)), None) && !CallbackRuns(s, w)
    ensures At(s, w, t', Returned(result), Some(OfWaiter(w)), None)
  {
    t' := OneStep(s, w, t, Deregister(result), Some(OfWaiter(w)), None);
    t' := OneStep(s, w, t', CountOut(result), Some(OfWaiter(w)), None);
  }

  /** From the test of the predicate on. */
  lemma AfterTest(s: State, w: nat, t: State) returns (t': State)
    requires At(s, w, t, TestPredicate, Some(OfWaiter(w)), None) && !CallbackRuns(s, w)
    requires !Due(s, s.waiters[w].deadline)
    requires s.waiters[w].token in s.stopped ==> s.waiters[w].deadline.None?
    ensures Ends(s, w, t')
  {
    var me := Some(OfWaiter(w));
    t' := OneStep(s, w, t, TestPredicate, me, None);
    if s.pred {
      t' := Leaves(s, w, t', true);
    } else {
      t' := OneStep(s, w, t', LockInner, me, None);
      t' := OneStep(s, w, t', TestStop, me, me);
      if s.waiters[w].token in s.stopped {
        t' := Leaves(s, w, t', false);
      } else {
        t' := OneStep(s, w, t', ReleaseUser, me, me);
        t' := OneStep(s, w, t', Block, None, me);
      }
    }
  }

  /**
  A wait that nobody disturbs returns the value of the predicate, with the mutex, if the predicate is true, its
  token is stopped or its deadline has passed; otherwise it falls asleep, with both mutexes free.
  */
  lemma WaitAlone(s: State, w: nat) returns (t: State)
    requires w in s.waiters && s.waiters[w].pc == CallerLock
    requires s.user == None && s.inner == None && !CallbackRuns(s, w)
    ensures Ends(s, w, t)
    ensures s.waiters[w].deadline.Some? && s.waiters[w].deadline.value <= s.now ==> t.waiters[w].pc == Returned(s.pred)
    ensures !s.pred && s.waiters[w].token !in s.stopped ==>
              (s.waiters[w].deadline.Some? ==> s.now < s.waiters[w].deadline.value) ==> t.waiters[w].pc == Asleep(false)
  {
    var me := Some(OfWaiter(w));
    LeadsHere(s, w);
    t := OneStep(s, w, s, CallerLock, None, None);
    t := OneStep(s, w, t, TestDeadline, me, None);
    if !Due(s, s.waiters[w].deadline) {
      t := OneStep(s, w, t, CountIn, me, None);
      t := OneStep(s, w, t, TestToken, me, None);
      if s.waiters[w].token in s.stopped {
        t := OneStep(s, w, t, CountOut(s.pred), me, None);
      } else {
        t := OneStep(s, w, t, Register, me, None);
        t := AfterTest(s, w, t);
      }
    }
  }

  /** The way back to the user mutex. */
  lemma Relocks(s: State, w: nat) returns (t: State)
    requires w in s.waiters && s.waiters[w].pc.Asleep?
    requires s.waiters[w].pc.signalled || Due(s, s.waiters[w].deadline)
    requires s.user == None && s.inner == None
    ensures At(s, w, t, if s.waiters[w].deadline.None? then TestPredicate else TestTime, Some(OfWaiter(w)), None)
  {
    LeadsHere(s, w);
    t := OneStep(s, w, s, s.waiters[w].pc, None, None);
    t := OneStep(s, w, t, ReleaseInner, None, Some(OfWaiter(w)));
    t := OneStep(s, w, t, RelockUser, None, None);
  }

  /** The same for a waiter that was woken, by a notification, by its deadline, or without reason. */
  lemma WokenAlone(s: State, w: nat) returns (t: State)
    requires w in s.waiters && s.waiters[w].pc.Asleep?
    requires s.waiters[w].pc.signalled || Due(s, s.waiters[w].deadline)
    requires s.user == None && s.inner == None && !CallbackRuns(s, w)
    ensures Ends(s, w, t)
    ensures s.waiters[w].deadline.Some? && s.waiters[w].deadline.value <= s.now ==> t.waiters[w].pc == Returned(s.pred)
    ensures !s.pred && s.waiters[w].token !in s.stopped ==>
              (s.waiters[w].deadline.Some? ==> s.now < s.waiters[w].deadline.value) ==> t.waiters[w].pc == Asleep(false)
  {
    var me := Some(OfWaiter(w));
    t := Relocks(s, w);
    if s.waiters[w].deadline.Some? {
      t := OneStep(s, w, t, TestTime, me, None);
    }
    if s.waiters[w].deadline.Some? && (Due(s, s.waiters[w].deadline) || s.waiters[w].token in s.stopped) {
      t := Leaves(s, w, t, s.pred);
    } else {
      t := AfterTest(s, w, t);
    }
  }

  /** After the wait, the caller may make the predicate false before it lets the mutex go. */
  lemma ConsumeAlone(s: State, w: nat, consume: bool, any: bool)
    requires w in s.waiters && s.waiters[w].pc.Returned?
    ensures WaiterEnabled(s, w)
    ensures var s1 := WaiterNext(s, w, consume);
            && WaiterEnabled(s1, w)
            && var s2 := WaiterNext(s1, w, any);
            && s2.waiters[w].pc == WaitDone && s2.user == None && s2.pred == (s.pred && !consume)
  {
  }

  // ----- requesting a stop -----

  /** A second request for a token runs no callback: it stops at once, or after letting go a mutex it holds. */
  lemma StopAgain(s: State, x: nat, pick: nat)
    requires x in s.stoppers && s.stoppers[x].pc == StopSet && s.stoppers[x].token in s.stopped
    ensures StopperEnabled(s, x, pick)
    ensures var s1, me := StopperNext(s, x, pick), s.stoppers[x];
            && s1 == s.(stoppers := s.stoppers[x := me.(pc := if me.holding then StopUnlock else StopDone)])
            && (me.holding ==> StopperNext(s1, x, pick).stoppers[x].pc == StopDone
                               && StopperNext(s1, x, pick).user == None)
  {
    assert s.stopped + {s.stoppers[x].token} == s.stopped;
  }

  // ----- changing the predicate -----

  /** The steps of setter x alone, n of them. */
  ghost predicate SetSteps(s: State, x: nat, n: nat, t: State) {
    if n == 0 then t == s
    else exists u :: SetSteps(s, x, n - 1, u) && SetterEnabled(u, x) && t == SetterNext(u, x)
  }

  /** Setter x has come from s to this program counter after n steps, and the rest of the state is this. */
  ghost predicate SetAt(s: State, x: nat, n: nat, t: State, pc: SetPc) {
    SetSteps(s, x, n, t) && x in s.setters && x in t.setters && t.setters[x] == s.setters[x].(pc := pc)
  }

  lemma OneSetStep(s: State, x: nat, n: nat, t: State, pc: SetPc) returns (t': State)
    requires SetAt(s, x, n, t, pc) && SetterEnabled(t, x)
    ensures SetAt(s, x, n + 1, t', SetNext(s.setters[x].(pc := pc))) && t' == SetterNext(t, x)
  {
    t' := SetterNext(t, x);
    assert SetSteps(s, x, n + 1, t');
  }

  lemma Notifies(s: State, x: nat, n: nat, t: State, holding: bool) returns (t': State)
    requires SetAt(s, x, n, t, NotifyLock(holding)) && t.inner == None
    ensures SetAt(s, x, n + 3, t', if holding then SetUnlockLast else SetDone)
    ensures t'.user == t.user && t'.inner == None && t'.pred == t.pred && t'.waiters == SignalAll(t.waiters)
  {
    t' := OneSetStep(s, x, n, t, NotifyLock(holding));
    t' := OneSetStep(s, x, n + 1, t', NotifyAll(holding));
    t' := OneSetStep(s, x, n + 2, t', NotifyRelease(holding));
  }

  /**
  A change of the predicate that nobody disturbs leaves it with the value that was asked for and the mutexes free;
  if that is true every waiter that was asleep is signalled, whether the mutex is let go before or after.
  */
  lemma SetAlone(s: State, x: nat) returns (n: nat, t: State)
    requires x in s.setters && s.setters[x].pc == SetLock && s.user == None && s.inner == None
    ensures SetAt(s, x, n, t, SetDone) && t.user == None && t.inner == None
    ensures t.pred == s.setters[x].value
    ensures t.waiters == if s.setters[x].value then SignalAll(s.waiters) else s.waiters
  {
    assert SetAt(s, x, 0, s, SetLock);
    t := OneSetStep(s, x, 0, s, SetLock);
    t := OneSetStep(s, x, 1, t, SetValue);
    if !s.setters[x].value {
      t := OneSetStep(s, x, 2, t, SetUnlockLast);
      n := 3;
    } else {
      var holding := !s.setters[x].late;
      n := 2;
      if !holding {
        t := OneSetStep(s, x, 2, t, SetUnlockFirst);
        n := 3;
      }
      t := Notifies(s, x, n, t, holding);
      n := n + 3;
      if holding {
        t := OneSetStep(s, x, n, t, SetUnlockLast);
        n := n + 1;
      }
    }
  }

  /** notify_all signals every sleeper, and nobody else. */
  lemma SignalsSleepers(ws: map<nat, Waiter>, w: nat)
    requires w in ws
    ensures SignalAll(ws).Keys == ws.Keys
    ensures SignalAll(ws)[w] == if ws[w].pc.Asleep? then ws[w].(pc := Asleep(true)) else ws[w]
  {
  }

  /** A setter that has changed the predicate and still has the mutex. */
  predicate HasSet(pc: SetPc) {
    SetterHasUser(pc) && !pc.SetValue?
  }

  ghost predicate SetInv(s: State) {
    forall x :: x in s.setters && HasSet(s.setters[x].pc) ==> s.pred == s.setters[x].value
  }

  lemma SetStep(s: State, step: Step)
    requires LockInv(s) && SetInv(s) && Enabled(s, step)
    ensures SetInv(Next(s, step))
  {
    var s' := Next(s, step);
    forall x | x in s'.setters && HasSet(s'.setters[x].pc) ensures s'.pred == s'.setters[x].value {
      if x in s.setters {
        if !(step.SetterStep? && step.x == x) {
          assert SetterHasUser(s.setters[x].pc) by { SetterUntouched(s, step, x); }
          PredKept(s, step, x);
        }
      }
    }
  }

  lemma SetterUntouched(s: State, step: Step, x: nat)
    requires Enabled(s, step) && x in s.setters && !(step.SetterStep? && step.x == x)
    ensures x in Next(s, step).setters && Next(s, step).setters[x] == s.setters[x]
  {
  }

  /** Only the holder of the user mutex changes the predicate. */
  lemma PredKept(s: State, step: Step, x: nat)
    requires LockInv(s) && Enabled(s, step) && x in s.setters
    requires SetterHasUser(s.setters[x].pc) && !(step.SetterStep? && step.x == x)
    ensures Next(s, step).pred == s.pred && x in Next(s, step).setters
    ensures Next(s, step).setters[x] == s.setters[x]
  {
    assert HasUser(s, OfSetter(x));
    match step {
      case WaiterStep(w, consume) => assert HasUser(s, OfWaiter(w)) <==> WaiterHasUser(s.waiters[w].pc);
      case SetterStep(y) => assert HasUser(s, OfSetter(y)) <==> SetterHasUser(s.setters[y].pc);
      case _ =>
    }
  }

  lemma {:induction false} SetRun(states: seq<State>, steps: seq<Step>, i: nat)
    requires IsRun(states, steps) && i < |states|
    ensures SetInv(states[i])
  {
    if i > 0 {
      RunInv(states, steps, i - 1);
      SetRun(states, steps, i - 1);
      assert Enabled(states[i - 1], steps[i - 1]) && states[i - 1 + 1] == Next(states[i - 1], steps[i - 1]);
      SetStep(states[i - 1], steps[i - 1]);
    }
  }

  /** When a thread that changes the predicate notifies with the mutex, or lets it go, the predicate has its value. */
  lemma SetMeaning(states: seq<State>, steps: seq<Step>, i: nat, x: nat)
    requires IsRun(states, steps) && i < |states| && x in states[i].setters
    requires var pc := states[i].setters[x].pc;
             pc.SetUnlockFirst? || pc.SetUnlockLast? || (pc.NotifyAll? && pc.holding)
    ensures states[i].pred == states[i].setters[x].value
  {
    SetRun(states, steps, i);
  }
}
