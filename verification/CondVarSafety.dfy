/**
What every run of the condition variable keeps: mutual exclusion and the order of the two mutexes, no
lost wakeup, the meaning of the result, and the meaning of the entry counter.
*/
module CondVarSafety {
  import opened Common
  import opened CondVar

  // ----- locks -----

  predicate WaiterHasUser(pc: WaitPc) {
    !(pc.CallerLock? || pc.Block? || pc.Asleep? || pc.ReleaseInner? || pc.RelockUser? || pc.WaitDone?)
  }

  predicate WaiterHasInner(pc: WaitPc) {
    pc.SelfNotify? || pc.SelfRelease? || pc.TestStop? || pc.ReleaseUser? || pc.Block? || pc.ReleaseInner?
  }

  predicate SetterHasUser(pc: SetPc) {
    match pc
    case SetValue => true
    case SetUnlockFirst => true
    case NotifyLock(h) => h
    case NotifyAll(h) => h
    case NotifyRelease(h) => h
    case SetUnlockLast => true
    case _ => false
  }

  predicate SetterHasInner(pc: SetPc) {
    pc.NotifyAll? || pc.NotifyRelease?
  }

  predicate StopperHasUser(me: Stopper) {
    me.holding && !me.pc.StopLock? && !me.pc.StopDone?
  }

  predicate StopperHasInner(pc: StopPc) {
    pc.CallNotify? || pc.CallRelease?
  }

  predicate HasUser(s: State, th: Thread) {
    match th
    case OfWaiter(w) => w in s.waiters && WaiterHasUser(s.waiters[w].pc)
    case OfSetter(x) => x in s.setters && SetterHasUser(s.setters[x].pc)
    case OfStopper(x) => x in s.stoppers && StopperHasUser(s.stoppers[x])
  }

  predicate HasInner(s: State, th: Thread) {
    match th
    case OfWaiter(w) => w in s.waiters && WaiterHasInner(s.waiters[w].pc)
    case OfSetter(x) => x in s.setters && SetterHasInner(s.setters[x].pc)
    case OfStopper(x) => x in s.stoppers && StopperHasInner(s.stoppers[x].pc)
  }

  /** The recorded owner of each mutex is exactly the thread inside its critical section. */
  ghost predicate LockInv(s: State) {
    && (forall th :: HasUser(s, th) <==> s.user == Some(th))
    && (forall th :: HasInner(s, th) <==> s.inner == Some(th))
    && (forall x :: x in s.stoppers && (s.stoppers[x].pc.StopLock? || s.stoppers[x].pc.StopUnlock?) ==>
        s.stoppers[x].holding)
  }

  predicate OwnerMoves(before: Option<Thread>, after: Option<Thread>, th: Thread, had: bool, has: bool) {
    && (has && !had ==> before.None?)
    && after == (if has then Some(th) else if had then None else before)
  }

  lemma LockFrame(s: State, s': State, th: Thread)
    requires LockInv(s)
    requires forall o :: o != th ==> (HasUser(s', o) <==> HasUser(s, o)) && (HasInner(s', o) <==> HasInner(s, o))
    requires OwnerMoves(s.user, s'.user, th, s.user == Some(th), HasUser(s', th))
    requires OwnerMoves(s.inner, s'.inner, th, s.inner == Some(th), HasInner(s', th))
    requires forall x :: x in s'.stoppers && (s'.stoppers[x].pc.StopLock? || s'.stoppers[x].pc.StopUnlock?) ==>
        s'.stoppers[x].holding
    ensures LockInv(s')
  {
    forall o
      ensures HasUser(s', o) <==> s'.user == Some(o)
      ensures HasInner(s', o) <==> s'.inner == Some(o)
    {
      assert HasUser(s, o) <==> s.user == Some(o);
      assert HasInner(s, o) <==> s.inner == Some(o);
    }
  }

  predicate SameOrSignalled(me: Waiter, me': Waiter) {
    me' == me || (me.pc == Asleep(false) && me' == me.(pc := Asleep(true)))
  }

  lemma WaiterOthers(s: State, w: nat, consume: bool)
    requires WaiterEnabled(s, w)
    ensures var s' := WaiterNext(s, w, consume);
            && s'.waiters.Keys == s.waiters.Keys
            && (forall v :: v in s.waiters && v != w ==> SameOrSignalled(s.waiters[v], s'.waiters[v]))
            && s'.waiters[w] == s.waiters[w].(pc := WaitNext(s, s.waiters[w]))
            && s'.setters == s.setters && s'.stoppers == s.stoppers && s'.stopped == s.stopped && s'.now == s.now
  {
  }

  lemma WaiterOwners(s: State, w: nat)
    requires WaiterEnabled(s, w)
    requires WaiterHasUser(s.waiters[w].pc) <==> s.user == Some(OfWaiter(w))
    requires WaiterHasInner(s.waiters[w].pc) <==> s.inner == Some(OfWaiter(w))
    ensures var me, th := s.waiters[w], OfWaiter(w);
            && OwnerMoves(s.user, WaitUser(s.user, w, me.pc), th, s.user == Some(th), WaiterHasUser(WaitNext(s, me)))
            && OwnerMoves(s.inner, WaitInner(s.inner, w, me.pc, me.token in s.stopped), th, s.inner == Some(th),
                WaiterHasInner(WaitNext(s, me)))
  {
  }

  lemma LockWaiter(s: State, w: nat, consume: bool)
    requires LockInv(s) && WaiterEnabled(s, w)
    ensures LockInv(WaiterNext(s, w, consume))
  {
    var s', th := WaiterNext(s, w, consume), OfWaiter(w);
    assert (HasUser(s, th) <==> s.user == Some(th)) && (HasInner(s, th) <==> s.inner == Some(th));
    WaiterOwners(s, w);
    WaiterOthers(s, w, consume);
    LockFrame(s, s', th);
  }

  lemma LockSetter(s: State, x: nat)
    requires LockInv(s) && SetterEnabled(s, x)
    ensures LockInv(SetterNext(s, x))
  {
    var s', th := SetterNext(s, x), OfSetter(x);
    assert (HasUser(s, th) <==> s.user == Some(th)) && (HasInner(s, th) <==> s.inner == Some(th));
    LockFrame(s, s', th);
  }

  lemma LockStopper(s: State, x: nat, pick: nat)
    requires LockInv(s) && StopperEnabled(s, x, pick)
    ensures LockInv(StopperNext(s, x, pick))
  {
    var s', th := StopperNext(s, x, pick), OfStopper(x);
    assert (HasUser(s, th) <==> s.user == Some(th)) && (HasInner(s, th) <==> s.inner == Some(th));
    LockFrame(s, s', th);
  }

  lemma LockEnvironment(s: State, step: Step)
    requires LockInv(s) && Enabled(s, step) && !OwnStep(step)
    ensures LockInv(Next(s, step))
  {
    var s' := Next(s, step);
    assert forall th :: (HasUser(s', th) <==> HasUser(s, th)) && (HasInner(s', th) <==> HasInner(s, th));
  }

  // ----- the predicate and the result -----

  /** What a waiter knows of the predicate while it has the user mutex, and what its result means. */
  predicate Knows(s: State, me: Waiter) {
    match me.pc
    case LockInner => !s.pred
    case TestStop => !s.pred
    case ReleaseUser => !s.pred
    case Deregister(r) => r == s.pred && (!r ==> me.token in s.stopped || Due(s, me.deadline))
    case CountOut(r) => r == s.pred && (!r ==> me.token in s.stopped || Due(s, me.deadline))
    case Returned(r) => r == s.pred && (!r ==> me.token in s.stopped || Due(s, me.deadline))
    case _ => true
  }

  ghost predicate ResultInv(s: State) {
    forall w :: w in s.waiters ==> Knows(s, s.waiters[w])
  }

  lemma ResultFrame(s: State, s': State, th: Thread)
    requires LockInv(s) && ResultInv(s)
    requires s'.pred != s.pred ==> s.user == Some(th)
    requires s.stopped <= s'.stopped && s.now <= s'.now
    requires forall w :: w in s'.waiters && th != OfWaiter(w) ==>
               (w in s.waiters && SameOrSignalled(s.waiters[w], s'.waiters[w])) || s'.waiters[w].pc.CallerLock?
    requires forall w :: w in s'.waiters && th == OfWaiter(w) ==> Knows(s', s'.waiters[w])
    ensures ResultInv(s')
  {
    forall w | w in s'.waiters ensures Knows(s', s'.waiters[w]) {
      if th != OfWaiter(w) && w in s.waiters {
        assert Knows(s, s.waiters[w]);
        assert HasUser(s, OfWaiter(w)) <==> s.user == Some(OfWaiter(w));
      }
    }
  }

  lemma KnowsNext(s: State, w: nat, consume: bool)
    requires WaiterEnabled(s, w) && Knows(s, s.waiters[w])
    ensures var s' := WaiterNext(s, w, consume); w in s'.waiters && Knows(s', s'.waiters[w])
    ensures WaiterNext(s, w, consume).pred != s.pred ==> WaiterHasUser(s.waiters[w].pc)
  {
  }

  lemma ResultWaiter(s: State, w: nat, consume: bool)
    requires LockInv(s) && ResultInv(s) && WaiterEnabled(s, w)
    ensures ResultInv(WaiterNext(s, w, consume))
  {
    assert HasUser(s, OfWaiter(w)) <==> s.user == Some(OfWaiter(w));
    WaiterOthers(s, w, consume);
    KnowsNext(s, w, consume);
    ResultFrame(s, WaiterNext(s, w, consume), OfWaiter(w));
  }

  lemma ResultSetter(s: State, x: nat)
    requires LockInv(s) && ResultInv(s) && SetterEnabled(s, x)
    ensures ResultInv(SetterNext(s, x))
  {
    assert HasUser(s, OfSetter(x)) <==> s.user == Some(OfSetter(x));
    ResultFrame(s, SetterNext(s, x), OfSetter(x));
  }

  lemma ResultStopper(s: State, x: nat, pick: nat)
    requires LockInv(s) && ResultInv(s) && StopperEnabled(s, x, pick)
    ensures ResultInv(StopperNext(s, x, pick))
  {
    ResultFrame(s, StopperNext(s, x, pick), OfStopper(x));
  }

  lemma ResultEnvironment(s: State, step: Step)
    requires LockInv(s) && ResultInv(s) && Enabled(s, step) && !OwnStep(step)
    ensures ResultInv(Next(s, step))
  {
    var s' := Next(s, step);
    forall w | w in s'.waiters ensures Knows(s', s'.waiters[w]) {
      if w in s.waiters { assert Knows(s, s.waiters[w]); }
    }
  }

  // ----- callbacks and wakeups -----

  /** The waiter's stop callback exists. */
  predicate HasCallback(pc: WaitPc) {
    match pc
    case TestPredicate => true
    case LockInner => true
    case TestStop => true
    case ReleaseUser => true
    case Block => true
    case Asleep(_) => true
    case ReleaseInner => true
    case RelockUser => true
    case TestTime => true
    case Deregister(_) => true
    case _ => false
  }

  /** Past its last look at the token, and not signalled. */
  predicate Committed(pc: WaitPc) {
    pc.ReleaseUser? || pc.Block? || pc == Asleep(false)
  }

  /** Stopper x is running the callbacks of the token. */
  predicate Serves(s: State, x: nat, token: nat) {
    x in s.stoppers && s.stoppers[x].token == token &&
    var pc := s.stoppers[x].pc; pc.StopLoop? || pc.CallLock? || pc.CallNotify? || pc.CallRelease?
  }

  /** Stopper x runs waiter w's callback and has not yet notified. */
  predicate WillNotify(s: State, x: nat, w: nat) {
    x in s.stoppers && (s.stoppers[x].pc == CallLock(w) || s.stoppers[x].pc == CallNotify(w))
  }

  /** Setter x has made the predicate true, or is past that, and has not yet notified. */
  predicate WillNotifyAll(s: State, x: nat) {
    x in s.setters && var pc := s.setters[x].pc; pc.SetUnlockFirst? || pc.NotifyLock? || pc.NotifyAll?
  }

  /** Stopper x is inside waiter w's callback. */
  predicate RunsCallback(s: State, x: nat, w: nat) {
    x in s.stoppers && var pc := s.stoppers[x].pc; pc == CallLock(w) || pc == CallNotify(w) || pc == CallRelease(w)
  }

  /** A callback is armed only while it exists, and is armed as long as its token is not stopped. */
  ghost predicate ArmedInv(s: State) {
    && (forall w :: w in s.armed ==> w in s.waiters && HasCallback(s.waiters[w].pc))
    && (forall w :: w in s.waiters && HasCallback(s.waiters[w].pc) && s.waiters[w].token !in s.stopped ==> w in s.armed)
    && (forall w :: w in s.waiters && (var pc := s.waiters[w].pc; pc.SelfLock? || pc.SelfNotify? || pc.SelfRelease?) ==>
          s.waiters[w].token in s.stopped)
  }

  /** An armed callback of a stopped token has a stopper that will run it; a running one still exists. */
  ghost predicate ServedInv(s: State) {
    && (forall w :: w in s.armed && w in s.waiters && s.waiters[w].token in s.stopped ==>
        exists x :: Serves(s, x, s.waiters[w].token))
    && (forall x, token :: Serves(s, x, token) ==> token in s.stopped)
    && (forall x, w :: RunsCallback(s, x, w) ==> w in s.waiters && HasCallback(s.waiters[w].pc))
  }

  ghost predicate CallbackInv(s: State) {
    ArmedInv(s) && ServedInv(s)
  }

  ghost predicate WakeInv(s: State) {
    && (forall w :: w in s.waiters && Committed(s.waiters[w].pc) && s.waiters[w].token in s.stopped ==>
          w in s.armed || exists x :: WillNotify(s, x, w))
    && (forall w :: w in s.waiters && Committed(s.waiters[w].pc) && s.pred ==> exists x :: WillNotifyAll(s, x))
  }

  lemma CallbackNext(s: State, w: nat, consume: bool)
    requires WaiterEnabled(s, w)
    ensures var s', me := WaiterNext(s, w, consume), s.waiters[w];
            && s'.armed == (if me.pc.Register? && me.token !in s.stopped then s.armed + {w}
                            else if me.pc.Deregister? then s.armed - {w} else s.armed)
            && (HasCallback(me.pc) && !me.pc.Deregister? ==> HasCallback(WaitNext(s, me)))
            && (me.pc.Deregister? ==> !HasCallback(WaitNext(s, me)))
            && (HasCallback(WaitNext(s, me)) && !HasCallback(me.pc) ==> me.pc.Register? || me.pc.SelfRelease?)
            && (me.pc.Register? && me.token !in s.stopped ==> HasCallback(WaitNext(s, me)))
            && (var pc := WaitNext(s, me); pc.SelfLock? || pc.SelfNotify? || pc.SelfRelease? ==>
                  me.token in s.stopped || me.pc.SelfLock? || me.pc.SelfNotify?)
  {
  }

  lemma CallbackWaiter(s: State, w: nat, consume: bool)
    requires CallbackInv(s) && WaiterEnabled(s, w)
    ensures CallbackInv(WaiterNext(s, w, consume))
  {
    WaiterOthers(s, w, consume);
    CallbackNext(s, w, consume);
    if s.waiters[w].pc.Deregister? {
      forall x ensures !RunsCallback(s, x, w) {
        assert !CallbackRuns(s, w);
        assert x in s.stoppers ==> s.stoppers[x].pc !in {CallLock(w), CallNotify(w), CallRelease(w)};
      }
    }
    ArmedWaiterFrame(s, WaiterNext(s, w, consume), w);
    ServedWaiterFrame(s, WaiterNext(s, w, consume), w);
  }

  lemma ArmedWaiterFrame(s: State, s': State, w: nat)
    requires ArmedInv(s) && w in s.waiters && s'.waiters.Keys == s.waiters.Keys
    requires forall v :: v in s.waiters && v != w ==> SameOrSignalled(s.waiters[v], s'.waiters[v])
    requires s'.stopped == s.stopped
    requires s'.waiters[w].token == s.waiters[w].token
    requires var me, pc' := s.waiters[w], s'.waiters[w].pc;
             && s'.armed == (if me.pc.Register? && me.token !in s.stopped then s.armed + {w}
                             else if me.pc.Deregister? then s.armed - {w} else s.armed)
             && (HasCallback(me.pc) && !me.pc.Deregister? ==> HasCallback(pc'))
             && (me.pc.Deregister? ==> !HasCallback(pc') && forall x :: !RunsCallback(s, x, w))
             && (HasCallback(pc') && !HasCallback(me.pc) ==> me.pc.Register? || me.pc.SelfRelease?)
             && (me.pc.Register? && me.token !in s.stopped ==> HasCallback(pc'))
             && (pc'.SelfLock? || pc'.SelfNotify? || pc'.SelfRelease? ==>
                 me.token in s.stopped || me.pc.SelfLock? || me.pc.SelfNotify?)
    ensures ArmedInv(s')
  {
  }

  lemma ServedWaiterFrame(s: State, s': State, w: nat)
    requires ServedInv(s) && w in s.waiters && s'.waiters.Keys == s.waiters.Keys
    requires forall v :: v in s.waiters && v != w ==> SameOrSignalled(s.waiters[v], s'.waiters[v])
    requires s'.stoppers == s.stoppers && s'.stopped == s.stopped
    requires s'.waiters[w].token == s.waiters[w].token
    requires s'.armed <= s.armed + {w} && (s.waiters[w].token in s.stopped ==> s'.armed <= s.armed)
    requires HasCallback(s.waiters[w].pc) && !HasCallback(s'.waiters[w].pc) ==> forall x :: !RunsCallback(s, x, w)
    ensures ServedInv(s')
  {
    assert forall x, token :: Serves(s', x, token) == Serves(s, x, token);
    assert forall x, v :: RunsCallback(s', x, v) == RunsCallback(s, x, v);
    forall v | v in s'.armed && v in s'.waiters && s'.waiters[v].token in s'.stopped
        ensures exists x :: Serves(s', x, s'.waiters[v].token) {
      var x :| Serves(s, x, s.waiters[v].token);
      assert Serves(s', x, s'.waiters[v].token);
    }
  }

  lemma CallbackSetter(s: State, x: nat)
    requires CallbackInv(s) && SetterEnabled(s, x)
    ensures CallbackInv(SetterNext(s, x))
  {
    CallbackSignalFrame(s, SetterNext(s, x));
  }

  /** A step that touches neither tokens nor callbacks. */
  lemma CallbackSignalFrame(s: State, s': State)
    requires CallbackInv(s)
    requires s'.armed == s.armed && s'.stopped == s.stopped
    requires forall w :: w in s'.waiters ==>
               (w in s.waiters && SameOrSignalled(s.waiters[w], s'.waiters[w]))
                   || (w !in s.waiters && s'.waiters[w].pc.CallerLock?)
    requires forall w :: w in s.waiters ==> w in s'.waiters
    requires forall x, token :: Serves(s', x, token) == Serves(s, x, token)
    requires forall x, w :: RunsCallback(s', x, w) == RunsCallback(s, x, w)
    ensures CallbackInv(s')
  {
    forall v | v in s'.armed && v in s'.waiters && s'.waiters[v].token in s'.stopped
        ensures exists x :: Serves(s', x, s'.waiters[v].token) {
      var x :| Serves(s, x, s.waiters[v].token);
      assert Serves(s', x, s'.waiters[v].token);
    }
  }

  /** A stopper's step, field by field. */
  ghost predicate StopperMoves(s: State, s': State, x: nat, pick: nat) {
    && x in s.stoppers
    && var me := s.stoppers[x];
    && s'.stoppers == s.stoppers[x := me.(pc := StopNext(s, me, pick))]
    && s'.stopped == (if me.pc.StopSet? then s.stopped + {me.token} else s.stopped)
    && s'.armed == (if me.pc.StopLoop? && Pickable(s, me.token, pick) then s.armed - {pick} else s.armed)
    && s'.waiters.Keys == s.waiters.Keys
    && (forall w :: w in s.waiters ==> SameOrSignalled(s.waiters[w], s'.waiters[w]))
  }

  lemma CallbackStopper(s: State, x: nat, pick: nat)
    requires CallbackInv(s) && StopperEnabled(s, x, pick)
    ensures CallbackInv(StopperNext(s, x, pick))
  {
    ArmedStopperFrame(s, StopperNext(s, x, pick), x, pick);
    ServedStopperFrame(s, StopperNext(s, x, pick), x, pick);
  }

  lemma ArmedStopperFrame(s: State, s': State, x: nat, pick: nat)
    requires CallbackInv(s) && StopperMoves(s, s', x, pick)
    ensures ArmedInv(s')
  {
    var me := s.stoppers[x];
    assert me.pc.StopLoop? ==> Serves(s, x, me.token);
  }

  lemma ServedStopperFrame(s: State, s': State, x: nat, pick: nat)
    requires CallbackInv(s) && StopperEnabled(s, x, pick) && StopperMoves(s, s', x, pick)
    ensures ServedInv(s')
  {
    var me := s.stoppers[x];
    assert forall y, token :: y != x ==> Serves(s', y, token) == Serves(s, y, token);
    assert forall y, w :: y != x ==> RunsCallback(s', y, w) == RunsCallback(s, y, w);
    forall w | w in s'.armed && w in s'.waiters && s'.waiters[w].token in s'.stopped
      ensures exists y :: Serves(s', y, s'.waiters[w].token)
    {
      if s.waiters[w].token in s.stopped {
        var y :| Serves(s, y, s.waiters[w].token);
        if y == x && me.pc.StopLoop? {
          assert Pickable(s, me.token, w);
        }
        assert Serves(s', y, s'.waiters[w].token);
      } else {
        assert Serves(s', x, s'.waiters[w].token);
      }
    }
    forall y, w | RunsCallback(s', y, w) ensures w in s'.waiters && HasCallback(s'.waiters[w].pc) {
      if y == x && me.pc.StopLoop? {
        assert w == pick;
      } else {
        assert RunsCallback(s, y, w);
      }
    }
    forall y, token | Serves(s', y, token) ensures token in s'.stopped {
      assert y == x ==> me.pc.StopSet? || Serves(s, y, token);
    }
  }

  lemma CallbackEnvironment(s: State, step: Step)
    requires CallbackInv(s) && Enabled(s, step) && !OwnStep(step)
    ensures CallbackInv(Next(s, step))
  {
    CallbackSignalFrame(s, Next(s, step));
  }

  lemma WakeWaiter(s: State, w: nat, consume: bool)
    requires ResultInv(s) && WakeInv(s) && WaiterEnabled(s, w)
    ensures WakeInv(WaiterNext(s, w, consume))
  {
    WaiterOthers(s, w, consume);
    CallbackNext(s, w, consume);
    CommittedNext(s, w);
    WakeWaiterFrame(s, WaiterNext(s, w, consume), w);
  }

  lemma CommittedNext(s: State, w: nat)
    requires WaiterEnabled(s, w) && Knows(s, s.waiters[w])
    ensures var me := s.waiters[w];
            Committed(WaitNext(s, me)) ==>
              && !me.pc.Register? && !me.pc.Deregister?
              && (Committed(me.pc) || (me.token !in s.stopped && !s.pred))
  {
  }

  lemma WakeWaiterFrame(s: State, s': State, w: nat)
    requires WakeInv(s) && w in s.waiters && s'.waiters.Keys == s.waiters.Keys
    requires forall v :: v in s.waiters && v != w ==> SameOrSignalled(s.waiters[v], s'.waiters[v])
    requires s'.stoppers == s.stoppers && s'.stopped == s.stopped && s'.setters == s.setters && (s'.pred ==> s.pred)
    requires s'.waiters[w].token == s.waiters[w].token && s.armed - {w} <= s'.armed
    requires Committed(s'.waiters[w].pc) ==>
               s.armed <= s'.armed && (Committed(s.waiters[w].pc) || (s.waiters[w].token !in s.stopped && !s.pred))
    ensures WakeInv(s')
  {
    forall v | v in s'.waiters && Committed(s'.waiters[v].pc)
      ensures s'.waiters[v].token in s'.stopped ==> v in s'.armed || exists x :: WillNotify(s', x, v)
      ensures s'.pred ==> exists x :: WillNotifyAll(s', x)
    {
      if s'.waiters[v].token in s'.stopped && v !in s'.armed {
        var x :| WillNotify(s, x, v);
        assert WillNotify(s', x, v);
      }
      if s'.pred {
        var x :| WillNotifyAll(s, x);
        assert WillNotifyAll(s', x);
      }
    }
  }

  /** After notify_all, under the inner mutex, no waiter is committed to sleep without a signal. */
  lemma NotifyWakesAll(s: State, s': State, th: Thread)
    requires LockInv(s) && HasInner(s, th) && s'.waiters == SignalAll(s.waiters)
    requires forall w :: th != OfWaiter(w)
    ensures forall w :: w in s'.waiters ==> !Committed(s'.waiters[w].pc)
  {
    forall w | w in s'.waiters ensures !Committed(s'.waiters[w].pc) {
      assert HasInner(s, OfWaiter(w)) <==> s.inner == Some(OfWaiter(w));
      assert HasInner(s, th) <==> s.inner == Some(th);
    }
  }

  lemma WakeSetter(s: State, x: nat)
    requires LockInv(s) && WakeInv(s) && SetterEnabled(s, x)
    ensures WakeInv(SetterNext(s, x))
  {
    var s' := SetterNext(s, x);
    if s.setters[x].pc.NotifyAll? {
      NotifyWakesAll(s, s', OfSetter(x));
    } else {
      forall w | w in s'.waiters && Committed(s'.waiters[w].pc)
        ensures s'.waiters[w].token in s'.stopped ==> w in s'.armed || exists y :: WillNotify(s', y, w)
        ensures s'.pred ==> exists y :: WillNotifyAll(s', y)
      {
        if s'.waiters[w].token in s'.stopped && w !in s'.armed {
          var y :| WillNotify(s, y, w);
          assert WillNotify(s', y, w);
        }
        if s'.pred && s.setters[x].pc.SetValue? {
          assert WillNotifyAll(s', x);
        } else if s'.pred {
          var y :| WillNotifyAll(s, y);
          assert WillNotifyAll(s', y);
        }
      }
    }
  }

  lemma WakeStopper(s: State, x: nat, pick: nat)
    requires LockInv(s) && CallbackInv(s) && WakeInv(s) && StopperEnabled(s, x, pick)
    ensures WakeInv(StopperNext(s, x, pick))
  {
    var s' := StopperNext(s, x, pick);
    if s.stoppers[x].pc.CallNotify? {
      NotifyWakesAll(s, s', OfStopper(x));
    } else {
      WakeStopperFrame(s, s', x, pick);
    }
  }

  lemma WakeStopperFrame(s: State, s': State, x: nat, pick: nat)
    requires CallbackInv(s) && WakeInv(s) && StopperMoves(s, s', x, pick) && !s.stoppers[x].pc.CallNotify?
    requires s'.waiters == s.waiters && s'.setters == s.setters && s'.pred == s.pred
    ensures WakeInv(s')
  {
    forall w | w in s'.waiters && Committed(s'.waiters[w].pc)
      ensures s'.waiters[w].token in s'.stopped ==> w in s'.armed || exists y :: WillNotify(s', y, w)
      ensures s'.pred ==> exists y :: WillNotifyAll(s', y)
    {
      if s'.pred {
        var y :| WillNotifyAll(s, y);
        assert WillNotifyAll(s', y);
      }
      if s'.waiters[w].token in s'.stopped && w !in s'.armed {
        if w in s.armed {
          assert WillNotify(s', x, w);
        } else {
          assert w in s.waiters && HasCallback(s.waiters[w].pc);
          assert s.waiters[w].token in s.stopped;
          var y :| WillNotify(s, y, w);
          assert WillNotify(s', y, w);
        }
      }
    }
  }

  lemma WakeEnvironment(s: State, step: Step)
    requires WakeInv(s) && Enabled(s, step) && !OwnStep(step)
    ensures WakeInv(Next(s, step))
  {
    var s' := Next(s, step);
    forall w | w in s'.waiters && Committed(s'.waiters[w].pc)
      ensures s'.waiters[w].token in s'.stopped ==> w in s'.armed || exists y :: WillNotify(s', y, w)
      ensures s'.pred ==> exists y :: WillNotifyAll(s', y)
    {
      assert w in s.waiters && s.waiters[w] == s'.waiters[w];
      if s'.waiters[w].token in s'.stopped && w !in s'.armed {
        var y :| WillNotify(s, y, w);
        assert WillNotify(s', y, w);
      }
      if s'.pred {
        var y :| WillNotifyAll(s, y);
        assert WillNotifyAll(s', y);
      }
    }
  }

  // ----- the entry counter -----

  /** The waiter is between counting itself in and counting itself out. */
  predicate Counted(pc: WaitPc) {
    pc.TestToken? || pc.Register? || pc.SelfLock? || pc.SelfNotify? || pc.SelfRelease? || HasCallback(pc)
        || pc.CountOut?
  }

  ghost function Inside(ws: map<nat, Waiter>): set<nat> {
    set w | w in ws && Counted(ws[w].pc)
  }

  ghost predicate EntryInv(s: State) {
    s.entries == |Inside(s.waiters)|
  }

  lemma EntrySame(ws: map<nat, Waiter>, ws': map<nat, Waiter>)
    requires forall w :: (w in ws && Counted(ws[w].pc)) <==> (w in ws' && Counted(ws'[w].pc))
    ensures Inside(ws') == Inside(ws)
  {
  }

  lemma CountedNext(s: State, w: nat)
    requires WaiterEnabled(s, w)
    ensures var me := s.waiters[w];
            && (me.pc.CountIn? ==> !Counted(me.pc) && Counted(WaitNext(s, me)))
            && (me.pc.CountOut? ==> Counted(me.pc) && !Counted(WaitNext(s, me)))
            && (!me.pc.CountIn? && !me.pc.CountOut? ==> (Counted(WaitNext(s, me)) <==> Counted(me.pc)))
  {
  }

  lemma SizesDiffer(a: set<nat>, b: set<nat>, w: nat)
    requires a - {w} == b - {w}
    ensures |b| + (if w in a then 1 else 0) == |a| + (if w in b then 1 else 0)
  {
    assert a == if w in a then (a - {w}) + {w} else a - {w};
    assert b == if w in b then (b - {w}) + {w} else b - {w};
  }

  /** One waiter's counted state changes the size of the set by at most one. */
  lemma EntryFrame(ws: map<nat, Waiter>, ws': map<nat, Waiter>, w: nat)
    requires w in ws && ws'.Keys == ws.Keys
    requires forall v :: v in ws && v != w ==> (Counted(ws'[v].pc) <==> Counted(ws[v].pc))
    ensures |Inside(ws')| + (if Counted(ws[w].pc) then 1 else 0) == |Inside(ws)| + (if Counted(ws'[w].pc) then 1 else 0)
  {
    SizesDiffer(Inside(ws), Inside(ws'), w);
  }

  lemma EntryWaiter(s: State, w: nat, consume: bool)
    requires EntryInv(s) && WaiterEnabled(s, w)
    ensures EntryInv(WaiterNext(s, w, consume))
  {
    WaiterOthers(s, w, consume);
    CountedNext(s, w);
    EntryFrame(s.waiters, WaiterNext(s, w, consume).waiters, w);
  }

  lemma EntryOther(s: State, step: Step)
    requires EntryInv(s) && Enabled(s, step) && !step.WaiterStep?
    ensures EntryInv(Next(s, step))
  {
    EntrySame(s.waiters, Next(s, step).waiters);
  }

  // ----- runs -----

  ghost predicate Inv(s: State) {
    LockInv(s) && ResultInv(s) && CallbackInv(s) && WakeInv(s) && EntryInv(s)
  }

  lemma InvStep(s: State, step: Step)
    requires Inv(s) && Enabled(s, step)
    ensures Inv(Next(s, step))
  {
    match step {
      case WaiterStep(w, consume) =>
        LockWaiter(s, w, consume); ResultWaiter(s, w, consume); CallbackWaiter(s, w, consume);
        WakeWaiter(s, w, consume); EntryWaiter(s, w, consume);
      case SetterStep(x) =>
        LockSetter(s, x); ResultSetter(s, x); CallbackSetter(s, x); WakeSetter(s, x); EntryOther(s, step);
      case StopperStep(x, pick) =>
        LockStopper(s, x, pick); ResultStopper(s, x, pick); CallbackStopper(s, x, pick);
        WakeStopper(s, x, pick); EntryOther(s, step);
      case _ =>
        LockEnvironment(s, step); ResultEnvironment(s, step); CallbackEnvironment(s, step);
        WakeEnvironment(s, step); EntryOther(s, step);
    }
  }

  lemma {:induction false} RunInv(states: seq<State>, steps: seq<Step>, i: nat)
    requires IsRun(states, steps) && i < |states|
    ensures Inv(states[i])
  {
    if i == 0 {
      assert forall th :: !HasUser(states[0], th) && !HasInner(states[0], th);
      assert Inside(states[0].waiters) == {};
    } else {
      RunInv(states, steps, i - 1);
      assert Enabled(states[i - 1], steps[i - 1]) && states[i - 1 + 1] == Next(states[i - 1], steps[i - 1]);
      InvStep(states[i - 1], steps[i - 1]);
    }
  }

  /**
  No wakeup is lost. If a waiter sleeps unsignalled although its token is stopped, a stopper is still
  serving that token, and is either before picking the waiter's callback or on its way to notify_all in
  it. If it sleeps unsignalled although the predicate is true, a setter is on its way to notify_all.
  */
  lemma NoLostWakeup(states: seq<State>, steps: seq<Step>, i: nat, w: nat)
    requires IsRun(states, steps) && i < |states|
    requires w in states[i].waiters && states[i].waiters[w].pc == Asleep(false)
    ensures var s, token := states[i], states[i].waiters[w].token;
            && (token in s.stopped ==>
                (w in s.armed && exists x :: Serves(s, x, token)) || exists x :: WillNotify(s, x, w))
            && (s.pred ==> exists x :: WillNotifyAll(s, x))
  {
    RunInv(states, steps, i);
  }

  /**
  When wait returns, with the user mutex held, its result is the value of the predicate; false is
  returned only if the token is stopped or the deadline has passed.
  */
  lemma ResultMeaning(states: seq<State>, steps: seq<Step>, i: nat, w: nat)
    requires IsRun(states, steps) && i < |states|
    requires w in states[i].waiters && states[i].waiters[w].pc.Returned?
    ensures var s, me := states[i], states[i].waiters[w];
            && s.user == Some(OfWaiter(w))
            && me.pc.result == s.pred
            && (!me.pc.result ==> me.token in s.stopped || Due(s, me.deadline))
  {
    RunInv(states, steps, i);
    assert Knows(states[i], states[i].waiters[w]);
    assert HasUser(states[i], OfWaiter(w));
  }

  /** When the destructor sees a zero counter, no thread is inside a wait or inside a waiter's stop callback. */
  lemma CounterGuardsDestruction(states: seq<State>, steps: seq<Step>, i: nat)
    requires IsRun(states, steps) && i < |states| && states[i].entries == 0
    ensures forall w :: w in states[i].waiters ==> !Counted(states[i].waiters[w].pc)
    ensures forall x, w :: !RunsCallback(states[i], x, w)
    ensures states[i].armed == {}
  {
    RunInv(states, steps, i);
    forall w | w in states[i].waiters ensures !Counted(states[i].waiters[w].pc) {
      assert w in Inside(states[i].waiters) <==> Counted(states[i].waiters[w].pc);
    }
  }

  // ----- no deadlock -----

  ghost predicate Stuck(s: State) {
    forall step :: OwnStep(step) ==> !Enabled(s, step)
  }

  /** The holder of the inner mutex can always step: it never waits for the user mutex. */
  lemma InnerHolderSteps(s: State) returns (step: Step)
    requires Inv(s) && s.inner.Some?
    ensures OwnStep(step) && Enabled(s, step)
  {
    var th := s.inner.value;
    assert HasInner(s, th);
    match th {
      case OfWaiter(w) => step := WaiterStep(w, false);
      case OfSetter(x) => step := SetterStep(x);
      case OfStopper(x) => step := StopperStep(x, 0);
    }
  }

  /** A stopper with no lock to wait for can step. */
  lemma StopperSteps(s: State, x: nat) returns (step: Step)
    requires Inv(s) && s.inner.None? && x in s.stoppers && !s.stoppers[x].pc.StopLock? && !s.stoppers[x].pc.StopDone?
    ensures OwnStep(step) && Enabled(s, step)
  {
    if w :| Pickable(s, s.stoppers[x].token, w) { step := StopperStep(x, w); } else { step := StopperStep(x, 0); }
  }

  /**
  If the inner mutex is free and the user mutex is held, some thread can step: the holder, or one running its
  callback.
  */
  lemma UserHolderSteps(s: State) returns (step: Step)
    requires Inv(s) && s.inner.None? && s.user.Some?
    ensures OwnStep(step) && Enabled(s, step)
  {
    var th := s.user.value;
    assert HasUser(s, th);
    match th {
      case OfWaiter(w) =>
        if CallbackRuns(s, w) {
          var x :| x in s.stoppers && s.stoppers[x].pc in {CallLock(w), CallNotify(w), CallRelease(w)};
          step := StopperSteps(s, x);
        } else {
          step := WaiterStep(w, false);
        }
      case OfSetter(x) => step := SetterStep(x);
      case OfStopper(x) => step := StopperSteps(s, x);
    }
  }

  /** Asleep with nothing to wake it: no stop, a false predicate, and time left. */
  predicate SleepsWell(s: State, me: Waiter) {
    me.pc == Asleep(false) && me.token !in s.stopped && !s.pred && !Due(s, me.deadline)
  }

  /** Both mutexes are free, setters and stoppers are done, and a waiter that is not done sleeps with good reason. */
  ghost predicate Settled(s: State) {
    && s.user.None? && s.inner.None?
    && (forall x :: x in s.setters ==> s.setters[x].pc == SetDone)
    && (forall x :: x in s.stoppers ==> s.stoppers[x].pc == StopDone)
    && (forall w :: w in s.waiters ==> s.waiters[w].pc == WaitDone || SleepsWell(s, s.waiters[w]))
  }

  /**
  No deadlock. In a reachable state where no thread can step, both mutexes are free, every setter and
  stopper is done, and a waiter that is not done sleeps with good reason: its token is not stopped, the
  predicate is false, and its deadline, if it has one, is not reached.
  */
  lemma NoDeadlock(states: seq<State>, steps: seq<Step>, i: nat)
    requires IsRun(states, steps) && i < |states| && Stuck(states[i])
    ensures Settled(states[i])
  {
    RunInv(states, steps, i);
    StuckMeansSettled(states[i]);
  }

  lemma StuckMeansSettled(s: State)
    requires Inv(s) && Stuck(s)
    ensures Settled(s)
  {
    if s.inner.Some? { var step := InnerHolderSteps(s); assert false; }
    if s.user.Some? { var step := UserHolderSteps(s); assert false; }
    StuckThreads(s);
  }

  lemma StuckThreads(s: State)
    requires Inv(s) && Stuck(s) && s.user.None? && s.inner.None?
    ensures forall x :: x in s.setters ==> s.setters[x].pc == SetDone
    ensures forall x :: x in s.stoppers ==> s.stoppers[x].pc == StopDone
    ensures forall w :: w in s.waiters ==>
              || s.waiters[w].pc == WaitDone
              || SleepsWell(s, s.waiters[w])
  {
    forall x | x in s.setters ensures s.setters[x].pc == SetDone {
      assert !HasUser(s, OfSetter(x)) && !HasInner(s, OfSetter(x));
      assert !Enabled(s, SetterStep(x));
    }
    forall x | x in s.stoppers ensures s.stoppers[x].pc == StopDone {
      assert !Enabled(s, StopperStep(x, 0));
      if !s.stoppers[x].pc.StopLock? && !s.stoppers[x].pc.StopDone? {
        var step := StopperSteps(s, x);
        assert false;
      }
    }
    forall w | w in s.waiters
      ensures s.waiters[w].pc == WaitDone || SleepsWell(s, s.waiters[w])
    {
      assert !HasUser(s, OfWaiter(w)) && !HasInner(s, OfWaiter(w));
      assert !Enabled(s, WaiterStep(w, false));
    }
  }
}
