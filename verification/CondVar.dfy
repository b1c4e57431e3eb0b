/**
The interruptible condition variable on its own, with arbitrary clients, as a transition system.

Any number of threads wait, with or without a deadline, each with its own stop token; any number
change the predicate under the user mutex and then call notify_all, before or after releasing the
mutex; and any number request stops, with or without holding the user mutex. A callback registered on
a token that is already stopped runs at once in the registering thread. Time is a counter the
environment advances.
*/
module CondVar {
  import opened Common

  datatype Thread = OfWaiter(w: nat) | OfSetter(x: nat) | OfStopper(x: nat)

  /** Where a thread is in `wait` or in the predicate form of `wait_until`. */
  datatype WaitPc =
    | CallerLock                 // wants user
    | TestDeadline               // has user: with a deadline, tests the clock on entry
    | CountIn                    // has user: entry counter up
    | TestToken                  // has user: tests the token on entry
    | Register                   // has user: constructs the stop callback
    | SelfLock                   // has user, wants inner: its callback runs in this thread
    | SelfNotify                 // has both: notify_all
    | SelfRelease                // has both: releases inner
    | TestPredicate              // has user
    | LockInner                  // has user, wants inner
    | TestStop                   // has both: tests the token again
    | ReleaseUser                // has both: releases user
    | Block                      // has inner: releases it and falls asleep
    | Asleep(signalled: bool)    // once signalled or past its deadline, wants inner
    | ReleaseInner               // has inner: releases it
    | RelockUser                 // wants user
    | TestTime                   // has user: with a deadline, tests the clock and the token
    | Deregister(result: bool)   // has user: destroys the stop callback
    | CountOut(result: bool)     // has user: entry counter down
    | Returned(result: bool)     // has user: wait has returned
    | Consumed                   // has user: the caller may have consumed the predicate
    | WaitDone

  datatype Waiter = Waiter(token: nat, deadline: Option<nat>, pc: WaitPc)

  /** Where a thread is that sets the predicate to `value`; `late` says it notifies after releasing the mutex. */
  datatype SetPc =
    | SetLock                    // wants user
    | SetValue                   // has user
    | SetUnlockFirst             // has user: releases it, then notifies
    | NotifyLock(holding: bool)  // wants inner
    | NotifyAll(holding: bool)   // has inner
    | NotifyRelease(holding: bool)
    | SetUnlockLast              // has user: releases it
    | SetDone

  datatype Setter = Setter(value: bool, late: bool, pc: SetPc)

  /** Where a thread is in `request_stop`; `holding` says it keeps the user mutex throughout. */
  datatype StopPc =
    | StopLock                   // wants user
    | StopSet                    // stops the token
    | StopLoop                   // picks a callback to run
    | CallLock(w: nat)           // wants inner: waiter w's callback
    | CallNotify(w: nat)         // has inner: notify_all
    | CallRelease(w: nat)        // has inner: releases it
    | StopUnlock                 // releases user
    | StopDone

  datatype Stopper = Stopper(token: nat, holding: bool, pc: StopPc)

  datatype State = State(
    user: Option<Thread>,
    inner: Option<Thread>,
    pred: bool,
    now: nat,
    stopped: set<nat>,           // stopped tokens
    armed: set<nat>,             // waiters whose callback is registered and has not been picked to run
    entries: nat,                // entry_counter_
    waiters: map<nat, Waiter>,
    setters: map<nat, Setter>,
    stoppers: map<nat, Stopper>)

  function Init(pred: bool): State {
    State(None, None, pred, 0, {}, {}, 0, map[], map[], map[])
  }

  datatype Step =
    | CallWait(w: nat, token: nat, deadline: Option<nat>)
    | CallSet(x: nat, value: bool, late: bool)
    | CallStop(x: nat, token: nat, holding: bool)
    | Wake(w: nat)                            // spurious
    | Tick
    | WaiterStep(w: nat, consume: bool)       // `consume`: after the wait, the caller makes the predicate false
    | SetterStep(x: nat)
    | StopperStep(x: nat, pick: nat)          // `pick` is the callback run next

  predicate OwnStep(step: Step) {
    step.WaiterStep? || step.SetterStep? || step.StopperStep?
  }

  // ----- waiters -----

  ghost predicate CallbackRuns(s: State, w: nat) {
    exists x :: x in s.stoppers && s.stoppers[x].pc in {CallLock(w), CallNotify(w), CallRelease(w)}
  }

  ghost predicate WaiterEnabled(s: State, w: nat) {
    w in s.waiters &&
    match s.waiters[w].pc
    case CallerLock => s.user.None?
    case SelfLock => s.inner.None?
    case LockInner => s.inner.None?
    case Asleep(signalled) => (signalled || Due(s, s.waiters[w].deadline)) && s.inner.None?
    case RelockUser => s.user.None?
    // destroying a callback waits for a run of it in another thread
    case Deregister(_) => !CallbackRuns(s, w)
    case WaitDone => false
    case _ => true
  }

  predicate Due(s: State, deadline: Option<nat>) {
    deadline.Some? && s.now >= deadline.value
  }

  /** The program counter after a step inside the wait. */
  function WaitNext(s: State, me: Waiter): WaitPc {
    var stop := me.token in s.stopped;
    match me.pc
    case CallerLock => TestDeadline
    case TestDeadline => if Due(s, me.deadline) then Returned(s.pred) else CountIn
    case CountIn => TestToken
    case TestToken => if stop then CountOut(s.pred) else Register
    case Register => if stop then SelfLock else TestPredicate
    case SelfLock => SelfNotify
    case SelfNotify => SelfRelease
    case SelfRelease => TestPredicate
    case TestPredicate => if s.pred then Deregister(true) else LockInner
    case LockInner => TestStop
    case TestStop =>
      if !stop then ReleaseUser else if me.deadline.None? then Deregister(false) else TestTime
    case ReleaseUser => Block
    case Block => Asleep(false)
    case Asleep(_) => ReleaseInner
    case ReleaseInner => RelockUser
    case RelockUser => if me.deadline.None? then TestPredicate else TestTime
    case TestTime => if Due(s, me.deadline) || stop then Deregister(s.pred) else TestPredicate
    case Deregister(r) => CountOut(r)
    case CountOut(r) => Returned(r)
    case Returned(_) => Consumed
    case Consumed => WaitDone
    case WaitDone => WaitDone
  }

  function WaitUser(user: Option<Thread>, w: nat, pc: WaitPc): Option<Thread> {
    match pc
    case CallerLock => Some(OfWaiter(w))
    case RelockUser => Some(OfWaiter(w))
    case ReleaseUser => None
    case Consumed => None
    case _ => user
  }

  function WaitInner(inner: Option<Thread>, w: nat, pc: WaitPc, stop: bool): Option<Thread> {
    match pc
    case SelfLock => Some(OfWaiter(w))
    case LockInner => Some(OfWaiter(w))
    case Asleep(_) => Some(OfWaiter(w))
    case SelfRelease => None
    case TestStop => if stop then None else inner
    case Block => None
    case ReleaseInner => None
    case _ => inner
  }

  /** notify_all: every sleeper is signalled. */
  function Signal(me: Waiter): Waiter {
    if me.pc == Asleep(false) then me.(pc := Asleep(true)) else me
  }

  function SignalAll(ws: map<nat, Waiter>): map<nat, Waiter> {
    map w | w in ws :: Signal(ws[w])
  }

  function WaiterNext(s: State, w: nat, consume: bool): State
    requires w in s.waiters
  {
    var me := s.waiters[w];
    var stop := me.token in s.stopped;
    var others := if me.pc.SelfNotify? then SignalAll(s.waiters) else s.waiters;
    s.(user := WaitUser(s.user, w, me.pc),
       inner := WaitInner(s.inner, w, me.pc, stop),
       pred := s.pred && !(me.pc.Returned? && consume),
       armed := if me.pc.Register? && !stop then s.armed + {w} else if me.pc.Deregister? then s.armed - {w}
           else s.armed,
       entries := if me.pc.CountIn? then s.entries + 1
                  else if me.pc.CountOut? && s.entries > 0 then s.entries - 1 else s.entries,
       waiters := others[w := me.(pc := WaitNext(s, me))])
  }

  // ----- setters -----

  predicate SetterEnabled(s: State, x: nat) {
    x in s.setters &&
    match s.setters[x].pc
    case SetLock => s.user.None?
    case NotifyLock(_) => s.inner.None?
    case SetDone => false
    case _ => true
  }

  function SetNext(me: Setter): SetPc {
    match me.pc
    case SetLock => SetValue
    case SetValue => if !me.value then SetUnlockLast else if me.late then SetUnlockFirst else NotifyLock(true)
    case SetUnlockFirst => NotifyLock(false)
    case NotifyLock(h) => NotifyAll(h)
    case NotifyAll(h) => NotifyRelease(h)
    case NotifyRelease(h) => if h then SetUnlockLast else SetDone
    case SetUnlockLast => SetDone
    case SetDone => SetDone
  }

  function SetterNext(s: State, x: nat): State
    requires x in s.setters
  {
    var me := s.setters[x];
    s.(user := match me.pc
               case SetLock => Some(OfSetter(x)) case SetUnlockFirst => None case SetUnlockLast => None
               case _ => s.user,
       inner := match me.pc case NotifyLock(_) => Some(OfSetter(x)) case NotifyRelease(_) => None case _ => s.inner,
       pred := if me.pc.SetValue? then me.value else s.pred,
       waiters := if me.pc.NotifyAll? then SignalAll(s.waiters) else s.waiters,
       setters := s.setters[x := me.(pc := SetNext(me))])
  }

  // ----- stoppers -----

  /** Waiter w has a registered callback on the token that nobody has picked to run. */
  predicate Pickable(s: State, token: nat, w: nat) {
    w in s.armed && w in s.waiters && s.waiters[w].token == token
  }

  ghost predicate StopperEnabled(s: State, x: nat, pick: nat) {
    x in s.stoppers &&
    var me := s.stoppers[x];
    match me.pc
    case StopLock => s.user.None?
    case StopLoop => Pickable(s, me.token, pick) || forall w :: !Pickable(s, me.token, w)
    case CallLock(_) => s.inner.None?
    case StopDone => false
    case _ => true
  }

  function StopNext(s: State, me: Stopper, pick: nat): StopPc {
    var end := if me.holding then StopUnlock else StopDone;
    match me.pc
    case StopLock => StopSet
    case StopSet => if me.token in s.stopped then end else StopLoop
    case StopLoop => if Pickable(s, me.token, pick) then CallLock(pick) else end
    case CallLock(w) => CallNotify(w)
    case CallNotify(w) => CallRelease(w)
    case CallRelease(_) => StopLoop
    case StopUnlock => StopDone
    case StopDone => StopDone
  }

  function StopperNext(s: State, x: nat, pick: nat): State
    requires x in s.stoppers
  {
    var me := s.stoppers[x];
    s.(user := match me.pc case StopLock => Some(OfStopper(x)) case StopUnlock => None case _ => s.user,
       inner := match me.pc case CallLock(_) => Some(OfStopper(x)) case CallRelease(_) => None case _ => s.inner,
       stopped := if me.pc.StopSet? then s.stopped + {me.token} else s.stopped,
       armed := if me.pc.StopLoop? && Pickable(s, me.token, pick) then s.armed - {pick} else s.armed,
       waiters := if me.pc.CallNotify? then SignalAll(s.waiters) else s.waiters,
       stoppers := s.stoppers[x := me.(pc := StopNext(s, me, pick))])
  }

  // ----- runs -----

  ghost predicate Enabled(s: State, step: Step) {
    match step
    case CallWait(w, _, _) => w !in s.waiters
    case CallSet(x, _, _) => x !in s.setters
    case CallStop(x, _, _) => x !in s.stoppers
    case Wake(w) => w in s.waiters && s.waiters[w].pc == Asleep(false)
    case Tick => true
    case WaiterStep(w, _) => WaiterEnabled(s, w)
    case SetterStep(x) => SetterEnabled(s, x)
    case StopperStep(x, pick) => StopperEnabled(s, x, pick)
  }

  ghost function Next(s: State, step: Step): State
    requires Enabled(s, step)
  {
    match step
    case CallWait(w, token, deadline) => s.(waiters := s.waiters[w := Waiter(token, deadline, CallerLock)])
    case CallSet(x, value, late) => s.(setters := s.setters[x := Setter(value, late, SetLock)])
    case CallStop(x, token, holding) =>
      s.(stoppers := s.stoppers[x := Stopper(token, holding, if holding then StopLock else StopSet)])
    case Wake(w) => s.(waiters := s.waiters[w := s.waiters[w].(pc := Asleep(true))])
    case Tick => s.(now := s.now + 1)
    case WaiterStep(w, consume) => WaiterNext(s, w, consume)
    case SetterStep(x) => SetterNext(s, x)
    case StopperStep(x, pick) => StopperNext(s, x, pick)
  }

  ghost predicate IsRun(states: seq<State>, steps: seq<Step>) {
    && |states| == |steps| + 1
    && (exists pred :: states[0] == Init(pred))
    && forall i {:trigger steps[i]} :: 0 <= i < |steps| ==>
        Enabled(states[i], steps[i]) && states[i + 1] == Next(states[i], steps[i])
  }
}
