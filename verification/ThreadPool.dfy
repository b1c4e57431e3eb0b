/**
The thread pool and the interruptible wait it uses, as a transition system.

A state holds the two mutexes (`queue_mutex_`, here `user`, and the condition variable's
`internal_mutex_`, here `inner`), the shared data, and one program counter per thread. There are any
number of workers, of concurrent `Enqueue` calls (one per task) and of concurrent `Shutdown` calls. A
step is one lock acquisition or release, one test, one notification, one push, one pop or one stop
request; the threads interleave freely.

Three primitives are taken as given: a sleeping thread may wake without a signal, `notify_one` wakes
one thread that sleeps unsignalled if there is one, and `request_stop` runs a registered callback in
the requesting thread.
*/
module ThreadPool {
  import opened Common

  type Task = nat

  datatype Thread = OfWorker(w: nat) | OfEnqueue(t: Task) | OfShutdown(c: nat)

  /** Where a worker is inside the predicate `wait` of the condition variable. */
  datatype WaitPc =
    | Enter                          // has user: tests the token
    | Register                       // has user: constructs the stop callback
    | TestPredicate(woken: bool)     // has user: tests whether the queue is non-empty
    | LockInner                      // has user, wants inner
    | TestStop                       // has both: tests the token again
    | ReleaseUser                    // has both: releases user
    | Block                          // has inner: releases it and falls asleep
    | Asleep(signalled: bool)        // once signalled, wants inner
    | ReleaseInner                   // has inner: releases it
    | RelockUser                     // wants user
    | Deregister(woken: bool)        // has user: destroys the stop callback

  /** Where a thread is inside `Execute`. */
  datatype ExecutePc = TestFlag | RequestStop | Invoke | Running

  /** Where a worker is in `Work`. */
  datatype WorkerPc =
    | Start                          // wants user
    | LoopTest                       // has user: tests the loop condition
    | InWait(wait: WaitPc)
    | Take(woken: bool)              // has user: pops a task if there is one
    | SetSlot(task: Task)            // has user: records the task's stop source
    | Unlock(task: Task)             // has user: releases it
    | InExecute(task: Task, exec: ExecutePc)
    | Relock                         // wants user
    | ClearSlot                      // has user: clears the slot
    | Exited

  /** Where a call of `Enqueue` is; the call is named after its task. */
  datatype EnqueuePc =
    | EnqLock                        // wants user
    | EnqTest                        // has user: tests the shutdown flag
    | EnqUnlock                      // has user: releases it to run the task itself
    | EnqExecute(exec: ExecutePc)
    | EnqPush                        // has user: pushes
    | EnqNotifyLock                  // has user, wants inner
    | EnqNotify                      // has both: notify_one
    | EnqNotifyRelease               // has both: releases inner
    | EnqLeave                       // has user: releases it
    | EnqDone

  /** Where a call of `Shutdown` is. */
  datatype ShutdownPc =
    | SetFlag
    | ShutLock                       // wants user
    | StopSlot(i: nat)               // has user: requests the stop of the task in slot i
    | StopWorker(i: nat)             // has user: requests the stop of worker i
    | CallbackLock(i: nat)           // has user, wants inner: worker i's callback runs
    | CallbackNotify(i: nat)         // has both: notify_all
    | CallbackRelease(i: nat)        // has both: releases inner
    | ShutUnlock                     // has user: releases it
    | Returned

  /** The queue, the slots of running tasks' stop sources, and logs of what happened to tasks. */
  datatype Ledger = Ledger(
    queue: seq<Task>,
    active: seq<Option<Task>>,
    pushed: seq<Task>,
    popped: seq<Task>,
    started: seq<Task>,              // callables started
    finished: set<Task>,             // callables that have returned
    stops: seq<Task>)                // stops the pool requested

  datatype State = State(
    user: Option<Thread>,
    inner: Option<Thread>,
    flag: bool,                      // shutdown_reqested_
    stopped: set<nat>,               // workers whose token is stopped
    ledger: Ledger,
    workers: seq<WorkerPc>,
    enqueues: map<Task, EnqueuePc>,
    shutdowns: map<nat, ShutdownPc>)

  /** A pool of `n` workers that have all been started and have done nothing. */
  function Init(n: nat): State {
    State(None, None, false, {}, Ledger([], seq(n, _ => None), [], [], [], {}, []),
          seq(n, _ => Start), map[], map[])
  }

  /** The steps: the environment's (new calls, spurious wakeups) and the threads' own. */
  datatype Step =
    | Submit(t: Task)
    | CallShutdown(c: nat)
    | Spurious(w: nat)
    | WorkerStep(w: nat)
    | EnqueueStep(t: Task, wake: nat)   // `wake` is the sleeper notify_one picks
    | ShutdownStep(c: nat)

  predicate OwnStep(step: Step) {
    step.WorkerStep? || step.EnqueueStep? || step.ShutdownStep?
  }

  // ----- Execute, by a worker or by the caller of Enqueue -----

  function ExecuteNext(exec: ExecutePc, flag: bool): Option<ExecutePc> {
    match exec
    case TestFlag => Some(if flag then RequestStop else Invoke)
    case RequestStop => Some(Invoke)
    case Invoke => Some(Running)
    case Running => None
  }

  function ExecuteEffect(d: Ledger, t: Task, exec: ExecutePc): Ledger {
    match exec
    case TestFlag => d
    case RequestStop => d.(stops := d.stops + [t])
    case Invoke => d.(started := d.started + [t])
    case Running => d.(finished := d.finished + {t})
  }

  // ----- workers -----

  /** Worker w's stop callback is being run by a Shutdown call. */
  ghost predicate CallbackRuns(s: State, w: nat) {
    exists c :: c in s.shutdowns && s.shutdowns[c] in {CallbackLock(w), CallbackNotify(w), CallbackRelease(w)}
  }

  ghost predicate WaitEnabled(s: State, w: nat, wait: WaitPc) {
    match wait
    case Register => w !in s.stopped
    case LockInner => s.inner.None?
    case Asleep(signalled) => signalled && s.inner.None?
    case RelockUser => s.user.None?
    // destroying a callback waits for a run of it in another thread
    case Deregister(_) => !CallbackRuns(s, w)
    case _ => true
  }

  ghost predicate WorkerEnabled(s: State, w: nat) {
    && w < |s.workers| == |s.ledger.active|
    && match s.workers[w]
       case Start => s.user.None?
       case InWait(wait) => WaitEnabled(s, w, wait)
       case Relock => s.user.None?
       case Exited => false
       case _ => true
  }

  /** The program counter after a step inside `wait`. */
  function WaitNext(wait: WaitPc, stop: bool, queueEmpty: bool): WorkerPc {
    match wait
    case Enter => if stop then Take(false) else InWait(Register)
    case Register => InWait(TestPredicate(false))
    case TestPredicate(woken) => InWait(if queueEmpty then LockInner else Deregister(woken))
    case LockInner => InWait(TestStop)
    case TestStop => InWait(if stop then Deregister(false) else ReleaseUser)
    case ReleaseUser => InWait(Block)
    case Block => InWait(Asleep(false))
    case Asleep(_) => InWait(ReleaseInner)
    case ReleaseInner => InWait(RelockUser)
    case RelockUser => InWait(TestPredicate(true))
    case Deregister(woken) => Take(woken)
  }

  function WaitUser(user: Option<Thread>, w: nat, wait: WaitPc): Option<Thread> {
    match wait
    case ReleaseUser => None
    case RelockUser => Some(OfWorker(w))
    case _ => user
  }

  function WaitInner(inner: Option<Thread>, w: nat, wait: WaitPc, stop: bool): Option<Thread> {
    match wait
    case LockInner => Some(OfWorker(w))
    case TestStop => if stop then None else inner
    case Block => None
    case Asleep(_) => Some(OfWorker(w))
    case ReleaseInner => None
    case _ => inner
  }

  function WorkerNext(s: State, w: nat): State
    requires w < |s.workers| == |s.ledger.active|
  {
    var d := s.ledger;
    match s.workers[w]
    case Start => s.(user := Some(OfWorker(w)), workers := s.workers[w := LoopTest])
    case LoopTest =>
      if w !in s.stopped || d.queue != [] then s.(workers := s.workers[w := InWait(Enter)])
      else s.(user := None, workers := s.workers[w := Exited])
    case InWait(wait) =>
      var stop := w in s.stopped;
      s.(user := WaitUser(s.user, w, wait), inner := WaitInner(s.inner, w, wait, stop),
         workers := s.workers[w := WaitNext(wait, stop, d.queue == [])])
    case Take(_) =>
      if d.queue == [] then s.(workers := s.workers[w := LoopTest])
      else s.(ledger := d.(queue := d.queue[1..], popped := d.popped + [d.queue[0]]),
              workers := s.workers[w := SetSlot(d.queue[0])])
    case SetSlot(t) => s.(ledger := d.(active := d.active[w := Some(t)]), workers := s.workers[w := Unlock(t)])
    case Unlock(t) => s.(user := None, workers := s.workers[w := InExecute(t, TestFlag)])
    case InExecute(t, exec) =>
      var exec' := ExecuteNext(exec, s.flag);
      s.(ledger := ExecuteEffect(d, t, exec),
         workers := s.workers[w := if exec'.Some? then InExecute(t, exec'.value) else Relock])
    case Relock => s.(user := Some(OfWorker(w)), workers := s.workers[w := ClearSlot])
    case ClearSlot => s.(ledger := d.(active := d.active[w := None]), workers := s.workers[w := LoopTest])
    case Exited => s
  }

  // ----- Enqueue -----

  /** Worker w sleeps unsignalled. */
  predicate Sleeper(s: State, w: nat) {
    w < |s.workers| && s.workers[w] == InWait(Asleep(false))
  }

  ghost predicate EnqueueEnabled(s: State, t: Task, wake: nat) {
    && t in s.enqueues
    && match s.enqueues[t]
       case EnqLock => s.user.None?
       case EnqNotifyLock => s.inner.None?
       case EnqNotify => Sleeper(s, wake) || forall w :: !Sleeper(s, w)
       case EnqDone => false
       case _ => true
  }

  function EnqueueNext(s: State, t: Task, wake: nat): State
    requires t in s.enqueues
  {
    var d := s.ledger;
    match s.enqueues[t]
    case EnqLock => s.(user := Some(OfEnqueue(t)), enqueues := s.enqueues[t := EnqTest])
    case EnqTest => s.(enqueues := s.enqueues[t := if s.flag then EnqUnlock else EnqPush])
    case EnqUnlock => s.(user := None, enqueues := s.enqueues[t := EnqExecute(TestFlag)])
    case EnqExecute(exec) =>
      var exec' := ExecuteNext(exec, s.flag);
      s.(ledger := ExecuteEffect(d, t, exec),
         enqueues := s.enqueues[t := if exec'.Some? then EnqExecute(exec'.value) else EnqDone])
    case EnqPush =>
      s.(ledger := d.(queue := d.queue + [t], pushed := d.pushed + [t]),
         enqueues := s.enqueues[t := EnqNotifyLock])
    case EnqNotifyLock => s.(inner := Some(OfEnqueue(t)), enqueues := s.enqueues[t := EnqNotify])
    case EnqNotify =>
      s.(workers := if Sleeper(s, wake) then s.workers[wake := InWait(Asleep(true))] else s.workers,
         enqueues := s.enqueues[t := EnqNotifyRelease])
    case EnqNotifyRelease => s.(inner := None, enqueues := s.enqueues[t := EnqLeave])
    case EnqLeave => s.(user := None, enqueues := s.enqueues[t := EnqDone])
    case EnqDone => s
  }

  // ----- Shutdown -----

  /** notify_all: every sleeper is signalled. */
  function SignalAll(ws: seq<WorkerPc>): seq<WorkerPc> {
    seq(|ws|, i requires 0 <= i < |ws| => if ws[i] == InWait(Asleep(false)) then InWait(Asleep(true)) else ws[i])
  }

  /** A stop callback exists from the end of its constructor to its destructor. */
  predicate Registered(pc: WorkerPc) {
    pc.InWait? && !pc.wait.Enter? && !pc.wait.Register?
  }

  predicate ShutdownEnabled(s: State, c: nat) {
    && c in s.shutdowns
    && |s.workers| == |s.ledger.active|
    && match s.shutdowns[c]
       case ShutLock => s.user.None?
       case CallbackLock(_) => s.inner.None?
       case Returned => false
       case _ => true
  }

  function ShutdownNext(s: State, c: nat): State
    requires c in s.shutdowns && |s.workers| == |s.ledger.active|
  {
    var d := s.ledger;
    match s.shutdowns[c]
    case SetFlag => s.(flag := true, shutdowns := s.shutdowns[c := ShutLock])
    case ShutLock => s.(user := Some(OfShutdown(c)), shutdowns := s.shutdowns[c := StopSlot(0)])
    case StopSlot(i) =>
      if i >= |d.active| then s.(shutdowns := s.shutdowns[c := StopWorker(0)])
      else
        s.(ledger := if d.active[i].Some? then d.(stops := d.stops + [d.active[i].value]) else d,
           shutdowns := s.shutdowns[c := StopSlot(i + 1)])
    case StopWorker(i) =>
      if i >= |s.workers| then s.(shutdowns := s.shutdowns[c := ShutUnlock])
      else
        s.(stopped := s.stopped + {i},
           shutdowns := s.shutdowns[c := if i !in s.stopped && Registered(s.workers[i]) then CallbackLock(i)
                                         else StopWorker(i + 1)])
    case CallbackLock(i) => s.(inner := Some(OfShutdown(c)), shutdowns := s.shutdowns[c := CallbackNotify(i)])
    case CallbackNotify(i) => s.(workers := SignalAll(s.workers), shutdowns := s.shutdowns[c := CallbackRelease(i)])
    case CallbackRelease(i) => s.(inner := None, shutdowns := s.shutdowns[c := StopWorker(i + 1)])
    case ShutUnlock => s.(user := None, shutdowns := s.shutdowns[c := Returned])
    case Returned => s
  }

  // ----- runs -----

  ghost predicate Enabled(s: State, step: Step) {
    match step
    case Submit(t) => t !in s.enqueues
    case CallShutdown(c) => c !in s.shutdowns
    case Spurious(w) => Sleeper(s, w)
    case WorkerStep(w) => WorkerEnabled(s, w)
    case EnqueueStep(t, wake) => EnqueueEnabled(s, t, wake)
    case ShutdownStep(c) => ShutdownEnabled(s, c)
  }

  ghost function Next(s: State, step: Step): State
    requires Enabled(s, step)
  {
    match step
    case Submit(t) => s.(enqueues := s.enqueues[t := EnqLock])
    case CallShutdown(c) => s.(shutdowns := s.shutdowns[c := SetFlag])
    case Spurious(w) => s.(workers := s.workers[w := InWait(Asleep(true))])
    case WorkerStep(w) => WorkerNext(s, w)
    case EnqueueStep(t, wake) => EnqueueNext(s, t, wake)
    case ShutdownStep(c) => ShutdownNext(s, c)
  }

  /** A run of a pool of n workers: states linked by enabled steps. */
  ghost predicate IsRun(n: nat, states: seq<State>, steps: seq<Step>) {
    && |states| == |steps| + 1
    && states[0] == Init(n)
    && forall i {:trigger steps[i]} :: 0 <= i < |steps| ==>
        Enabled(states[i], steps[i]) && states[i + 1] == Next(states[i], steps[i])
  }
}
