/**
What every run of the thread pool keeps: mutual exclusion, conservation of tasks, the meaning of a
worker's exit, and which tasks the pool asks to stop.
*/
module ThreadPoolSafety {
  import opened Common
  import opened ThreadPool

  // ----- locks -----

  predicate WorkerHasUser(pc: WorkerPc) {
    match pc
    case Start => false
    case InWait(wait) => !(wait.Block? || wait.Asleep? || wait.ReleaseInner? || wait.RelockUser?)
    case InExecute(_, _) => false
    case Relock => false
    case Exited => false
    case _ => true
  }

  predicate WorkerHasInner(pc: WorkerPc) {
    pc.InWait? && (pc.wait.TestStop? || pc.wait.ReleaseUser? || pc.wait.Block? || pc.wait.ReleaseInner?)
  }

  predicate EnqueueHasUser(pc: EnqueuePc) {
    !pc.EnqLock? && !pc.EnqExecute? && !pc.EnqDone?
  }

  predicate EnqueueHasInner(pc: EnqueuePc) {
    pc.EnqNotify? || pc.EnqNotifyRelease?
  }

  predicate ShutdownHasUser(pc: ShutdownPc) {
    !pc.SetFlag? && !pc.ShutLock? && !pc.Returned?
  }

  predicate ShutdownHasInner(pc: ShutdownPc) {
    pc.CallbackNotify? || pc.CallbackRelease?
  }

  /** The thread is at a point of its code between acquiring and releasing the user mutex. */
  predicate HasUser(s: State, th: Thread) {
    match th
    case OfWorker(w) => w < |s.workers| && WorkerHasUser(s.workers[w])
    case OfEnqueue(t) => t in s.enqueues && EnqueueHasUser(s.enqueues[t])
    case OfShutdown(c) => c in s.shutdowns && ShutdownHasUser(s.shutdowns[c])
  }

  predicate HasInner(s: State, th: Thread) {
    match th
    case OfWorker(w) => w < |s.workers| && WorkerHasInner(s.workers[w])
    case OfEnqueue(t) => t in s.enqueues && EnqueueHasInner(s.enqueues[t])
    case OfShutdown(c) => c in s.shutdowns && ShutdownHasInner(s.shutdowns[c])
  }

  /** The recorded owner of each mutex is exactly the thread inside its critical section. */
  ghost predicate LockInv(s: State) {
    && |s.workers| == |s.ledger.active|
    && (forall th :: HasUser(s, th) <==> s.user == Some(th))
    && (forall th :: HasInner(s, th) <==> s.inner == Some(th))
  }

  /** How one thread's step changes the owner of a mutex: the owner follows the thread's own critical section. */
  predicate OwnerMoves(before: Option<Thread>, after: Option<Thread>, th: Thread, had: bool, has: bool) {
    && (has && !had ==> before.None?)
    && after == (if has then Some(th) else if had then None else before)
  }

  /** All threads but `th` are inside the same critical sections in both states. */
  ghost predicate OthersLocks(s: State, s': State, th: Thread) {
    forall o :: o != th ==> (HasUser(s', o) <==> HasUser(s, o)) && (HasInner(s', o) <==> HasInner(s, o))
  }

  lemma LockFrame(s: State, s': State, th: Thread)
    requires LockInv(s) && |s'.workers| == |s'.ledger.active|
    requires OthersLocks(s, s', th)
    requires OwnerMoves(s.user, s'.user, th, s.user == Some(th), HasUser(s', th))
    requires OwnerMoves(s.inner, s'.inner, th, s.inner == Some(th), HasInner(s', th))
    ensures LockInv(s')
  {
    forall o
      ensures HasUser(s', o) <==> s'.user == Some(o)
      ensures HasInner(s', o) <==> s'.inner == Some(o)
    {
      assert HasUser(s, o) <==> s.user == Some(o);
      assert HasInner(s, o) <==> s.inner == Some(o);
    }
  }

  lemma WorkerOwners(s: State, w: nat)
    requires WorkerEnabled(s, w)
    requires WorkerHasUser(s.workers[w]) <==> s.user == Some(OfWorker(w))
    requires WorkerHasInner(s.workers[w]) <==> s.inner == Some(OfWorker(w))
    ensures |WorkerNext(s, w).workers| == |s.workers|
    ensures OwnerMoves(s.user, WorkerNext(s, w).user, OfWorker(w), s.user == Some(OfWorker(w)),
                       WorkerHasUser(WorkerNext(s, w).workers[w]))
    ensures OwnerMoves(s.inner, WorkerNext(s, w).inner, OfWorker(w), s.inner == Some(OfWorker(w)),
                       WorkerHasInner(WorkerNext(s, w).workers[w]))
  {
    match s.workers[w]
    case InWait(_) =>
    case InExecute(_, _) =>
    case _ =>
  }

  /** A worker's step changes no other thread's program counter. */
  lemma WorkerOthers(s: State, w: nat)
    requires WorkerEnabled(s, w)
    ensures var s' := WorkerNext(s, w);
            && |s'.workers| == |s.workers| == |s'.ledger.active|
            && s'.workers == s.workers[w := s'.workers[w]]
            && s'.enqueues == s.enqueues && s'.shutdowns == s.shutdowns
            && s'.flag == s.flag && s'.stopped == s.stopped
  {
  }

  lemma LockWorker(s: State, w: nat)
    requires LockInv(s) && WorkerEnabled(s, w)
    ensures LockInv(WorkerNext(s, w))
  {
    var th := OfWorker(w);
    assert (HasUser(s, th) <==> s.user == Some(th)) && (HasInner(s, th) <==> s.inner == Some(th));
    WorkerOwners(s, w);
    WorkerOthers(s, w);
    LockFrame(s, WorkerNext(s, w), th);
  }

  /** A call's step changes no other thread's program counter, except that notify_one may signal one sleeper. */
  lemma EnqueueOthers(s: State, t: Task, wake: nat)
    requires EnqueueEnabled(s, t, wake)
    ensures var s' := EnqueueNext(s, t, wake);
            && |s'.workers| == |s.workers|
            && (s'.workers == s.workers ||
                (s.enqueues[t].EnqNotify? && Sleeper(s, wake) && s'.workers == s.workers[wake := InWait(Asleep(true))]))
            && t in s'.enqueues && s'.enqueues == s.enqueues[t := s'.enqueues[t]] && s'.shutdowns == s.shutdowns
            && s'.flag == s.flag && s'.stopped == s.stopped && s'.ledger.active == s.ledger.active
  {
  }

  lemma LockEnqueue(s: State, t: Task, wake: nat)
    requires LockInv(s) && EnqueueEnabled(s, t, wake)
    ensures LockInv(EnqueueNext(s, t, wake))
  {
    var s', th := EnqueueNext(s, t, wake), OfEnqueue(t);
    assert (HasUser(s, th) <==> s.user == Some(th)) && (HasInner(s, th) <==> s.inner == Some(th));
    LockFrame(s, s', th);
  }

  lemma LockShutdown(s: State, c: nat)
    requires LockInv(s) && ShutdownEnabled(s, c)
    ensures LockInv(ShutdownNext(s, c))
  {
    var s', th := ShutdownNext(s, c), OfShutdown(c);
    assert (HasUser(s, th) <==> s.user == Some(th)) && (HasInner(s, th) <==> s.inner == Some(th));
    LockFrame(s, s', th);
  }

  lemma LockEnvironment(s: State, step: Step)
    requires LockInv(s) && Enabled(s, step) && !OwnStep(step)
    ensures LockInv(Next(s, step))
  {
    var s' := Next(s, step);
    assert forall th :: (HasUser(s', th) <==> HasUser(s, th)) && (HasInner(s', th) <==> HasInner(s, th));
  }


  // ----- tasks -----

  /** The task a worker holds, from popping it to the end of its callable. */
  function Held(pc: WorkerPc): Option<Task> {
    match pc
    case SetSlot(t) => Some(t)
    case Unlock(t) => Some(t)
    case InExecute(t, _) => Some(t)
    case _ => None
  }

  predicate HeldByWorker(s: State, t: Task, w: nat) {
    w < |s.workers| && Held(s.workers[w]) == Some(t)
  }

  /** The call of Enqueue still owns its task. */
  predicate HeldByCall(s: State, t: Task) {
    t in s.enqueues &&
    var pc := s.enqueues[t];
    pc.EnqLock? || pc.EnqTest? || pc.EnqUnlock? || pc.EnqExecute? || pc.EnqPush?
  }

  ghost predicate HeldBySome(s: State, t: Task) {
    exists w :: HeldByWorker(s, t, w)
  }

  ghost predicate NoDuplicates(q: seq<Task>) {
    forall i, j :: 0 <= i < j < |q| ==> q[i] != q[j]
  }

  /** Every submitted task is with its call, in the queue, with one worker, or finished, and in one of these only. */
  ghost predicate TaskInv(s: State) {
    && s.ledger.pushed == s.ledger.popped + s.ledger.queue
    && NoDuplicates(s.ledger.pushed)
    && (forall t :: t in s.ledger.pushed ==> t in s.enqueues && !HeldByCall(s, t))
    && (forall t, w :: HeldByWorker(s, t, w) ==> t in s.ledger.popped && t !in s.ledger.finished)
    && (forall t, v, w :: HeldByWorker(s, t, v) && HeldByWorker(s, t, w) ==> v == w)
    && (forall t :: t in s.ledger.popped ==> HeldBySome(s, t) || t in s.ledger.finished)
    && (forall t :: t in s.ledger.finished ==> t in s.enqueues && !HeldByCall(s, t) && t !in s.ledger.queue)
    && (forall t :: t in s.enqueues && !HeldByCall(s, t) ==> t in s.ledger.pushed || t in s.ledger.finished)
  }

  lemma PoppedOrQueued(d: Ledger, t: Task)
    requires d.pushed == d.popped + d.queue && NoDuplicates(d.pushed)
    ensures t in d.pushed <==> t in d.popped || t in d.queue
    ensures !(t in d.popped && t in d.queue)
  {
    forall i, j | 0 <= i < |d.popped| && 0 <= j < |d.queue| ensures d.popped[i] != d.queue[j] {
      assert d.popped[i] == d.pushed[i] && d.queue[j] == d.pushed[|d.popped| + j];
    }
  }

  /** A step that moves no task keeps the invariant. */
  lemma TaskUnmoved(s: State, s': State)
    requires TaskInv(s)
    requires s'.ledger.queue == s.ledger.queue && s'.ledger.pushed == s.ledger.pushed
        && s'.ledger.popped == s.ledger.popped
    requires s'.ledger.finished == s.ledger.finished
    requires |s'.workers| == |s.workers|
    requires forall w :: 0 <= w < |s.workers| ==> Held(s'.workers[w]) == Held(s.workers[w])
    requires forall t :: t in s.enqueues ==> t in s'.enqueues
    requires forall t :: t in s'.enqueues && t !in s.enqueues ==> HeldByCall(s', t)
    requires forall t :: t in s.enqueues ==> HeldByCall(s', t) == HeldByCall(s, t)
    ensures TaskInv(s')
  {
    assert forall t, w :: HeldByWorker(s', t, w) == HeldByWorker(s, t, w);
    forall t | t in s'.ledger.popped ensures HeldBySome(s', t) || t in s'.ledger.finished {
      if HeldBySome(s, t) {
        var w :| HeldByWorker(s, t, w);
        assert HeldByWorker(s', t, w);
      }
    }
  }

  lemma TaskPop(s: State, s': State, w: nat)
    requires TaskInv(s) && w < |s.workers| && Held(s.workers[w]).None? && s.ledger.queue != []
    requires var d := s.ledger; s'.ledger == d.(queue := d.queue[1..], popped := d.popped + [d.queue[0]])
    requires s'.workers == s.workers[w := SetSlot(s.ledger.queue[0])] && s'.enqueues == s.enqueues
    ensures TaskInv(s')
  {
    var t0 := s.ledger.queue[0];
    assert s'.ledger.pushed == s'.ledger.popped + s'.ledger.queue;
    PoppedOrQueued(s.ledger, t0);
    assert HeldByWorker(s', t0, w);
    assert forall t, v :: HeldByWorker(s', t, v) <==> (if v == w then t == t0 else HeldByWorker(s, t, v));
    forall t | t in s'.ledger.popped ensures HeldBySome(s', t) || t in s'.ledger.finished {
      if t != t0 && HeldBySome(s, t) {
        var v :| HeldByWorker(s, t, v);
        assert HeldByWorker(s', t, v);
      }
    }
  }

  lemma TaskFinish(s: State, s': State, w: nat, t0: Task)
    requires TaskInv(s) && HeldByWorker(s, t0, w)
    requires s'.ledger == s.ledger.(finished := s.ledger.finished + {t0})
    requires |s'.workers| == |s.workers| && s'.workers == s.workers[w := s'.workers[w]] && Held(s'.workers[w]).None?
    requires s'.enqueues == s.enqueues
    ensures TaskInv(s')
  {
    PoppedOrQueued(s.ledger, t0);
    assert forall t, v :: HeldByWorker(s', t, v) <==> v != w && HeldByWorker(s, t, v);
    forall t | t in s'.ledger.popped ensures HeldBySome(s', t) || t in s'.ledger.finished {
      if t != t0 && HeldBySome(s, t) {
        var v :| HeldByWorker(s, t, v);
        assert HeldByWorker(s', t, v);
      }
    }
  }

  /** The worker's step, when it neither pops a task nor ends one, moves no task. */
  lemma WorkerKeepsTasks(s: State, w: nat)
    requires WorkerEnabled(s, w)
    requires !(s.workers[w].Take? && s.ledger.queue != [])
    requires !(s.workers[w].InExecute? && s.workers[w].exec.Running?)
    ensures var s' := WorkerNext(s, w);
            && |s'.workers| == |s.workers| && Held(s'.workers[w]) == Held(s.workers[w])
            && s'.ledger.queue == s.ledger.queue && s'.ledger.pushed == s.ledger.pushed
            && s'.ledger.popped == s.ledger.popped && s'.ledger.finished == s.ledger.finished
  {
    match s.workers[w]
    case InWait(_) =>
    case InExecute(_, _) =>
    case _ =>
  }

  lemma TaskWorker(s: State, w: nat)
    requires TaskInv(s) && WorkerEnabled(s, w)
    ensures TaskInv(WorkerNext(s, w))
  {
    WorkerOthers(s, w);
    if s.workers[w].Take? && s.ledger.queue != [] {
      TaskPop(s, WorkerNext(s, w), w);
    } else if s.workers[w].InExecute? && s.workers[w].exec.Running? {
      TaskFinish(s, WorkerNext(s, w), w, s.workers[w].task);
    } else {
      WorkerKeepsTasks(s, w);
      TaskUnmoved(s, WorkerNext(s, w));
    }
  }

  lemma TaskPush(s: State, s': State, t0: Task)
    requires TaskInv(s) && HeldByCall(s, t0)
    requires var d := s.ledger; s'.ledger == d.(queue := d.queue + [t0], pushed := d.pushed + [t0])
    requires s'.workers == s.workers && s'.enqueues == s.enqueues[t0 := EnqNotifyLock]
    ensures TaskInv(s')
  {
    assert s'.ledger.pushed == s'.ledger.popped + s'.ledger.queue;
    assert forall t, v :: HeldByWorker(s', t, v) <==> HeldByWorker(s, t, v);
    assert forall t :: HeldByCall(s', t) <==> t != t0 && HeldByCall(s, t);
    forall t | t in s'.ledger.popped ensures HeldBySome(s', t) || t in s'.ledger.finished {
      if HeldBySome(s, t) {
        var v :| HeldByWorker(s, t, v);
        assert HeldByWorker(s', t, v);
      }
    }
  }

  lemma TaskFinishByCall(s: State, s': State, t0: Task)
    requires TaskInv(s) && HeldByCall(s, t0)
    requires s'.ledger == s.ledger.(finished := s.ledger.finished + {t0})
    requires s'.workers == s.workers && s'.enqueues == s.enqueues[t0 := EnqDone]
    ensures TaskInv(s')
  {
    PoppedOrQueued(s.ledger, t0);
    assert forall t, v :: HeldByWorker(s', t, v) <==> HeldByWorker(s, t, v);
    assert forall t :: HeldByCall(s', t) <==> t != t0 && HeldByCall(s, t);
    forall t | t in s'.ledger.popped ensures HeldBySome(s', t) || t in s'.ledger.finished {
      if HeldBySome(s, t) {
        var v :| HeldByWorker(s, t, v);
        assert HeldByWorker(s', t, v);
      }
    }
  }

  lemma TaskEnqueue(s: State, t: Task, wake: nat)
    requires TaskInv(s) && EnqueueEnabled(s, t, wake)
    ensures TaskInv(EnqueueNext(s, t, wake))
  {
    var s' := EnqueueNext(s, t, wake);
    if s.enqueues[t].EnqPush? {
      TaskPush(s, s', t);
    } else if s.enqueues[t].EnqExecute? && s.enqueues[t].exec.Running? {
      TaskFinishByCall(s, s', t);
    } else {
      TaskUnmoved(s, s');
    }
  }

  lemma TaskShutdown(s: State, c: nat)
    requires TaskInv(s) && ShutdownEnabled(s, c)
    ensures TaskInv(ShutdownNext(s, c))
  {
    TaskUnmoved(s, ShutdownNext(s, c));
  }

  lemma TaskEnvironment(s: State, step: Step)
    requires TaskInv(s) && Enabled(s, step) && !OwnStep(step)
    ensures TaskInv(Next(s, step))
  {
    TaskUnmoved(s, Next(s, step));
  }

  // ----- starts -----

  predicate WorkerStartOk(pc: WorkerPc, started: seq<Task>) {
    Held(pc).Some? ==> (Held(pc).value in started <==> pc.InExecute? && pc.exec.Running?)
  }

  predicate CallStartOk(t: Task, pc: EnqueuePc, started: seq<Task>) {
    match pc
    case EnqExecute(exec) => t in started <==> exec.Running?
    case EnqLock => t !in started
    case EnqTest => t !in started
    case EnqUnlock => t !in started
    case EnqPush => t !in started
    case _ => true
  }

  /** A callable has been started exactly when it is running or has finished, and only once. */
  ghost predicate StartInv(s: State) {
    && NoDuplicates(s.ledger.started)
    && (forall t :: t in s.ledger.started ==> t in s.enqueues)
    && (forall t :: t in s.ledger.queue ==> t !in s.ledger.started)
    && (forall t :: t in s.ledger.finished ==> t in s.ledger.started)
    && (forall w :: 0 <= w < |s.workers| ==> WorkerStartOk(s.workers[w], s.ledger.started))
    && (forall t :: t in s.enqueues ==> CallStartOk(t, s.enqueues[t], s.ledger.started))
  }

  /** The worker's step, when it does not start a callable, seen from its own task. */
  lemma WorkerStartsNone(s: State, w: nat)
    requires WorkerEnabled(s, w)
    requires !(s.workers[w].InExecute? && s.workers[w].exec.Invoke?)
    requires WorkerStartOk(s.workers[w], s.ledger.started)
    requires s.ledger.queue != [] ==> s.ledger.queue[0] !in s.ledger.started
    ensures var s' := WorkerNext(s, w);
            && s'.ledger.started == s.ledger.started && |s'.workers| == |s.workers|
            && WorkerStartOk(s'.workers[w], s.ledger.started)
            && (s'.ledger.queue == s.ledger.queue || (s.ledger.queue != [] && s'.ledger.queue == s.ledger.queue[1..]))
            && (forall t :: t in s'.ledger.finished ==> t in s.ledger.finished || t in s.ledger.started)
  {
    match s.workers[w]
    case InWait(_) =>
    case InExecute(_, _) =>
    case _ =>
  }

  /** The worker starts its callable: no queue entry, and no other thread, has the same task. */
  lemma StartInvoke(s: State, w: nat)
    requires TaskInv(s) && StartInv(s) && WorkerEnabled(s, w)
    requires s.workers[w].InExecute? && s.workers[w].exec.Invoke?
    ensures StartInv(WorkerNext(s, w))
  {
    WorkerOthers(s, w);
    var t0 := s.workers[w].task;
    assert HeldByWorker(s, t0, w);
    PoppedOrQueued(s.ledger, t0);
    assert forall v, t :: 0 <= v < |s.workers| && Held(s.workers[v]) == Some(t) ==> HeldByWorker(s, t, v);
  }

  lemma StartWorker(s: State, w: nat)
    requires TaskInv(s) && StartInv(s) && WorkerEnabled(s, w)
    ensures StartInv(WorkerNext(s, w))
  {
    if s.workers[w].InExecute? && s.workers[w].exec.Invoke? {
      StartInvoke(s, w);
    } else {
      WorkerOthers(s, w);
      WorkerStartsNone(s, w);
    }
  }

  lemma EnqueueStartsNone(s: State, t: Task, wake: nat)
    requires EnqueueEnabled(s, t, wake) && s.enqueues[t] != EnqExecute(Invoke)
    requires CallStartOk(t, s.enqueues[t], s.ledger.started)
    ensures var s' := EnqueueNext(s, t, wake);
            && s'.ledger.started == s.ledger.started
            && CallStartOk(t, s'.enqueues[t], s.ledger.started)
            && (s'.ledger.queue == s.ledger.queue
                || (t !in s.ledger.started && s'.ledger.queue == s.ledger.queue + [t]))
            && (s'.ledger.finished == s.ledger.finished
                || (t in s.ledger.started && s'.ledger.finished == s.ledger.finished + {t}))
  {
  }

  lemma StartInCall(s: State, s': State, t: Task)
    requires TaskInv(s) && StartInv(s) && HeldByCall(s, t) && t !in s.ledger.started
    requires s'.ledger == s.ledger.(started := s.ledger.started + [t])
    requires s'.workers == s.workers && s'.enqueues == s.enqueues[t := EnqExecute(Running)]
    ensures StartInv(s')
  {
    PoppedOrQueued(s.ledger, t);
    assert forall v, x :: 0 <= v < |s.workers| && Held(s.workers[v]) == Some(x) ==> HeldByWorker(s, x, v);
  }

  lemma StartNoneInCall(s: State, s': State, t: Task)
    requires StartInv(s) && t in s.enqueues
    requires s'.ledger.started == s.ledger.started && |s'.workers| == |s.workers|
    requires forall w :: 0 <= w < |s.workers| ==> Held(s'.workers[w]).None? || s'.workers[w] == s.workers[w]
    requires t in s'.enqueues && s'.enqueues == s.enqueues[t := s'.enqueues[t]]
    requires CallStartOk(t, s'.enqueues[t], s.ledger.started)
    requires s'.ledger.queue == s.ledger.queue || (t !in s.ledger.started && s'.ledger.queue == s.ledger.queue + [t])
    requires s'.ledger.finished == s.ledger.finished
        || (t in s.ledger.started && s'.ledger.finished == s.ledger.finished + {t})
    ensures StartInv(s')
  {
  }

  lemma StartEnqueue(s: State, t: Task, wake: nat)
    requires TaskInv(s) && StartInv(s) && EnqueueEnabled(s, t, wake)
    ensures StartInv(EnqueueNext(s, t, wake))
  {
    if s.enqueues[t] == EnqExecute(Invoke) {
      StartInCall(s, EnqueueNext(s, t, wake), t);
    } else {
      EnqueueOthers(s, t, wake);
      EnqueueStartsNone(s, t, wake);
      StartNoneInCall(s, EnqueueNext(s, t, wake), t);
    }
  }

  lemma StartShutdown(s: State, c: nat)
    requires StartInv(s) && ShutdownEnabled(s, c)
    ensures StartInv(ShutdownNext(s, c))
  {
  }

  lemma StartEnvironment(s: State, step: Step)
    requires TaskInv(s) && StartInv(s) && Enabled(s, step) && !OwnStep(step)
    ensures StartInv(Next(s, step))
  {
  }
}
