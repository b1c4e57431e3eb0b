/**
What shutting the pool down means: a worker leaves only once its token is stopped and the queue is
empty for good, and a task that runs after a Shutdown has returned has been asked to stop.
*/
module ThreadPoolShutdown {
  import opened Common
  import opened ThreadPool
  import opened ThreadPoolSafety

  /** What a worker knows of the queue and of its token while it has the user mutex, and why it left. */
  predicate WorkerKnows(w: nat, pc: WorkerPc, stopped: set<nat>, queueEmpty: bool) {
    match pc
    case InWait(wait) =>
      (match wait
       case Enter => w !in stopped || !queueEmpty
       case Register => w !in stopped
       case LockInner => queueEmpty
       case TestStop => queueEmpty
       case ReleaseUser => queueEmpty && w !in stopped
       case Deregister(_) => queueEmpty ==> w in stopped
       case _ => true)
    case Take(_) => queueEmpty ==> w in stopped
    case Exited => w in stopped && queueEmpty
    case _ => true
  }

  predicate CallKnows(t: Task, pc: EnqueuePc, s: State) {
    match pc
    case EnqUnlock => s.flag
    case EnqExecute(exec) => s.flag && (exec.Invoke? || exec.Running? ==> t in s.ledger.stops)
    case EnqPush => s.stopped == {}
    case _ => true
  }

  predicate ShutdownKnows(pc: ShutdownPc, s: State) {
    match pc
    case SetFlag => true
    case StopWorker(i) => s.flag && i <= |s.workers| && forall w :: 0 <= w < i ==> w in s.stopped
    case CallbackLock(i) => s.flag && i < |s.workers| && forall w :: 0 <= w <= i ==> w in s.stopped
    case CallbackNotify(i) => s.flag && i < |s.workers| && forall w :: 0 <= w <= i ==> w in s.stopped
    case CallbackRelease(i) => s.flag && i < |s.workers| && forall w :: 0 <= w <= i ==> w in s.stopped
    case ShutUnlock => s.flag && forall w :: 0 <= w < |s.workers| ==> w in s.stopped
    case Returned => s.flag && forall w :: 0 <= w < |s.workers| ==> w in s.stopped
    case _ => s.flag
  }

  ghost predicate KnowInv(s: State) {
    && |s.workers| == |s.ledger.active|
    && (!s.flag ==> s.stopped == {} && s.ledger.stops == [])
    && (forall w :: 0 <= w < |s.workers| ==> WorkerKnows(w, s.workers[w], s.stopped, s.ledger.queue == []))
    && (forall t :: t in s.enqueues ==> CallKnows(t, s.enqueues[t], s))
    && (forall c :: c in s.shutdowns ==> ShutdownKnows(s.shutdowns[c], s))
  }

  /** The slot of a worker holds the task it runs, and nothing once the worker is back in its loop. */
  predicate SlotOk(pc: WorkerPc, slot: Option<Task>) {
    match pc
    case Unlock(t) => slot == Some(t)
    case InExecute(t, _) => slot == Some(t)
    case Relock => slot.Some?
    case ClearSlot => slot.Some?
    case _ => slot.None?
  }

  /** The task whose callable a worker is about to call or is running. */
  function Launched(pc: WorkerPc): Option<Task> {
    if pc.InExecute? && (pc.exec.Invoke? || pc.exec.Running?) then Some(pc.task) else None
  }

  /** The Shutdown call has passed slot w. */
  predicate Passed(pc: ShutdownPc, w: nat) {
    !pc.SetFlag? && !pc.ShutLock? && (pc.StopSlot? ==> w < pc.i)
  }

  ghost predicate StopInv(s: State) {
    && |s.workers| == |s.ledger.active|
    && (forall w :: 0 <= w < |s.workers| ==> SlotOk(s.workers[w], s.ledger.active[w]))
    && (forall w :: 0 <= w < |s.workers| && s.workers[w].InExecute? && s.workers[w].exec.RequestStop? ==> s.flag)
    && (forall w, c ::
          0 <= w < |s.workers| && c in s.shutdowns && Passed(s.shutdowns[c], w) && Launched(s.workers[w]).Some? ==>
          Launched(s.workers[w]).value in s.ledger.stops)
  }

  // ----- preservation of KnowInv -----

  lemma WorkerKnowsNext(s: State, w: nat)
    requires WorkerEnabled(s, w) && WorkerKnows(w, s.workers[w], s.stopped, s.ledger.queue == [])
    ensures var s' := WorkerNext(s, w);
            |s'.workers| == |s.workers| && WorkerKnows(w, s'.workers[w], s.stopped, s'.ledger.queue == [])
  {
    match s.workers[w]
    case InWait(_) =>
    case InExecute(_, _) =>
    case _ =>
  }

  lemma WorkerLedger(s: State, w: nat)
    requires WorkerEnabled(s, w)
    ensures var s', pc := WorkerNext(s, w), s.workers[w];
            && (s'.ledger.queue != s.ledger.queue ==> WorkerHasUser(pc) && s.ledger.queue != [])
            && s'.ledger.stops ==
               (if pc.InExecute? && pc.exec.RequestStop? then s.ledger.stops + [pc.task] else s.ledger.stops)
  {
  }

  lemma KnowWorkerFrame(s: State, s': State, w: nat)
    requires LockInv(s) && KnowInv(s) && StopInv(s) && w < |s.workers|
    requires |s'.workers| == |s.workers| == |s'.ledger.active| && s'.workers == s.workers[w := s'.workers[w]]
    requires s'.enqueues == s.enqueues && s'.shutdowns == s.shutdowns && s'.flag == s.flag && s'.stopped == s.stopped
    requires WorkerKnows(w, s'.workers[w], s.stopped, s'.ledger.queue == [])
    requires s'.ledger.queue != s.ledger.queue ==> WorkerHasUser(s.workers[w]) && s.ledger.queue != []
    requires s'.ledger.stops == s.ledger.stops ||
             (s.workers[w].InExecute? && s.workers[w].exec.RequestStop?
                 && s'.ledger.stops == s.ledger.stops + [s.workers[w].task])
    ensures KnowInv(s')
  {
    assert HasUser(s, OfWorker(w)) <==> s.user == Some(OfWorker(w));
    forall v | 0 <= v < |s.workers| ensures WorkerKnows(v, s'.workers[v], s'.stopped, s'.ledger.queue == []) {
      assert HasUser(s, OfWorker(v)) <==> s.user == Some(OfWorker(v));
      assert WorkerKnows(v, s.workers[v], s.stopped, s.ledger.queue == []);
    }
    forall c | c in s.shutdowns ensures ShutdownKnows(s.shutdowns[c], s') {
      assert ShutdownKnows(s.shutdowns[c], s);
    }
    forall t | t in s.enqueues ensures CallKnows(t, s.enqueues[t], s') {
      assert CallKnows(t, s.enqueues[t], s);
    }
  }

  lemma KnowWorker(s: State, w: nat)
    requires LockInv(s) && KnowInv(s) && StopInv(s) && WorkerEnabled(s, w)
    ensures KnowInv(WorkerNext(s, w))
  {
    WorkerOthers(s, w);
    WorkerKnowsNext(s, w);
    WorkerLedger(s, w);
    KnowWorkerFrame(s, WorkerNext(s, w), w);
  }

  lemma CallKnowsNext(s: State, t: Task, wake: nat)
    requires EnqueueEnabled(s, t, wake) && CallKnows(t, s.enqueues[t], s)
        && (!s.flag ==> s.stopped == {} && s.ledger.stops == [])
    ensures var s' := EnqueueNext(s, t, wake);
            && CallKnows(t, s'.enqueues[t], s')
            && (s'.ledger.queue == s.ledger.queue || s.stopped == {})
            && (s'.ledger.queue == s.ledger.queue || EnqueueHasUser(s.enqueues[t]))
            && (s'.ledger.stops == s.ledger.stops || (s.flag && s'.ledger.stops == s.ledger.stops + [t]))
  {
  }

  lemma KnowEnqueueFrame(s: State, s': State, t: Task)
    requires LockInv(s) && KnowInv(s) && t in s.enqueues && t in s'.enqueues
    requires |s'.workers| == |s.workers| == |s'.ledger.active|
    requires forall w :: 0 <= w < |s.workers| ==> s'.workers[w] == s.workers[w] || s'.workers[w] == InWait(Asleep(true))
    requires s'.enqueues == s.enqueues[t := s'.enqueues[t]] && s'.shutdowns == s.shutdowns
    requires s'.flag == s.flag && s'.stopped == s.stopped
    requires CallKnows(t, s'.enqueues[t], s')
    requires s'.ledger.queue == s.ledger.queue || (s.stopped == {} && EnqueueHasUser(s.enqueues[t]))
    requires s'.ledger.stops == s.ledger.stops || (s.flag && s'.ledger.stops == s.ledger.stops + [t])
    ensures KnowInv(s')
  {
    assert HasUser(s, OfEnqueue(t)) <==> s.user == Some(OfEnqueue(t));
    forall v | 0 <= v < |s.workers| ensures WorkerKnows(v, s'.workers[v], s'.stopped, s'.ledger.queue == []) {
      assert HasUser(s, OfWorker(v)) <==> s.user == Some(OfWorker(v));
      assert WorkerKnows(v, s.workers[v], s.stopped, s.ledger.queue == []);
    }
    forall c | c in s.shutdowns ensures ShutdownKnows(s.shutdowns[c], s') {
      assert ShutdownKnows(s.shutdowns[c], s);
    }
    forall u | u in s'.enqueues ensures CallKnows(u, s'.enqueues[u], s') {
      if u != t { assert CallKnows(u, s.enqueues[u], s); }
    }
  }

  lemma KnowEnqueue(s: State, t: Task, wake: nat)
    requires LockInv(s) && KnowInv(s) && EnqueueEnabled(s, t, wake)
    ensures KnowInv(EnqueueNext(s, t, wake))
  {
    EnqueueOthers(s, t, wake);
    CallKnowsNext(s, t, wake);
    KnowEnqueueFrame(s, EnqueueNext(s, t, wake), t);
  }

  lemma ShutdownKnowsNext(s: State, c: nat)
    requires ShutdownEnabled(s, c) && ShutdownKnows(s.shutdowns[c], s)
    ensures var s' := ShutdownNext(s, c);
            && |s'.workers| == |s.workers| == |s'.ledger.active|
            && c in s'.shutdowns && s'.shutdowns == s.shutdowns[c := s'.shutdowns[c]] && s'.enqueues == s.enqueues
            && s'.ledger.queue == s.ledger.queue && s.stopped <= s'.stopped && (s.flag ==> s'.flag)
            && (forall w :: 0 <= w < |s.workers| ==>
                s'.workers[w] == s.workers[w] || (Sleeper(s, w) && s'.workers[w] == InWait(Asleep(true))))
            && ShutdownKnows(s'.shutdowns[c], s')
            && (s'.stopped != s.stopped ==> s.flag && ShutdownHasUser(s.shutdowns[c]))
            && (s'.ledger.stops != s.ledger.stops ==> s.flag)
            && (forall t :: t in s.ledger.stops ==> t in s'.ledger.stops)
  {
  }

  lemma KnowShutdownFrame(s: State, s': State, c: nat)
    requires LockInv(s) && KnowInv(s) && c in s.shutdowns && c in s'.shutdowns
    requires |s'.workers| == |s.workers| == |s'.ledger.active|
    requires forall w :: 0 <= w < |s.workers| ==> s'.workers[w] == s.workers[w] || s'.workers[w] == InWait(Asleep(true))
    requires s'.shutdowns == s.shutdowns[c := s'.shutdowns[c]] && s'.enqueues == s.enqueues
    requires s'.ledger.queue == s.ledger.queue && s.stopped <= s'.stopped && (s.flag ==> s'.flag)
    requires ShutdownKnows(s'.shutdowns[c], s')
    requires s'.stopped != s.stopped ==> s.flag && ShutdownHasUser(s.shutdowns[c])
    requires s'.ledger.stops != s.ledger.stops ==> s.flag
    requires forall t :: t in s.ledger.stops ==> t in s'.ledger.stops
    ensures KnowInv(s')
  {
    assert HasUser(s, OfShutdown(c)) <==> s.user == Some(OfShutdown(c));
    forall v | 0 <= v < |s.workers| ensures WorkerKnows(v, s'.workers[v], s'.stopped, s'.ledger.queue == []) {
      assert HasUser(s, OfWorker(v)) <==> s.user == Some(OfWorker(v));
      assert WorkerKnows(v, s.workers[v], s.stopped, s.ledger.queue == []);
    }
    forall d | d in s'.shutdowns ensures ShutdownKnows(s'.shutdowns[d], s') {
      if d != c { assert ShutdownKnows(s.shutdowns[d], s); }
    }
    forall t | t in s'.enqueues ensures CallKnows(t, s'.enqueues[t], s') {
      assert HasUser(s, OfEnqueue(t)) <==> s.user == Some(OfEnqueue(t));
      assert CallKnows(t, s.enqueues[t], s);
    }
  }

  lemma KnowShutdown(s: State, c: nat)
    requires LockInv(s) && KnowInv(s) && ShutdownEnabled(s, c)
    ensures KnowInv(ShutdownNext(s, c))
  {
    ShutdownKnowsNext(s, c);
    KnowShutdownFrame(s, ShutdownNext(s, c), c);
  }

  lemma KnowEnvironment(s: State, step: Step)
    requires KnowInv(s) && Enabled(s, step) && !OwnStep(step)
    ensures KnowInv(Next(s, step))
  {
    var s' := Next(s, step);
    forall v | 0 <= v < |s.workers| ensures WorkerKnows(v, s'.workers[v], s'.stopped, s'.ledger.queue == []) {
      assert WorkerKnows(v, s.workers[v], s.stopped, s.ledger.queue == []);
    }
    forall c | c in s'.shutdowns ensures ShutdownKnows(s'.shutdowns[c], s') {
      if c in s.shutdowns { assert ShutdownKnows(s.shutdowns[c], s); }
    }
    forall t | t in s'.enqueues ensures CallKnows(t, s'.enqueues[t], s') {
      if t in s.enqueues { assert CallKnows(t, s.enqueues[t], s); }
    }
  }

  // ----- preservation of StopInv -----

  lemma WorkerSlot(s: State, w: nat)
    requires WorkerEnabled(s, w) && SlotOk(s.workers[w], s.ledger.active[w])
    requires s.workers[w].InExecute? && s.workers[w].exec.RequestStop? ==> s.flag
    ensures var s', pc := WorkerNext(s, w), s.workers[w];
            && |s'.workers| == |s.workers| && |s'.ledger.active| == |s.ledger.active|
            && s'.ledger.active == s.ledger.active[w := s'.ledger.active[w]]
            && SlotOk(s'.workers[w], s'.ledger.active[w])
            && (s'.workers[w].InExecute? && s'.workers[w].exec.RequestStop? ==> s.flag)
            && (Launched(s'.workers[w]).Some? ==>
                  || Launched(s'.workers[w]) == Launched(pc)
                  || !s.flag
                  || Launched(s'.workers[w]).value in s'.ledger.stops)
  {
    match s.workers[w]
    case InWait(_) =>
    case InExecute(_, _) =>
    case _ =>
  }

  lemma SweepWorker(s: State, w: nat)
    requires KnowInv(s) && StopInv(s) && WorkerEnabled(s, w)
    ensures StopInv(WorkerNext(s, w))
  {
    WorkerOthers(s, w);
    WorkerLedger(s, w);
    WorkerSlot(s, w);
    SweepWorkerFrame(s, WorkerNext(s, w), w);
  }

  lemma SweepWorkerFrame(s: State, s': State, w: nat)
    requires KnowInv(s) && StopInv(s) && w < |s.workers|
    requires |s'.workers| == |s.workers| == |s'.ledger.active|
    requires s'.workers == s.workers[w := s'.workers[w]]
        && s'.ledger.active == s.ledger.active[w := s'.ledger.active[w]]
    requires s'.shutdowns == s.shutdowns && s'.flag == s.flag
    requires SlotOk(s'.workers[w], s'.ledger.active[w])
    requires s'.workers[w].InExecute? && s'.workers[w].exec.RequestStop? ==> s.flag
    requires forall t :: t in s.ledger.stops ==> t in s'.ledger.stops
    requires Launched(s'.workers[w]).Some? ==>
               Launched(s'.workers[w]) == Launched(s.workers[w]) || !s.flag
                   || Launched(s'.workers[w]).value in s'.ledger.stops
    ensures StopInv(s')
  {
    forall v, c | 0 <= v < |s'.workers| && c in s'.shutdowns && Passed(s'.shutdowns[c], v)
        && Launched(s'.workers[v]).Some?
      ensures Launched(s'.workers[v]).value in s'.ledger.stops
    {
      assert ShutdownKnows(s.shutdowns[c], s);
    }
  }

  lemma SweepEnqueue(s: State, t: Task, wake: nat)
    requires StopInv(s) && EnqueueEnabled(s, t, wake)
    ensures StopInv(EnqueueNext(s, t, wake))
  {
    EnqueueOthers(s, t, wake);
  }

  lemma ShutdownPasses(s: State, c: nat)
    requires ShutdownEnabled(s, c)
    ensures var s', pc := ShutdownNext(s, c), s.shutdowns[c];
            && c in s'.shutdowns && s'.ledger.active == s.ledger.active && (s.flag ==> s'.flag)
            && (forall t :: t in s.ledger.stops ==> t in s'.ledger.stops)
            && (forall w ::
                  0 <= w < |s.workers| && Passed(s'.shutdowns[c], w) && !Passed(pc, w) && s.ledger.active[w].Some? ==>
                  s.ledger.active[w].value in s'.ledger.stops)
  {
  }

  lemma SweepShutdown(s: State, c: nat)
    requires KnowInv(s) && StopInv(s) && ShutdownEnabled(s, c)
    ensures StopInv(ShutdownNext(s, c))
  {
    ShutdownKnowsNext(s, c);
    ShutdownPasses(s, c);
    SweepShutdownFrame(s, ShutdownNext(s, c), c);
  }

  lemma SweepShutdownFrame(s: State, s': State, c: nat)
    requires StopInv(s) && c in s.shutdowns && c in s'.shutdowns
    requires |s'.workers| == |s.workers|
    requires forall w :: 0 <= w < |s.workers| ==>
        s'.workers[w] == s.workers[w] || (s.workers[w].InWait? && s'.workers[w].InWait?)
    requires s'.shutdowns == s.shutdowns[c := s'.shutdowns[c]] && s'.ledger.active == s.ledger.active
        && (s.flag ==> s'.flag)
    requires forall t :: t in s.ledger.stops ==> t in s'.ledger.stops
    requires forall w | 0 <= w < |s.workers| && Passed(s'.shutdowns[c], w) && !Passed(s.shutdowns[c], w) ::
               s.ledger.active[w].Some? ==> s.ledger.active[w].value in s'.ledger.stops
    ensures StopInv(s')
  {
    forall v, d | 0 <= v < |s'.workers| && d in s'.shutdowns && Passed(s'.shutdowns[d], v)
        && Launched(s'.workers[v]).Some?
      ensures Launched(s'.workers[v]).value in s'.ledger.stops
    {
      assert SlotOk(s.workers[v], s.ledger.active[v]);
      assert d != c ==> Passed(s.shutdowns[d], v);
    }
  }

  lemma SweepEnvironment(s: State, step: Step)
    requires StopInv(s) && Enabled(s, step) && !OwnStep(step)
    ensures StopInv(Next(s, step))
  {
  }
}
