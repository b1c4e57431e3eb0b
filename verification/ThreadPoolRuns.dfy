/**
The theorems about whole runs of the thread pool, for any number of workers, of Enqueue calls and of
Shutdown calls, under every interleaving.
*/
module ThreadPoolRuns {
  import opened ThreadPool
  import opened ThreadPoolSafety
  import opened ThreadPoolShutdown
  import opened ThreadPoolWakeups

  ghost predicate Inv(s: State) {
    LockInv(s) && TaskInv(s) && StartInv(s) && KnowInv(s) && StopInv(s) && WakeInv(s)
  }

  lemma InvInit(n: nat)
    ensures Inv(Init(n))
  {
    var s := Init(n);
    assert forall th :: !HasUser(s, th) && !HasInner(s, th);
  }

  lemma InvStep(s: State, step: Step)
    requires Inv(s) && Enabled(s, step)
    ensures Inv(Next(s, step))
  {
    match step {
      case WorkerStep(w) =>
        LockWorker(s, w); TaskWorker(s, w); StartWorker(s, w); KnowWorker(s, w); SweepWorker(s, w); WakeWorker(s, w);
      case EnqueueStep(t, wake) =>
        LockEnqueue(s, t, wake); TaskEnqueue(s, t, wake); StartEnqueue(s, t, wake);
        KnowEnqueue(s, t, wake); SweepEnqueue(s, t, wake); WakeEnqueue(s, t, wake);
      case ShutdownStep(c) =>
        LockShutdown(s, c); TaskShutdown(s, c); StartShutdown(s, c); KnowShutdown(s, c);
        SweepShutdown(s, c); WakeShutdown(s, c);
      case _ =>
        LockEnvironment(s, step); TaskEnvironment(s, step); StartEnvironment(s, step);
        KnowEnvironment(s, step); SweepEnvironment(s, step); WakeEnvironment(s, step);
    }
  }

  lemma {:induction false} RunInv(n: nat, states: seq<State>, steps: seq<Step>, i: nat)
    requires IsRun(n, states, steps) && i < |states|
    ensures Inv(states[i])
  {
    if i == 0 {
      InvInit(n);
    } else {
      RunInv(n, states, steps, i - 1);
      assert Enabled(states[i - 1], steps[i - 1]) && states[i - 1 + 1] == Next(states[i - 1], steps[i - 1]);
      InvStep(states[i - 1], steps[i - 1]);
    }
  }

  // ----- safety -----

  /** The number of places a task is in. */
  ghost function Places(s: State, t: Task): nat {
    (if HeldByCall(s, t) then 1 else 0) + (if t in s.ledger.queue then 1 else 0) +
    (if HeldBySome(s, t) then 1 else 0) + (if t in s.ledger.finished then 1 else 0)
  }

  /** The task's callable is running, on a worker or in its own call of Enqueue. */
  predicate RunsNow(s: State, t: Task) {
    InExecute(t, Running) in s.workers || (t in s.enqueues && s.enqueues[t] == EnqExecute(Running))
  }

  /**
  In every state of every run, each task given to Enqueue is in exactly one place, with at most one
  worker, and at most once in the queue; tasks leave the queue in the order they entered it; a
  callable is started at most once, and it has been started exactly when it is running or finished.
  */
  lemma TasksConserved(n: nat, states: seq<State>, steps: seq<Step>, i: nat)
    requires IsRun(n, states, steps) && i < |states|
    ensures var s := states[i];
            && (forall t :: t in s.enqueues ==> Places(s, t) == 1)
            && (forall t, v, w :: HeldByWorker(s, t, v) && HeldByWorker(s, t, w) ==> v == w)
            && s.ledger.pushed == s.ledger.popped + s.ledger.queue && NoDuplicates(s.ledger.pushed)
            && NoDuplicates(s.ledger.started)
            && (forall t: Task :: t in s.ledger.started <==> t in s.ledger.finished || RunsNow(s, t))
  {
    var s := states[i];
    RunInv(n, states, steps, i);
    forall t | t in s.enqueues ensures Places(s, t) == 1 {
      PoppedOrQueued(s.ledger, t);
    }
    forall t: Task ensures t in s.ledger.started <==> t in s.ledger.finished || RunsNow(s, t) {
      PoppedOrQueued(s.ledger, t);
      if t in s.ledger.started {
        assert CallStartOk(t, s.enqueues[t], s.ledger.started);
        if HeldBySome(s, t) {
          var w: nat :| HeldByWorker(s, t, w);
          assert WorkerStartOk(s.workers[w], s.ledger.started);
        }
      }
    }
  }

  /** What never changes back: an exit, a returned Shutdown, a task that was given to the pool. */
  ghost predicate Later(s: State, s': State) {
    && |s'.workers| == |s.workers|
    && (forall w :: 0 <= w < |s.workers| && s.workers[w].Exited? ==> s'.workers[w].Exited?)
    && (forall c :: c in s.shutdowns && s.shutdowns[c].Returned? ==> c in s'.shutdowns && s'.shutdowns[c].Returned?)
    && (forall t :: t in s.enqueues ==> t in s'.enqueues)
  }

  lemma ShutdownMonotone(s: State, c: nat)
    requires ShutdownEnabled(s, c)
    ensures Later(s, ShutdownNext(s, c))
  {
  }

  lemma Monotone(s: State, step: Step)
    requires Enabled(s, step)
    ensures Later(s, Next(s, step))
  {
    match step {
      case WorkerStep(w) => WorkerOthers(s, w);
      case EnqueueStep(t, wake) => EnqueueOthers(s, t, wake);
      case ShutdownStep(c) => ShutdownMonotone(s, c);
      case _ =>
    }
  }

  lemma LaterAt(n: nat, states: seq<State>, steps: seq<Step>, k: nat)
    requires IsRun(n, states, steps) && k < |steps|
    ensures Later(states[k], states[k + 1])
  {
    Monotone(states[k], steps[k]);
  }

  lemma LaterChains(s: State, s': State, s'': State)
    requires Later(s, s') && Later(s', s'')
    ensures Later(s, s'')
  {
  }

  lemma {:induction false} MonotoneRun(n: nat, states: seq<State>, steps: seq<Step>, i: nat, j: nat)
    requires IsRun(n, states, steps) && i <= j < |states|
    ensures Later(states[i], states[j])
    decreases j - i
  {
    if i < j {
      MonotoneRun(n, states, steps, i, j - 1);
      LaterAt(n, states, steps, j - 1);
      LaterChains(states[i], states[j - 1], states[j]);
    }
  }

  /** Once a worker has left, the queue is empty and stays so: an Enqueue that races Shutdown strands no task. */
  lemma ExitClosesQueue(n: nat, states: seq<State>, steps: seq<Step>, i: nat, j: nat, w: nat)
    requires IsRun(n, states, steps) && i <= j < |states|
    requires w < |states[i].workers| && states[i].workers[w].Exited?
    ensures states[j].ledger.queue == []
  {
    MonotoneRun(n, states, steps, i, j);
    RunInv(n, states, steps, j);
    assert WorkerKnows(w, states[j].workers[w], states[j].stopped, states[j].ledger.queue == []);
  }

  // ----- who runs a task -----

  /** Only a call that has seen no shutdown adds its task to the queue. */
  lemma PushedStep(s: State, step: Step)
    requires Enabled(s, step)
    ensures var s' := Next(s, step);
            && (s.flag ==> s'.flag)
            && s'.ledger.pushed == s.ledger.pushed + if Pushes(s, step) then [step.t] else []
  {
    match step {
      case WorkerStep(w) => WorkerOthers(s, w);
      case EnqueueStep(t, wake) => EnqueueOthers(s, t, wake);
      case _ =>
    }
  }

  predicate Pushes(s: State, step: Step) {
    step.EnqueueStep? && step.t in s.enqueues && s.enqueues[step.t].EnqPush?
  }

  /** Before a shutdown, a call that is past its test of the flag is about to queue its task, or has done so. */
  ghost predicate QueuesAll(s: State) {
    forall t :: t in s.enqueues && !s.enqueues[t].EnqLock? && !s.enqueues[t].EnqTest? && !s.enqueues[t].EnqPush? ==>
      t in s.ledger.pushed
  }

  lemma QueuesStep(s: State, step: Step)
    requires Enabled(s, step) && (!s.flag ==> QueuesAll(s))
    ensures !Next(s, step).flag ==> QueuesAll(Next(s, step))
  {
    PushedStep(s, step);
    match step {
      case WorkerStep(w) => WorkerOthers(s, w);
      case EnqueueStep(t, wake) => EnqueueOthers(s, t, wake);
      case _ =>
    }
  }

  lemma {:induction false} QueuesRun(n: nat, states: seq<State>, steps: seq<Step>, i: nat)
    requires IsRun(n, states, steps) && i < |states|
    ensures !states[i].flag ==> QueuesAll(states[i])
  {
    if i > 0 {
      QueuesRun(n, states, steps, i - 1);
      assert Enabled(states[i - 1], steps[i - 1]) && states[i - 1 + 1] == Next(states[i - 1], steps[i - 1]);
      QueuesStep(states[i - 1], steps[i - 1]);
    }
  }

  /** Until the shutdown flag is set, a finished Enqueue has queued its task, and only workers start callables. */
  lemma QueuedUntilShutdown(n: nat, states: seq<State>, steps: seq<Step>, i: nat)
    requires IsRun(n, states, steps) && i < |states| && !states[i].flag
    ensures var s := states[i];
            && (forall t :: t in s.enqueues && s.enqueues[t].EnqDone? ==> t in s.ledger.pushed)
            && (forall t :: t in s.ledger.started ==> t in s.ledger.popped)
  {
    var s := states[i];
    RunInv(n, states, steps, i);
    QueuesRun(n, states, steps, i);
    forall t | t in s.ledger.started ensures t in s.ledger.popped {
      PoppedOrQueued(s.ledger, t);
      assert CallStartOk(t, s.enqueues[t], s.ledger.started);
    }
  }

  /** The task is not in the queue and will not get there. */
  predicate Turned(s: State, t: Task) {
    s.flag && t !in s.ledger.pushed && (t in s.enqueues ==> !s.enqueues[t].EnqPush?)
  }

  lemma TurnedStep(s: State, step: Step, t: Task)
    requires Enabled(s, step) && Turned(s, t)
    ensures Turned(Next(s, step), t)
  {
    PushedStep(s, step);
    match step {
      case WorkerStep(w) => WorkerOthers(s, w);
      case EnqueueStep(u, wake) => EnqueueOthers(s, u, wake);
      case _ =>
    }
  }

  lemma {:induction false} TurnedRun(n: nat, states: seq<State>, steps: seq<Step>, i: nat, j: nat, t: Task)
    requires IsRun(n, states, steps) && i <= j < |states| && Turned(states[i], t)
    ensures Turned(states[j], t)
    decreases j
  {
    if i < j {
      TurnedRun(n, states, steps, i, j - 1, t);
      assert Enabled(states[j - 1], steps[j - 1]) && states[j - 1 + 1] == Next(states[j - 1], steps[j - 1]);
      TurnedStep(states[j - 1], steps[j - 1], t);
    }
  }

  /**
  Once the shutdown flag is set, an Enqueue that has not tested it yet, or is still to be called, never queues its
  task: when it is done, it has run the task itself.
  */
  lemma ShutdownClosesQueue(n: nat, states: seq<State>, steps: seq<Step>, i: nat, j: nat, t: Task)
    requires IsRun(n, states, steps) && i <= j < |states| && states[i].flag
    requires t in states[i].enqueues ==> states[i].enqueues[t].EnqLock? || states[i].enqueues[t].EnqTest?
    ensures var s := states[j];
            && t !in s.ledger.pushed
            && (t in s.enqueues && s.enqueues[t].EnqDone? ==> t in s.ledger.finished && t in s.ledger.started)
  {
    RunInv(n, states, steps, i);
    TurnedRun(n, states, steps, i, j, t);
    RunInv(n, states, steps, j);
  }

  /**
  After any Shutdown has returned, a callable that is running, or about to be called, belongs to a
  task whose stop has been requested.
  */
  lemma ShutdownStopsTasks(n: nat, states: seq<State>, steps: seq<Step>, i: nat, j: nat, c: nat)
    requires IsRun(n, states, steps) && i <= j < |states|
    requires c in states[i].shutdowns && states[i].shutdowns[c].Returned?
    ensures var s := states[j];
            && (forall t :: t in s.ledger.started && t !in s.ledger.finished ==> t in s.ledger.stops)
            && (forall w :: 0 <= w < |s.workers| && Launched(s.workers[w]).Some? ==>
                Launched(s.workers[w]).value in s.ledger.stops)
            && (forall t :: t in s.enqueues && s.enqueues[t] == EnqExecute(Invoke) ==> t in s.ledger.stops)
  {
    var s := states[j];
    RunInv(n, states, steps, j);
    TasksConserved(n, states, steps, j);
    MonotoneRun(n, states, steps, i, j);
    forall w | 0 <= w < |s.workers| && Launched(s.workers[w]).Some?
        ensures Launched(s.workers[w]).value in s.ledger.stops {
      assert Passed(s.shutdowns[c], w);
    }
    assert forall t :: t in s.enqueues ==> CallKnows(t, s.enqueues[t], s);
    forall t | t in s.ledger.started && t !in s.ledger.finished ensures t in s.ledger.stops {
      if InExecute(t, Running) in s.workers {
        var w :| 0 <= w < |s.workers| && s.workers[w] == InExecute(t, Running);
        assert Launched(s.workers[w]).value in s.ledger.stops;
      } else {
        assert CallKnows(t, s.enqueues[t], s);
      }
    }
  }

  /** A worker has taken the task, or its own call of Enqueue runs it or has run it. */
  predicate Taken(s: State, t: Task) {
    t in s.ledger.popped || t in s.ledger.finished || (t in s.enqueues && s.enqueues[t].EnqExecute?)
  }

  ghost predicate StopsTaken(s: State) {
    && (forall i :: 0 <= i < |s.ledger.active| && s.ledger.active[i].Some? ==>
          s.ledger.active[i].value in s.ledger.popped)
    && (forall t :: t in s.ledger.stops ==> Taken(s, t))
  }

  lemma StopsWorker(s: State, w: nat)
    requires TaskInv(s) && StopsTaken(s) && WorkerEnabled(s, w)
    ensures StopsTaken(WorkerNext(s, w))
  {
    if Held(s.workers[w]).Some? { assert HeldByWorker(s, Held(s.workers[w]).value, w); }
    match s.workers[w]
    case InWait(_) =>
    case InExecute(_, _) =>
    case _ =>
  }

  lemma StopsEnqueue(s: State, t: Task, wake: nat)
    requires StopsTaken(s) && EnqueueEnabled(s, t, wake)
    ensures StopsTaken(EnqueueNext(s, t, wake))
  {
    EnqueueOthers(s, t, wake);
  }

  lemma StopsStep(s: State, step: Step)
    requires TaskInv(s) && StopsTaken(s) && Enabled(s, step)
    ensures StopsTaken(Next(s, step))
  {
    match step {
      case WorkerStep(w) => StopsWorker(s, w);
      case EnqueueStep(t, wake) => StopsEnqueue(s, t, wake);
      case _ =>
    }
  }

  /** The pool requests no stop of a queued task: only of tasks that a worker has taken or that Enqueue runs itself. */
  lemma {:induction false} StopsOnlyTaken(n: nat, states: seq<State>, steps: seq<Step>, i: nat)
    requires IsRun(n, states, steps) && i < |states|
    ensures StopsTaken(states[i])
    ensures forall t :: t in states[i].ledger.stops ==> t !in states[i].ledger.queue
  {
    if i > 0 {
      StopsOnlyTaken(n, states, steps, i - 1);
      RunInv(n, states, steps, i - 1);
      assert Enabled(states[i - 1], steps[i - 1]) && states[i - 1 + 1] == Next(states[i - 1], steps[i - 1]);
      StopsStep(states[i - 1], steps[i - 1]);
    }
    RunInv(n, states, steps, i);
    forall t | t in states[i].ledger.stops ensures t !in states[i].ledger.queue {
      PoppedOrQueued(states[i].ledger, t);
    }
  }

  /** While no Shutdown has set the flag, the pool has requested no stop of any task or worker. */
  lemma NoStopBeforeShutdown(n: nat, states: seq<State>, steps: seq<Step>, i: nat)
    requires IsRun(n, states, steps) && i < |states|
    requires forall c :: c in states[i].shutdowns ==> states[i].shutdowns[c].SetFlag?
    ensures states[i].ledger.stops == [] && states[i].stopped == {}
  {
    RunInv(n, states, steps, i);
    FlagMeansShutdown(n, states, steps, i);
  }

  lemma {:induction false} FlagMeansShutdown(n: nat, states: seq<State>, steps: seq<Step>, i: nat)
    requires IsRun(n, states, steps) && i < |states|
    ensures states[i].flag ==> exists c :: c in states[i].shutdowns && !states[i].shutdowns[c].SetFlag?
  {
    if i > 0 {
      FlagMeansShutdown(n, states, steps, i - 1);
      var s, step := states[i - 1], steps[i - 1];
      assert Enabled(s, step) && states[i - 1 + 1] == Next(s, step);
      FlagStep(s, step);
    }
  }

  lemma FlagStep(s: State, step: Step)
    requires Enabled(s, step)
    requires s.flag ==> exists c :: c in s.shutdowns && !s.shutdowns[c].SetFlag?
    ensures var s' := Next(s, step); s'.flag ==> exists c :: c in s'.shutdowns && !s'.shutdowns[c].SetFlag?
  {
    var s' := Next(s, step);
    match step {
      case WorkerStep(w) => WorkerOthers(s, w);
      case EnqueueStep(t, wake) => EnqueueOthers(s, t, wake);
      case ShutdownStep(c) => assert c in s'.shutdowns && !s'.shutdowns[c].SetFlag?;
      case CallShutdown(c) =>
        if s.flag {
          var d :| d in s.shutdowns && !s.shutdowns[d].SetFlag?;
          assert d in s'.shutdowns && !s'.shutdowns[d].SetFlag?;
        }
      case _ =>
    }
  }

  /**
  No wakeup is lost. A worker asleep without a signal whose token is stopped has a Shutdown call on its
  way to notify_all; and while some worker is asleep without a signal, there are at most as many tasks
  queued as there are woken workers still on their way to the queue, plus one if an Enqueue is between
  its push and its notify_one.
  */
  lemma NoLostWakeup(n: nat, states: seq<State>, steps: seq<Step>, i: nat, w: nat)
    requires IsRun(n, states, steps) && i < |states| && Sleeper(states[i], w)
    ensures w in states[i].stopped ==> StopNotifyPending(states[i], w)
    ensures |states[i].ledger.queue| <= Owing(states[i].workers) + if NotifyPending(states[i]) then 1 else 0
  {
    RunInv(n, states, steps, i);
  }
}
