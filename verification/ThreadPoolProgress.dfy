/**
Progress of the thread pool. Left alone, the threads of the pool take only finitely many steps: a
measure of the state falls with each of them. When none of them can step, every task has finished,
and if a Shutdown was called every worker has left. No fairness is assumed.
*/
module ThreadPoolProgress {
  import opened Common
  import opened ThreadPool
  import opened ThreadPoolSafety
  import opened ThreadPoolShutdown
  import opened ThreadPoolWakeups
  import opened ThreadPoolRuns

  // ----- states where no thread of the pool can step -----

  ghost predicate Stuck(s: State) {
    forall step :: OwnStep(step) ==> !Enabled(s, step)
  }

  /** The holder of the inner mutex can always step: it never waits for the user mutex. */
  lemma InnerHolderSteps(s: State) returns (step: Step)
    requires Inv(s) && s.inner.Some?
    ensures OwnStep(step) && Enabled(s, step)
  {
    var th := s.inner.value;
    assert HasInner(s, th);
    match th {
      case OfWorker(w) => step := WorkerStep(w);
      case OfEnqueue(t) =>
        if w :| Sleeper(s, w) { step := EnqueueStep(t, w); } else { step := EnqueueStep(t, 0); }
      case OfShutdown(c) => step := ShutdownStep(c);
    }
  }

  /** If the inner mutex is free, the holder of the user mutex can step. */
  lemma UserHolderSteps(s: State) returns (step: Step)
    requires Inv(s) && s.inner.None? && s.user.Some?
    ensures OwnStep(step) && Enabled(s, step)
  {
    var th := s.user.value;
    assert HasUser(s, th);
    match th {
      case OfWorker(w) =>
        step := WorkerStep(w);
        assert WorkerKnows(w, s.workers[w], s.stopped, s.ledger.queue == []);
        if CallbackRuns(s, w) {
          var c :| c in s.shutdowns && s.shutdowns[c] in {CallbackLock(w), CallbackNotify(w), CallbackRelease(w)};
          assert HasUser(s, OfShutdown(c));
          assert false;
        }
      case OfEnqueue(t) =>
        assert !HasInner(s, th);
        step := EnqueueStep(t, 0);
      case OfShutdown(c) => step := ShutdownStep(c);
    }
  }

  lemma StuckLocks(s: State)
    requires Inv(s) && Stuck(s)
    ensures s.inner.None? && s.user.None?
  {
    if s.inner.Some? { var step := InnerHolderSteps(s); assert false; }
    if s.user.Some? { var step := UserHolderSteps(s); assert false; }
  }

  /** No deadlock: if no thread can step, each is done, or is a worker asleep. */
  lemma StuckThreads(s: State)
    requires Inv(s) && Stuck(s)
    ensures forall w :: 0 <= w < |s.workers| ==> s.workers[w] == InWait(Asleep(false)) || s.workers[w] == Exited
    ensures forall t :: t in s.enqueues ==> s.enqueues[t] == EnqDone
    ensures forall c :: c in s.shutdowns ==> s.shutdowns[c] == Returned
  {
    StuckLocks(s);
    forall w | 0 <= w < |s.workers| ensures s.workers[w] == InWait(Asleep(false)) || s.workers[w] == Exited {
      assert !HasUser(s, OfWorker(w)) && !HasInner(s, OfWorker(w));
      assert !Enabled(s, WorkerStep(w));
    }
    forall t | t in s.enqueues ensures s.enqueues[t] == EnqDone {
      assert !HasUser(s, OfEnqueue(t));
      assert !Enabled(s, EnqueueStep(t, 0));
    }
    forall c | c in s.shutdowns ensures s.shutdowns[c] == Returned {
      assert !HasUser(s, OfShutdown(c));
      assert !Enabled(s, ShutdownStep(c));
    }
  }

  lemma {:induction false} NoneOwing(ws: seq<WorkerPc>)
    requires forall w :: 0 <= w < |ws| ==> !Owes(ws[w])
    ensures Owing(ws) == 0
  {
    if ws != [] { NoneOwing(ws[..|ws| - 1]); }
  }

  lemma StuckQueue(s: State)
    requires Inv(s) && Stuck(s) && |s.workers| > 0
    ensures s.ledger.queue == []
    ensures forall w :: 0 <= w < |s.workers| && s.workers[w] == InWait(Asleep(false)) ==> w !in s.stopped
  {
    StuckThreads(s);
    NoneOwing(s.workers);
    assert WorkerKnows(0, s.workers[0], s.stopped, s.ledger.queue == []);
  }

  /** When no thread of the pool can step, every task is finished; after a Shutdown every worker has left. */
  lemma StuckMeansDone(s: State)
    requires Inv(s) && Stuck(s) && |s.workers| > 0
    ensures forall t :: t in s.enqueues ==> t in s.ledger.finished
    ensures s.shutdowns.Keys != {} ==> forall w :: 0 <= w < |s.workers| ==> s.workers[w].Exited?
  {
    StuckThreads(s);
    StuckQueue(s);
    forall t | t in s.enqueues ensures t in s.ledger.finished {
      PoppedOrQueued(s.ledger, t);
    }
    if s.shutdowns.Keys != {} {
      var c :| c in s.shutdowns.Keys;
      assert ShutdownKnows(s.shutdowns[c], s);
    }
  }

  // ----- the measure -----

  const TASK := 14    // covers the steps a queued task will cost the worker that takes it
  const WAKEUP := 10  // covers the steps of a woken worker until it sleeps again

  /** An upper bound on the steps of a worker until it sleeps or leaves, not counting tasks it takes. */
  function WorkerRank(pc: WorkerPc, stop: bool, queueEmpty: bool): nat {
    match pc
    case Start => 11
    case LoopTest => if stop && queueEmpty then 1 else 10
    case InWait(wait) =>
      (match wait
       case Enter => 9
       case Register => 8
       case TestPredicate(_) => 7
       case LockInner => 6
       case TestStop => 5
       case ReleaseUser => 2
       case Block => 1
       case Asleep(signalled) => if signalled then WAKEUP else 0
       case ReleaseInner => 9
       case RelockUser => 8
       case Deregister(_) => if queueEmpty then 3 else 6)
    case Take(_) => if queueEmpty then 2 else 5
    case SetSlot(_) => 18
    case Unlock(_) => 17
    case InExecute(_, exec) =>
      (match exec case TestFlag => 16 case RequestStop => 15 case Invoke => 14 case Running => 13)
    case Relock => 12
    case ClearSlot => 11
    case Exited => 0
  }

  function EnqueueRank(pc: EnqueuePc): nat {
    match pc
    case EnqLock => 31
    case EnqTest => 30
    case EnqPush => 29
    case EnqNotifyLock => 14
    case EnqNotify => 13
    case EnqNotifyRelease => 2
    case EnqLeave => 1
    case EnqDone => 0
    case EnqUnlock => 5
    case EnqExecute(exec) =>
      (match exec case TestFlag => 4 case RequestStop => 3 case Invoke => 2 case Running => 1)
  }

  /** What stopping one worker costs in a pool of n: its callback may wake all of them. */
  function StopCost(n: nat): nat { WAKEUP * n + 4 }

  function Left(n: nat, i: nat): nat { if i < n then n - i else 0 }

  function ShutdownRank(pc: ShutdownPc, n: nat): nat {
    match pc
    case SetFlag => n * StopCost(n) + n + 5
    case ShutLock => n * StopCost(n) + n + 4
    case StopSlot(i) => n * StopCost(n) + Left(n, i) + 3
    case StopWorker(i) => Left(n, i) * StopCost(n) + 2
    case CallbackLock(i) => Left(n, i + 1) * StopCost(n) + WAKEUP * n + 5
    case CallbackNotify(i) => Left(n, i + 1) * StopCost(n) + WAKEUP * n + 4
    case CallbackRelease(i) => Left(n, i + 1) * StopCost(n) + 3
    case ShutUnlock => 1
    case Returned => 0
  }

  ghost function WorkersRank(s: State, k: nat): nat
    requires k <= |s.workers|
  {
    if k == 0 then 0
    else WorkersRank(s, k - 1) + WorkerRank(s.workers[k - 1], k - 1 in s.stopped, s.ledger.queue == [])
  }

  /** The ranks of the calls named below b. */
  function EnqueuesRank(enqueues: map<Task, EnqueuePc>, b: nat): nat {
    if b == 0 then 0
    else EnqueuesRank(enqueues, b - 1) + if b - 1 in enqueues then EnqueueRank(enqueues[b - 1]) else 0
  }

  function ShutdownsRank(shutdowns: map<nat, ShutdownPc>, n: nat, b: nat): nat {
    if b == 0 then 0
    else ShutdownsRank(shutdowns, n, b - 1) + if b - 1 in shutdowns then ShutdownRank(shutdowns[b - 1], n) else 0
  }

  /** Falls with every step of a thread of the pool, as long as all calls are named below b. */
  ghost function Measure(s: State, b: nat): nat {
    WorkersRank(s, |s.workers|) + TASK * |s.ledger.queue| + EnqueuesRank(s.enqueues, b)
        + ShutdownsRank(s.shutdowns, |s.workers|, b)
  }

  ghost predicate NamedBelow(s: State, b: nat) {
    (forall t :: t in s.enqueues ==> t < b) && (forall c :: c in s.shutdowns ==> c < b)
  }

  lemma {:induction false} EnqueuesRankChange(e: map<Task, EnqueuePc>, t: Task, pc: EnqueuePc, b: nat)
    ensures EnqueuesRank(e[t := pc], b) + (if t < b && t in e then EnqueueRank(e[t]) else 0) ==
            EnqueuesRank(e, b) + if t < b then EnqueueRank(pc) else 0
  {
    if b > 0 { EnqueuesRankChange(e, t, pc, b - 1); }
  }

  lemma {:induction false} ShutdownsRankChange(e: map<nat, ShutdownPc>, c: nat, pc: ShutdownPc, n: nat, b: nat)
    ensures ShutdownsRank(e[c := pc], n, b) + (if c < b && c in e then ShutdownRank(e[c], n) else 0) ==
            ShutdownsRank(e, n, b) + if c < b then ShutdownRank(pc, n) else 0
  {
    if b > 0 { ShutdownsRankChange(e, c, pc, n, b - 1); }
  }

  // ----- each step lowers it -----

  /** The ranks of the workers other than w do not change when nothing they depend on changes. */
  lemma {:induction false} WorkersRankChange(s: State, s': State, k: nat, w: nat)
    requires k <= |s.workers| == |s'.workers|
    requires forall v :: 0 <= v < k && v != w ==>
               WorkerRank(s'.workers[v], v in s'.stopped, s'.ledger.queue == [])
                   == WorkerRank(s.workers[v], v in s.stopped, s.ledger.queue == [])
    ensures WorkersRank(s', k) +
            (if w < k then WorkerRank(s.workers[w], w in s.stopped, s.ledger.queue == []) else 0) ==
            WorkersRank(s, k) +
            (if w < k then WorkerRank(s'.workers[w], w in s'.stopped, s'.ledger.queue == []) else 0)
  {
    if k > 0 { WorkersRankChange(s, s', k - 1, w); }
  }

  lemma {:induction false} WorkersRankSignal(s: State, s': State, k: nat)
    requires k <= |s.workers| == |s'.workers|
    requires s'.workers == SignalAll(s.workers) && s'.stopped == s.stopped && s'.ledger == s.ledger
    ensures WorkersRank(s', k) <= WorkersRank(s, k) + WAKEUP * k
  {
    if k > 0 { WorkersRankSignal(s, s', k - 1); }
  }

  /** Only a worker that has the user mutex has a rank that depends on the queue and on its token. */
  lemma RankOutside(pc: WorkerPc, stop: bool, stop': bool, queueEmpty: bool, queueEmpty': bool)
    requires !WorkerHasUser(pc)
    ensures WorkerRank(pc, stop, queueEmpty) == WorkerRank(pc, stop', queueEmpty')
  {
  }

  lemma WaitRankFalls(w: nat, wait: WaitPc, stop: bool, queueEmpty: bool)
    requires wait != Asleep(false)
    requires wait.Enter? ==> !stop || !queueEmpty
    requires wait.LockInner? || wait.TestStop? ==> queueEmpty
    ensures WorkerRank(WaitNext(wait, stop, queueEmpty), stop, queueEmpty) < WorkerRank(InWait(wait), stop, queueEmpty)
  {
  }

  lemma WorkerRankFalls(s: State, w: nat)
    requires WorkerEnabled(s, w) && WorkerKnows(w, s.workers[w], s.stopped, s.ledger.queue == [])
    ensures var s' := WorkerNext(s, w);
            && |s'.workers| == |s.workers|
            && WorkerRank(s'.workers[w], w in s.stopped, s'.ledger.queue == []) + TASK * |s'.ledger.queue| <
               WorkerRank(s.workers[w], w in s.stopped, s.ledger.queue == []) + TASK * |s.ledger.queue|
  {
    match s.workers[w] {
      case InWait(wait) => WaitRankFalls(w, wait, w in s.stopped, s.ledger.queue == []);
      case _ => OutsideWaitRankFalls(s, w);
    }
  }

  lemma OutsideWaitRankFalls(s: State, w: nat)
    requires WorkerEnabled(s, w) && !s.workers[w].InWait?
        && WorkerKnows(w, s.workers[w], s.stopped, s.ledger.queue == [])
    ensures var s' := WorkerNext(s, w);
            && |s'.workers| == |s.workers|
            && WorkerRank(s'.workers[w], w in s.stopped, s'.ledger.queue == []) + TASK * |s'.ledger.queue| <
               WorkerRank(s.workers[w], w in s.stopped, s.ledger.queue == []) + TASK * |s.ledger.queue|
  {
    match s.workers[w]
    case InExecute(_, _) =>
    case Take(_) =>
    case _ =>
  }

  lemma WorkerLowers(s: State, w: nat, b: nat)
    requires Inv(s) && WorkerEnabled(s, w)
    ensures Measure(WorkerNext(s, w), b) < Measure(s, b)
  {
    WorkerOthers(s, w);
    WorkerLedger(s, w);
    WorkerRankFalls(s, w);
    WorkerLowersFrame(s, WorkerNext(s, w), w, b);
  }

  lemma WorkerLowersFrame(s: State, s': State, w: nat, b: nat)
    requires LockInv(s) && w < |s.workers| == |s'.workers|
    requires s'.workers == s.workers[w := s'.workers[w]] && s'.stopped == s.stopped
    requires s'.enqueues == s.enqueues && s'.shutdowns == s.shutdowns
    requires s'.ledger.queue != s.ledger.queue ==> WorkerHasUser(s.workers[w])
    requires WorkerRank(s'.workers[w], w in s.stopped, s'.ledger.queue == []) + TASK * |s'.ledger.queue| <
             WorkerRank(s.workers[w], w in s.stopped, s.ledger.queue == []) + TASK * |s.ledger.queue|
    ensures Measure(s', b) < Measure(s, b)
  {
    forall v | 0 <= v < |s.workers| && v != w
      ensures WorkerRank(s'.workers[v], v in s'.stopped, s'.ledger.queue == [])
          == WorkerRank(s.workers[v], v in s.stopped, s.ledger.queue == [])
    {
      assert HasUser(s, OfWorker(v)) <==> s.user == Some(OfWorker(v));
      assert HasUser(s, OfWorker(w)) <==> s.user == Some(OfWorker(w));
      if s'.ledger.queue != s.ledger.queue {
        RankOutside(s.workers[v], v in s.stopped, v in s.stopped, s.ledger.queue == [], s'.ledger.queue == []);
      }
    }
    WorkersRankChange(s, s', |s.workers|, w);
  }

  lemma EnqueueRankFalls(s: State, t: Task, wake: nat)
    requires EnqueueEnabled(s, t, wake)
    ensures var s', pc := EnqueueNext(s, t, wake), s.enqueues[t];
            && EnqueueRank(s'.enqueues[t]) + TASK * |s'.ledger.queue| + (if pc.EnqNotify? then WAKEUP else 0) <
               EnqueueRank(pc) + TASK * |s.ledger.queue|
            && (s'.ledger.queue != s.ledger.queue ==> EnqueueHasUser(pc))
  {
  }

  lemma EnqueueLowers(s: State, t: Task, wake: nat, b: nat)
    requires Inv(s) && EnqueueEnabled(s, t, wake) && t < b
    ensures Measure(EnqueueNext(s, t, wake), b) < Measure(s, b)
  {
    EnqueueOthers(s, t, wake);
    EnqueueRankFalls(s, t, wake);
    EnqueueLowersFrame(s, EnqueueNext(s, t, wake), t, wake, b);
  }

  lemma EnqueueLowersFrame(s: State, s': State, t: Task, wake: nat, b: nat)
    requires LockInv(s) && t in s.enqueues && t in s'.enqueues && t < b
    requires |s'.workers| == |s.workers| && s'.stopped == s.stopped && s'.shutdowns == s.shutdowns
    requires s'.workers == s.workers ||
             (s.enqueues[t].EnqNotify? && Sleeper(s, wake) && s'.workers == s.workers[wake := InWait(Asleep(true))])
    requires s'.enqueues == s.enqueues[t := s'.enqueues[t]]
    requires EnqueueRank(s'.enqueues[t]) + TASK * |s'.ledger.queue| + (if s.enqueues[t].EnqNotify? then WAKEUP else 0) <
             EnqueueRank(s.enqueues[t]) + TASK * |s.ledger.queue|
    requires s'.ledger.queue != s.ledger.queue ==> EnqueueHasUser(s.enqueues[t])
    ensures Measure(s', b) < Measure(s, b)
  {
    var moved := if s'.workers == s.workers then |s.workers| else wake;
    forall v | 0 <= v < |s.workers| && v != moved
      ensures WorkerRank(s'.workers[v], v in s'.stopped, s'.ledger.queue == [])
          == WorkerRank(s.workers[v], v in s.stopped, s.ledger.queue == [])
    {
      assert HasUser(s, OfWorker(v)) <==> s.user == Some(OfWorker(v));
      assert HasUser(s, OfEnqueue(t)) <==> s.user == Some(OfEnqueue(t));
      if s'.ledger.queue != s.ledger.queue {
        RankOutside(s.workers[v], v in s.stopped, v in s.stopped, s.ledger.queue == [], s'.ledger.queue == []);
      }
    }
    WorkersRankChange(s, s', |s.workers|, moved);
    EnqueuesRankChange(s.enqueues, t, s'.enqueues[t], b);
  }

  lemma LeftStep(n: nat, i: nat)
    requires i < n
    ensures Left(n, i) * StopCost(n) == Left(n, i + 1) * StopCost(n) + StopCost(n)
  {
    assert Left(n, i) == Left(n, i + 1) + 1;
  }

  lemma ShutdownRankFalls(s: State, c: nat)
    requires ShutdownEnabled(s, c) && ShutdownKnows(s.shutdowns[c], s)
    ensures var s', pc, n := ShutdownNext(s, c), s.shutdowns[c], |s.workers|;
            && c in s'.shutdowns
            && ShutdownRank(s'.shutdowns[c], n) + (if pc.CallbackNotify? then WAKEUP * n else 0) < ShutdownRank(pc, n)
            && (s'.stopped != s.stopped ==> ShutdownHasUser(pc))
            && (if pc.CallbackNotify?
                then s'.workers == SignalAll(s.workers) && s'.stopped == s.stopped && s'.ledger == s.ledger
                else s'.workers == s.workers)
  {
    var pc, n := s.shutdowns[c], |s.workers|;
    if pc.StopWorker? && pc.i < n { LeftStep(n, pc.i); }
    if pc.StopSlot? && pc.i >= n { assert Left(n, 0) == n; }
  }

  lemma ShutdownLowers(s: State, c: nat, b: nat)
    requires Inv(s) && ShutdownEnabled(s, c) && c < b
    ensures Measure(ShutdownNext(s, c), b) < Measure(s, b)
  {
    ShutdownKnowsNext(s, c);
    ShutdownRankFalls(s, c);
    ShutdownLowersFrame(s, ShutdownNext(s, c), c, b);
  }

  lemma ShutdownLowersFrame(s: State, s': State, c: nat, b: nat)
    requires LockInv(s) && c in s.shutdowns && c in s'.shutdowns && c < b
    requires |s'.workers| == |s.workers| && s'.enqueues == s.enqueues
        && s'.shutdowns == s.shutdowns[c := s'.shutdowns[c]]
    requires s'.ledger.queue == s.ledger.queue
    requires ShutdownRank(s'.shutdowns[c], |s.workers|)
        + (if s.shutdowns[c].CallbackNotify? then WAKEUP * |s.workers| else 0) <
             ShutdownRank(s.shutdowns[c], |s.workers|)
    requires s'.stopped != s.stopped ==> ShutdownHasUser(s.shutdowns[c])
    requires if s.shutdowns[c].CallbackNotify?
             then s'.workers == SignalAll(s.workers) && s'.stopped == s.stopped && s'.ledger == s.ledger
             else s'.workers == s.workers
    ensures Measure(s', b) < Measure(s, b)
  {
    ShutdownsRankChange(s.shutdowns, c, s'.shutdowns[c], |s.workers|, b);
    if s.shutdowns[c].CallbackNotify? {
      WorkersRankSignal(s, s', |s.workers|);
    } else {
      forall v | 0 <= v < |s.workers|
        ensures WorkerRank(s'.workers[v], v in s'.stopped, s'.ledger.queue == [])
            == WorkerRank(s.workers[v], v in s.stopped, s.ledger.queue == [])
      {
        assert HasUser(s, OfWorker(v)) <==> s.user == Some(OfWorker(v));
        assert HasUser(s, OfShutdown(c)) <==> s.user == Some(OfShutdown(c));
        if s'.stopped != s.stopped {
          RankOutside(s.workers[v], v in s.stopped, v in s'.stopped, s.ledger.queue == [], s'.ledger.queue == []);
        }
      }
      WorkersRankChange(s, s', |s.workers|, |s.workers|);
    }
  }

  lemma OwnStepLowers(s: State, step: Step, b: nat)
    requires Inv(s) && NamedBelow(s, b) && OwnStep(step) && Enabled(s, step)
    ensures Measure(Next(s, step), b) < Measure(s, b) && NamedBelow(Next(s, step), b)
  {
    match step {
      case WorkerStep(w) => WorkerLowers(s, w, b); WorkerOthers(s, w);
      case EnqueueStep(t, wake) => EnqueueLowers(s, t, wake, b); EnqueueOthers(s, t, wake);
      case ShutdownStep(c) => ShutdownLowers(s, c, b);
    }
  }

  // ----- the theorem -----

  /** `later` continues a run from state s with steps of the pool's own threads only. */
  ghost predicate Continues(s: State, states: seq<State>, steps: seq<Step>) {
    && |states| == |steps| + 1 && states[0] == s
    && forall i {:trigger steps[i]} :: 0 <= i < |steps| ==>
         OwnStep(steps[i]) && Enabled(states[i], steps[i]) && states[i + 1] == Next(states[i], steps[i])
  }

  lemma {:induction false} ContinuationBounded(s: State, states: seq<State>, steps: seq<Step>, b: nat, i: nat)
    requires Inv(s) && NamedBelow(s, b) && Continues(s, states, steps) && i <= |steps|
    ensures Inv(states[i]) && NamedBelow(states[i], b) && i + Measure(states[i], b) <= Measure(s, b)
    ensures states[i].shutdowns.Keys == s.shutdowns.Keys && states[i].enqueues.Keys == s.enqueues.Keys
    ensures |states[i].workers| == |s.workers|
  {
    if i > 0 {
      ContinuationBounded(s, states, steps, b, i - 1);
      ContinuationStep(s, states, steps, b, i - 1);
    }
  }

  lemma ContinuationStep(s: State, states: seq<State>, steps: seq<Step>, b: nat, i: nat)
    requires Continues(s, states, steps) && i < |steps| && Inv(states[i]) && NamedBelow(states[i], b)
    ensures Inv(states[i + 1]) && NamedBelow(states[i + 1], b) && Measure(states[i + 1], b) < Measure(states[i], b)
    ensures states[i + 1].shutdowns.Keys == states[i].shutdowns.Keys
    ensures states[i + 1].enqueues.Keys == states[i].enqueues.Keys && |states[i + 1].workers| == |states[i].workers|
  {
    InvStep(states[i], steps[i]);
    OwnStepLowers(states[i], steps[i], b);
    OwnStepKeeps(states[i], steps[i]);
  }

  lemma OwnStepKeeps(s: State, step: Step)
    requires OwnStep(step) && Enabled(s, step)
    ensures var s' := Next(s, step);
            |s'.workers| == |s.workers| && s'.shutdowns.Keys == s.shutdowns.Keys && s'.enqueues.Keys == s.enqueues.Keys
  {
    match step {
      case WorkerStep(w) => WorkerOthers(s, w);
      case EnqueueStep(t, wake) => EnqueueOthers(s, t, wake);
      case ShutdownStep(c) =>
    }
  }

  /** Every task is finished and, if Shutdown was called, every worker has left. */
  ghost predicate Drained(s: State) {
    && (forall t :: t in s.enqueues ==> t in s.ledger.finished)
    && (s.shutdowns.Keys != {} ==> forall w :: 0 <= w < |s.workers| ==> s.workers[w] == Exited)
  }

  lemma ContinuationDrains(s: State, later: seq<State>, more: seq<Step>, b: nat)
    requires Inv(s) && NamedBelow(s, b) && |s.workers| > 0 && Continues(s, later, more)
    ensures |more| <= Measure(s, b)
    ensures later[|more|].enqueues.Keys == s.enqueues.Keys && later[|more|].shutdowns.Keys == s.shutdowns.Keys
    ensures Stuck(later[|more|]) ==> Drained(later[|more|])
  {
    ContinuationBounded(s, later, more, b, |more|);
    if Stuck(later[|more|]) { StuckMeansDone(later[|more|]); }
  }

  /**
  From any reachable state of a pool with a worker, there is a bound on the steps the pool's threads can
  still take before the next call or spurious wakeup, whatever their interleaving; and a continuation
  that cannot be extended ends with every task finished and, if Shutdown was called, every worker gone.
  */
  lemma PoolDrains(n: nat, states: seq<State>, steps: seq<Step>) returns (bound: nat)
    requires n > 0 && IsRun(n, states, steps)
    ensures forall later: seq<State>, more: seq<Step> :: Continues(states[|steps|], later, more) ==>
              && |more| <= bound
              && later[|more|].enqueues.Keys == states[|steps|].enqueues.Keys
              && later[|more|].shutdowns.Keys == states[|steps|].shutdowns.Keys
              && (Stuck(later[|more|]) ==> Drained(later[|more|]))
  {
    var s := states[|steps|];
    RunInv(n, states, steps, |steps|);
    MonotoneRun(n, states, steps, 0, |steps|);
    var b := Above(s.enqueues.Keys + s.shutdowns.Keys);
    bound := Measure(s, b);
    forall later: seq<State>, more: seq<Step> | Continues(s, later, more)
      ensures |more| <= bound
      ensures later[|more|].enqueues.Keys == s.enqueues.Keys && later[|more|].shutdowns.Keys == s.shutdowns.Keys
      ensures Stuck(later[|more|]) ==> Drained(later[|more|])
    {
      ContinuationDrains(s, later, more, b);
    }
  }

  /** The states of a pool without workers in which one task is enqueued, after k steps of Enqueue. */
  function Lone(t: Task, k: nat): State
    requires k <= 7
  {
    var pcs := [EnqLock, EnqTest, EnqPush, EnqNotifyLock, EnqNotify, EnqNotifyRelease, EnqLeave, EnqDone];
    var s := Init(0);
    s.(user := if 1 <= k <= 6 then Some(OfEnqueue(t)) else None,
       inner := if 4 <= k <= 5 then Some(OfEnqueue(t)) else None,
       ledger := if k >= 3 then s.ledger.(queue := [t], pushed := [t]) else s.ledger,
       enqueues := map[t := pcs[k]])
  }

  lemma LoneStep(t: Task, k: nat)
    requires k < 7
    ensures Enabled(Lone(t, k), EnqueueStep(t, 0)) && Next(Lone(t, k), EnqueueStep(t, 0)) == Lone(t, k + 1)
  {
  }

  lemma {:induction false} LoneRun(t: Task, k: nat) returns (states: seq<State>, steps: seq<Step>)
    requires k <= 7
    ensures IsRun(0, states, steps) && states[|steps|] == Lone(t, k)
  {
    if k == 0 {
      states, steps := [Init(0), Lone(t, 0)], [Submit(t)];
    } else {
      states, steps := LoneRun(t, k - 1);
      LoneStep(t, k - 1);
      states, steps := states + [Lone(t, k)], steps + [EnqueueStep(t, 0)];
    }
  }

  /** Without a worker a pool can be stuck with a task that was accepted and is never run. */
  lemma EmptyPoolStrands(t: Task) returns (states: seq<State>, steps: seq<Step>)
    ensures IsRun(0, states, steps) && Stuck(states[|steps|]) && !Drained(states[|steps|])
  {
    states, steps := LoneRun(t, 7);
    assert t in Lone(t, 7).enqueues && t !in Lone(t, 7).ledger.finished;
  }
}
