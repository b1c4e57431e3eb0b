/**
Wakeups of sleeping workers: none is lost when a worker's token is stopped, and the queue never holds
more tasks than there are workers on their way to it while another worker sleeps.
*/
module ThreadPoolWakeups {
  import opened ThreadPool
  import opened ThreadPoolSafety
  import opened ThreadPoolShutdown

  /** Committed to sleep and not signalled. */
  predicate Unwoken(pc: WorkerPc) {
    pc == InWait(Block) || pc == InWait(Asleep(false))
  }

  /** Woken and not yet back at the queue: it will test the queue and, if it can, take a task from it. */
  predicate Owes(pc: WorkerPc) {
    match pc
    case InWait(wait) =>
      (match wait
       case Asleep(signalled) => signalled
       case ReleaseInner => true
       case RelockUser => true
       case TestPredicate(woken) => woken
       case Deregister(woken) => woken
       case _ => false)
    case Take(woken) => woken
    case _ => false
  }

  /** How many workers owe a visit to the queue. */
  function Owing(ws: seq<WorkerPc>): nat {
    if ws == [] then 0 else Owing(ws[..|ws| - 1]) + if Owes(ws[|ws| - 1]) then 1 else 0
  }

  lemma {:induction false} OwingUpdate(ws: seq<WorkerPc>, w: nat, pc: WorkerPc)
    requires w < |ws|
    ensures Owing(ws[w := pc]) == Owing(ws) - (if Owes(ws[w]) then 1 else 0) + (if Owes(pc) then 1 else 0)
  {
    var m := |ws| - 1;
    if w == m {
      assert ws[w := pc][..m] == ws[..m];
    } else {
      OwingUpdate(ws[..m], w, pc);
      assert ws[w := pc][..m] == ws[..m][w := pc];
    }
  }

  /** Some call of Enqueue has pushed its task and has not yet called notify_one. */
  ghost predicate NotifyPending(s: State) {
    exists t :: t in s.enqueues && s.enqueues[t] in {EnqNotifyLock, EnqNotify}
  }

  /** Worker w's stop callback is on its way to notify_all. */
  ghost predicate StopNotifyPending(s: State, w: nat) {
    exists c :: c in s.shutdowns && s.shutdowns[c] in {CallbackLock(w), CallbackNotify(w)}
  }

  ghost predicate NoLostStop(s: State) {
    forall w :: 0 <= w < |s.workers| && Unwoken(s.workers[w]) && w in s.stopped ==> StopNotifyPending(s, w)
  }

  ghost predicate WorkConserved(s: State) {
    forall w :: 0 <= w < |s.workers| && Unwoken(s.workers[w]) ==>
      |s.ledger.queue| <= Owing(s.workers) + if NotifyPending(s) then 1 else 0
  }

  ghost predicate WakeInv(s: State) {
    NoLostStop(s) && WorkConserved(s)
  }

  // ----- workers -----

  /** A worker's step, as seen by the counts above. */
  lemma WorkerWake(s: State, w: nat)
    requires WorkerEnabled(s, w) && WorkerKnows(w, s.workers[w], s.stopped, s.ledger.queue == [])
    ensures var s', pc := WorkerNext(s, w), s.workers[w];
            && |s'.workers| == |s.workers|
            && (Unwoken(s'.workers[w]) ==> Unwoken(pc) || (w !in s.stopped && s.ledger.queue == []))
            && |s'.ledger.queue| <= |s.ledger.queue|
            && (Owes(pc) && !Owes(s'.workers[w]) ==> s'.ledger.queue == [] || |s'.ledger.queue| < |s.ledger.queue|)
  {
    match s.workers[w]
    case InWait(_) =>
    case InExecute(_, _) =>
    case _ =>
  }

  lemma WakeWorkerFrame(s: State, s': State, w: nat)
    requires WakeInv(s) && w < |s.workers| == |s'.workers|
    requires s'.workers == s.workers[w := s'.workers[w]]
    requires s'.enqueues == s.enqueues && s'.shutdowns == s.shutdowns && s'.stopped == s.stopped
    requires Unwoken(s'.workers[w]) ==> Unwoken(s.workers[w]) || (w !in s.stopped && s.ledger.queue == [])
    requires |s'.ledger.queue| <= |s.ledger.queue|
    requires Owes(s.workers[w]) && !Owes(s'.workers[w]) ==>
        s'.ledger.queue == [] || |s'.ledger.queue| < |s.ledger.queue|
    ensures WakeInv(s')
  {
    OwingUpdate(s.workers, w, s'.workers[w]);
    assert NotifyPending(s') == NotifyPending(s);
    forall v | 0 <= v < |s'.workers| && Unwoken(s'.workers[v]) && v in s'.stopped ensures StopNotifyPending(s', v) {
      assert StopNotifyPending(s, v);
    }
  }

  lemma WakeWorker(s: State, w: nat)
    requires KnowInv(s) && WakeInv(s) && WorkerEnabled(s, w)
    ensures WakeInv(WorkerNext(s, w))
  {
    WorkerOthers(s, w);
    WorkerWake(s, w);
    WakeWorkerFrame(s, WorkerNext(s, w), w);
  }

  // ----- Enqueue -----

  /**
  Pushing and then notifying: the push is covered by the pending notification, the notification by a woken
  worker.
  */
  lemma WakeEnqueue(s: State, t: Task, wake: nat)
    requires LockInv(s) && WakeInv(s) && EnqueueEnabled(s, t, wake)
    ensures WakeInv(EnqueueNext(s, t, wake))
  {
    var s' := EnqueueNext(s, t, wake);
    EnqueueOthers(s, t, wake);
    match s.enqueues[t] {
      case EnqPush =>
        assert s'.enqueues[t] == EnqNotifyLock;
        WakePush(s, s', t);
      case EnqNotify =>
        WakeNotify(s, s', t, wake);
      case _ =>
        WakeUncounted(s, s', t);
    }
  }

  lemma WakePush(s: State, s': State, t: Task)
    requires LockInv(s) && WakeInv(s) && t in s.enqueues && s.enqueues[t].EnqPush?
    requires s'.workers == s.workers && s'.shutdowns == s.shutdowns && s'.stopped == s.stopped
    requires s'.enqueues == s.enqueues[t := EnqNotifyLock] && |s'.ledger.queue| == |s.ledger.queue| + 1
    ensures WakeInv(s')
  {
    if NotifyPending(s) {
      var u :| u in s.enqueues && s.enqueues[u] in {EnqNotifyLock, EnqNotify};
      assert HasUser(s, OfEnqueue(u)) && HasUser(s, OfEnqueue(t));
    }
    assert s'.enqueues[t] == EnqNotifyLock;
    assert NotifyPending(s');
    forall v | 0 <= v < |s'.workers| && Unwoken(s'.workers[v]) && v in s'.stopped ensures StopNotifyPending(s', v) {
      assert StopNotifyPending(s, v);
    }
  }

  lemma WakeNotify(s: State, s': State, t: Task, wake: nat)
    requires LockInv(s) && WakeInv(s) && EnqueueEnabled(s, t, wake) && s.enqueues[t].EnqNotify?
    requires s'.workers == if Sleeper(s, wake) then s.workers[wake := InWait(Asleep(true))] else s.workers
    requires s'.shutdowns == s.shutdowns && s'.stopped == s.stopped && s'.ledger == s.ledger
    ensures WakeInv(s')
  {
    if Sleeper(s, wake) {
      OwingUpdate(s.workers, wake, InWait(Asleep(true)));
    }
    forall v | 0 <= v < |s'.workers| && Unwoken(s'.workers[v])
      ensures |s'.ledger.queue| <= Owing(s'.workers)
    {
      if !Sleeper(s, wake) {
        assert !Sleeper(s, v);
        assert HasInner(s, OfWorker(v)) && HasInner(s, OfEnqueue(t));
      }
    }
    forall v | 0 <= v < |s'.workers| && Unwoken(s'.workers[v]) && v in s'.stopped ensures StopNotifyPending(s', v) {
      assert StopNotifyPending(s, v);
    }
  }

  lemma WakeUncounted(s: State, s': State, t: Task)
    requires WakeInv(s) && t in s.enqueues && t in s'.enqueues
    requires s'.workers == s.workers && s'.shutdowns == s.shutdowns && s'.stopped == s.stopped
    requires s'.enqueues == s.enqueues[t := s'.enqueues[t]] && s'.ledger.queue == s.ledger.queue
    requires s.enqueues[t] in {EnqNotifyLock, EnqNotify} ==> s'.enqueues[t] in {EnqNotifyLock, EnqNotify}
    ensures WakeInv(s')
  {
    if NotifyPending(s) {
      var u :| u in s.enqueues && s.enqueues[u] in {EnqNotifyLock, EnqNotify};
      assert s'.enqueues[u] in {EnqNotifyLock, EnqNotify};
      assert NotifyPending(s');
    }
    forall v | 0 <= v < |s'.workers| && Unwoken(s'.workers[v]) && v in s'.stopped ensures StopNotifyPending(s', v) {
      assert StopNotifyPending(s, v);
    }
  }

  // ----- Shutdown -----

  lemma WakeShutdown(s: State, c: nat)
    requires LockInv(s) && WakeInv(s) && ShutdownEnabled(s, c)
    ensures WakeInv(ShutdownNext(s, c))
  {
    var s', pc := ShutdownNext(s, c), s.shutdowns[c];
    assert NotifyPending(s') == NotifyPending(s);
    forall v | 0 <= v < |s'.workers| && Unwoken(s'.workers[v])
      ensures !pc.CallbackNotify? && s'.workers == s.workers
    {
      if pc.CallbackNotify? {
        assert s.workers[v] == InWait(Block);
        assert HasInner(s, OfWorker(v)) && HasInner(s, OfShutdown(c));
      }
    }
    forall v | 0 <= v < |s'.workers| && Unwoken(s'.workers[v]) && v in s'.stopped ensures StopNotifyPending(s', v) {
      if v in s.stopped {
        assert StopNotifyPending(s, v);
        var d :| d in s.shutdowns && s.shutdowns[d] in {CallbackLock(v), CallbackNotify(v)};
        assert s'.shutdowns[d] in {CallbackLock(v), CallbackNotify(v)};
      } else {
        assert s'.shutdowns[c] == CallbackLock(v);
      }
    }
  }

  lemma WakeEnvironment(s: State, step: Step)
    requires WakeInv(s) && Enabled(s, step) && !OwnStep(step)
    ensures WakeInv(Next(s, step))
  {
    var s' := Next(s, step);
    if step.Spurious? {
      OwingUpdate(s.workers, step.w, InWait(Asleep(true)));
    }
    if NotifyPending(s) {
      var u :| u in s.enqueues && s.enqueues[u] in {EnqNotifyLock, EnqNotify};
      assert s'.enqueues[u] in {EnqNotifyLock, EnqNotify};
      assert NotifyPending(s');
    }
    forall v | 0 <= v < |s'.workers| && Unwoken(s'.workers[v]) && v in s'.stopped ensures StopNotifyPending(s', v) {
      assert StopNotifyPending(s, v);
      var d :| d in s.shutdowns && s.shutdowns[d] in {CallbackLock(v), CallbackNotify(v)};
      assert s'.shutdowns[d] in {CallbackLock(v), CallbackNotify(v)};
    }
  }
}
