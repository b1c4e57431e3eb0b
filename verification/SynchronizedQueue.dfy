/**
The bounded queue between senders and a reader: a queue mutex, and a notification (flag, its own mutex and a
condition variable) on which a reader that found the queue empty waits. One step is one atomic action of one
thread; the waits of the condition variable are the ones proved in CondVarSafety.
*/
module SynchronizedQueue {
  import opened Common

  type Item = int

  datatype Thread = Reader(i: nat) | Sender(j: nat)

  /** Where a reader is in Pop. */
  datatype ReaderPc =
    | Outside
    | HaveQueue         // holds the queue mutex, looks whether the queue is empty
    | ToWait            // without a lock, before taking the notification's mutex
    | Check             // holds the notification's mutex, evaluates the flag
    | Asleep(signalled: bool)
    | ToRelock          // the wait returned true, before taking the queue mutex again
    | ToReset           // holds the queue mutex, before taking the notification's
    | Resetting         // holds both
    | Popping           // holds the queue mutex, at the assertion
    | Failed            // the assertion did not hold

  /** Where a sender is in push. */
  datatype SenderPc =
    | Away
    | Pushing(item: Item)   // holds the queue mutex, compares the length with the bound
    | ToNotify              // the item is in; before taking the notification's mutex
    | Setting               // holds both
    | ToWake                // before notify_all
    | ToUnlock

  datatype State = State(
    max: nat,
    queueOwner: Option<Thread>,
    flagOwner: Option<Thread>,
    queue: seq<Item>,
    notified: bool,
    readers: seq<ReaderPc>,
    senders: seq<SenderPc>,
    accepted: seq<Item>,    // items for which push returned, or will return, true
    popped: seq<Item>)      // items that Pop returned

  predicate Init(s: State) {
    && s.queueOwner == None && s.flagOwner == None && s.queue == [] && !s.notified
    && s.accepted == [] && s.popped == []
    && (forall i :: 0 <= i < |s.readers| ==> s.readers[i] == Outside)
    && (forall j :: 0 <= j < |s.senders| ==> s.senders[j] == Away)
  }

  /** A step of a thread; `giveUp` is a time-out or a stop request seen by the wait, `item` what is pushed next. */
  datatype Step = ReaderStep(i: nat, giveUp: bool) | SenderStep(j: nat, item: Item)

  predicate TakesQueue(r: ReaderPc) {
    r.Outside? || r.ToRelock?
  }

  predicate TakesFlag(r: ReaderPc) {
    r.ToWait? || r.ToReset?
  }

  predicate Enabled(s: State, step: Step) {
    match step
    case ReaderStep(i, _) =>
      && i < |s.readers|
      && (TakesQueue(s.readers[i]) ==> s.queueOwner == None)
      && (TakesFlag(s.readers[i]) ==> s.flagOwner == None)
      && !s.readers[i].Failed?
    case SenderStep(j, _) =>
      && j < |s.senders|
      && (s.senders[j].Away? ==> s.queueOwner == None)
      && (s.senders[j].ToNotify? ==> s.flagOwner == None)
  }

  function Woken(r: ReaderPc): ReaderPc {
    if r.Asleep? then Asleep(true) else r
  }

  function ReaderNext(s: State, i: nat, giveUp: bool): State
    requires i < |s.readers|
  {
    var self := Some(Reader(i));
    match s.readers[i]
    case Outside => s.(queueOwner := self, readers := s.readers[i := HaveQueue])
    case HaveQueue =>
      if s.queue == [] then s.(queueOwner := None, readers := s.readers[i := ToWait])
      else s.(readers := s.readers[i := ToReset])
    case ToWait => s.(flagOwner := self, readers := s.readers[i := Check])
    case Check =>
      s.(flagOwner := None,
         readers := s.readers[i := if s.notified then ToRelock else if giveUp then Outside else Asleep(false)])
    case Asleep(_) => s.(readers := s.readers[i := ToWait])
    case ToRelock => s.(queueOwner := self, readers := s.readers[i := ToReset])
    case ToReset => s.(flagOwner := self, readers := s.readers[i := Resetting])
    case Resetting => s.(notified := false, flagOwner := None, readers := s.readers[i := Popping])
    case Popping =>
      if s.queue == [] then s.(readers := s.readers[i := Failed])
      else s.(queue := s.queue[1..], popped := s.popped + [s.queue[0]], queueOwner := None,
              readers := s.readers[i := Outside])
    case Failed => s
  }

  function SenderNext(s: State, j: nat, item: Item): State
    requires j < |s.senders|
  {
    var self := Some(Sender(j));
    match s.senders[j]
    case Away => s.(queueOwner := self, senders := s.senders[j := Pushing(item)])
    case Pushing(x) =>
      if |s.queue| < s.max
      then s.(queue := s.queue + [x], accepted := s.accepted + [x], senders := s.senders[j := ToNotify])
      else s.(queueOwner := None, senders := s.senders[j := Away])
    case ToNotify => s.(flagOwner := self, senders := s.senders[j := Setting])
    case Setting => s.(notified := true, flagOwner := None, senders := s.senders[j := ToWake])
    case ToWake =>
      s.(readers := seq(|s.readers|, k requires 0 <= k < |s.readers| => Woken(s.readers[k])),
         senders := s.senders[j := ToUnlock])
    case ToUnlock => s.(queueOwner := None, senders := s.senders[j := Away])
  }

  function Next(s: State, step: Step): State
    requires Enabled(s, step)
  {
    match step
    case ReaderStep(i, giveUp) => ReaderNext(s, i, giveUp)
    case SenderStep(j, item) => SenderNext(s, j, item)
  }

  predicate IsRun(states: seq<State>, steps: seq<Step>) {
    && |states| == |steps| + 1 && Init(states[0])
    && forall k {:trigger steps[k]} :: 0 <= k < |steps| ==>
        Enabled(states[k], steps[k]) && states[k + 1] == Next(states[k], steps[k])
  }

  // ----- invariants -----

  predicate ReaderHoldsQueue(r: ReaderPc) {
    r.HaveQueue? || r.ToReset? || r.Resetting? || r.Popping? || r.Failed?
  }

  predicate ReaderHoldsFlag(r: ReaderPc) {
    r.Check? || r.Resetting?
  }

  /** A mutex has the owner that the critical sections of the readers and senders say. */
  predicate ReadersOwn(s: State) {
    forall i :: 0 <= i < |s.readers| ==>
      && (ReaderHoldsQueue(s.readers[i]) <==> s.queueOwner == Some(Reader(i)))
      && (ReaderHoldsFlag(s.readers[i]) <==> s.flagOwner == Some(Reader(i)))
  }

  predicate SendersOwn(s: State) {
    forall j :: 0 <= j < |s.senders| ==>
      && (!s.senders[j].Away? <==> s.queueOwner == Some(Sender(j)))
      && (s.senders[j].Setting? <==> s.flagOwner == Some(Sender(j)))
  }

  /** Each mutex has the owner that its critical sections say. */
  predicate LockInv(s: State) {
    && ReadersOwn(s) && SendersOwn(s)
    && (s.queueOwner.Some? ==> ThreadOf(s, s.queueOwner.value))
    && (s.flagOwner.Some? ==> ThreadOf(s, s.flagOwner.value))
  }

  predicate ThreadOf(s: State, t: Thread) {
    match t
    case Reader(i) => i < |s.readers|
    case Sender(j) => j < |s.senders|
  }

  /** The place of the sender inside push, if there is one: the owner of the queue mutex. */
  function Inside(s: State): SenderPc {
    match s.queueOwner
    case Some(Sender(j)) => if j < |s.senders| then s.senders[j] else Away
    case _ => Away
  }

  /** Items leave in the order they were accepted, and never more are inside than allowed. */
  predicate QueueInv(s: State) {
    s.accepted == s.popped + s.queue && |s.queue| <= s.max
  }

  /** What one reader relies on: the flag says that there is an item. */
  predicate FlagInv(s: State) {
    && (s.notified || Inside(s).ToNotify? || Inside(s).Setting? ==> s.queue != [])
    && forall i :: 0 <= i < |s.readers| ==> ReaderInv(s, s.readers[i])
  }

  predicate ReaderInv(s: State, r: ReaderPc) {
    && (r.ToRelock? ==> s.notified)
    && (r.ToReset? || r.Resetting? || r.Popping? ==> s.queue != [])
    && (r.Popping? ==> !s.notified)
    && ((r.ToWait? || r.Check? || r.Asleep?) && s.queue != [] ==>
          s.notified || Inside(s).ToNotify? || Inside(s).Setting?)
    && (r == Asleep(false) && s.notified ==> Inside(s).ToWake?)
    && !r.Failed?
  }

  /** What a reader's step does to the mutexes: an owner changes only from or to the reader itself, with its place. */
  lemma ReaderEffect(s: State, i: nat, giveUp: bool)
    requires LockInv(s) && Enabled(s, ReaderStep(i, giveUp))
    ensures var s', me := ReaderNext(s, i, giveUp), Some(Reader(i));
            && s'.senders == s.senders && |s'.readers| == |s.readers| && s'.readers == s.readers[i := s'.readers[i]]
            && (s'.queueOwner == s.queueOwner || {s.queueOwner, s'.queueOwner} == {None, me})
            && (s'.flagOwner == s.flagOwner || {s.flagOwner, s'.flagOwner} == {None, me})
            && (ReaderHoldsQueue(s'.readers[i]) <==> s'.queueOwner == me)
            && (ReaderHoldsFlag(s'.readers[i]) <==> s'.flagOwner == me)
  {
  }

  lemma ReaderLocks(s: State, i: nat, giveUp: bool)
    requires LockInv(s) && Enabled(s, ReaderStep(i, giveUp))
    ensures LockInv(ReaderNext(s, i, giveUp))
  {
    ReaderEffect(s, i, giveUp);
    ReaderLockFrame(s, ReaderNext(s, i, giveUp), i);
  }

  lemma ReaderLockFrame(s: State, s': State, i: nat)
    requires LockInv(s) && i < |s.readers| == |s'.readers|
    requires var me := Some(Reader(i));
             && s'.senders == s.senders && s'.readers == s.readers[i := s'.readers[i]]
             && (s'.queueOwner == s.queueOwner || {s.queueOwner, s'.queueOwner} == {None, me})
             && (s'.flagOwner == s.flagOwner || {s.flagOwner, s'.flagOwner} == {None, me})
             && (ReaderHoldsQueue(s'.readers[i]) <==> s'.queueOwner == me)
             && (ReaderHoldsFlag(s'.readers[i]) <==> s'.flagOwner == me)
    ensures LockInv(s')
  {
    assert s.queueOwner in {s.queueOwner, s'.queueOwner} && s'.queueOwner in {s.queueOwner, s'.queueOwner};
    assert s.flagOwner in {s.flagOwner, s'.flagOwner} && s'.flagOwner in {s.flagOwner, s'.flagOwner};
  }

  lemma SenderLocks(s: State, j: nat, item: Item)
    requires LockInv(s) && Enabled(s, SenderStep(j, item))
    ensures LockInv(SenderNext(s, j, item))
  {
  }

  lemma QueueStep(s: State, step: Step)
    requires QueueInv(s) && Enabled(s, step)
    ensures QueueInv(Next(s, step))
  {
  }

  lemma ReaderFlag(s: State, i: nat, giveUp: bool)
    requires LockInv(s) && FlagInv(s) && |s.readers| <= 1 && Enabled(s, ReaderStep(i, giveUp))
    ensures FlagInv(ReaderNext(s, i, giveUp))
  {
  }

  lemma SenderFlag(s: State, j: nat, item: Item)
    requires LockInv(s) && FlagInv(s) && Enabled(s, SenderStep(j, item))
    ensures FlagInv(SenderNext(s, j, item))
  {
  }

  // ----- over whole runs -----

  lemma StepInv(s: State, step: Step)
    requires LockInv(s) && QueueInv(s) && (|s.readers| <= 1 ==> FlagInv(s)) && Enabled(s, step)
    ensures LockInv(Next(s, step)) && QueueInv(Next(s, step)) && (|s.readers| <= 1 ==> FlagInv(Next(s, step)))
    ensures |Next(s, step).readers| == |s.readers| && Next(s, step).max == s.max
  {
    QueueStep(s, step);
    LockStep(s, step);
    if |s.readers| <= 1 { FlagStep(s, step); }
    SizesKept(s, step);
  }

  lemma LockStep(s: State, step: Step)
    requires LockInv(s) && Enabled(s, step)
    ensures LockInv(Next(s, step))
  {
    match step
    case ReaderStep(i, giveUp) => ReaderLocks(s, i, giveUp);
    case SenderStep(j, item) => SenderLocks(s, j, item);
  }

  lemma FlagStep(s: State, step: Step)
    requires LockInv(s) && FlagInv(s) && |s.readers| <= 1 && Enabled(s, step)
    ensures FlagInv(Next(s, step))
  {
    match step
    case ReaderStep(i, giveUp) => ReaderFlag(s, i, giveUp);
    case SenderStep(j, item) => SenderFlag(s, j, item);
  }

  lemma SizesKept(s: State, step: Step)
    requires Enabled(s, step)
    ensures |Next(s, step).readers| == |s.readers| && Next(s, step).max == s.max
  {
  }

  lemma {:induction false} RunInv(states: seq<State>, steps: seq<Step>, k: nat)
    requires IsRun(states, steps) && k < |states|
    ensures LockInv(states[k]) && QueueInv(states[k]) && (|states[k].readers| <= 1 ==> FlagInv(states[k]))
    ensures |states[k].readers| == |states[0].readers| && states[k].max == states[0].max
  {
    if k > 0 {
      RunInv(states, steps, k - 1);
      StepInv(states[k - 1], steps[k - 1]);
      assert states[k] == Next(states[k - 1], steps[k - 1]);
    }
  }

  lemma {:induction false} PoppedGrows(states: seq<State>, steps: seq<Step>, k: nat, m: nat)
    requires IsRun(states, steps) && k <= m < |states|
    ensures states[k].popped <= states[m].popped && states[k].accepted <= states[m].accepted
  {
    if k < m {
      PoppedGrows(states, steps, k, m - 1);
      assert states[m] == Next(states[m - 1], steps[m - 1]);
    }
  }

  /**
  For any number of readers and senders: what is popped, at any time, is a prefix of what was accepted, what
  is missing from it is in the queue, in order, and the bound is kept.
  */
  lemma FirstInFirstOut(states: seq<State>, steps: seq<Step>, k: nat, m: nat)
    requires IsRun(states, steps) && k <= m < |states|
    ensures states[k].popped <= states[m].popped <= states[m].accepted
    ensures states[m].accepted == states[m].popped + states[m].queue
    ensures |states[m].queue| <= states[0].max
  {
    RunInv(states, steps, m);
    PoppedGrows(states, steps, k, m);
  }

  /**
  With one reader, whenever the queue mutex is free the flag says that there is an item, and the assertion
  never fails.
  */
  lemma AssertionHolds(states: seq<State>, steps: seq<Step>, k: nat)
    requires IsRun(states, steps) && k < |states| && |states[0].readers| <= 1
    ensures states[k].queueOwner == None && states[k].notified ==> states[k].queue != []
    ensures forall i :: 0 <= i < |states[k].readers| ==>
              && !states[k].readers[i].Failed?
              && (states[k].readers[i].Popping? ==> states[k].queue != [])
  {
    RunInv(states, steps, k);
  }

  /** With one reader: asleep without a signal while there is an item, it is about to be signalled. */
  lemma NoReaderStranded(states: seq<State>, steps: seq<Step>, k: nat, i: nat)
    requires IsRun(states, steps) && k < |states| && |states[0].readers| <= 1
    requires i < |states[k].readers| && states[k].readers[i] == Asleep(false) && states[k].queue != []
    ensures var p := Inside(states[k]); p.ToNotify? || p.Setting? || p.ToWake?
  {
    RunInv(states, steps, k);
  }

  /**
  Pop is documented to return nothing only while the queue is still empty. With one reader that is so exactly
  if no push is between storing its item and setting the flag.
  */
  lemma NothingMeansEmpty(states: seq<State>, steps: seq<Step>, k: nat, i: nat)
    requires IsRun(states, steps) && k < |steps| && |states[0].readers| <= 1
    requires steps[k] == ReaderStep(i, true) && states[k].readers[i].Check? && !states[k].notified
    ensures states[k + 1].readers[i].Outside? && states[k + 1].popped == states[k].popped
    ensures states[k].queue == [] <==> !Inside(states[k]).ToNotify?
  {
    RunInv(states, steps, k);
  }

  /**
  The two mutexes cannot block each other, for any number of readers: while one is held, some thread that holds
  one can go on, unless the flag's mutex is free and the queue's is held by a reader whose assertion failed.
  */
  lemma NoDeadlock(states: seq<State>, steps: seq<Step>, k: nat)
    requires IsRun(states, steps) && k < |states|
    requires states[k].queueOwner.Some? || states[k].flagOwner.Some?
    ensures (exists step :: Enabled(states[k], step) && Holds(states[k], step)) <==>
            states[k].flagOwner.Some? || !FailedOwner(states[k])
    ensures |states[0].readers| <= 1 ==> !FailedOwner(states[k])
  {
    RunInv(states, steps, k);
    var s := states[k];
    if s.flagOwner.Some? || !FailedOwner(s) {
      var t := if s.flagOwner.Some? then s.flagOwner.value else s.queueOwner.value;
      var step := match t case Reader(i) => ReaderStep(i, false) case Sender(j) => SenderStep(j, 0);
      assert Enabled(s, step) && Holds(s, step);
    }
  }

  /** The queue mutex is held by a reader whose assertion failed. */
  predicate FailedOwner(s: State) {
    match s.queueOwner
    case Some(Reader(i)) => i < |s.readers| && s.readers[i].Failed?
    case _ => false
  }

  predicate Holds(s: State, step: Step) {
    var t := match step case ReaderStep(i, _) => Reader(i) case SenderStep(j, _) => Sender(j);
    s.queueOwner == Some(t) || s.flagOwner == Some(t)
  }

  // ----- push -----

  /** What a push of x that began in state s has done so far, in state t, as long as its sender has the mutex. */
  predicate PushSoFar(s: State, t: State, j: nat, x: Item) {
    && |t.senders| == |s.senders| && j < |t.senders| && t.popped == s.popped
    && match t.senders[j]
       case Away => false
       case Pushing(y) => y == x && t.queue == s.queue && t.accepted == s.accepted && t.notified == s.notified
       case ToNotify => |s.queue| < s.max && Stored(s, t, x)
       case Setting => |s.queue| < s.max && Stored(s, t, x)
       case ToWake => |s.queue| < s.max && Stored(s, t, x) && t.notified
       case ToUnlock => |s.queue| < s.max && Stored(s, t, x) && t.notified
  }

  predicate Stored(s: State, t: State, x: Item) {
    t.queue == s.queue + [x] && t.accepted == s.accepted + [x]
  }

  /** While one sender is inside push, no other thread touches the queue, and nobody clears the flag. */
  lemma OthersKeepQueue(s: State, step: Step, j: nat)
    requires LockInv(s) && Enabled(s, step) && j < |s.senders| && !s.senders[j].Away?
    requires !(step.SenderStep? && step.j == j)
    ensures var s' := Next(s, step);
            && s'.queue == s.queue && s'.accepted == s.accepted && s'.popped == s.popped && s'.notified == s.notified
            && |s'.senders| == |s.senders| && s'.senders[j] == s.senders[j] && s'.max == s.max
  {
  }

  lemma PushStep(s: State, t: State, step: Step, j: nat, x: Item)
    requires LockInv(t) && Enabled(t, step) && PushSoFar(s, t, j, x) && t.max == s.max
    requires !Next(t, step).senders[j].Away?
    ensures PushSoFar(s, Next(t, step), j, x)
  {
    if !(step.SenderStep? && step.j == j) { OthersKeepQueue(t, step, j); }
  }

  lemma {:induction false} PushRun(states: seq<State>, steps: seq<Step>, i: nat, k: nat, j: nat, x: Item)
    requires IsRun(states, steps) && i < k < |states| && j < |states[i].senders| && states[i].senders[j].Away?
    requires steps[i] == SenderStep(j, x)
    requires forall m :: i < m <= k ==> j < |states[m].senders| && !states[m].senders[j].Away?
    ensures PushSoFar(states[i], states[k], j, x)
    decreases k
  {
    RunInv(states, steps, i);
    RunInv(states, steps, k - 1);
    assert states[k] == Next(states[k - 1], steps[k - 1]);
    if i < k - 1 {
      PushRun(states, steps, i, k - 1, j, x);
      PushStep(states[i], states[k - 1], steps[k - 1], j, x);
    }
  }

  /**
  A push, from taking the queue mutex to letting it go, under every interleaving: if there is room, the item is
  the last one in the queue, it counts as accepted, and the flag is set; if the queue is full, nothing changes.
  */
  lemma PushAccepts(states: seq<State>, steps: seq<Step>, i: nat, k: nat, j: nat, x: Item)
    requires IsRun(states, steps) && i < k < |steps| && j < |states[i].senders| && states[i].senders[j].Away?
    requires steps[i] == SenderStep(j, x)
    requires forall m :: i < m <= k ==> j < |states[m].senders| && !states[m].senders[j].Away?
    requires j < |states[k + 1].senders| && states[k + 1].senders[j].Away?
    ensures var s, t := states[i], states[k + 1];
            && |s.queue| <= s.max
            && (|s.queue| < s.max ==> t.queue == s.queue + [x] && t.accepted == s.accepted + [x] && t.notified)
            && (|s.queue| == s.max ==>
                  t.queue == s.queue && t.accepted == s.accepted && t.notified == s.notified)
            && t.popped == s.popped
  {
    RunInv(states, steps, i);
    RunInv(states, steps, k);
    PushRun(states, steps, i, k, j, x);
    assert states[k + 1] == Next(states[k], steps[k]);
    if !(steps[k].SenderStep? && steps[k].j == j) { OthersKeepQueue(states[k], steps[k], j); }
  }

  // ----- pop -----

  /** What a reader that took the queue mutex in state s, and found an item, has done so far in state t. */
  predicate PopSoFar(s: State, t: State, i: nat) {
    && |t.readers| == |s.readers| && i < |t.readers| && t.queue == s.queue && t.popped == s.popped
    && t.accepted == s.accepted
    && match t.readers[i]
       case HaveQueue => true
       case ToReset => true
       case Resetting => true
       case Popping => !t.notified
       case _ => false
  }

  /** While a reader has the queue mutex, no other thread touches the queue or the flag. */
  lemma OthersKeepItems(s: State, step: Step, i: nat)
    requires LockInv(s) && Enabled(s, step) && i < |s.readers| && ReaderHoldsQueue(s.readers[i])
    requires !(step.ReaderStep? && step.i == i)
    ensures var s' := Next(s, step);
            && s'.queue == s.queue && s'.accepted == s.accepted && s'.popped == s.popped && s'.notified == s.notified
            && |s'.readers| == |s.readers| && s'.readers[i] == s.readers[i]
  {
  }

  lemma PopStep(s: State, t: State, step: Step, i: nat)
    requires LockInv(t) && Enabled(t, step) && PopSoFar(s, t, i) && s.queue != []
    requires i < |Next(t, step).readers| && !Next(t, step).readers[i].Outside?
    ensures PopSoFar(s, Next(t, step), i)
  {
    if !(step.ReaderStep? && step.i == i) { OthersKeepItems(t, step, i); }
  }

  lemma {:induction false} PopRun(states: seq<State>, steps: seq<Step>, a: nat, k: nat, i: nat, giveUp: bool)
    requires IsRun(states, steps) && a < k < |states| && i < |states[a].readers| && states[a].readers[i].Outside?
    requires steps[a] == ReaderStep(i, giveUp) && states[a].queue != []
    requires forall m :: a < m <= k ==> i < |states[m].readers| && !states[m].readers[i].Outside?
    ensures PopSoFar(states[a], states[k], i)
    decreases k
  {
    RunInv(states, steps, k - 1);
    assert states[k] == Next(states[k - 1], steps[k - 1]);
    if a < k - 1 {
      PopRun(states, steps, a, k - 1, i, giveUp);
      PopStep(states[a], states[k - 1], steps[k - 1], i);
    }
  }

  /**
  A Pop that finds an item when it takes the queue mutex returns the first one, under every interleaving: it
  takes exactly that one from the queue, and clears the flag.
  */
  lemma PopTakes(states: seq<State>, steps: seq<Step>, a: nat, k: nat, i: nat, giveUp: bool)
    requires IsRun(states, steps) && a < k < |steps| && i < |states[a].readers| && states[a].readers[i].Outside?
    requires steps[a] == ReaderStep(i, giveUp) && states[a].queue != []
    requires forall m :: a < m <= k ==> i < |states[m].readers| && !states[m].readers[i].Outside?
    requires i < |states[k + 1].readers| && states[k + 1].readers[i].Outside?
    ensures var s, t := states[a], states[k + 1];
            && t.popped == s.popped + [s.queue[0]] && t.queue == s.queue[1..]
            && t.accepted == s.accepted && !t.notified
  {
    RunInv(states, steps, k);
    PopRun(states, steps, a, k, i, giveUp);
    assert states[k + 1] == Next(states[k], steps[k]);
    if !(steps[k].ReaderStep? && steps[k].i == i) { OthersKeepItems(states[k], steps[k], i); }
  }

  /**
  A Pop returns in two ways only: with the first item of the queue, or with nothing, when it gives up and the flag
  is not set.
  */
  lemma PopReturns(states: seq<State>, steps: seq<Step>, k: nat, i: nat, giveUp: bool)
    requires IsRun(states, steps) && k < |steps| && steps[k] == ReaderStep(i, giveUp)
    requires !states[k].readers[i].Outside?
    ensures var s, t, r := states[k], states[k + 1], states[k].readers[i];
            && (t.readers[i].Outside? <==> (r.Popping? && s.queue != []) || (r.Check? && !s.notified && giveUp))
            && (r.Popping? && s.queue != [] ==> t.popped == s.popped + [s.queue[0]] && t.queue == s.queue[1..])
            && (!(r.Popping? && s.queue != []) ==> t.popped == s.popped && t.queue == s.queue)
            && (r.Check? && s.notified ==> t.readers[i].ToRelock?)
  {
  }

  // ----- what the single reader is needed for -----

  ghost predicate Reachable(s: State, t: State) {
    exists states, steps :: IsRun(states, steps) && states[0] == s && states[|steps|] == t
  }

  lemma ReachStart(s: State)
    requires Init(s)
    ensures Reachable(s, s)
  {
    assert IsRun([s], []);
  }

  lemma Go(s: State, t: State, step: Step, u: State)
    requires Reachable(s, t) && Enabled(t, step) && Next(t, step) == u
    ensures Reachable(s, u)
  {
    var states, steps :| IsRun(states, steps) && states[0] == s && states[|steps|] == t;
    assert IsRun(states + [u], steps + [step]);
  }

  /** One reader gives up while the item of a push is in the queue. */
  lemma NothingDespiteItem(s: State, x: Item)
    requires Init(s) && s.max > 0 && s.readers == [Outside] && s.senders == [Away]
    ensures exists t :: Reachable(s, t) && |t.readers| == 1 && t.readers[0].Check? && !t.notified && t.queue == [x]
                        && Enabled(t, ReaderStep(0, true))
  {
    ReachStart(s);
    var a := s.(queueOwner := Some(Reader(0)), readers := [HaveQueue]);
    Go(s, s, ReaderStep(0, true), a);
    var b := s.(readers := [ToWait]);
    Go(s, a, ReaderStep(0, true), b);
    var c := s.(flagOwner := Some(Reader(0)), readers := [Check]);
    Go(s, b, ReaderStep(0, true), c);
    var d := c.(queueOwner := Some(Sender(0)), senders := [Pushing(x)]);
    Go(s, c, SenderStep(0, x), d);
    var e := d.(queue := [x], accepted := [x], senders := [ToNotify]);
    Go(s, d, SenderStep(0, x), e);
  }

  /** A state of two readers and a sender, the other threads being where they were. */
  function With(s: State, owner: Option<Thread>, flagOwner: Option<Thread>, r0: ReaderPc, r1: ReaderPc,
      p: SenderPc): State
    requires |s.readers| >= 2 && |s.senders| >= 1
  {
    s.(queueOwner := owner, flagOwner := flagOwner, readers := s.readers[0 := r0][1 := r1],
        senders := s.senders[0 := p])
  }

  /** Two readers find the queue empty, and wait. */
  lemma BothWait(s: State)
    requires Init(s) && |s.readers| >= 2 && |s.senders| >= 1
    ensures Reachable(s, With(s, None, None, ToWait, ToWait, Away))
  {
    ReachStart(s);
    var q0, q1 := Some(Reader(0)), Some(Reader(1));
    Go(s, s, ReaderStep(0, false), With(s, q0, None, HaveQueue, Outside, Away));
    Go(s, With(s, q0, None, HaveQueue, Outside, Away), ReaderStep(0, false),
        With(s, None, None, ToWait, Outside, Away));
    Go(s, With(s, None, None, ToWait, Outside, Away), ReaderStep(1, false), With(s, q1, None, ToWait, HaveQueue, Away));
    Go(s, With(s, q1, None, ToWait, HaveQueue, Away), ReaderStep(1, false), With(s, None, None, ToWait, ToWait, Away));
  }

  /** A whole push into a queue with room. */
  lemma PushesOne(s: State, t: State, x: Item)
    requires Reachable(s, t) && |t.senders| >= 1 && |t.queue| < t.max
    requires t.queueOwner == None && t.flagOwner == None && t.senders[0] == Away
    requires forall i :: 0 <= i < |t.readers| ==> !t.readers[i].Asleep?
    ensures Reachable(s, t.(queue := t.queue + [x], accepted := t.accepted + [x], notified := true))
  {
    var q := Some(Sender(0));
    var a := t.(queueOwner := q, senders := t.senders[0 := Pushing(x)]);
    Go(s, t, SenderStep(0, x), a);
    var b := a.(queue := t.queue + [x], accepted := t.accepted + [x], senders := t.senders[0 := ToNotify]);
    Go(s, a, SenderStep(0, x), b);
    var c := b.(flagOwner := q, senders := t.senders[0 := Setting]);
    Go(s, b, SenderStep(0, x), c);
    var d := b.(notified := true, senders := t.senders[0 := ToWake]);
    Go(s, c, SenderStep(0, x), d);
    var e := d.(senders := t.senders[0 := ToUnlock]);
    Go(s, d, SenderStep(0, x), e);
    var f := e.(queueOwner := None, senders := t.senders);
    Go(s, e, SenderStep(0, x), f);
  }

  /** Both waits return true. */
  lemma BothReturn(s: State, t: State)
    requires Reachable(s, t) && |t.readers| >= 2 && |t.senders| >= 1 && t.notified
    requires t == With(t, None, None, ToWait, ToWait, Away)
    ensures Reachable(s, With(t, None, None, ToRelock, ToRelock, Away))
  {
    var f0, f1 := Some(Reader(0)), Some(Reader(1));
    Go(s, t, ReaderStep(0, false), With(t, None, f0, Check, ToWait, Away));
    Go(s, With(t, None, f0, Check, ToWait, Away), ReaderStep(0, false), With(t, None, None, ToRelock, ToWait, Away));
    Go(s, With(t, None, None, ToRelock, ToWait, Away), ReaderStep(1, false), With(t, None, f1, ToRelock, Check, Away));
    Go(s, With(t, None, f1, ToRelock, Check, Away), ReaderStep(1, false),
        With(t, None, None, ToRelock, ToRelock, Away));
  }

  /** The first reader takes the only item. */
  lemma FirstTakes(s: State, t: State, x: Item)
    requires Reachable(s, t) && |t.readers| >= 2 && |t.senders| >= 1 && t.queue == [x]
    requires t == With(t, None, None, ToRelock, ToRelock, Away)
    ensures Reachable(s, With(t, None, None, Outside, ToRelock, Away).(notified := false, queue := [],
        popped := t.popped + [x]))
  {
    var q := Some(Reader(0));
    var a := With(t, q, None, ToReset, ToRelock, Away);
    Go(s, t, ReaderStep(0, false), a);
    var b := With(t, q, q, Resetting, ToRelock, Away);
    Go(s, a, ReaderStep(0, false), b);
    var c := With(t, q, None, Popping, ToRelock, Away).(notified := false);
    Go(s, b, ReaderStep(0, false), c);
    Go(s, c, ReaderStep(0, false), With(t, None, None, Outside, ToRelock, Away).(notified := false, queue := [],
        popped := t.popped + [x]));
  }

  /** The second reader finds the queue empty at the assertion. */
  lemma SecondFails(s: State, t: State)
    requires Reachable(s, t) && |t.readers| >= 2 && |t.senders| >= 1 && t.queue == [] && !t.notified
    requires t == With(t, None, None, Outside, ToRelock, Away)
    ensures Reachable(s, With(t, Some(Reader(1)), None, Outside, Failed, Away))
  {
    var q := Some(Reader(1));
    Go(s, t, ReaderStep(1, false), With(t, q, None, Outside, ToReset, Away));
    Go(s, With(t, q, None, Outside, ToReset, Away), ReaderStep(1, false), With(t, q, q, Outside, Resetting, Away));
    Go(s, With(t, q, q, Outside, Resetting, Away), ReaderStep(1, false), With(t, q, None, Outside, Popping, Away));
    Go(s, With(t, q, None, Outside, Popping, Away), ReaderStep(1, false), With(t, q, None, Outside, Failed, Away));
  }

  /** With a second reader, a sender and room for an item, the assertion can fail. */
  lemma TwoReadersFail(s: State, x: Item)
    requires Init(s) && |s.readers| >= 2 && |s.senders| >= 1 && s.max > 0
    ensures exists t :: Reachable(s, t) && 1 < |t.readers| && t.readers[1].Failed?
  {
    BothWait(s);
    var a := With(s, None, None, ToWait, ToWait, Away);
    PushesOne(s, a, x);
    var b := a.(queue := [x], accepted := [x], notified := true);
    BothReturn(s, b);
    var c := With(b, None, None, ToRelock, ToRelock, Away);
    FirstTakes(s, c, x);
    var d := With(c, None, None, Outside, ToRelock, Away).(notified := false, queue := [], popped := c.popped + [x]);
    SecondFails(s, d);
  }

  /** Nothing can be accepted, and nothing was: no wait has returned true. */
  predicate Quiet(s: State) {
    && (s.max == 0 || s.senders == []) && s.queue == [] && !s.notified
    && (forall i :: 0 <= i < |s.readers| ==> Waits(s.readers[i]))
    && (forall j :: 0 <= j < |s.senders| ==> s.senders[j].Away? || s.senders[j].Pushing?)
  }

  predicate Waits(r: ReaderPc) {
    r.Outside? || r.HaveQueue? || r.ToWait? || r.Check? || r.Asleep?
  }

  lemma QuietStep(s: State, step: Step)
    requires Quiet(s) && Enabled(s, step)
    ensures Quiet(Next(s, step))
  {
  }

  lemma {:induction false} QuietRun(states: seq<State>, steps: seq<Step>, k: nat)
    requires IsRun(states, steps) && k < |states| && (states[0].max == 0 || states[0].senders == [])
    ensures Quiet(states[k])
  {
    if k > 0 {
      QuietRun(states, steps, k - 1);
      QuietStep(states[k - 1], steps[k - 1]);
      assert states[k] == Next(states[k - 1], steps[k - 1]);
    }
  }

  /** The state after n pushes of x by the first sender. */
  function Pushed(s: State, x: Item, n: nat): State {
    s.(queue := seq(n, _ => x), accepted := seq(n, _ => x), notified := s.notified || n > 0)
  }

  /** The queue can be filled to any length up to its bound. */
  lemma {:induction false} FillsUp(s: State, x: Item, n: nat)
    requires Init(s) && |s.senders| >= 1 && n <= s.max
    ensures Reachable(s, Pushed(s, x, n)) && |Pushed(s, x, n).queue| == n
  {
    if n == 0 {
      ReachStart(s);
      assert Pushed(s, x, 0) == s;
    } else {
      FillsUp(s, x, n - 1);
      PushesOne(s, Pushed(s, x, n - 1), x);
      assert seq(n, _ => x) == seq(n - 1, _ => x) + [x];
    }
  }

  ghost predicate CanFail(s: State) {
    exists t, i: nat :: Reachable(s, t) && i < |t.readers| && t.readers[i].Failed?
  }

  /**
  The assertion of Pop can fail, from any initial state, exactly if there are two readers or more, a sender, and
  room for an item.
  */
  lemma FailsExactly(s: State)
    requires Init(s)
    ensures CanFail(s) <==> |s.readers| >= 2 && |s.senders| >= 1 && s.max > 0
  {
    if |s.readers| >= 2 && |s.senders| >= 1 && s.max > 0 {
      TwoReadersFail(s, 0);
    } else {
      forall t, i: nat | Reachable(s, t) && i < |t.readers| ensures !t.readers[i].Failed? {
        var states, steps :| IsRun(states, steps) && states[0] == s && states[|steps|] == t;
        if |s.readers| <= 1 {
          AssertionHolds(states, steps, |steps|);
        } else {
          QuietRun(states, steps, |steps|);
        }
      }
    }
  }
}
