/**
The outbound state of the remote app: writers change a flag and count the changes under a mutex; the publisher
notes the count under the mutex and reads the flag after letting it go. One step is one atomic action.
*/
module Publisher {
  import opened Common

  /** Generations are 64-bit. */
  const WRAP: nat := 0x1_0000_0000_0000_0000

  /** A writer in SetOutboundState. */
  datatype WriterPc =
    | Away
    | Locked(value: bool)   // holds the mutex, before the exchange
    | Changed               // holds the mutex, the flag has changed, the generation not yet

  datatype PublisherPc =
    | Waiting               // in wait_for, or about to be
    | Deciding              // holds the mutex
    | Loading               // has noted the generation and let the mutex go
    | Sending(value: bool)
    | Finished

  datatype Owner = Writer(w: nat) | ThePublisher

  datatype State = State(
    owner: Option<Owner>,
    flag: bool,
    generation: nat,
    running: bool,
    writers: seq<WriterPc>,
    publisher: PublisherPc,
    lastSent: nat,
    frame: Option<bool>,    // the last frame sent
    initial: bool,          // the flag at the start
    changes: nat,           // increments of the generation so far
    failures: nat,          // changes whose LED write failed, which are not counted
    stamp: int,             // the increments when the publisher last noted the generation, or -1
    loaded: int)            // the changes of the flag when the publisher last read it

  predicate Init(s: State) {
    && s.owner == None && s.flag == s.initial && s.generation == 0 && s.running
    && (forall w :: 0 <= w < |s.writers| ==> s.writers[w] == Away)
    && s.publisher == Waiting && s.lastSent == WRAP - 1 && s.frame == None
    && s.changes == 0 && s.failures == 0 && s.stamp == -1 && s.loaded == -1
  }

  datatype Step =
    | WriterStep(w: nat, value: bool, ledFails: bool)
    | PublisherStep(due: bool)    // whether the publication period is over
    | Stop                        // a signal, or the failure of some other thread

  predicate Enabled(s: State, step: Step) {
    match step
    case WriterStep(w, _, _) => w < |s.writers| && (s.writers[w].Away? ==> s.owner == None)
    case PublisherStep(_) => !s.publisher.Finished? && (s.publisher.Waiting? && s.running ==> s.owner == None)
    case Stop => true
  }

  function WriterNext(s: State, w: nat, value: bool, ledFails: bool): State
    requires w < |s.writers|
  {
    match s.writers[w]
    case Away => s.(owner := Some(Writer(w)), writers := s.writers[w := Locked(value)])
    case Locked(v) =>
      if s.flag == v then s.(owner := None, writers := s.writers[w := Away])
      else s.(flag := v, writers := s.writers[w := Changed])
    case Changed =>
      if ledFails then s.(running := false, failures := s.failures + 1, owner := None, writers := s.writers[w := Away])
      else s.(generation := (s.generation + 1) % WRAP, changes := s.changes + 1, owner := None,
              writers := s.writers[w := Away])
  }

  function PublisherNext(s: State, due: bool): State {
    match s.publisher
    case Waiting =>
      if !s.running then s.(publisher := Finished)
      else s.(owner := Some(ThePublisher), publisher := Deciding)
    case Deciding =>
      if !s.running then s.(owner := None, publisher := Finished)
      else if s.generation == s.lastSent && !due then s.(owner := None, publisher := Waiting)
      else s.(owner := None, publisher := Loading, lastSent := s.generation, stamp := s.changes)
    case Loading => s.(publisher := Sending(s.flag), loaded := Flips(s))
    case Sending(v) => s.(publisher := Waiting, frame := Some(v))
    case Finished => s
  }

  function Next(s: State, step: Step): State
    requires Enabled(s, step)
  {
    match step
    case WriterStep(w, value, ledFails) => WriterNext(s, w, value, ledFails)
    case PublisherStep(due) => PublisherNext(s, due)
    case Stop => s.(running := false)
  }

  predicate IsRun(states: seq<State>, steps: seq<Step>) {
    && |states| == |steps| + 1 && Init(states[0])
    && forall k {:trigger steps[k]} :: 0 <= k < |steps| ==>
        Enabled(states[k], steps[k]) && states[k + 1] == Next(states[k], steps[k])
  }

  /** A writer has changed the flag and not yet let the mutex go. */
  predicate MidChange(s: State) {
    match s.owner
    case Some(Writer(w)) => w < |s.writers| && s.writers[w].Changed?
    case _ => false
  }

  /** How often the flag has changed. */
  function Flips(s: State): nat {
    s.changes + s.failures + if MidChange(s) then 1 else 0
  }

  /** The initial value after so many changes. */
  function Flipped(initial: bool, n: int): bool {
    if n % 2 == 0 then initial else !initial
  }

  predicate LockInv(s: State) {
    && (forall w :: 0 <= w < |s.writers| ==> (!s.writers[w].Away? <==> s.owner == Some(Writer(w))))
    && (s.publisher.Deciding? <==> s.owner == Some(ThePublisher))
  }

  predicate FlagInv(s: State) {
    s.flag == Flipped(s.initial, Flips(s)) && (s.running ==> s.failures == 0)
  }

  predicate CountInv(s: State) {
    FlagInv(s) && s.generation == s.changes % WRAP
  }

  /** What the publisher noted and read, in terms of the changes. */
  predicate NoteInv(s: State) {
    && -1 <= s.stamp <= s.changes && s.lastSent == s.stamp % WRAP
    && s.loaded <= Flips(s)
    && (s.stamp >= 0 && !s.publisher.Loading? ==> s.stamp <= s.loaded)
    && (s.publisher.Sending? ==> s.publisher.value == Flipped(s.initial, s.loaded))
    && ((s.publisher.Waiting? || s.publisher.Deciding?) && s.stamp >= 0 ==>
          s.frame == Some(Flipped(s.initial, s.loaded)))
    && ((s.publisher.Loading? || s.publisher.Sending?) ==> s.stamp >= 0)
  }

  lemma LocksKept(s: State, step: Step)
    requires LockInv(s) && Enabled(s, step)
    ensures LockInv(Next(s, step))
  {
  }

  lemma FlagKept(s: State, step: Step)
    requires LockInv(s) && FlagInv(s) && Enabled(s, step)
    ensures FlagInv(Next(s, step))
  {
    match step
    case WriterStep(w, _, _) =>
    case PublisherStep(_) =>
    case Stop =>
  }

  lemma NextGeneration(n: nat)
    ensures (n % WRAP + 1) % WRAP == (n + 1) % WRAP
  {
    var q := n / WRAP;
    assert n == WRAP * q + n % WRAP;
    if n % WRAP == WRAP - 1 {
      assert n + 1 == WRAP * (q + 1);
    } else {
      assert n + 1 == WRAP * q + (n % WRAP + 1);
    }
  }

  lemma CountsKept(s: State, step: Step)
    requires LockInv(s) && CountInv(s) && Enabled(s, step)
    ensures CountInv(Next(s, step))
  {
    FlagKept(s, step);
    NextGeneration(s.changes);
  }

  lemma NotesKept(s: State, step: Step)
    requires LockInv(s) && CountInv(s) && NoteInv(s) && Enabled(s, step)
    ensures NoteInv(Next(s, step))
  {
  }

  lemma {:induction false} RunInv(states: seq<State>, steps: seq<Step>, k: nat)
    requires IsRun(states, steps) && k < |states|
    ensures LockInv(states[k]) && CountInv(states[k]) && NoteInv(states[k])
  {
    if k > 0 {
      RunInv(states, steps, k - 1);
      LocksKept(states[k - 1], steps[k - 1]);
      CountsKept(states[k - 1], steps[k - 1]);
      NotesKept(states[k - 1], steps[k - 1]);
      assert states[k] == Next(states[k - 1], steps[k - 1]);
    }
  }

  /** Equal generations, less than a wrap-around apart, are the same generation. */
  lemma SameGeneration(changes: nat, stamp: int)
    requires -1 <= stamp <= changes < stamp + WRAP && changes % WRAP == stamp % WRAP
    ensures changes == stamp
  {
    var q, p := changes / WRAP, stamp / WRAP;
    assert changes - stamp == WRAP * (q - p);
  }

  lemma WrapKeepsParity(n: nat)
    ensures n % WRAP % 2 == n % 2
  {
    assert n == WRAP * (n / WRAP) + n % WRAP;
    assert WRAP == 2 * (WRAP / 2);
    assert n - n % WRAP == 2 * ((WRAP / 2) * (n / WRAP));
  }

  /**
  The generation counts the changes: between changes, the flag is the initial one flipped by the parity of the
  generation, exactly if an even number of LED writes failed; while the app runs, none has.
  */
  lemma GenerationCounts(states: seq<State>, steps: seq<Step>, k: nat)
    requires IsRun(states, steps) && k < |states| && !MidChange(states[k])
    ensures states[k].flag == Flipped(states[k].initial, states[k].generation) <==> states[k].failures % 2 == 0
    ensures states[k].running ==> states[k].failures == 0
  {
    RunInv(states, steps, k);
    WrapKeepsParity(states[k].changes);
  }

  predicate Idle(p: PublisherPc) {
    p.Waiting? || p.Deciding?
  }

  /**
  Nothing is lost: with the publisher idle, no writer in the middle of a change, the app running and no newer
  generation, the last frame carries the current flag, although it was read after the mutex was let go.
  */
  lemma LastFrameIsCurrent(states: seq<State>, steps: seq<Step>, k: nat)
    requires IsRun(states, steps) && k < |states|
    requires var s := states[k];
             && Idle(s.publisher) && !MidChange(s) && s.running
             && s.generation == s.lastSent && s.changes < s.stamp + WRAP
    ensures states[k].frame == Some(states[k].flag)
  {
    RunInv(states, steps, k);
    SameGeneration(states[k].changes, states[k].stamp);
  }

  /**
  In general an idle publisher's last frame is current exactly if the flag has changed an even number of times
  since it was read.
  */
  lemma FrameParity(states: seq<State>, steps: seq<Step>, k: nat)
    requires IsRun(states, steps) && k < |states| && Idle(states[k].publisher) && states[k].stamp >= 0
    ensures states[k].frame == Some(states[k].flag) <==> (Flips(states[k]) - states[k].loaded) % 2 == 0
  {
    RunInv(states, steps, k);
  }

  // ----- SetOutboundState -----

  predicate SameCounts(s: State, t: State) {
    t.generation == s.generation && t.changes == s.changes && t.failures == s.failures
  }

  /** What a writer that took the mutex in state s, to set the flag to v, has done so far in state t. */
  predicate SetSoFar(s: State, t: State, w: nat, v: bool) {
    && |t.writers| == |s.writers| && w < |t.writers| && SameCounts(s, t)
    && match t.writers[w]
       case Away => false
       case Locked(x) => x == v && t.flag == s.flag
       case Changed => s.flag != v && t.flag == v
  }

  /** While a writer has the mutex, no other thread changes the flag or the counts. */
  lemma OthersKeepFlag(s: State, step: Step, w: nat)
    requires LockInv(s) && Enabled(s, step) && w < |s.writers| && !s.writers[w].Away?
    requires !(step.WriterStep? && step.w == w)
    ensures var s' := Next(s, step);
            |s'.writers| == |s.writers| && s'.writers[w] == s.writers[w] && s'.flag == s.flag && SameCounts(s, s')
  {
  }

  lemma {:induction false} SetRun(states: seq<State>, steps: seq<Step>, i: nat, k: nat, w: nat, v: bool, led: bool)
    requires IsRun(states, steps) && i < k < |states| && w < |states[i].writers| && states[i].writers[w].Away?
    requires steps[i] == WriterStep(w, v, led)
    requires forall m :: i < m <= k ==> w < |states[m].writers| && !states[m].writers[w].Away?
    ensures SetSoFar(states[i], states[k], w, v)
    decreases k
  {
    RunInv(states, steps, k - 1);
    assert states[k] == Next(states[k - 1], steps[k - 1]);
    if i < k - 1 {
      SetRun(states, steps, i, k - 1, w, v, led);
      if !(steps[k - 1].WriterStep? && steps[k - 1].w == w) { OthersKeepFlag(states[k - 1], steps[k - 1], w); }
    }
  }

  /**
  SetOutboundState, from taking the mutex to letting it go, under every interleaving: the flag then has the value
  that was asked for. If it had it already nothing changes; otherwise the change is counted, unless the LED write
  fails, which stops the app.
  */
  lemma SetsTheFlag(states: seq<State>, steps: seq<Step>, i: nat, k: nat, w: nat, v: bool, led: bool)
    requires IsRun(states, steps) && i < k < |steps| && w < |states[i].writers| && states[i].writers[w].Away?
    requires steps[i] == WriterStep(w, v, led)
    requires forall m :: i < m <= k ==> w < |states[m].writers| && !states[m].writers[w].Away?
    requires w < |states[k + 1].writers| && states[k + 1].writers[w].Away?
    ensures steps[k].WriterStep? && steps[k].w == w
    ensures var s, t := states[i], states[k + 1];
            && t.flag == v
            && (s.flag == v ==> SameCounts(s, t))
            && (s.flag != v && !steps[k].ledFails ==>
                  t.generation == (s.generation + 1) % WRAP && t.changes == s.changes + 1 && t.failures == s.failures)
            && (s.flag != v && steps[k].ledFails ==>
                  t.generation == s.generation && t.failures == s.failures + 1 && !t.running)
  {
    RunInv(states, steps, k);
    SetRun(states, steps, i, k, w, v, led);
    assert states[k + 1] == Next(states[k], steps[k]);
    if !(steps[k].WriterStep? && steps[k].w == w) { OthersKeepFlag(states[k], steps[k], w); }
  }

  // ----- the publisher's loop -----

  /**
  A round of the publisher, undisturbed: with a new generation, or at the end of the period, it sends the flag and
  notes the generation; otherwise it sends nothing and goes back to waiting.
  */
  lemma RoundAlone(s: State, due: bool, a: bool, b: bool, c: bool)
    requires s.publisher == Waiting && s.owner == None && s.running
    ensures Enabled(s, PublisherStep(a))
    ensures var s1 := PublisherNext(s, a);
            && Enabled(s1, PublisherStep(due))
            && var s2 := PublisherNext(s1, due);
            if s.generation == s.lastSent && !due then s2 == s
            else
              && Enabled(s2, PublisherStep(b))
              && var s3 := PublisherNext(s2, b);
              && Enabled(s3, PublisherStep(c))
              && var s4 := PublisherNext(s3, c);
              && s4.publisher == Waiting && s4.frame == Some(s.flag) && s4.lastSent == s.generation
              && s4 == s.(frame := s4.frame, lastSent := s4.lastSent, stamp := s4.stamp, loaded := s4.loaded)
  {
  }

  /** After a stop, a publisher that waits or decides leaves without sending. */
  lemma StopEnds(s: State, a: bool)
    requires Idle(s.publisher) && Enabled(s, PublisherStep(a))
    ensures var s1 := Next(s, Stop);
            && Enabled(s1, PublisherStep(a))
            && Next(s1, PublisherStep(a)).publisher == Finished && Next(s1, PublisherStep(a)).frame == s.frame
  {
  }

  /** What the publisher has done in state k since it noted the generation in step i. */
  ghost predicate SendSoFar(states: seq<State>, i: nat, k: nat)
    requires i < k < |states|
  {
    && states[k].lastSent == states[i].generation
    && match states[k].publisher
       case Loading => true
       case Sending(v) => exists m :: i < m < k && states[m].flag == v
       case _ => false
  }

  lemma {:induction false} SendRun(states: seq<State>, steps: seq<Step>, i: nat, k: nat)
    requires IsRun(states, steps) && i < k < |states| && states[i].publisher.Deciding?
    requires forall m :: i < m <= k ==> states[m].publisher.Loading? || states[m].publisher.Sending?
    ensures SendSoFar(states, i, k)
    decreases k
  {
    assert states[k] == Next(states[k - 1], steps[k - 1]);
    if i < k - 1 {
      SendRun(states, steps, i, k - 1);
      if steps[k - 1].PublisherStep? { assert states[k - 1].flag == states[k].publisher.value; }
    }
  }

  /**
  The publisher decides to send exactly if the app runs and the generation is new or the period is over; what it
  then sends, under every interleaving, is a value the flag had after that decision, and the generation it has
  noted is the one of the decision.
  */
  lemma Publishes(states: seq<State>, steps: seq<Step>, i: nat, k: nat, due: bool)
    requires IsRun(states, steps) && i < k < |steps|
    requires states[i].publisher.Deciding? && steps[i] == PublisherStep(due)
    requires forall m :: i < m <= k ==> states[m].publisher.Loading? || states[m].publisher.Sending?
    requires states[k + 1].publisher.Waiting?
    ensures states[i].running && (states[i].generation != states[i].lastSent || due)
    ensures states[k + 1].lastSent == states[i].generation
    ensures exists m :: i < m < k && states[k + 1].frame == Some(states[m].flag)
  {
    SendRun(states, steps, i, k);
    assert states[i + 1] == Next(states[i], steps[i]);
    assert states[k + 1] == Next(states[k], steps[k]);
  }

  // ----- a failed LED write -----

  /** The states of one writer whose LED write fails, after k steps. */
  function Failing(s: State, k: nat): State
    requires k <= 3 && s.writers == [Away]
  {
    var v := !s.initial;
    if k == 0 then s
    else if k == 1 then s.(owner := Some(Writer(0)), writers := [Locked(v)])
    else if k == 2 then s.(owner := Some(Writer(0)), writers := [Changed], flag := v)
    else s.(flag := v, running := false, failures := 1)
  }

  /** A failed LED write changes the flag and not the generation: the flag no longer follows its parity. */
  lemma FailureUncounted(s: State) returns (states: seq<State>, steps: seq<Step>)
    requires Init(s) && s.writers == [Away]
    ensures IsRun(states, steps) && states[0] == s && WriterStep(0, !s.initial, true) in steps
    ensures var t := states[|steps|];
            t.failures == 1 && !MidChange(t) && t.flag != Flipped(t.initial, t.generation)
  {
    var step := WriterStep(0, !s.initial, true);
    states, steps := [s, Failing(s, 1), Failing(s, 2), Failing(s, 3)], [step, step, step];
    assert Next(s, step) == Failing(s, 1);
    assert Next(Failing(s, 1), step) == Failing(s, 2);
    assert Next(Failing(s, 2), step) == Failing(s, 3);
  }
}
