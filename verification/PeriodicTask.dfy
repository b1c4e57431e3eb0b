/** The periodic task: a loop that runs a callable at time points spaced by an interval, until it is told to stop. */
module PeriodicTask {

  /** The last representable time point, in ticks of a signed 64-bit clock. */
  const MAX_TIME: int := 0x7FFF_FFFF_FFFF_FFFF

  /**
  What the surroundings do in one round: the clock when the loop looks at it, the clock and the stop request when
  the wait returns, whether the callable wants to go on, and the stop request afterwards.
  */
  datatype Round = Round(now: int, woken: int, stoppedWaiting: bool, goesOn: bool, stoppedAfter: bool)

  datatype Outcome =
    | Running       // the rounds given are over, the loop is not
    | Finished      // the loop was left and the promise set
    | Terminated    // the next time point would not be representable

  /** One call of the callable: the time point it is for, the clock, and whether a stop was requested by then. */
  datatype Call = Call(timePoint: int, at: int, stopped: bool)

  predicate Ends(r: Round) {
    !r.goesOn || r.stoppedAfter
  }

  /**
  A wait for the time point, with a predicate that is never true, returns at the time point or for a stop
  request.
  */
  predicate WaitReturns(r: Round, timePoint: int) {
    r.now <= timePoint ==> r.woken >= timePoint || r.stoppedWaiting
  }

  /** The time point of the k-th call, as the loop gets to it. */
  function TimePoint(first: int, interval: nat, k: nat): int {
    if k == 0 then first else TimePoint(first, interval, k - 1) + interval
  }

  /** Adding the interval again and again does not drift. */
  lemma {:induction false} NoDrift(first: int, interval: nat, k: nat)
    ensures TimePoint(first, interval, k) == first + k * interval
  {
    if k > 0 {
      NoDrift(first, interval, k - 1);
      assert k * interval == (k - 1) * interval + interval;
    }
  }

  /** The call of a round: after the wait, or at once if the time point is over. */
  function CallIn(r: Round, timePoint: int): Call {
    if r.now <= timePoint then Call(timePoint, r.woken, r.stoppedWaiting) else Call(timePoint, r.now, false)
  }

  predicate OnTime(call: Call) {
    call.at >= call.timePoint || call.stopped
  }

  /** The k-th call is for the k-th time point, which is representable, and not early unless a stop was requested. */
  predicate Scheduled(calls: seq<Call>, first: int, interval: nat) {
    forall k :: 0 <= k < |calls| ==> calls[k].timePoint == TimePoint(first, interval, k) <= MAX_TIME && OnTime(calls[k])
  }

  class PeriodicTask {
    var executionTimePoint: int
    const interval: nat
    var promiseSet: nat

    constructor (first: int, interval: nat)
      ensures executionTimePoint == first && this.interval == interval && promiseSet == 0
    {
      executionTimePoint := first;
      this.interval := interval;
      promiseSet := 0;
    }

    /** One round of the loop: wait, call, and decide. */
    method ExecuteRound(r: Round) returns (call: Call, outcome: Outcome)
      requires executionTimePoint <= MAX_TIME && WaitReturns(r, executionTimePoint)
      modifies this
      ensures call == CallIn(r, old(executionTimePoint)) && OnTime(call)
      ensures old(executionTimePoint) >= r.now ==> call == Call(old(executionTimePoint), r.woken, r.stoppedWaiting)
      ensures old(executionTimePoint) < r.now ==> call == Call(old(executionTimePoint), r.now, false)
      ensures outcome == Finished <==> !r.goesOn || r.stoppedAfter
      ensures outcome == Terminated <==> !Ends(r) && call.timePoint + interval > MAX_TIME
      ensures executionTimePoint == old(executionTimePoint) + if outcome == Running then interval else 0
      ensures promiseSet == old(promiseSet) + if outcome == Finished then 1 else 0
    {
      var waits := executionTimePoint >= r.now;
      call := Call(executionTimePoint, if waits then r.woken else r.now, waits && r.stoppedWaiting);
      if !r.goesOn || r.stoppedAfter {
        promiseSet := promiseSet + 1;
        return call, Finished;
      }
      if MAX_TIME - interval < executionTimePoint {
        return call, Terminated;
      }
      executionTimePoint := executionTimePoint + interval;
      outcome := Running;
    }

    /** The call operator, over the rounds that the surroundings provide. */
    method Execute(rounds: seq<Round>) returns (calls: seq<Call>, outcome: Outcome)
      requires executionTimePoint <= MAX_TIME
      requires forall k :: 0 <= k < |rounds| ==> WaitReturns(rounds[k], TimePoint(executionTimePoint, interval, k))
      modifies this
      ensures |calls| <= |rounds| && (rounds != [] ==> calls != [])
      ensures Scheduled(calls, old(executionTimePoint), interval)
      ensures forall k :: 0 <= k < |calls| ==> calls[k] == CallIn(rounds[k], calls[k].timePoint)
      ensures executionTimePoint
           == TimePoint(old(executionTimePoint), interval,
                        if outcome == Running || calls == [] then |calls| else |calls| - 1)
      ensures forall k :: 0 <= k < |calls| - 1 ==> !Ends(rounds[k])
      ensures outcome == Finished <==> calls != [] && Ends(rounds[|calls| - 1])
      ensures outcome == Terminated <==> calls != [] && !Ends(rounds[|calls| - 1])
                                         && calls[|calls| - 1].timePoint + interval > MAX_TIME
      ensures outcome == Running ==> |calls| == |rounds|
      ensures promiseSet == old(promiseSet) + if outcome == Finished then 1 else 0
    {
      calls, outcome := [], Running;
      while |calls| < |rounds| && outcome == Running
        invariant |calls| <= |rounds| && Scheduled(calls, old(executionTimePoint), interval)
        invariant forall k :: 0 <= k < |calls| ==> calls[k] == CallIn(rounds[k], calls[k].timePoint)
        invariant outcome == Running ==>
                    executionTimePoint == TimePoint(old(executionTimePoint), interval, |calls|) <= MAX_TIME
        invariant outcome != Running ==>
                    calls != [] && executionTimePoint == TimePoint(old(executionTimePoint), interval, |calls| - 1)
        invariant forall k :: 0 <= k < |calls| - 1 ==> !Ends(rounds[k])
        invariant outcome == Finished <==> calls != [] && Ends(rounds[|calls| - 1])
        invariant outcome == Terminated <==> calls != [] && !Ends(rounds[|calls| - 1])
                                             && calls[|calls| - 1].timePoint + interval > MAX_TIME
        invariant promiseSet == old(promiseSet) + if outcome == Finished then 1 else 0
        decreases |rounds| - |calls|
      {
        var call;
        call, outcome := ExecuteRound(rounds[|calls|]);
        calls := calls + [call];
      }
    }
  }
}
