/**
 * The dispatcher's tick loop as an object: one `Dispatcher` holds what `main`
 * keeps in local variables, and each method performs one part of the loop
 * body on those fields. Every method is tied to the step function of the
 * `Scheduler` module that describes it, so the invariants and the progress
 * measure proved there carry over to the object.
 */
module Loop {
  import opened Records
  import opened Selection
  import opened Admission
  import opened Scheduler

  class Dispatcher {
    var dispatchQueue: seq<Process>
    var currTime: int
    var numProcessed: int
    var rq: seq<seq<nat>>
    var running: Option<nat>
    var systemRunning: bool
    /** What the loop has asked of the operating system so far. */
    var trace: seq<Event>
    /** The records interrupted so far, in the order they finished. */
    ghost var finished: seq<nat>

    /** The loop's variables as one value. */
    ghost function State(): (m: Machine)
      reads this
    {
      Machine(dispatchQueue, currTime, numProcessed, rq, running, systemRunning, trace, finished)
    }

    /** The dispatch list built from the input (lines 42-51), with the clock
        at 0, the four ready queues empty and nothing running (lines 53-63). */
    constructor (lines: seq<Line>)
      requires forall l :: l in lines ==> 0 <= l.priority < Levels
      ensures State() == Initial(dispatchQueue)
      ensures |dispatchQueue| == |lines|
      ensures forall i :: 0 <= i < |lines| ==> dispatchQueue[i] == NewProc(lines[i].arrival, lines[i].priority, lines[i].procTime)
      ensures |rq| == Levels && Valid(State()) && Accounted(State()) && Interrupted(trace) == finished
      ensures WellFormed(lines) ==> Runnable(dispatchQueue, State())
    {
      var dq := LoadDispatchList(lines);
      dispatchQueue := dq;
      currTime := 0;
      numProcessed := 0;
      rq := [[], [], [], []];
      running := None;
      systemRunning := false;
      trace := [];
      finished := [];
      new;
      forall i | 0 <= i < |dq| ensures 0 <= dq[i].priority < Levels {
        assert lines[i] in lines;
      }
      if WellFormed(lines) {
        forall i | 0 <= i < |dq| ensures 0 <= dq[i].arrivalTime && (dq[i].priority == 0 ==> 1 <= dq[i].procTime) {
          assert lines[i] in lines;
        }
      }
    }

    /** Admission (lines 65-71): the records arriving at the current tick go,
        in dispatch-list order, to the back of their level's ready queue. */
    method AdmitArrivals()
      requires |rq| == Levels && forall i :: 0 <= i < |dispatchQueue| ==> 0 <= dispatchQueue[i].priority < Levels
      modifies this`rq, this`numProcessed
      ensures State() == AfterAdmit(old(State()))
    {
      var currProcs := GetProcsWithArrivalTime(dispatchQueue, currTime);
      numProcessed := numProcessed + |currProcs|;
      rq := Admit(dispatchQueue, rq, currProcs);
    }

    /** Completion (lines 72-78): a running record with no time left is sent
        SIGINT and the running slot and the level-0 flag are both cleared. */
    method Reap()
      requires running.Some? ==> running.value < |dispatchQueue|
      modifies this`running, this`systemRunning, this`trace, this`finished
      ensures State() == AfterReap(old(State()))
    {
      if running.Some? && dispatchQueue[running.value].procTime == 0 {
        var curr := running.value;
        trace := trace + [Interrupt(curr, dispatchQueue[curr].pid, currTime)];
        finished := finished + [curr];
        if systemRunning {
          systemRunning := false;
        }
        running := None;
      }
    }

    /** Dispatch (lines 80-85): when ready queue 0 is not empty and no level-0
        record holds the processor, its front is removed, started with the
        pid `forkPid` and made the running record. */
    method Dispatch(forkPid: int)
      requires |rq| == Levels && (rq[0] != [] ==> rq[0][0] < |dispatchQueue|)
      modifies this`rq, this`running, this`systemRunning, this`trace, this`dispatchQueue
      ensures State() == AfterDispatch(old(State()), forkPid)
    {
      if |rq[0]| > 0 && !systemRunning {
        var sysProc := rq[0][0];
        rq := rq[0 := rq[0][1..]];
        dispatchQueue := dispatchQueue[sysProc := dispatchQueue[sysProc].(pid := forkPid)];
        trace := trace + [Start(sysProc, currTime)];
        running := Some(sysProc);
        systemRunning := true;
      }
    }

    /** Execution and the clock (lines 87-90): the running record, if any, is
        charged one tick, and the clock advances. */
    method Execute()
      requires running.Some? ==> running.value < |dispatchQueue|
      modifies this`currTime, this`dispatchQueue
      ensures State() == AfterExecute(old(State()))
    {
      if running.Some? {
        var curr := running.value;
        dispatchQueue := dispatchQueue[curr := dispatchQueue[curr].(procTime := dispatchQueue[curr].procTime - 1)];
      }
      currTime := currTime + 1;
    }

    /** One iteration of the loop body (lines 65-92), `forkPid` being the pid
        `fork` returns if a record is started; the state stays one at the top
        of the loop. */
    method Tick(forkPid: int)
      requires Valid(State())
      modifies this
      ensures State() == Step(old(State()), forkPid)
      ensures Valid(State())
    {
      ghost var before := State();
      PhasesDefined(before, forkPid);
      StepValid(before, forkPid);
      AdmitArrivals();
      Reap();
      Dispatch(forkPid);
      Execute();
    }

    /**
     * The tick loop (lines 64-93), `fork(t)` being the pid `fork` returns
     * for a record started at tick `t`. On a runnable state whose arrival
     * times are not negative it stops, and then every record has been
     * admitted, exactly the level-0 ones have finished and ready queue `k`
     * for `k` in 1..3 holds exactly the level-`k` ones, each still as it was
     * loaded, with its pid and run time unchanged. The finished records are
     * exactly the ones the loop sent SIGINT, in the order it sent it, each
     * once, and none of them waits in a ready queue.
     */
    method Run(fork: int -> int)
      requires Runnable(dispatchQueue, State()) && Interrupted(trace) == finished
      modifies this
      ensures |rq| == Levels && Valid(State()) && Accounted(State())
      ensures !Continues(State()) && running == None && rq[0] == []
      ensures numProcessed == |dispatchQueue| && SameKeys(old(dispatchQueue), dispatchQueue)
      ensures forall h :: 0 <= h < |dispatchQueue| ==> (h in finished <==> dispatchQueue[h].priority == 0)
      ensures forall h :: 0 <= h < |dispatchQueue| && dispatchQueue[h].priority == 0 ==> dispatchQueue[h].procTime == 0
      ensures forall k, h :: 1 <= k < Levels && 0 <= h < |dispatchQueue| ==>
        (h in rq[k] <==> dispatchQueue[h].priority == k)
      ensures KeepsUpper(old(dispatchQueue), dispatchQueue)
      ensures Interrupted(trace) == finished && Unique(finished)
      ensures NoneQueued(rq, finished)
    {
      ghost var keys := dispatchQueue;
      while running.Some? || numProcessed != |dispatchQueue|
        invariant |rq| == Levels && Runnable(keys, State())
        invariant KeepsUpper(keys, dispatchQueue) && Interrupted(trace) == finished
        decreases Pending(State()), |rq[0]|, Slot(State())
      {
        ghost var before := State();
        LoopStep(keys, before, fork(currTime));
        StepKeepsUpper(before, fork(currTime));
        StepInterrupted(before, fork(currTime));
        Tick(fork(currTime));
      }
      FinalState(State());
      FinishedOnce(State());
      FinishedNeverQueued(State());
    }
  }
}
