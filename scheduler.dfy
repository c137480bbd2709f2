/**
 * The dispatcher's tick loop as a state machine. A `Machine` holds what the
 * loop keeps in local variables: the dispatch list, the simulated clock, the
 * count of admitted records, the four ready queues, the running slot and the
 * level-0-running flag. Queues and the running slot hold handles into the
 * dispatch list, as the loop holds references into it. The OS side of starting
 * and interrupting a process is recorded as events in `trace`; the pid that
 * `fork` returns is a parameter. Each part of the loop body is a function
 * on machines, and the lemmas say what a tick keeps and how it progresses.
 */
module Scheduler {
  import opened Records
  import opened Selection
  import opened Admission

  /** What the loop asks of the operating system. */
  datatype Event =
    | Start(proc: nat, tick: int)                // fork/exec of the workload for record `proc`
    | Interrupt(proc: nat, pid: int, tick: int)  // SIGINT to the process of a finished record

  /** The records sent SIGINT in trace `tr`, in the order they were sent it. */
  function Interrupted(tr: seq<Event>): (hs: seq<nat>)
    ensures |hs| <= |tr|
  {
    if tr == [] then []
    else Interrupted(tr[..|tr| - 1]) + (if tr[|tr| - 1].Interrupt? then [tr[|tr| - 1].proc] else [])
  }

  /** One more event adds its record to the interrupted ones exactly when it
      is a SIGINT. */
  lemma InterruptedSnoc(tr: seq<Event>, e: Event)
    ensures Interrupted(tr + [e]) == Interrupted(tr) + (if e.Interrupt? then [e.proc] else [])
  {
    assert (tr + [e])[..|tr|] == tr;
  }

  /** Input the loop is guaranteed to finish on: every arrival time is met by
      the clock and every level-0 record needs at least one tick. */
  predicate WellFormed(lines: seq<Line>)
  {
    forall l :: l in lines ==>
      0 <= l.arrival && 0 <= l.priority < Levels && (l.priority == 0 ==> 1 <= l.procTime)
  }

  /** The handles of the records of `dq` whose arrival time is `arrivalTime`,
      front to back; the list itself is left as it is. */
  method GetProcsWithArrivalTime(dq: seq<Process>, arrivalTime: int) returns (procList: seq<nat>)
    ensures procList == Arrivals(dq, arrivalTime)
    ensures Increasing(procList)
    ensures forall h: nat :: h in procList <==> h < |dq| && dq[h].arrivalTime == arrivalTime
  {
    procList := [];
    var i := 0;
    while i < |dq|
      invariant 0 <= i <= |dq|
      invariant procList == Select(dq, Handles(i), ArrivesAt(arrivalTime))
    {
      SelectSnoc(dq, Handles(i), i, ArrivesAt(arrivalTime));
      if dq[i].arrivalTime == arrivalTime {
        procList := procList + [i];
      }
      i := i + 1;
    }
    ArrivalsExact(dq, arrivalTime);
  }

  /** A new record per input line, in input order (lines 42-51 without the
      reading and parsing). */
  method LoadDispatchList(lines: seq<Line>) returns (dq: seq<Process>)
    ensures |dq| == |lines|
    ensures forall i :: 0 <= i < |lines| ==>
      && dq[i].arrivalTime == lines[i].arrival && dq[i].priority == lines[i].priority
      && dq[i].procTime == lines[i].procTime && dq[i].pid == 0
  {
    dq := [];
    var i := 0;
    while i < |lines|
      invariant 0 <= i <= |lines| && |dq| == i
      invariant forall j :: 0 <= j < i ==>
        && dq[j].arrivalTime == lines[j].arrival && dq[j].priority == lines[j].priority
        && dq[j].procTime == lines[j].procTime && dq[j].pid == 0
    {
      var proc := NewProc(lines[i].arrival, lines[i].priority, lines[i].procTime);
      dq := dq + [proc];
      i := i + 1;
    }
  }

  /** The ready queues after each arrival is appended to the back of the
      queue its priority names. */
  function Enqueue(dq: seq<Process>, rq: seq<seq<nat>>, arrivals: seq<nat>): (r: seq<seq<nat>>)
    requires |rq| == Levels
  {
    [ rq[0] + Select(dq, arrivals, AtLevel(0)), rq[1] + Select(dq, arrivals, AtLevel(1)),
      rq[2] + Select(dq, arrivals, AtLevel(2)), rq[3] + Select(dq, arrivals, AtLevel(3)) ]
  }

  /** Enqueueing no arrivals leaves the queues as they are. */
  lemma EnqueueNothing(dq: seq<Process>, rq: seq<seq<nat>>)
    requires |rq| == Levels
    ensures Enqueue(dq, rq, []) == rq
  {
    var e := Enqueue(dq, rq, []);
    forall k | 0 <= k < |rq| ensures e[k] == rq[k] {
      assert e[k] == rq[k] + Select(dq, [], AtLevel(k));
    }
  }

  /** Ready queue `k` after enqueueing: its old contents, then the arrivals
      of level `k` in arrival order. */
  lemma EnqueueAt(dq: seq<Process>, rq: seq<seq<nat>>, arrivals: seq<nat>, k: int)
    requires |rq| == Levels && 0 <= k < Levels
    ensures Enqueue(dq, rq, arrivals)[k] == rq[k] + Select(dq, arrivals, AtLevel(k))
  {
    assert k == 0 || k == 1 || k == 2 || k == 3;
  }

  /** Enqueueing one more arrival appends it to its own level only. */
  lemma EnqueueOne(dq: seq<Process>, rq: seq<seq<nat>>, arrivals: seq<nat>, h: nat)
    requires |rq| == Levels && h < |dq| && 0 <= dq[h].priority < Levels
    ensures var e := Enqueue(dq, rq, arrivals);
      Enqueue(dq, rq, arrivals + [h]) == e[dq[h].priority := e[dq[h].priority] + [h]]
  {
    var p, e, e' := dq[h].priority, Enqueue(dq, rq, arrivals), Enqueue(dq, rq, arrivals + [h]);
    var u := e[p := e[p] + [h]];
    forall k | 0 <= k < Levels ensures e'[k] == u[k] {
      EnqueueAt(dq, rq, arrivals, k);
      EnqueueAt(dq, rq, arrivals + [h], k);
      SelectSnoc(dq, arrivals, h, AtLevel(k));
      if k == p {
        AppendAssoc(rq[k], Select(dq, arrivals, AtLevel(k)), [h]);
      } else {
        assert e'[k] == rq[k] + Select(dq, arrivals, AtLevel(k)) + [];
      }
    }
  }

  /** Concatenation does not depend on grouping. */
  lemma AppendAssoc<T>(a: seq<T>, b: seq<T>, c: seq<T>)
    ensures a + (b + c) == (a + b) + c
  {
  }

  /** Admission's loop (lines 68-71): appends each record, in order, to the
      back of the ready queue its priority names. */
  method Admit(dq: seq<Process>, rq: seq<seq<nat>>, currProcs: seq<nat>) returns (queues: seq<seq<nat>>)
    requires |rq| == Levels
    requires forall h :: h in currProcs ==> h < |dq| && 0 <= dq[h].priority < Levels
    ensures queues == Enqueue(dq, rq, currProcs)
  {
    queues := rq;
    var i := 0;
    EnqueueNothing(dq, rq);
    assert currProcs[..0] == [];
    while i < |currProcs|
      invariant 0 <= i <= |currProcs|
      invariant queues == Enqueue(dq, rq, currProcs[..i])
    {
      var currProc := currProcs[i];
      assert currProc in currProcs;
      assert currProcs[..i + 1] == currProcs[..i] + [currProc];
      EnqueueOne(dq, rq, currProcs[..i], currProc);
      queues := queues[dq[currProc].priority := queues[dq[currProc].priority] + [currProc]];
      i := i + 1;
    }
    assert currProcs[..i] == currProcs;
  }

  /** The running slot as a sequence of zero or one handles. */
  function SlotOf(r: Option<nat>): (s: seq<nat>)
  {
    if r.Some? then [r.value] else []
  }

  /** The running record exists and has no time left (line 72). */
  predicate UsedUp(dq: seq<Process>, r: Option<nat>)
  {
    r.Some? && r.value < |dq| && dq[r.value].procTime == 0
  }

  /**
   * Where the admitted records `a` are, in admission order: the level-0 ones
   * have finished, are running or wait in ready queue 0, in that order, and
   * the level-`k` ones for `k` in 1..3 all wait in ready queue `k`.
   */
  predicate Settled(dq: seq<Process>, a: seq<nat>, q: seq<seq<nat>>, done: seq<nat>, r: Option<nat>)
    requires |q| == Levels
  {
    && done + SlotOf(r) + q[0] == Select(dq, a, AtLevel(0))
    && q[1] == Select(dq, a, AtLevel(1))
    && q[2] == Select(dq, a, AtLevel(2))
    && q[3] == Select(dq, a, AtLevel(3))
  }

  /** Admission (lines 65-71) appends the arrivals to the admitted records
      and each of them to its level's queue: the records stay settled. */
  lemma AdmitSettled(dq: seq<Process>, a: seq<nat>, arrivals: seq<nat>, q: seq<seq<nat>>, done: seq<nat>, r: Option<nat>)
    requires |q| == Levels && Settled(dq, a, q, done, r)
    ensures Settled(dq, a + arrivals, Enqueue(dq, q, arrivals), done, r)
  {
    var e := Enqueue(dq, q, arrivals);
    forall k | 0 <= k < Levels
      ensures e[k] == q[k] + Select(dq, arrivals, AtLevel(k))
      ensures Select(dq, a + arrivals, AtLevel(k)) == Select(dq, a, AtLevel(k)) + Select(dq, arrivals, AtLevel(k))
    {
      SelectAppend(dq, a, arrivals, AtLevel(k));
    }
    assert done + SlotOf(r) + e[0] == (done + SlotOf(r) + q[0]) + Select(dq, arrivals, AtLevel(0));
  }

  /** Completion (lines 72-78) moves the running record to the finished ones:
      the records stay settled. */
  lemma ReapSettled(dq: seq<Process>, a: seq<nat>, q: seq<seq<nat>>, done: seq<nat>, r: nat)
    requires |q| == Levels && Settled(dq, a, q, done, Some(r))
    ensures Settled(dq, a, q, done + [r], None)
  {
    assert done + [r] + [] + q[0] == done + [r] + q[0];
  }

  /** Dispatch (lines 80-85) moves the front of ready queue 0 to the empty
      running slot: the records stay settled. */
  lemma DispatchSettled(dq: seq<Process>, a: seq<nat>, q: seq<seq<nat>>, done: seq<nat>)
    requires |q| == Levels && q[0] != [] && Settled(dq, a, q, done, None)
    ensures Settled(dq, a, q[0 := q[0][1..]], done, Some(q[0][0]))
  {
    assert q[0] == [q[0][0]] + q[0][1..];
    assert done + [] + q[0] == done + [q[0][0]] + q[0][1..];
  }

  /** One tick's moves (lines 65-85) keep the admitted records settled: the
      arrivals join their queues, a reaped record leaves the running slot for
      the finished ones, and a dispatched one leaves the front of ready queue
      0 for the running slot, which it finds empty. */
  lemma StepSettled(dq: seq<Process>, a: seq<nat>, arrivals: seq<nat>, q: seq<seq<nat>>, done: seq<nat>,
                    r: Option<nat>, reaped: bool, dispatched: bool)
    requires |q| == Levels && Settled(dq, a, q, done, r)
    requires reaped ==> r.Some?
    requires dispatched ==> Enqueue(dq, q, arrivals)[0] != [] && (reaped || r.None?)
    ensures var e := Enqueue(dq, q, arrivals);
      Settled(dq, a + arrivals,
              if dispatched then e[0 := e[0][1..]] else e,
              done + (if reaped then [r.value] else []),
              if dispatched then Some(e[0][0]) else if reaped then None else r)
  {
    var e := Enqueue(dq, q, arrivals);
    AdmitSettled(dq, a, arrivals, q, done, r);
    var done1, r1 := done, r;
    if reaped {
      ReapSettled(dq, a + arrivals, e, done, r.value);
      done1, r1 := done + [r.value], None;
    }
    assert Settled(dq, a + arrivals, e, done1, r1);
    if dispatched {
      DispatchSettled(dq, a + arrivals, e, done1);
    }
  }

  /** Being settled only looks at priorities. */
  lemma SettledSameKeys(dq: seq<Process>, dq': seq<Process>, a: seq<nat>, q: seq<seq<nat>>, done: seq<nat>, r: Option<nat>)
    requires |q| == Levels && SameKeys(dq, dq')
    ensures Settled(dq, a, q, done, r) <==> Settled(dq', a, q, done, r)
  {
    forall k | 0 <= k < Levels ensures Select(dq, a, AtLevel(k)) == Select(dq', a, AtLevel(k)) {
      SelectSameKeys(dq, dq', a, AtLevel(k));
    }
  }

  /** Once nothing runs and nothing waits at level 0, the finished records
      are the admitted level-0 ones, and ready queue `k`, for `k` in 1..3,
      holds the admitted level-`k` ones. */
  lemma SettledMember(dq: seq<Process>, a: seq<nat>, q: seq<seq<nat>>, done: seq<nat>, h: nat)
    requires |q| == Levels && q[0] == [] && Settled(dq, a, q, done, None)
    ensures h in done <==> h in a && Meets(dq, AtLevel(0), h)
    ensures forall k :: 1 <= k < Levels ==> (h in q[k] <==> h in a && Meets(dq, AtLevel(k), h))
  {
    assert done + [] + [] == done;
    forall k | 0 <= k < Levels ensures h in Select(dq, a, AtLevel(k)) <==> h in a && Meets(dq, AtLevel(k), h) {
      SelectMember(dq, a, AtLevel(k), h);
    }
  }

  /** The handles of `s` name level-0 records of `dq` that have arrived before
      tick `t`. */
  predicate Held(dq: seq<Process>, t: int, s: seq<nat>)
  {
    forall i :: 0 <= i < |s| ==> s[i] < |dq| && dq[s[i]].priority == 0 && dq[s[i]].arrivalTime < t
  }

  /** Appending the level-0 records arriving at `t` to ready queue 0 keeps it
      duplicate-free and made of arrived level-0 records, and none of the
      newcomers is already finished or running, since those arrived before
      `t`. */
  lemma HeldAdmit(dq: seq<Process>, t: int, q0: seq<nat>, done: seq<nat>, r: Option<nat>)
    requires Unique(q0) && Held(dq, t, q0) && Held(dq, t, done)
    requires r.Some? ==> r.value < |dq| && dq[r.value].arrivalTime < t
    ensures var new0 := Select(dq, Arrivals(dq, t), AtLevel(0));
      && Unique(q0 + new0) && Held(dq, t + 1, q0 + new0)
      && (forall h :: h in new0 ==> h !in done)
      && (r.Some? ==> r.value !in new0)
  {
    var arrivals := Arrivals(dq, t);
    var new0 := Select(dq, arrivals, AtLevel(0));
    ArrivalsExact(dq, t);
    assert Unique(arrivals);
    SelectUnique(dq, arrivals, AtLevel(0));
    forall h | h in new0 ensures h < |dq| && dq[h].priority == 0 && dq[h].arrivalTime == t {
      SelectMember(dq, arrivals, AtLevel(0), h);
    }
    forall h | h in new0
      ensures (forall i :: 0 <= i < |q0| ==> q0[i] != h) && (forall i :: 0 <= i < |done| ==> done[i] != h)
    {
    }
    UniqueAppend(q0, new0);
    var c := q0 + new0;
    forall i | 0 <= i < |c| ensures c[i] < |dq| && dq[c[i]].priority == 0 && dq[c[i]].arrivalTime < t + 1 {
      if i >= |q0| {
        assert c[i] == new0[i - |q0|] && new0[i - |q0|] in new0;
      }
    }
  }

  /** Every finished record has used up its time. */
  predicate AllDone(dq: seq<Process>, done: seq<nat>)
  {
    forall i :: 0 <= i < |done| ==> done[i] < |dq| && dq[done[i]].procTime == 0
  }

  /**
   * The records `dq` at tick `t`, with `q0` waiting in ready queue 0 and `r`
   * running, can still be run to completion: the level-0 ones not yet
   * admitted and the queued ones need at least one tick, and the running one
   * is not overdrawn.
   */
  predicate LiveState(dq: seq<Process>, t: int, q0: seq<nat>, r: Option<nat>)
  {
    && (forall i :: 0 <= i < |dq| && dq[i].priority == 0 && t <= dq[i].arrivalTime ==> 1 <= dq[i].procTime)
    && (forall h :: h in q0 && h < |dq| ==> 1 <= dq[h].procTime)
    && (r.Some? && r.value < |dq| ==> 0 <= dq[r.value].procTime)
  }

  /** Admitting the records that arrive at `t` to the back of ready queue 0
      keeps everything that queue holds runnable. */
  lemma LiveAdmit(dq: seq<Process>, t: int, q0: seq<nat>, r: Option<nat>)
    requires LiveState(dq, t, q0, r)
    ensures LiveState(dq, t, q0 + Select(dq, Arrivals(dq, t), AtLevel(0)), r)
  {
    var arrivals := Arrivals(dq, t);
    ArrivalsExact(dq, t);
    forall h | h in q0 + Select(dq, arrivals, AtLevel(0)) && h < |dq| ensures 1 <= dq[h].procTime {
      SelectMember(dq, arrivals, AtLevel(0), h);
    }
  }

  /**
   * The tick loop's state (lines 53-63): the dispatch list, the simulated
   * clock, the count of admitted records, the four ready queues, the running
   * slot and the flag saying a level-0 record holds the processor, with
   * `trace` recording what the loop asks of the operating system and
   * `finished` the records interrupted so far.
   */
  datatype Machine = Machine(
    dispatchQueue: seq<Process>,
    currTime: int,
    numProcessed: int,
    rq: seq<seq<nat>>,
    running: Option<nat>,
    systemRunning: bool,
    trace: seq<Event>,
    finished: seq<nat>)

  /** The state before the first tick: clock 0, nothing admitted, the four
      ready queues empty and nothing running. */
  function Initial(dq: seq<Process>): (m: Machine)
  {
    Machine(dq, 0, 0, [[], [], [], []], None, false, [], [])
  }

  /** Admission (lines 65-71): the records arriving at the current tick, in
      dispatch-list order, go to the back of their level's ready queue, and
      the count of admitted records grows by their number. */
  function AfterAdmit(m: Machine): (m': Machine)
    requires |m.rq| == Levels
  {
    var arrivals := Arrivals(m.dispatchQueue, m.currTime);
    m.(rq := Enqueue(m.dispatchQueue, m.rq, arrivals), numProcessed := m.numProcessed + |arrivals|)
  }

  /** Completion (lines 72-78): a running record with no time left is sent
      SIGINT, and the running slot and the level-0 flag are both cleared. */
  function AfterReap(m: Machine): (m': Machine)
  {
    if UsedUp(m.dispatchQueue, m.running) then
      var h := m.running.value;
      m.(running := None, systemRunning := false, finished := m.finished + [h],
         trace := m.trace + [Interrupt(h, m.dispatchQueue[h].pid, m.currTime)])
    else m
  }

  /** Dispatch (lines 80-85): when ready queue 0 is not empty and no level-0
      record holds the processor, its front is removed, started with pid
      `forkPid` and made the running record. */
  function AfterDispatch(m: Machine, forkPid: int): (m': Machine)
    requires |m.rq| == Levels
  {
    if |m.rq[0]| > 0 && !m.systemRunning then
      var h := m.rq[0][0];
      m.(rq := m.rq[0 := m.rq[0][1..]],
         dispatchQueue := if h < |m.dispatchQueue| then m.dispatchQueue[h := m.dispatchQueue[h].(pid := forkPid)] else m.dispatchQueue,
         trace := m.trace + [Start(h, m.currTime)], running := Some(h), systemRunning := true)
    else m
  }

  /** Execution and the clock (lines 87-90): the running record, if any, is
      charged one tick, and the clock advances. */
  function AfterExecute(m: Machine): (m': Machine)
  {
    var dq := m.dispatchQueue;
    if m.running.Some? && m.running.value < |dq| then
      var h := m.running.value;
      m.(dispatchQueue := dq[h := dq[h].(procTime := dq[h].procTime - 1)], currTime := m.currTime + 1)
    else m.(currTime := m.currTime + 1)
  }

  /**
   * What every step keeps, with admission done for the ticks before
   * `clock`: every priority names one of the four queues; the flag is set
   * exactly when something runs; the finished, running and level-0 queued
   * records are arrived level-0 records, each held in one place only; and
   * a finished record has no time left.
   */
  ghost predicate Inv(m: Machine, clock: int)
  {
    var dq := m.dispatchQueue;
    && |m.rq| == Levels
    && (forall i :: 0 <= i < |dq| ==> 0 <= dq[i].priority < Levels)
    && (m.systemRunning <==> m.running.Some?)
    && Held(dq, clock, m.finished) && Held(dq, clock, m.rq[0]) && Unique(m.rq[0])
    && (m.running.Some? ==>
          && m.running.value < |dq| && dq[m.running.value].priority == 0
          && dq[m.running.value].arrivalTime < clock
          && m.running.value !in m.rq[0] && m.running.value !in m.finished)
    && (forall h :: h in m.rq[0] ==> h !in m.finished)
    && AllDone(dq, m.finished)
  }

  /** The state at the top of the loop: admission is done for the ticks
      before the clock, and a waiting level-0 record means the processor is
      busy. */
  ghost predicate Valid(m: Machine)
  {
    Inv(m, m.currTime) && (m.rq[0] != [] ==> m.running.Some?)
  }

  /**
   * The bookkeeping ties up with the dispatch list: the records admitted by
   * the ticks before the clock are settled, in admission order, in the
   * ready queues, the running slot and the finished list, and
   * `numProcessed` counts them.
   */
  ghost predicate Accounted(m: Machine)
  {
    var admitted := Admitted(m.dispatchQueue, m.currTime);
    && |m.rq| == Levels && 0 <= m.currTime
    && Settled(m.dispatchQueue, admitted, m.rq, m.finished, m.running)
    && m.numProcessed == |admitted|
  }

  /** What keeps the loop finite on well-formed input: level-0 records not
      yet admitted or still queued need at least one tick, and the running
      one is not overdrawn. */
  ghost predicate Live(m: Machine)
  {
    |m.rq| == Levels && LiveState(m.dispatchQueue, m.currTime, m.rq[0], m.running)
  }

  /** The loop condition (line 64): something runs or some record is not
      yet admitted. */
  predicate Continues(m: Machine)
  {
    m.running.Some? || m.numProcessed != |m.dispatchQueue|
  }

  /** One iteration of the loop body (lines 65-90), `forkPid` being the pid
      `fork` returns if a record is started at this tick. */
  function Step(m: Machine, forkPid: int): (m': Machine)
    requires |m.rq| == Levels
  {
    AfterExecute(AfterDispatch(AfterReap(AfterAdmit(m)), forkPid))
  }

  /** On a state at the top of the loop, each part of the loop body finds
      the handles it follows in range. */
  lemma PhasesDefined(m: Machine, forkPid: int)
    requires Valid(m)
    ensures var reaped := AfterReap(AfterAdmit(m));
      && (forall i :: 0 <= i < |m.dispatchQueue| ==> 0 <= m.dispatchQueue[i].priority < Levels)
      && (reaped.running.Some? ==> reaped.running.value < |reaped.dispatchQueue|)
      && (reaped.rq[0] != [] ==> reaped.rq[0][0] < |reaped.dispatchQueue|)
      && var dispatched := AfterDispatch(reaped, forkPid);
         dispatched.running.Some? ==> dispatched.running.value < |dispatched.dispatchQueue|
  {
    AdmitKeeps(m);
    ReapKeeps(AfterAdmit(m), m.currTime + 1);
    var reaped := AfterReap(AfterAdmit(m));
    if reaped.rq[0] != [] {
      assert reaped.rq[0][0] in reaped.rq[0];
    }
  }

  /** Admission keeps the invariant, now for the ticks up to the current one,
      and keeps the state runnable. */
  lemma AdmitKeeps(m: Machine)
    requires Valid(m)
    ensures Inv(AfterAdmit(m), m.currTime + 1)
    ensures Live(m) ==> Live(AfterAdmit(m))
  {
    var dq, t := m.dispatchQueue, m.currTime;
    HeldAdmit(dq, t, m.rq[0], m.finished, m.running);
    if Live(m) {
      LiveAdmit(dq, t, m.rq[0], m.running);
    }
  }

  /** Completion keeps the invariant, leaves no used-up record in the running
      slot and keeps the state runnable. */
  lemma ReapKeeps(m: Machine, clock: int)
    requires Inv(m, clock)
    ensures Inv(AfterReap(m), clock) && !UsedUp(m.dispatchQueue, AfterReap(m).running)
    ensures Live(m) ==> Live(AfterReap(m))
  {
  }

  /** Dispatch keeps the invariant and leaves nothing waiting at level 0
      while the processor is free; a record it starts has time to run. */
  lemma DispatchKeeps(m: Machine, clock: int, forkPid: int)
    requires Inv(m, clock)
    ensures var d := AfterDispatch(m, forkPid);
      && Inv(d, clock) && (d.rq[0] != [] ==> d.running.Some?)
      && (Live(m) && !UsedUp(m.dispatchQueue, m.running) ==>
            Live(d) && (d.running.Some? ==> 1 <= d.dispatchQueue[d.running.value].procTime))
  {
    if |m.rq[0]| > 0 && !m.systemRunning {
      assert m.rq[0][0] in m.rq[0];
    }
  }

  /** Charging the running record and advancing the clock gives back a
      state at the top of the loop. */
  lemma ExecuteKeeps(m: Machine)
    requires Inv(m, m.currTime + 1) && (m.rq[0] != [] ==> m.running.Some?)
    ensures Valid(AfterExecute(m))
    ensures Live(m) && (m.running.Some? ==> 1 <= m.dispatchQueue[m.running.value].procTime) ==>
      Live(AfterExecute(m))
  {
  }

  /**
   * One tick in closed form: the queues after admission, whether the
   * running record is reaped, whether the front of ready queue 0 is then
   * dispatched and who runs afterwards determine every field of the new
   * state.
   */
  lemma StepFields(m: Machine, forkPid: int)
    requires |m.rq| == Levels
    ensures var m', dq := Step(m, forkPid), m.dispatchQueue;
      var arrivals := Arrivals(dq, m.currTime);
      var q := Enqueue(dq, m.rq, arrivals);
      var reaped := UsedUp(dq, m.running);
      var dispatched := q[0] != [] && (reaped || !m.systemRunning);
      var running := if dispatched then Some(q[0][0]) else if reaped then None else m.running;
      && m'.currTime == m.currTime + 1
      && m'.numProcessed == m.numProcessed + |arrivals|
      && m'.rq == (if dispatched then q[0 := q[0][1..]] else q)
      && m'.running == running
      && m'.systemRunning == (dispatched || (!reaped && m.systemRunning))
      && m'.finished == m.finished + (if reaped then [m.running.value] else [])
      && m'.trace == m.trace + (if reaped then [Interrupt(m.running.value, dq[m.running.value].pid, m.currTime)] else [])
                             + (if dispatched then [Start(q[0][0], m.currTime)] else [])
      && |m'.dispatchQueue| == |dq|
      && forall i :: 0 <= i < |dq| ==>
           m'.dispatchQueue[i] == (var p := if dispatched && i == q[0][0] then dq[i].(pid := forkPid) else dq[i];
                                   if running == Some(i) then p.(procTime := p.procTime - 1) else p)
  {
    var dq := m.dispatchQueue;
    var admitted := AfterAdmit(m);
    var reaped := AfterReap(admitted);
    var dispatched := AfterDispatch(reaped, forkPid);
    assert Step(m, forkPid) == AfterExecute(dispatched);
    assert admitted.dispatchQueue == dq && reaped.dispatchQueue == dq;
    if |reaped.rq[0]| > 0 && !reaped.systemRunning {
      var h := reaped.rq[0][0];
      assert dispatched.running == Some(h);
      assert dispatched.dispatchQueue == if h < |dq| then dq[h := dq[h].(pid := forkPid)] else dq;
    } else {
      assert dispatched == reaped;
    }
  }

  /** A tick keeps the state at the top of the loop. */
  lemma StepValid(m: Machine, forkPid: int)
    requires Valid(m)
    ensures Valid(Step(m, forkPid))
  {
    var reaped := AfterReap(AfterAdmit(m));
    AdmitKeeps(m);
    ReapKeeps(AfterAdmit(m), m.currTime + 1);
    DispatchKeeps(reaped, m.currTime + 1, forkPid);
    ExecuteKeeps(AfterDispatch(reaped, forkPid));
  }

  /** A tick keeps the state runnable. */
  lemma StepLive(m: Machine, forkPid: int)
    requires Valid(m) && Live(m)
    ensures Live(Step(m, forkPid))
  {
    var reaped := AfterReap(AfterAdmit(m));
    AdmitKeeps(m);
    ReapKeeps(AfterAdmit(m), m.currTime + 1);
    DispatchKeeps(reaped, m.currTime + 1, forkPid);
    ExecuteKeeps(AfterDispatch(reaped, forkPid));
  }

  /**
   * A tick advances the clock by one, admits exactly the records whose
   * arrival time is the old clock, adds their number to `numProcessed`, and
   * appends each level-1..3 arrival to the back of its queue; nothing is
   * ever removed from ready queues 1..3.
   */
  lemma StepAdmits(m: Machine, forkPid: int)
    requires |m.rq| == Levels
    ensures var m', arrivals := Step(m, forkPid), Arrivals(m.dispatchQueue, m.currTime);
      && m'.currTime == m.currTime + 1
      && m'.numProcessed == m.numProcessed + |arrivals|
      && |m'.rq| == Levels
      && (forall k :: 1 <= k < Levels ==> m'.rq[k] == m.rq[k] + Select(m.dispatchQueue, arrivals, AtLevel(k)))
  {
    var m', arrivals := Step(m, forkPid), Arrivals(m.dispatchQueue, m.currTime);
    var q := Enqueue(m.dispatchQueue, m.rq, arrivals);
    StepFields(m, forkPid);
    assert |m'.rq| == Levels;
    forall k | 1 <= k < Levels ensures m'.rq[k] == m.rq[k] + Select(m.dispatchQueue, arrivals, AtLevel(k)) {
      EnqueueAt(m.dispatchQueue, m.rq, arrivals, k);
      assert m'.rq[k] == q[k];
    }
  }

  /**
   * A tick changes the records only where the loop writes them: the record
   * running after dispatch is charged one tick, a record started at this
   * tick takes the pid `fork` returned, and arrival times and priorities
   * never change. From the top of the loop, a record that was already
   * running keeps its pid.
   */
  lemma StepCharges(m: Machine, forkPid: int)
    requires |m.rq| == Levels
    ensures var m' := Step(m, forkPid);
      && SameKeys(m.dispatchQueue, m'.dispatchQueue)
      && (forall i :: 0 <= i < |m.dispatchQueue| ==>
            m'.dispatchQueue[i].procTime == m.dispatchQueue[i].procTime - (if m'.running == Some(i) then 1 else 0))
      && (forall i :: 0 <= i < |m.dispatchQueue| && m'.dispatchQueue[i].pid != m.dispatchQueue[i].pid ==>
            m'.running == Some(i) && m'.dispatchQueue[i].pid == forkPid)
      && (Valid(m) ==> forall i :: 0 <= i < |m.dispatchQueue| && m'.dispatchQueue[i].pid != m.dispatchQueue[i].pid ==>
            m.running != Some(i))
  {
    StepFields(m, forkPid);
    if Valid(m) {
      StepKeepsPid(m, forkPid);
    }
  }

  /** From the top of the loop, only a record started at this tick takes a
      new pid: one that was already running keeps its own. */
  lemma StepKeepsPid(m: Machine, forkPid: int)
    requires Valid(m)
    ensures var m' := Step(m, forkPid);
      forall i :: 0 <= i < |m.dispatchQueue| && m'.dispatchQueue[i].pid != m.dispatchQueue[i].pid ==>
        m.running != Some(i)
  {
    var dq := m.dispatchQueue;
    StepFields(m, forkPid);
    StepRunning(m, forkPid);
    EnqueueAt(dq, m.rq, Arrivals(dq, m.currTime), 0);
  }

  /**
   * What a tick asks of the operating system, in order: first SIGINT to the
   * record that was running and used up its time, with the pid it was
   * started under, then the start of the record that runs next, when that
   * is a different one; both at the old clock.
   */
  lemma StepEvents(m: Machine, forkPid: int)
    requires Valid(m)
    ensures var m', dq := Step(m, forkPid), m.dispatchQueue;
      var reaped := UsedUp(dq, m.running);
      var started := m'.running.Some? && m'.running != m.running;
      m'.trace == m.trace + (if reaped then [Interrupt(m.running.value, dq[m.running.value].pid, m.currTime)] else [])
                          + (if started then [Start(m'.running.value, m.currTime)] else [])
  {
    var dq := m.dispatchQueue;
    var q := Enqueue(dq, m.rq, Arrivals(dq, m.currTime));
    StepFields(m, forkPid);
    StepRunning(m, forkPid);
    EnqueueAt(dq, m.rq, Arrivals(dq, m.currTime), 0);
  }

  /** A tick keeps the finished list equal to the records sent SIGINT, in
      the order they were sent it. */
  lemma StepInterrupted(m: Machine, forkPid: int)
    requires Valid(m) && Interrupted(m.trace) == m.finished
    ensures Interrupted(Step(m, forkPid).trace) == Step(m, forkPid).finished
  {
    var m', dq := Step(m, forkPid), m.dispatchQueue;
    var reaped := UsedUp(dq, m.running);
    var sigint := if reaped then [Interrupt(m.running.value, dq[m.running.value].pid, m.currTime)] else [];
    StepEvents(m, forkPid);
    StepRunning(m, forkPid);
    if reaped {
      InterruptedSnoc(m.trace, sigint[0]);
    }
    if m'.running.Some? && m'.running != m.running {
      InterruptedSnoc(m.trace + sigint, Start(m'.running.value, m.currTime));
    }
    assert m'.trace == m.trace + sigint + (if m'.running.Some? && m'.running != m.running then [Start(m'.running.value, m.currTime)] else []);
  }

  /** A tick leaves every record of levels 1..3 exactly as it was: none is
      started or charged. */
  lemma StepKeepsUpper(m: Machine, forkPid: int)
    requires Valid(m)
    ensures KeepsUpper(m.dispatchQueue, Step(m, forkPid).dispatchQueue)
  {
    var m', dq := Step(m, forkPid), m.dispatchQueue;
    StepCharges(m, forkPid);
    StepValid(m, forkPid);
    forall i | 0 <= i < |dq| && dq[i].priority != 0 ensures m'.dispatchQueue[i] == dq[i] {
      assert m'.running != Some(i);
    }
  }

  /**
   * Who runs after a tick. A running record with time left is never
   * preempted; the running record changes only when it has used up its
   * time or nothing ran; a new record is started exactly when ready queue
   * 0, arrivals included, is not empty and the processor is free after
   * completion, and it is the front of that queue, which loses it.
   */
  lemma StepRunning(m: Machine, forkPid: int)
    requires Valid(m)
    ensures var m', reaped := Step(m, forkPid), UsedUp(m.dispatchQueue, m.running);
      var q0 := m.rq[0] + Select(m.dispatchQueue, Arrivals(m.dispatchQueue, m.currTime), AtLevel(0));
      && (m.running.Some? && !reaped ==> m'.running == m.running)
      && (m'.running != m.running ==> reaped || m.running.None?)
      && ((m'.running.Some? && m'.running != m.running) <==> (q0 != [] && (reaped || m.running.None?)))
      && (m'.running.Some? && m'.running != m.running ==> m'.running == Some(q0[0]) && m'.rq[0] == q0[1..])
      && (m'.running == m.running ==> m'.rq[0] == q0)
      && m'.finished == m.finished + (if reaped then [m.running.value] else [])
  {
    var dq := m.dispatchQueue;
    var new0 := Select(dq, Arrivals(dq, m.currTime), AtLevel(0));
    StepFields(m, forkPid);
    HeldAdmit(dq, m.currTime, m.rq[0], m.finished, m.running);
    var q0 := m.rq[0] + new0;
    if q0 != [] && m.running.Some? {
      if m.rq[0] != [] {
        assert q0[0] == m.rq[0][0] && m.rq[0][0] in m.rq[0];
      } else {
        assert q0[0] == new0[0] && new0[0] in new0;
      }
    }
  }

  /** A tick keeps the bookkeeping tied up with the dispatch list: the
      records admitted up to the old clock stay settled and counted. */
  lemma StepAccounted(m: Machine, forkPid: int)
    requires Accounted(m) && (m.systemRunning <==> m.running.Some?)
    ensures Accounted(Step(m, forkPid))
  {
    var dq := m.dispatchQueue;
    var q := Enqueue(dq, m.rq, Arrivals(dq, m.currTime));
    var reaped := UsedUp(dq, m.running);
    StepFields(m, forkPid);
    StepCharges(m, forkPid);
    MovesAccounted(m, Step(m, forkPid), reaped, q[0] != [] && (reaped || !m.systemRunning));
  }

  /** The moves of one tick, given by their outcome (admission, then
      completion if `reaped`, then dispatch if `dispatched`), keep the
      bookkeeping tied up with the dispatch list. */
  lemma MovesAccounted(m: Machine, m': Machine, reaped: bool, dispatched: bool)
    requires Accounted(m) && (m.systemRunning <==> m.running.Some?)
    requires var dq := m.dispatchQueue;
      var arrivals := Arrivals(dq, m.currTime);
      var q := Enqueue(dq, m.rq, arrivals);
      && reaped == UsedUp(dq, m.running)
      && dispatched == (q[0] != [] && (reaped || !m.systemRunning))
      && m'.currTime == m.currTime + 1
      && m'.numProcessed == m.numProcessed + |arrivals|
      && m'.rq == (if dispatched then q[0 := q[0][1..]] else q)
      && m'.running == (if dispatched then Some(q[0][0]) else if reaped then None else m.running)
      && m'.finished == m.finished + (if reaped then [m.running.value] else [])
      && SameKeys(dq, m'.dispatchQueue)
    ensures Accounted(m')
  {
    var dq, t := m.dispatchQueue, m.currTime;
    var arrivals, a := Arrivals(dq, t), Admitted(dq, t);
    var a' := Admitted(m'.dispatchQueue, m'.currTime);
    AdmittedNext(dq, m'.dispatchQueue, t);
    assert a' == a + arrivals;
    StepSettled(dq, a, arrivals, m.rq, m.finished, m.running, reaped, dispatched);
    assert Settled(dq, a', m'.rq, m'.finished, m'.running);
    SettledSameKeys(dq, m'.dispatchQueue, a', m'.rq, m'.finished, m'.running);
    assert m'.numProcessed == |a| + |arrivals| == |a'|;
  }

  /** On a state that ties up with the dispatch list, `numProcessed` is the
      number of records whose arrival time lies in 0 .. currTime-1. */
  lemma ProcessedCount(m: Machine)
    requires Accounted(m)
    ensures m.numProcessed == |Select(m.dispatchQueue, Handles(|m.dispatchQueue|), ArrivedBefore(m.currTime))|
  {
    AdmittedCount(m.dispatchQueue, Handles(|m.dispatchQueue|), m.currTime);
  }

  /** Ticks until the clock has passed every arrival time. */
  function Pending(m: Machine): (n: nat)
  {
    var last := LastArrival(m.dispatchQueue);
    if m.currTime <= last then last + 1 - m.currTime else 0
  }

  /** Ticks the running record still owes, counting the tick at which it is
      found with nothing left. */
  function Slot(m: Machine): (n: nat)
  {
    var dq := m.dispatchQueue;
    if m.running.Some? && m.running.value < |dq| && 0 <= dq[m.running.value].procTime
    then dq[m.running.value].procTime + 1 else 0
  }

  /**
   * On a runnable state whose arrival times are not negative, every tick
   * of the loop makes progress: the clock gets closer to the last arrival
   * time, or ready queue 0 gets shorter, or the running record gets closer
   * to being reaped.
   */
  lemma StepDecreases(m: Machine, forkPid: int)
    requires Valid(m) && Accounted(m) && Live(m) && Continues(m)
    requires forall i :: 0 <= i < |m.dispatchQueue| ==> 0 <= m.dispatchQueue[i].arrivalTime
    ensures var m' := Step(m, forkPid);
      && |m'.rq| == Levels
      && (|| Pending(m') < Pending(m)
          || (Pending(m') == Pending(m) && |m'.rq[0]| < |m.rq[0]|)
          || (Pending(m') == Pending(m) && |m'.rq[0]| == |m.rq[0]| && Slot(m') < Slot(m)))
  {
    var dq, m' := m.dispatchQueue, Step(m, forkPid);
    StepAdmits(m, forkPid);
    StepCharges(m, forkPid);
    LastArrivalSameKeys(dq, m'.dispatchQueue);
    if LastArrival(dq) < m.currTime {
      LastArrivalBound(dq);
      StepDrains(m, forkPid);
    }
  }

  /** Once every record is admitted, a tick shortens ready queue 0 or
      brings the running record closer to being reaped. */
  lemma StepDrains(m: Machine, forkPid: int)
    requires Valid(m) && Accounted(m) && Live(m) && Continues(m)
    requires forall i :: 0 <= i < |m.dispatchQueue| ==> 0 <= m.dispatchQueue[i].arrivalTime < m.currTime
    ensures var m' := Step(m, forkPid);
      && |m'.rq| == Levels
      && (|m'.rq[0]| < |m.rq[0]| || (|m'.rq[0]| == |m.rq[0]| && Slot(m') < Slot(m)))
  {
    var dq := m.dispatchQueue;
    var q := Enqueue(dq, m.rq, Arrivals(dq, m.currTime));
    var reaped := UsedUp(dq, m.running);
    StepFields(m, forkPid);
    StepCharges(m, forkPid);
    MovesDrain(m, Step(m, forkPid), reaped, q[0] != [] && (reaped || !m.systemRunning));
  }

  /** The moves of one tick, given by their outcome, once every record is
      admitted: ready queue 0 gets shorter or the running record gets
      closer to being reaped. */
  lemma MovesDrain(m: Machine, m': Machine, reaped: bool, dispatched: bool)
    requires |m.rq| == Levels && 0 <= m.currTime && Continues(m)
    requires m.systemRunning <==> m.running.Some?
    requires m.running.Some? ==> m.running.value < |m.dispatchQueue| && 0 <= m.dispatchQueue[m.running.value].procTime
    requires m.numProcessed == |Admitted(m.dispatchQueue, m.currTime)|
    requires forall i :: 0 <= i < |m.dispatchQueue| ==> 0 <= m.dispatchQueue[i].arrivalTime < m.currTime
    requires var dq := m.dispatchQueue;
      var q := Enqueue(dq, m.rq, Arrivals(dq, m.currTime));
      && reaped == UsedUp(dq, m.running)
      && dispatched == (q[0] != [] && (reaped || !m.systemRunning))
      && m'.rq == (if dispatched then q[0 := q[0][1..]] else q)
      && m'.running == (if dispatched then Some(q[0][0]) else if reaped then None else m.running)
      && |m'.dispatchQueue| == |dq|
      && forall i :: 0 <= i < |dq| ==>
           m'.dispatchQueue[i].procTime == dq[i].procTime - (if m'.running == Some(i) then 1 else 0)
    ensures |m'.rq| == Levels
    ensures |m'.rq[0]| < |m.rq[0]| || (|m'.rq[0]| == |m.rq[0]| && Slot(m') < Slot(m))
  {
    var dq := m.dispatchQueue;
    NothingArrives(dq, m.currTime);
    EnqueueNothing(dq, m.rq);
    AdmittedAll(dq, m.currTime);
    assert m.running.Some?;
    var h := m.running.value;
    assert Enqueue(dq, m.rq, Arrivals(dq, m.currTime)) == m.rq;
    if dq[h].procTime == 0 {
      if m.rq[0] != [] {
        assert m'.rq[0] == m.rq[0][1..];
      } else {
        assert m'.running == None;
      }
    } else {
      assert m'.running == m.running && m'.rq == m.rq;
      assert m'.dispatchQueue[h].procTime == dq[h].procTime - 1;
    }
  }

  /** A state the loop can run from without getting stuck: one at the top
      of the loop that ties up with the dispatch list and is live, holding
      the records of `keys`, whose arrival times are not negative. */
  ghost predicate Runnable(keys: seq<Process>, m: Machine)
  {
    && Valid(m) && Accounted(m) && Live(m) && SameKeys(keys, m.dispatchQueue)
    && forall i :: 0 <= i < |keys| ==> 0 <= keys[i].arrivalTime
  }

  /** One turn of the loop on a runnable state: the next state is again
      runnable, holding the same records, and the loop has made progress. */
  lemma LoopStep(keys: seq<Process>, m: Machine, forkPid: int)
    requires Runnable(keys, m) && Continues(m)
    ensures var m' := Step(m, forkPid);
      && Runnable(keys, m')
      && (|| Pending(m') < Pending(m)
          || (Pending(m') == Pending(m) && |m'.rq[0]| < |m.rq[0]|)
          || (Pending(m') == Pending(m) && |m'.rq[0]| == |m.rq[0]| && Slot(m') < Slot(m)))
  {
    var dq := m.dispatchQueue;
    assert forall i :: 0 <= i < |dq| ==> 0 <= dq[i].arrivalTime by {
      forall i | 0 <= i < |dq| ensures 0 <= dq[i].arrivalTime {
        assert keys[i].arrivalTime == dq[i].arrivalTime;
      }
    }
    StepValid(m, forkPid);
    StepAccounted(m, forkPid);
    StepLive(m, forkPid);
    StepCharges(m, forkPid);
    StepDecreases(m, forkPid);
  }

  /** Every record is interrupted at most once, and a finished record is
      neither running nor waiting in ready queue 0. */
  lemma FinishedOnce(m: Machine)
    requires Accounted(m)
    ensures Unique(m.finished)
    ensures m.running.Some? ==> m.running.value !in m.finished
    ensures forall h :: h in m.rq[0] ==> h !in m.finished
  {
    var dq := m.dispatchQueue;
    var a := Admitted(dq, m.currTime);
    AdmittedUnique(dq, m.currTime);
    SelectUnique(dq, a, AtLevel(0));
    assert m.finished + (SlotOf(m.running) + m.rq[0]) == Select(dq, a, AtLevel(0));
    UniqueSplit(m.finished, SlotOf(m.running) + m.rq[0]);
    if m.running.Some? {
      assert m.running.value in SlotOf(m.running) + m.rq[0];
    }
    forall h | h in m.rq[0] ensures h !in m.finished {
      assert h in SlotOf(m.running) + m.rq[0];
    }
  }

  /** No finished record waits in any of the ready queues `q`. */
  predicate NoneQueued(q: seq<seq<nat>>, done: seq<nat>)
  {
    forall k, h :: 0 <= k < |q| && h in q[k] ==> h !in done
  }

  /** A finished record never waits in any ready queue again. */
  lemma FinishedNeverQueued(m: Machine)
    requires Accounted(m)
    ensures NoneQueued(m.rq, m.finished)
  {
    var dq := m.dispatchQueue;
    var a := Admitted(dq, m.currTime);
    FinishedOnce(m);
    forall k, h | 0 <= k < Levels && h in m.rq[k] ensures h !in m.finished {
      if 1 <= k {
        assert m.rq[k] == Select(dq, a, AtLevel(k));
        SelectMember(dq, a, AtLevel(k), h);
        SelectMember(dq, a, AtLevel(0), h);
        assert h in m.finished ==> h in Select(dq, a, AtLevel(0));
      }
    }
  }

  /**
   * Where everything is when the loop stops: nothing runs, every record
   * has arrived and been admitted, ready queue 0 is empty, exactly the
   * level-0 records have finished, each with no time left, and ready queue
   * `k` for `k` in 1..3 holds exactly the level-`k` records.
   */
  lemma FinalState(m: Machine)
    requires Valid(m) && Accounted(m) && !Continues(m)
    ensures m.running == None && m.rq[0] == [] && m.numProcessed == |m.dispatchQueue|
    ensures forall i :: 0 <= i < |m.dispatchQueue| ==> 0 <= m.dispatchQueue[i].arrivalTime < m.currTime
    ensures forall h :: 0 <= h < |m.dispatchQueue| ==> (h in m.finished <==> m.dispatchQueue[h].priority == 0)
    ensures forall h :: 0 <= h < |m.dispatchQueue| && m.dispatchQueue[h].priority == 0 ==> m.dispatchQueue[h].procTime == 0
    ensures forall k, h :: 1 <= k < Levels && 0 <= h < |m.dispatchQueue| ==>
      (h in m.rq[k] <==> m.dispatchQueue[h].priority == k)
  {
    var dq, t := m.dispatchQueue, m.currTime;
    var a := Admitted(dq, t);
    AdmittedAll(dq, t);
    forall h | 0 <= h < |dq|
      ensures h in m.finished <==> dq[h].priority == 0
      ensures dq[h].priority == 0 ==> dq[h].procTime == 0
      ensures forall k :: 1 <= k < Levels ==> (h in m.rq[k] <==> dq[h].priority == k)
    {
      AdmittedMember(dq, t, h);
      SettledMember(dq, a, m.rq, m.finished, h);
      if dq[h].priority == 0 {
        var i :| 0 <= i < |m.finished| && m.finished[i] == h;
      }
    }
  }
}
