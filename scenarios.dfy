/**
 * Concrete runs of the tick loop on small dispatch lists, worked out tick
 * by tick from the step function.
 */
module Scenarios {
  import opened Records
  import opened Selection
  import opened Admission
  import opened Scheduler

  /** Selecting from a single handle. */
  lemma SelectOne(dq: seq<Process>, h: nat, keep: Criterion)
    ensures Select(dq, [h], keep) == if Meets(dq, keep, h) then [h] else []
  {
    assert [h][..0] == [];
  }

  /** The records of a one-record list arriving at tick `t`. */
  lemma ArrivalsOfOne(p: Process, t: int)
    ensures Arrivals([p], t) == if p.arrivalTime == t then [0] else []
  {
    assert Handles(1) == [0];
    SelectOne([p], 0, ArrivesAt(t));
  }

  /** The one-record state with the record at level 0, `time` ticks left,
      running under `pid` with the clock at `clock`. */
  function Busy(pid: int, time: int, clock: int): (m: Machine)
  {
    Machine([Process(0, 0, time, pid)], clock, 1, [[], [], [], []], Some(0), true, [Start(0, 0)], [])
  }

  /** Tick 0 of the input `0, 0, time`: the record is admitted, started
      and charged one tick. */
  lemma SingleRecordStart(pid: int, time: int)
    ensures Step(Initial([NewProc(0, 0, time)]), pid) == Busy(pid, time - 1, 1)
  {
    var p := NewProc(0, 0, time);
    var m := Initial([p]);
    ArrivalsOfOne(p, 0);
    SelectOne([p], 0, AtLevel(0));
    SelectOne([p], 0, AtLevel(1));
    SelectOne([p], 0, AtLevel(2));
    SelectOne([p], 0, AtLevel(3));
    var a := AfterAdmit(m);
    assert a == m.(rq := [[0], [], [], []], numProcessed := 1);
    assert AfterReap(a) == a;
    var d := AfterDispatch(a, pid);
    assert a.rq[0][1..] == [];
    assert d == a.(rq := [[], [], [], []], dispatchQueue := [p.(pid := pid)], trace := [Start(0, 0)],
                   running := Some(0), systemRunning := true);
    assert AfterExecute(d) == Busy(pid, time - 1, 1);
  }

  /** A tick on which the running record's time is not exactly used up and
      nothing arrives: it is charged one tick and keeps the processor. */
  lemma SingleRecordCharge(pid: int, time: int, clock: int)
    requires time != 0 && 1 <= clock
    ensures Step(Busy(pid, time, clock), pid) == Busy(pid, time - 1, clock + 1)
  {
    var m := Busy(pid, time, clock);
    ArrivalsOfOne(m.dispatchQueue[0], clock);
    EnqueueNothing(m.dispatchQueue, m.rq);
    assert AfterAdmit(m) == m;
    assert AfterReap(m) == m;
    assert AfterDispatch(m, pid) == m;
  }

  /** The tick at which the record is found with no time left: it is sent
      SIGINT and the processor is free again. */
  lemma SingleRecordFinish(pid: int, clock: int)
    requires 1 <= clock
    ensures Step(Busy(pid, 0, clock), pid)
      == Machine([Process(0, 0, 0, pid)], clock + 1, 1, [[], [], [], []], None, false,
                 [Start(0, 0), Interrupt(0, pid, clock)], [0])
  {
    var m := Busy(pid, 0, clock);
    ArrivalsOfOne(m.dispatchQueue[0], clock);
    EnqueueNothing(m.dispatchQueue, m.rq);
    assert AfterAdmit(m) == m;
    var r := AfterReap(m);
    assert r == m.(running := None, systemRunning := false, finished := [0],
                   trace := [Start(0, 0), Interrupt(0, pid, clock)]);
    assert AfterDispatch(r, pid) == r;
  }

  /**
   * The input `0, 0, 3`: one level-0 record arriving at tick 0 that needs
   * three ticks. It is admitted and started at tick 0, charged at ticks 0,
   * 1 and 2, found with no time left and sent SIGINT at tick 3, and the
   * loop ends after four iterations with the clock at 4.
   */
  lemma SingleRecord(pid: int)
    ensures var m0 := Initial([NewProc(0, 0, 3)]);
      && Step(m0, pid) == Busy(pid, 2, 1)
      && Step(Busy(pid, 2, 1), pid) == Busy(pid, 1, 2)
      && Step(Busy(pid, 1, 2), pid) == Busy(pid, 0, 3)
      && var m4 := Step(Busy(pid, 0, 3), pid);
      && Continues(m0) && Continues(Busy(pid, 2, 1)) && Continues(Busy(pid, 1, 2))
      && Continues(Busy(pid, 0, 3)) && !Continues(m4)
      && m4.currTime == 4 && m4.running == None && m4.finished == [0]
      && m4.dispatchQueue == [Process(0, 0, 0, pid)]
      && m4.trace == [Start(0, 0), Interrupt(0, pid, 3)]
  {
    SingleRecordStart(pid, 3);
    SingleRecordCharge(pid, 2, 1);
    SingleRecordCharge(pid, 1, 2);
    SingleRecordFinish(pid, 3);
  }

  /**
   * The input `0, 0, 0`: a level-0 record asking for no time. It is started
   * at tick 0 and charged, so its time is negative from then on; completion
   * only reaps a record whose time is exactly 0 (line 72), so it keeps the
   * processor, is charged again at every tick and the loop never stops.
   */
  lemma ZeroTimeNeverFinishes(pid: int)
    ensures Step(Initial([NewProc(0, 0, 0)]), pid) == Busy(pid, -1, 1)
    ensures forall time, clock :: time < 0 && 1 <= clock ==>
      Continues(Busy(pid, time, clock)) && Step(Busy(pid, time, clock), pid) == Busy(pid, time - 1, clock + 1)
  {
    SingleRecordStart(pid, 0);
    forall time, clock | time < 0 && 1 <= clock
      ensures Step(Busy(pid, time, clock), pid) == Busy(pid, time - 1, clock + 1)
    {
      SingleRecordCharge(pid, time, clock);
    }
  }

  /** The records of a two-record list arriving at tick `t`. */
  lemma ArrivalsOfTwo(p: Process, q: Process, t: int)
    ensures Arrivals([p, q], t)
      == (if p.arrivalTime == t then [0] else []) + (if q.arrivalTime == t then [1] else [])
  {
    assert Handles(2) == [0, 1];
    assert [0, 1][..1] == [0];
    SelectOne([p, q], 0, ArrivesAt(t));
  }

  /** The two-record state of `0, 0, 3` followed by `0, 1, 5`: the level-0
      record runs under `pid` with `time` ticks left and the level-1 record
      waits, untouched, in ready queue 1. */
  function BusyPair(pid: int, time: int, clock: int): (m: Machine)
  {
    Machine([Process(0, 0, time, pid), Process(0, 1, 5, 0)], clock, 2, [[], [1], [], []],
            Some(0), true, [Start(0, 0)], [])
  }

  /** Admission at tick 0 of `0, 0, 3` followed by `0, 1, 5`: both records
      arrive, to ready queues 0 and 1. */
  lemma PairAdmit()
    ensures var m := Initial([NewProc(0, 0, 3), NewProc(0, 1, 5)]);
      AfterAdmit(m) == m.(rq := [[0], [1], [], []], numProcessed := 2)
  {
    var p, q := NewProc(0, 0, 3), NewProc(0, 1, 5);
    var m := Initial([p, q]);
    ArrivalsOfTwo(p, q, 0);
    assert [] + [0] == [0] && [0] + [1] == [0, 1] && [] + [1] == [1];
    EnqueueNothing([p, q], m.rq);
    EnqueueOne([p, q], m.rq, [], 0);
    var e1 := Enqueue([p, q], m.rq, [0]);
    assert e1 == [[0], [], [], []];
    EnqueueOne([p, q], m.rq, [0], 1);
    assert Enqueue([p, q], m.rq, [0, 1]) == e1[1 := [1]];
  }

  /** Dispatch at tick 0 of `0, 0, 3` followed by `0, 1, 5`: the level-0
      record leaves ready queue 0 and is started under `pid`. */
  lemma PairDispatch(pid: int)
    ensures var a := Initial([NewProc(0, 0, 3), NewProc(0, 1, 5)]).(rq := [[0], [1], [], []], numProcessed := 2);
      AfterDispatch(a, pid)
        == Machine([Process(0, 0, 3, pid), Process(0, 1, 5, 0)], 0, 2, [[], [1], [], []],
                   Some(0), true, [Start(0, 0)], [])
  {
    var a := Initial([NewProc(0, 0, 3), NewProc(0, 1, 5)]).(rq := [[0], [1], [], []], numProcessed := 2);
    assert a.dispatchQueue[0 := a.dispatchQueue[0].(pid := pid)] == [Process(0, 0, 3, pid), Process(0, 1, 5, 0)];
    assert a.rq[0][1..] == [];
    assert a.rq[0 := []] == [[], [1], [], []];
  }

  /** Execution at tick 0 of `0, 0, 3` followed by `0, 1, 5`: the started
      record is charged one tick. */
  lemma PairExecute(pid: int)
    ensures AfterExecute(Machine([Process(0, 0, 3, pid), Process(0, 1, 5, 0)], 0, 2, [[], [1], [], []],
                                 Some(0), true, [Start(0, 0)], []))
      == BusyPair(pid, 2, 1)
  {
    var dq := [Process(0, 0, 3, pid), Process(0, 1, 5, 0)];
    assert dq[0 := dq[0].(procTime := 2)] == [Process(0, 0, 2, pid), Process(0, 1, 5, 0)];
  }

  /** Tick 0 of `0, 0, 3` followed by `0, 1, 5`: both records are admitted,
      and the level-0 one is started and charged. */
  lemma PairStart(pid: int)
    ensures Step(Initial([NewProc(0, 0, 3), NewProc(0, 1, 5)]), pid) == BusyPair(pid, 2, 1)
  {
    var m := Initial([NewProc(0, 0, 3), NewProc(0, 1, 5)]);
    PairAdmit();
    var a := AfterAdmit(m);
    assert AfterReap(a) == a;
    PairDispatch(pid);
    PairExecute(pid);
  }

  /** A tick of the pair on which the level-0 record has time left. */
  lemma PairCharge(pid: int, time: int, clock: int)
    requires 1 <= time && 1 <= clock
    ensures Step(BusyPair(pid, time, clock), pid) == BusyPair(pid, time - 1, clock + 1)
  {
    var m := BusyPair(pid, time, clock);
    ArrivalsOfTwo(m.dispatchQueue[0], m.dispatchQueue[1], clock);
    EnqueueNothing(m.dispatchQueue, m.rq);
    assert AfterAdmit(m) == m;
    assert AfterReap(m) == m;
    assert AfterDispatch(m, pid) == m;
  }

  /** The tick of the pair at which the level-0 record is found with no
      time left. */
  lemma PairFinish(pid: int, clock: int)
    requires 1 <= clock
    ensures Step(BusyPair(pid, 0, clock), pid)
      == Machine([Process(0, 0, 0, pid), Process(0, 1, 5, 0)], clock + 1, 2, [[], [1], [], []], None, false,
                 [Start(0, 0), Interrupt(0, pid, clock)], [0])
  {
    var m := BusyPair(pid, 0, clock);
    ArrivalsOfTwo(m.dispatchQueue[0], m.dispatchQueue[1], clock);
    EnqueueNothing(m.dispatchQueue, m.rq);
    assert AfterAdmit(m) == m;
    var r := AfterReap(m);
    assert r == m.(running := None, systemRunning := false, finished := [0],
                   trace := [Start(0, 0), Interrupt(0, pid, clock)]);
    assert AfterDispatch(r, pid) == r;
  }

  /**
   * The input `0, 0, 3` followed by `0, 1, 5`: the loop runs the level-0
   * record exactly as it runs it alone and stops after four iterations
   * with the clock at 4, all records admitted and nothing running, while
   * the level-1 record is still in ready queue 1, never started, with its
   * five ticks left.
   */
  lemma LevelOneNeverStarts(pid: int)
    ensures var m0 := Initial([NewProc(0, 0, 3), NewProc(0, 1, 5)]);
      && Step(m0, pid) == BusyPair(pid, 2, 1)
      && Step(BusyPair(pid, 2, 1), pid) == BusyPair(pid, 1, 2)
      && Step(BusyPair(pid, 1, 2), pid) == BusyPair(pid, 0, 3)
      && var m4 := Step(BusyPair(pid, 0, 3), pid);
      && Continues(m0) && Continues(BusyPair(pid, 2, 1)) && Continues(BusyPair(pid, 1, 2))
      && Continues(BusyPair(pid, 0, 3)) && !Continues(m4)
      && m4.currTime == 4 && m4.running == None && m4.rq == [[], [1], [], []]
      && m4.dispatchQueue[1] == NewProc(0, 1, 5)
      && m4.trace == [Start(0, 0), Interrupt(0, pid, 3)]
  {
    PairStart(pid);
    PairCharge(pid, 2, 1);
    PairCharge(pid, 1, 2);
    PairFinish(pid, 3);
  }
}
