# Dispatcher tick loop

This project models the core of `dispatcher.c`, a simulated process
dispatcher with four priority levels, and proves what its tick loop does.

The program reads a dispatch list of records, each holding an arrival time,
a priority and a run time. It then runs a loop with one iteration per
simulated tick:

- admit the records whose arrival time equals the clock, each to the back
  of the ready queue its priority names;
- if the running record has no time left, send it `SIGINT` and free the
  processor;
- if ready queue 0 is not empty and no level-0 record holds the processor,
  start the front of that queue;
- charge the running record one tick and advance the clock.

The loop ends once nothing runs and every record has been admitted.

## How the model is built

- `records.dfy` holds the process record `Process`, the `process` struct of
  `dispatcher.c` lines 13-18 (with `NewProc`), and the parsed input line.
- `selection.dfy` holds order-preserving selection of records by a
  criterion, with its algebra.
- `admission.dfy` says which records the loop has admitted by a given tick,
  in which order, and how many.
- `scheduler.dfy` holds:
  - the loop's state as a value, `Machine`: the local variables `main`
    declares at lines 53-63, plus the dispatch list;
  - the four parts of the loop body as functions (`AfterAdmit`,
    `AfterReap`, `AfterDispatch`, `AfterExecute`) and their composition
    `Step`;
  - the loop methods `GetProcsWithArrivalTime`, `LoadDispatchList` and
    `Admit`;
  - the invariants a tick keeps (`Valid`, `Accounted`, `Live`) and the
    progress measure (`Pending`, `Slot`).
- `loop.dfy` holds the class `Dispatcher`. Its fields are the loop's local
  variables, and its methods update them part by part. Each method is tied
  to the step function: `State() == AfterX(old(State()))`. `Run` is the
  `while` loop itself, proved to stop.
- `scenarios.dfy` works concrete inputs through the step function, tick by
  tick.

A record is named by its **handle**, its position in the dispatch list. The
C code names a record by its address in memory, and a handle is the model
of that address. A write through the address becomes an update of the
dispatch list at that handle. The ready queues and the running slot hold
handles. The pid that `fork` returns and the act of signalling a process are
outside the program's logic. The model records them as `Start` and
`Interrupt` events in `trace`, and the pid is a parameter of each tick.

### The code and the described behaviour disagree

The system's documentation says that the input `0,0,3` followed by
`0,1,5` runs the level-1 record after the level-0 one, for 8 ticks in
total. It also says a preempted record is aged to a lower level. The code
does neither:

- Only ready queue 0 is ever dispatched (lines 80-85).
- The loop stops when nothing runs and every record is admitted (line 64),
  whatever still waits in queues 1-3.
- Nothing is ever preempted or moved between levels.

The model follows the code. `Scenarios.LevelOneNeverStarts` proves that on
that input the loop stops after four ticks, with the level-1 record still
queued, never started and with its five ticks left. `Scheduler.FinalState`
proves the general case: when the loop stops, ready queue `k` for `k` in
1..3 holds exactly the level-`k` records.

## Model

| member | source | states |
|---|---|---|
| Records.NewProc | dispatcher.c:129-136 | the new record has the given arrival time, priority and run time, and pid 0 |
| Scheduler.LoadDispatchList | dispatcher.c:42-51 | one record per input line, in input order, each built as `new_proc` builds it |
| Scheduler.GetProcsWithArrivalTime | dispatcher.c:117-127 | the result lists exactly the records whose arrival time is the given one, front to back, with no repeats; the list is not changed |
| Admission.ArrivalsExact | dispatcher.c:117-127 | the records picked at tick `t` rise strictly in list order, and a handle is picked iff it names a record with arrival time `t` |
| Scheduler.EnqueueOne | dispatcher.c:70 | appending one arrival changes only the queue its priority names, by adding it at the back |
| Scheduler.Admit | dispatcher.c:68-71 | the queues afterwards are the old ones with each level's arrivals appended in arrival order |
| Admission.Arrivals | dispatcher.c:117-127 | defines the records `get_procs_with_arrival_time` picks at a tick: the handles whose arrival time is that tick, front to back |
| Scheduler.Enqueue | dispatcher.c:68-71 | defines the ready queues after admission: each level's queue with that level's arrivals appended in arrival order |
| Scheduler.Initial | dispatcher.c:53-63 | defines the state before the first tick: clock 0, no record admitted, four empty queues, nothing running and the flag clear |
| Scheduler.Continues | dispatcher.c:64 | defines the loop condition: something runs or some record is not yet admitted |
| Scheduler.AfterAdmit | dispatcher.c:65-71 | defines admission: the arrivals at the clock are appended to their queues and counted |
| Scheduler.AfterReap | dispatcher.c:72-78 | defines completion: a running record with no time left is interrupted with its pid, and the running slot and flag are cleared |
| Scheduler.AfterDispatch | dispatcher.c:80-85 | defines dispatch: with queue 0 non-empty and the flag clear, its front is removed, started with the forked pid and made running with the flag set |
| Scheduler.AfterExecute | dispatcher.c:87-90 | defines execution: the running record is charged one tick and the clock advances |
| Scheduler.Step | dispatcher.c:65-90 | defines one loop iteration: admission, completion, dispatch and execution, in that order |
| Loop.Dispatcher.constructor | dispatcher.c:39-63 | builds the dispatch list from the lines, clock 0, no record admitted, four empty queues, nothing running, no event and nothing finished; on well-formed input the state is runnable |
| Loop.Dispatcher.AdmitArrivals | dispatcher.c:65-71 | the new state is the admission function on the old one: arrivals queued and counted |
| Loop.Dispatcher.Reap | dispatcher.c:72-78 | a running record with no time left is interrupted and both the running slot and the flag are cleared |
| Loop.Dispatcher.Dispatch | dispatcher.c:80-85 | with queue 0 non-empty and the flag clear, its front is removed, given the forked pid and made running with the flag set |
| Loop.Dispatcher.Execute | dispatcher.c:87-90 | the running record loses one tick and the clock advances by one |
| Loop.Dispatcher.Tick | dispatcher.c:65-92 | one loop iteration is the step function, and a state at the top of the loop stays one |
| Loop.Dispatcher.Run | dispatcher.c:64-93 | from a runnable state the loop stops; then nothing runs, every record is admitted, exactly the level-0 records have finished with no time left, queue `k` (1..3) holds exactly the level-`k` records, every level-1..3 record keeps its pid and run time from before the loop, and the finished records are exactly the ones sent SIGINT, in the order they were sent it, each once and none of them in a ready queue |
| Scheduler.StepAdmits | dispatcher.c:65-90 | a tick advances the clock by exactly 1, adds the number of arrivals to `numProcessed`, and only appends to queues 1..3 |
| Scheduler.StepEvents | dispatcher.c:72-85 | a tick adds to the trace, in this order, SIGINT with its pid to the running record that used up its time, then the start of the record that runs next when it is a new one, both at the old clock |
| Scheduler.StepKeepsUpper | dispatcher.c:80-89 | a tick leaves every record of levels 1..3 unchanged: its pid and run time stay as they were |
| Scheduler.StepInterrupted | dispatcher.c:72-78 | from the top of the loop, a tick keeps the finished list equal to the records sent SIGINT so far, in the order they were sent it |
| Scheduler.StepRunning | dispatcher.c:72-85 | a running record with time left is never preempted; dispatch happens iff queue 0 (arrivals included) is non-empty and the processor is free after completion; it takes the front and the queue loses it |
| Scheduler.StepCharges | dispatcher.c:81-89 | arrival times and priorities never change; only the record running after dispatch loses a tick; only the record running after the tick can change pid, to the forked one, and from the top of the loop a record that was already running keeps its pid |
| Scheduler.StepValid | dispatcher.c:62-93 | a tick keeps the invariant: priorities name queues, the flag is set iff something runs, only arrived level-0 records run, wait in queue 0 or finish, queue 0 holds each record once and never the running one, and a finished record is never back in queue 0 or the running slot |
| Scheduler.FinishedOnce | dispatcher.c:72-78 | in a state that ties up with the dispatch list, no record has finished twice, and a finished record is neither running nor waiting in queue 0 |
| Scheduler.FinishedNeverQueued | dispatcher.c:68-85 | in a state that ties up with the dispatch list, a finished record waits in none of the four ready queues |
| Scheduler.PhasesDefined | dispatcher.c:70-88 | at the top of the loop every handle the body follows (queue index, running record, queue 0's front) is in range |
| Scheduler.StepAccounted | dispatcher.c:64-78 | a tick keeps the admitted records settled in admission order: the level-0 ones are the finished list, then the running slot, then queue 0, the level-`k` ones (1..3) are queue `k`, and `numProcessed` counts them |
| Scheduler.ProcessedCount | dispatcher.c:65-66 | `numProcessed` is the number of records whose arrival time lies in 0 .. currTime-1 |
| Admission.AdmittedMember | dispatcher.c:65-66 | a record has been admitted before tick `t` iff its arrival time lies in 0 .. t-1 |
| Admission.AdmittedCount | dispatcher.c:65-66 | as many records have been admitted as have an arrival time in 0 .. t-1 |
| Admission.AdmittedUnique | dispatcher.c:65-71 | no record is admitted twice |
| Admission.AdmittedNext | dispatcher.c:65-66 | the tick at `t` admits the arrivals at `t` after everything admitted before, whatever run times and pids the records hold |
| Scheduler.StepLive | dispatcher.c:72-89 | on input where every level-0 record needs a tick, a tick keeps the queued records needing time and the running one not overdrawn |
| Scheduler.StepDecreases | dispatcher.c:64-93 | every tick from a runnable, continuing state lowers the measure (ticks to the last arrival, length of queue 0, time the running record still owes) |
| Scheduler.LoopStep | dispatcher.c:64-93 | a tick from a runnable, continuing state gives a runnable state with the same records and a lower measure |
| Scheduler.FinalState | dispatcher.c:64 | when the loop condition fails, every record has arrived, exactly the level-0 records have finished with no time left, queue 0 is empty and queue `k` (1..3) holds exactly the level-`k` records |
| Admission.LastArrivalBound | dispatcher.c:64-66 | no record arrives after the last arrival time, so admission ends by that tick |
| Selection.SelectMember | dispatcher.c:120-124 | a handle is selected iff it is in the input and its record meets the criterion |
| Selection.SelectAppend | dispatcher.c:68-71 | selecting from a concatenation concatenates the selections, so order is kept |
| Scenarios.SingleRecord | dispatcher.c:53-93 | input `0,0,3`: started at tick 0, interrupted at tick 3, the loop stops after four ticks with the clock at 4 |
| Scenarios.LevelOneNeverStarts | dispatcher.c:64-85 | input `0,0,3` then `0,1,5`: the loop stops at tick 4 with the level-1 record still in queue 1, never started, five ticks left |
| Scenarios.ZeroTimeNeverFinishes | dispatcher.c:72-89 | input `0,0,0`: the record's time goes negative, it is never reaped and the loop continues at every tick |

## Left out

- Reading the file (lines 27-48): the missing-argument and unreadable-file
  exits and the `sscanf` parse error. The model starts from the parsed
  lines.
- `startProcess` (lines 97-107), with `fork` and `execvp`, becomes a
  `Start` event plus the pid passed to the tick. A failed `fork` returning
  -1 is covered, since the pid is any integer. The child branch, and its
  `argv` array written past its one-element allocation, are not modelled.
- `kill` (line 73) becomes an `Interrupt` event. `sleep` (line 92), `free`
  (line 91) and `malloc` have no counterpart.
- `str_from_int` and `display_proc` do not take part in scheduling.
- The dynamic-array and circular-deque internals (`da.h`, `cda.h`) are
  not part of this model. Their contents are sequences.
- Integers are unbounded: the 32-bit `int` of the clock, the counters and
  `proc_time--` are not wrapped.
- Loop.Dispatcher.Run: termination and the final state are proved only for
  runnable states: arrival times not negative, and every level-0 record
  needing at least one tick. Otherwise the C loop need not stop either:
  `Scenarios.ZeroTimeNeverFinishes` shows a zero-time record, and a
  negative arrival time is never met by the clock.
- Loop.Dispatcher.constructor: requires every priority to be in 0..3. An
  out-of-range priority indexes past `rq` at line 70, which is undefined
  behaviour in C.
- Loop.Dispatcher.AdmitArrivals: requires every priority to be in 0..3,
  for the same reason.
- `AfterDispatch` and `AfterExecute` guard their writes with a range
  check on the handle. At the top of the loop the check always holds
  (`Scheduler.PhasesDefined`), so it only makes the functions total.
- `finished` is a ghost list of the interrupted records in interrupt
  order. The C code keeps no such list. It is there to state where every
  admitted record is. `Scheduler.StepInterrupted` and `Loop.Dispatcher.Run`
  prove it equal to the records named by the `Interrupt` events of `trace`.
- Aging, preemption and dispatching from levels 1-3 are described for the
  system but are not in the code, so they are not in the model.
