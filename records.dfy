/** The dispatcher's process record and its input line. */
module Records {

  /** Number of ready queues (`rq[0]` .. `rq[3]`); level 0 is the highest. */
  const Levels := 4

  datatype Option<T> = None | Some(value: T)

  /**
   * One dispatch-list record: when it arrives, which ready queue it joins,
   * the ticks of running it still needs and the handle of the OS process
   * started for it (0 until one is started).
   */
  datatype Process = Process(arrivalTime: int, priority: int, procTime: int, pid: int)

  /** One line of the dispatch list: `arrival,priority,proc_time`. */
  datatype Line = Line(arrival: int, priority: int, procTime: int)

  /** A new record holding the three parsed fields and no OS process yet. */
  function NewProc(arrivalTime: int, priority: int, procTime: int): (p: Process)
    ensures p.arrivalTime == arrivalTime && p.priority == priority
    ensures p.procTime == procTime && p.pid == 0
  {
    Process(arrivalTime, priority, procTime, 0)
  }

  /** Two dispatch lists that differ at most in the run times and pids their
      records hold. */
  predicate SameKeys(a: seq<Process>, b: seq<Process>)
  {
    && |a| == |b|
    && forall i :: 0 <= i < |a| ==> a[i].arrivalTime == b[i].arrivalTime && a[i].priority == b[i].priority
  }

  /** The second list holds every record of levels 1..3 of the first one
      unchanged, at the same position. */
  predicate KeepsUpper(a: seq<Process>, b: seq<Process>)
  {
    && |a| == |b|
    && forall i :: 0 <= i < |a| && a[i].priority != 0 ==> b[i] == a[i]
  }
}
