/**
 * The records of sched.h and the routines of sched.c that build, reset and
 * compare them: `create_process`, `restart_process`, `create_slice` and the
 * three comparators that order the level lists.  A process is a value; the
 * engine keeps the processes in an array and updates an element in place
 * where the source writes through a `process *`.
 */
module Processes {

  /** The largest value of the source's 32-bit `int` (`INT_MAX`). */
  const IntMax: int := 0x7fff_ffff

  /** Size of the `name` buffer of a process record. */
  const NameSize: int := 80

  /** Scheduling strategy of a priority level. */
  datatype Strategy = FIFO | SJF | RR | SRT

  /** Kind of a slice of a process's time line. */
  datatype SliceKind = Cpu | Wait

  /** The interval [from, to) a process spent on the CPU or waiting.
      `create_slice(type, from, to)` is this constructor. */
  datatype Slice = Slice(kind: SliceKind, from: int, to: int)

  /** States of a process. */
  datatype State = Undefined | Loaded | Ready | Running | Finished

  /** `process`: the record the engine updates as the simulation runs.  The
      source keeps `slices` in a linked list; here it is the sequence of its
      elements. */
  datatype Process = Process(
    pid: int,
    name: string,
    priority: int,
    arrivalTime: int,
    executionTime: int,
    remainingTime: int,
    waitingTime: int,
    finishedTime: int,
    cpuTime: int,
    state: State,
    slices: seq<Slice>)

  /** A process as a simulation expects to find it before it arrives: all its
      execution time still to run, no waiting or finishing time yet (-1), in
      state LOADED and with an empty time line. */
  predicate Pristine(p: Process)
  {
    && p.remainingTime == p.executionTime
    && p.waitingTime == -1
    && p.finishedTime == -1
    && p.state == Loaded
    && p.slices == []
  }

  /** `restart_process`: makes `p` pristine again.  It keeps its identity,
      priority, arrival and execution times, and also `cpu_time`, which the
      source does not reset. */
  function Restart(p: Process): (r: Process)
    ensures Pristine(r)
    ensures r.pid == p.pid && r.name == p.name && r.priority == p.priority
    ensures r.arrivalTime == p.arrivalTime && r.executionTime == p.executionTime
    ensures r.cpuTime == p.cpuTime
  {
    p.(waitingTime := -1, finishedTime := -1, remainingTime := p.executionTime,
       state := Loaded, slices := [])
  }

  /** `create_process`: a zeroed record (pid 0) holding `name` and the two
      times, with priority -1 until the loader sets it.  The name is copied
      into an 80-byte buffer, so with its terminator it must fit there. */
  function CreateProcess(name: string, arrivalTime: int, executionTime: int): (p: Process)
    requires |name| < NameSize
    ensures p.name == name && p.arrivalTime == arrivalTime && p.executionTime == executionTime
    ensures p.pid == 0 && p.priority == -1 && p.cpuTime == 0
    ensures Pristine(p) && Restart(p) == p
  {
    Process(0, name, -1, arrivalTime, executionTime, executionTime, -1, -1, 0, Loaded, [])
  }

  /** Restarting twice is restarting once, and a restart changes nothing in a
      pristine process. */
  lemma RestartIdempotent(p: Process)
    ensures Restart(Restart(p)) == Restart(p)
    ensures Pristine(p) ==> Restart(p) == p
  {
  }

  /** `compare_arrival(a, b)`: positive exactly when `a` arrives before `b`,
      so `insert_ordered` puts a new process after every process that
      arrives no later than it. */
  function CompareArrival(a: Process, b: Process): (r: int)
    ensures r > 0 <==> a.arrivalTime < b.arrivalTime
    ensures r < 0 <==> b.arrivalTime < a.arrivalTime
  {
    b.arrivalTime - a.arrivalTime
  }

  /** `compare_sjf(a, b)`: a process that already had the CPU is never
      overtaken; otherwise the answer is positive exactly when `a` has less
      time left to run than `b`. */
  function CompareSjf(a: Process, b: Process): (r: int)
    ensures r > 0 <==> b.cpuTime <= 0 && a.remainingTime < b.remainingTime
    ensures b.cpuTime > 0 ==> r < 0
  {
    if b.cpuTime > 0 then -1 else b.remainingTime - a.remainingTime
  }

  /** `compare_srt(a, b)`: positive exactly when `a` has less time left to
      run than `b`. */
  function CompareSrt(a: Process, b: Process): (r: int)
    ensures r > 0 <==> a.remainingTime < b.remainingTime
    ensures r < 0 <==> b.remainingTime < a.remainingTime
  {
    b.remainingTime - a.remainingTime
  }

  // ---------------------------------------------------------------------------
  // The time line of a process
  // ---------------------------------------------------------------------------

  /** Length of a slice. */
  function Length(s: Slice): int
  {
    s.to - s.from
  }

  /** Total length of the CPU slices. */
  function SumCpu(ss: seq<Slice>): int
  {
    if ss == [] then 0
    else SumCpu(ss[..|ss| - 1]) + (if ss[|ss| - 1].kind == Cpu then Length(ss[|ss| - 1]) else 0)
  }

  /** Total length of the WAIT slices: the waiting time the final pass of
      `schedule` recomputes. */
  function SumWait(ss: seq<Slice>): int
  {
    if ss == [] then 0
    else SumWait(ss[..|ss| - 1]) + (if ss[|ss| - 1].kind == Wait then Length(ss[|ss| - 1]) else 0)
  }

  /** The slices follow each other without gap or overlap, each of positive
      length, and together cover [from, to). */
  ghost predicate Tiles(ss: seq<Slice>, from: int, to: int)
    decreases |ss|
  {
    if ss == [] then from == to
    else
      var last := ss[|ss| - 1];
      last.from < last.to && last.to == to && Tiles(ss[..|ss| - 1], from, last.from)
  }

  /** A time line that covers [from, to) splits that span between CPU time
      and waiting time; in particular it never runs backwards. */
  lemma {:induction false} TilesSpan(ss: seq<Slice>, from: int, to: int)
    requires Tiles(ss, from, to)
    ensures to - from == SumCpu(ss) + SumWait(ss)
    ensures from <= to && (ss != [] ==> from < to)
    ensures SumCpu(ss) >= 0 && SumWait(ss) >= 0
    decreases |ss|
  {
    if ss != [] {
      var last := ss[|ss| - 1];
      TilesSpan(ss[..|ss| - 1], from, last.from);
    }
  }

  /** Appending a slice [to, to + d) of positive length extends the covered
      span, and adds `d` to the total of its kind. */
  lemma TilesExtend(ss: seq<Slice>, from: int, to: int, kind: SliceKind, d: int)
    requires Tiles(ss, from, to) && d > 0
    ensures Tiles(ss + [Slice(kind, to, to + d)], from, to + d)
    ensures SumCpu(ss + [Slice(kind, to, to + d)]) == SumCpu(ss) + (if kind == Cpu then d else 0)
    ensures SumWait(ss + [Slice(kind, to, to + d)]) == SumWait(ss) + (if kind == Wait then d else 0)
  {
    var ss' := ss + [Slice(kind, to, to + d)];
    assert ss'[..|ss'| - 1] == ss;
  }
}
