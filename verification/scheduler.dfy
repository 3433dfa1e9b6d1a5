/**
 * The imperative side of `schedule` (sched.c): the processes live in an
 * array and the levels in another, and each piece of the main loop is a
 * method proved to perform the step the Simulation module defines.
 */
module Scheduler {
  import opened Wrappers
  import opened Processes
  import opened LinkedList
  import opened Queues
  import opened Simulation

  /** The selection loop of `schedule`: scans the levels in order and takes
      the front of the first non-empty ready list. */
  method SelectReady(procs: array<Process>, queues: array<Level>, used0: int, index0: nat, ghost s: Sim)
    returns (current: Option<nat>, used: int, index: nat)
    requires s.ps == procs[..] && s.qs == queues[..] && s.current == None
    requires s.used == used0 && s.index == index0
    requires ReadyIndices(procs[..], queues[..])
    modifies procs, queues
    ensures Select(s) == s.(ps := procs[..], qs := queues[..], current := current, used := used, index := index)
  {
    current, used, index := None, used0, index0;
    var i := 0;
    while i < queues.Length && current == None
      invariant 0 <= i <= queues.Length
      invariant current == None ==>
        && procs[..] == s.ps && queues[..] == s.qs && used == s.used && index == s.index
        && FirstReady(s.qs, 0) == FirstReady(s.qs, i)
      invariant current.Some? ==>
        Select(s) == s.(ps := procs[..], qs := queues[..], current := current, used := used, index := index)
      decreases queues.Length - i
    {
      if queues[i].ready != [] {
        var c := queues[i].ready[0];
        queues[i] := queues[i].(ready := queues[i].ready[1..]);
        procs[c] := procs[c].(state := Running);
        current, used, index := Some(c), 0, i;
      }
      i := i + 1;
    }
  }

  /** `add_waiting_time(processes, current, t, d)`: every READY process other
      than `c` waits `d` more and gets a WAIT slice [t, t + d). */
  method AddWaitingTime(procs: array<Process>, c: nat, t: int, d: int)
    modifies procs
    ensures procs[..] == Charged(old(procs[..]), c, t, d)
  {
    for j := 0 to procs.Length
      invariant forall k :: 0 <= k < j ==> procs[k] == Charged(old(procs[..]), c, t, d)[k]
      invariant forall k :: j <= k < procs.Length ==> procs[k] == old(procs[k])
    {
      if j != c && procs[j].state == Ready {
        procs[j] := procs[j].(waitingTime := procs[j].waitingTime + d);
        procs[j] := procs[j].(slices := procs[j].slices + [Slice(Wait, t, t + d)]);
      }
    }
  }

  /** The decision about the running process after its slice, in the order
      of the source's tests. */
  method DisposeCurrent(procs: array<Process>, queues: array<Level>, c: nat, index: nat,
                        used: int, clock: int, ghost s: Sim) returns (current: Option<nat>)
    requires s.ps == procs[..] && s.qs == queues[..] && s.current == Some(c)
    requires s.index == index && s.used == used && s.clock == clock
    requires c < procs.Length && index < queues.Length
    modifies procs, queues
    ensures Dispose(s) == s.(ps := procs[..], qs := queues[..], current := current)
  {
    current := Some(c);
    if procs[c].remainingTime <= 0 {
      procs[c] := procs[c].(state := Finished);
      procs[c] := procs[c].(finishedTime := clock);
      queues[index] := queues[index].(finished := queues[index].finished + [c]);
      current := None;
    } else if queues[index].strategy == RR && queues[index].quantum > 0 && used >= queues[index].quantum {
      procs[c] := procs[c].(state := Ready);
      queues[index] := queues[index].(ready := queues[index].ready + [c]);
      current := None;
    } else if queues[index].strategy == SRT {
      procs[c] := procs[c].(state := Ready);
      queues[index] := queues[index].(ready := InsertOrdered<nat>(queues[index].ready, c, BySrt(procs[..])));
      current := None;
    }
  }

  /** The first half of a turn: `process_arrival` and, when nothing runs,
      the selection. */
  method ArriveAndSelect(procs: array<Process>, queues: array<Level>, clock: int, current: Option<nat>,
                         used: int, index: nat, ghost s: Sim, ghost init: seq<Process>)
    returns (current': Option<nat>, used': int, index': nat)
    requires s == Sim(procs[..], queues[..], clock, current, used, index, s.trace)
    requires Inv(s, init)
    modifies procs, queues
    ensures Prelude(s, init) == Sim(procs[..], queues[..], clock, current', used', index', s.trace)
  {
    TurnFacts(s, init);
    var moved := ProcessArrival(clock, procs, queues);
    ghost var a := Arrive(s);
    assert a == Sim(procs[..], queues[..], clock, current, used, index, s.trace);
    current', used', index' := current, used, index;
    if current == None {
      current', used', index' := SelectReady(procs, queues, used, index, a);
    }
  }

  /** The length of the next slice of the running process `c` of level
      `index`, computed as `schedule` does. */
  method ComputeSlice(procs: array<Process>, queues: array<Level>, clock: int, c: nat,
                      used: int, index: nat) returns (slice: int)
    requires ArrivalIndices(procs[..], queues[..]) && c < procs.Length && index < queues.Length
    ensures slice == SliceLength(procs[c], queues[index], used, clock, NextArrival(procs[..], queues[..]))
  {
    var next := GetNextArrival(queues, procs);
    slice := procs[c].remainingTime;
    if queues[index].strategy == RR && queues[index].quantum > 0 {
      var remainingQuantum := queues[index].quantum - used;
      slice := Min(slice, remainingQuantum);
    }
    if next != -1 && next < clock + slice {
      slice := next - clock;
    }
    if slice <= 0 {
      slice := 1;
    }
  }

  /** The running process `c` runs for `slice`: its remaining time, CPU
      time and time line, the others' waiting, the trace and the clock. */
  method Execute(procs: array<Process>, c: nat, clock: int, used: int, slice: int,
                 trace: seq<TraceItem>, ghost b: Sim)
    returns (clock': int, used': int, trace': seq<TraceItem>)
    requires b.ps == procs[..] && b.current == Some(c) && c < procs.Length
    requires b.clock == clock && b.used == used && b.trace == trace
    modifies procs
    ensures Run(b, slice) == b.(ps := procs[..], clock := clock', used := used', trace := trace')
  {
    procs[c] := procs[c].(remainingTime := procs[c].remainingTime - slice);
    procs[c] := procs[c].(cpuTime := procs[c].cpuTime + slice);
    used' := used + slice;
    procs[c] := procs[c].(slices := procs[c].slices + [Slice(Cpu, clock, clock + slice)]);
    AddWaitingTime(procs, c, clock, slice);
    trace' := trace + [TraceItem(procs[c].name, slice)];
    clock' := clock + slice;
  }

  /** The second half of a turn when a process runs: the slice is computed,
      the process runs for it, the others wait, the trace grows and the
      decision about the process is taken. */
  method RunSlice(procs: array<Process>, queues: array<Level>, clock: int, c: nat,
                  used: int, index: nat, trace: seq<TraceItem>, ghost b: Sim)
    returns (clock': int, current': Option<nat>, used': int, trace': seq<TraceItem>)
    requires b == Sim(procs[..], queues[..], clock, Some(c), used, index, trace)
    requires ArrivalIndices(procs[..], queues[..]) && c < procs.Length && index < queues.Length
    modifies procs, queues
    ensures var d := SliceLength(b.ps[c], b.qs[index], used, clock, NextArrival(b.ps, b.qs));
      Dispose(Run(b, d)) == Sim(procs[..], queues[..], clock', current', used', index, trace')
  {
    var slice := ComputeSlice(procs, queues, clock, c, used, index);
    clock', used', trace' := Execute(procs, c, clock, used, slice, trace, b);
    ghost var r := Run(b, slice);
    current' := DisposeCurrent(procs, queues, c, index, used', clock', r);
  }

  /** One turn of the main loop of `schedule`, on the arrays and the local
      variables of the source.  Returns the new values of the locals and
      whether the loop ends. */
  method RunTurn(procs: array<Process>, queues: array<Level>, clock: int, current: Option<nat>,
                 used: int, index: nat, trace: seq<TraceItem>, ghost init: seq<Process>)
    returns (clock': int, current': Option<nat>, used': int, index': nat, trace': seq<TraceItem>, stop: bool)
    requires Inv(Sim(procs[..], queues[..], clock, current, used, index, trace), init)
    modifies procs, queues
    ensures Turn(Sim(old(procs[..]), old(queues[..]), clock, current, used, index, trace), init)
      == (Sim(procs[..], queues[..], clock', current', used', index', trace'), stop)
  {
    ghost var s := Sim(procs[..], queues[..], clock, current, used, index, trace);
    TurnFacts(s, init);
    current', used', index' := ArriveAndSelect(procs, queues, clock, current, used, index, s, init);
    clock', trace', stop := clock, trace, false;
    ghost var b := Sim(procs[..], queues[..], clock, current', used', index', trace);
    if current' == None {
      var next := GetNextArrival(queues, procs);
      if next == -1 {
        stop := true;
      } else {
        clock' := next;
      }
      return;
    }
    StepKeeps(b, init);
    clock', current', used', trace' := RunSlice(procs, queues, clock, current'.value, used', index', trace, b);
  }

  /** The inner loop of the final pass of `schedule`: the total length of
      the WAIT slices of a time line. */
  method WaitTotal(ss: seq<Slice>) returns (total: int)
    ensures total == SumWait(ss)
  {
    total := 0;
    for i := 0 to |ss|
      invariant total == SumWait(ss[..i])
    {
      assert ss[..i + 1][..i] == ss[..i];
      if ss[i].kind == Wait {
        total := total + (ss[i].to - ss[i].from);
      }
    }
    assert ss[..|ss|] == ss;
  }

  /** The final pass of `schedule`: a waiting time of -1 becomes 0, and then
      every waiting time becomes the total of the WAIT slices. */
  method RecomputeWaiting(procs: array<Process>)
    modifies procs
    ensures procs[..] == Recomputed(old(procs[..]))
  {
    for j := 0 to procs.Length
      invariant forall k :: 0 <= k < j ==> procs[k] == Recomputed(old(procs[..]))[k]
      invariant forall k :: j <= k < procs.Length ==> procs[k] == old(procs[k])
    {
      if procs[j].waitingTime == -1 {
        procs[j] := procs[j].(waitingTime := 0);
      }
      var total := WaitTotal(procs[j].slices);
      procs[j] := procs[j].(waitingTime := total);
    }
  }

  /** The main loop of `schedule`, from the state `prepare` leaves for the
      processes `ps0` and the levels `qs0` until no process is left to run
      or to arrive. */
  method MainLoop(procs: array<Process>, queues: array<Level>, ghost ps0: seq<Process>, ghost qs0: seq<Level>)
    returns (sequence: seq<TraceItem>, ghost last: Sim)
    requires forall i :: 0 <= i < |ps0| ==>
      0 <= ps0[i].priority < |qs0| && ps0[i].executionTime > 0 && ps0[i].arrivalTime < IntMax
    requires Sim(procs[..], queues[..], 0, None, 0, 0, []) == Start(ps0, qs0)
    modifies procs, queues
    ensures last.ps == procs[..] && last.qs == queues[..] && last.trace == sequence
    ensures |last.ps| == |ps0|
    ensures forall j :: 0 <= j < |last.ps| ==> Completed(last.ps[j], RestartAll(ps0)[j])
    ensures forall j :: 0 <= j < |last.ps| ==>
      0 <= last.ps[j].priority < |last.qs| && j in last.qs[last.ps[j].priority].finished
    ensures forall l :: 0 <= l < |last.qs| ==> last.qs[l].arrival == [] && last.qs[l].ready == []
    ensures TraceTotal(last.trace) == TotalExecution(RestartAll(ps0))
    ensures Recomputed(last.ps) == last.ps
  {
    ghost var init := RestartAll(ps0);
    StartInv(ps0, qs0);
    var clock, current, used, index := 0, None, 0, 0;
    sequence := [];
    ghost var s := Sim(procs[..], queues[..], clock, current, used, index, sequence);
    while true
      invariant s == Sim(procs[..], queues[..], clock, current, used, index, sequence)
      invariant Inv(s, init)
      decreases Pot(s), Flag(s)
    {
      TurnKeeps(s, init);
      var stop;
      clock, current, used, index, sequence, stop := RunTurn(procs, queues, clock, current, used, index, sequence, init);
      s := Sim(procs[..], queues[..], clock, current, used, index, sequence);
      if stop {
        FinalState(s, init);
        last := s;
        return;
      }
    }
  }

  /** `schedule(processes, queues, nqueues)` for processes the loader
      accepts: prepares the levels, runs the main loop until nothing is left
      to run or to arrive, and recomputes the waiting times.  Every process
      ends completed and on the finished list of its level, the arrival and
      ready lists end empty, and the trace holds the total execution time of
      all processes. */
  method Schedule(procs: array<Process>, queues: array<Level>) returns (sequence: seq<TraceItem>)
    requires forall i :: 0 <= i < procs.Length ==>
      0 <= procs[i].priority < queues.Length && procs[i].executionTime > 0 && procs[i].arrivalTime < IntMax
    modifies procs, queues
    ensures forall j :: 0 <= j < procs.Length ==>
      Completed(procs[j], old(procs[j])) && j in queues[procs[j].priority].finished
    ensures forall l :: 0 <= l < queues.Length ==> queues[l].arrival == [] && queues[l].ready == []
    ensures TraceTotal(sequence) == TotalExecution(old(procs[..]))
  {
    ghost var ps0 := procs[..];
    Prepare(procs, queues);
    ghost var last;
    sequence, last := MainLoop(procs, queues, ps0, old(queues[..]));
    CompletedAll(last.ps, ps0);
    TotalExecutionAgree(RestartAll(ps0), ps0);
    FinalPass(procs);
  }

  /** The final pass of `schedule` once the main loop has ended: every
      waiting time already is the total of its WAIT slices, so nothing
      changes. */
  method FinalPass(procs: array<Process>)
    requires Recomputed(procs[..]) == procs[..]
    modifies procs
    ensures procs[..] == old(procs[..])
  {
    RecomputeWaiting(procs);
  }

  /** `max_scheduling_time` over the first processes: the latest finishing
      time, and 0 when none is later. */
  function LatestFinish(ps: seq<Process>): (m: int)
    ensures m >= 0
    ensures forall j :: 0 <= j < |ps| ==> ps[j].finishedTime <= m
    ensures m == 0 || exists j :: 0 <= j < |ps| && ps[j].finishedTime == m
  {
    if ps == [] then 0
    else
      var m := LatestFinish(ps[..|ps| - 1]);
      if ps[|ps| - 1].finishedTime > m then ps[|ps| - 1].finishedTime else m
  }

  /** `max_scheduling_time(processes)`. */
  method MaxSchedulingTime(procs: array<Process>) returns (max: int)
    ensures max == LatestFinish(procs[..])
  {
    max := 0;
    for i := 0 to procs.Length
      invariant max == LatestFinish(procs[..i])
    {
      assert procs[..i + 1][..i] == procs[..i];
      if procs[i].finishedTime > max {
        max := procs[i].finishedTime;
      }
    }
    assert procs[..procs.Length] == procs[..];
  }
}
