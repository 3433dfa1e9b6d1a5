/**
 * The main loop of `schedule` (sched.c) as a state machine over values.  A
 * state holds the processes, the levels and the local variables of
 * `schedule`; each step of the loop is a function on states, and the
 * invariant below is preserved by every step.  The methods of the
 * Scheduler module are proved to perform exactly these steps.
 */
module Simulation {
  import opened Wrappers
  import opened Processes
  import opened LinkedList
  import opened Queues

  /** `sequence_item`: one entry of the execution trace, the name of the
      process that ran and for how long. */
  datatype TraceItem = TraceItem(name: string, time: int)

  /** Total time of the trace. */
  function TraceTotal(tr: seq<TraceItem>): int
  {
    if tr == [] then 0 else TraceTotal(tr[..|tr| - 1]) + tr[|tr| - 1].time
  }

  /** Sum of the remaining times of the processes. */
  function TotalRemaining(ps: seq<Process>): int
  {
    if ps == [] then 0 else TotalRemaining(ps[..|ps| - 1]) + ps[|ps| - 1].remainingTime
  }

  /** The processes, the levels and the local variables of `schedule`:
      `current_time`, `current_process` (an index), `current_quantum`,
      `queue_index` and the trace `sequence`. */
  datatype Sim = Sim(
    ps: seq<Process>,
    qs: seq<Level>,
    clock: int,
    current: Option<nat>,
    used: int,
    index: nat,
    trace: seq<TraceItem>)

  /** A round-robin level with a positive quantum: the only kind of level
      whose processes are preempted when their quantum is used up. */
  predicate Limited(q: Level)
  {
    q.strategy == RR && q.quantum > 0
  }

  // ---------------------------------------------------------------------------
  // The invariant
  // ---------------------------------------------------------------------------

  /** What the loader guarantees of the processes handed to `schedule`
      (main.c rejects the others): a level for each, a positive execution
      time, an arrival time below the INT_MAX sentinel of
      `get_next_arrival`, and, after `prepare`, a pristine record. */
  ghost predicate Admissible(init: seq<Process>, levels: int)
  {
    forall j :: 0 <= j < |init| ==>
      && 0 <= init[j].priority < levels
      && init[j].executionTime > 0
      && init[j].arrivalTime < IntMax
      && Pristine(init[j])
  }

  /** The fields the simulation never changes. */
  predicate SameIdentity(p: Process, p0: Process)
  {
    && p.pid == p0.pid && p.name == p0.name && p.priority == p0.priority
    && p.arrivalTime == p0.arrivalTime && p.executionTime == p0.executionTime
  }

  /** A process that has arrived and not finished: time left to run, and a
      time line from its arrival to the clock whose WAIT slices add up to its
      waiting time and whose CPU slices add up to the time it has run. */
  ghost predicate Active(p: Process, clock: int)
  {
    && 0 < p.remainingTime
    && Tiles(p.slices, p.arrivalTime, clock)
    && p.waitingTime == SumWait(p.slices)
    && SumCpu(p.slices) == p.executionTime - p.remainingTime
  }

  /** A finished process: nothing left to run, and a time line from its
      arrival to its finishing time, no later than the clock. */
  ghost predicate Done(p: Process, clock: int)
  {
    && p.remainingTime == 0
    && Tiles(p.slices, p.arrivalTime, p.finishedTime)
    && p.finishedTime <= clock
    && p.waitingTime == SumWait(p.slices)
    && SumCpu(p.slices) == p.executionTime
  }

  /** The bookkeeping of one process against its record `p0` at the start of
      the simulation. */
  ghost predicate Account(p: Process, p0: Process, clock: int)
  {
    && SameIdentity(p, p0)
    && p.cpuTime - p0.cpuTime == p.executionTime - p.remainingTime
    && match p.state
       case Loaded => Pristine(p)
       case Ready => Active(p, clock)
       case Running => Active(p, clock)
       case Finished => Done(p, clock)
       case Undefined => false
  }

  /** A list of level `l` holds distinct processes of that level, all in
      state `st`. */
  ghost predicate Holds(ps: seq<Process>, s: seq<nat>, l: int, st: State)
  {
    && Distinct(s)
    && forall k :: 0 <= k < |s| ==> s[k] < |ps| && ps[s[k]].priority == l && ps[s[k]].state == st
  }

  /** The arrival list of level `l` holds its LOADED processes in arrival
      order, the ready list its READY ones and the finished list its
      FINISHED ones. */
  ghost predicate LevelOk(ps: seq<Process>, q: Level, l: int)
  {
    && Holds(ps, q.arrival, l, Loaded)
    && ArrivalOrdered(ps, q.arrival)
    && Holds(ps, q.ready, l, Ready)
    && Holds(ps, q.finished, l, Finished)
  }

  /** Every level is in order. */
  ghost predicate Levels(ps: seq<Process>, qs: seq<Level>)
  {
    forall l :: 0 <= l < |qs| ==> LevelOk(ps, qs[l], l)
  }

  /** Process `j` is where its state says: on the arrival, ready or finished
      list of its level, or running. */
  ghost predicate Located(ps: seq<Process>, qs: seq<Level>, current: Option<nat>, j: nat)
    requires j < |ps|
  {
    var p := ps[j];
    && 0 <= p.priority < |qs|
    && match p.state
       case Loaded => j in qs[p.priority].arrival
       case Ready => j in qs[p.priority].ready
       case Running => current == Some(j)
       case Finished => j in qs[p.priority].finished
       case Undefined => false
  }

  /** Every process is where its state says. */
  ghost predicate Placed(ps: seq<Process>, qs: seq<Level>, current: Option<nat>)
  {
    forall j :: 0 <= j < |ps| ==> Located(ps, qs, current, j)
  }

  /** The running process, if any, is RUNNING, came from the level of its
      priority and has quantum left on a limited level. */
  ghost predicate CurrentOk(s: Sim)
  {
    match s.current
    case None => true
    case Some(c) =>
      && c < |s.ps| && s.ps[c].state == Running
      && s.index == s.ps[c].priority && s.index < |s.qs|
      && (Limited(s.qs[s.index]) ==> s.used < s.qs[s.index].quantum)
  }

  /** The invariant of the main loop of `schedule`, relative to the
      processes `init` as `prepare` left them: each process is in exactly one
      place, its time line accounts for the time since it arrived, and the
      trace holds exactly the CPU time handed out. */
  ghost predicate Inv(s: Sim, init: seq<Process>)
  {
    && |s.ps| == |init|
    && Admissible(init, |s.qs|)
    && 0 <= s.clock
    && (forall j :: 0 <= j < |s.ps| ==> Account(s.ps[j], init[j], s.clock))
    && Levels(s.ps, s.qs)
    && Placed(s.ps, s.qs, s.current)
    && CurrentOk(s)
    && TraceTotal(s.trace) + TotalRemaining(s.ps) == TotalRemaining(init)
  }

  /** Some arrival list has a due process at its front. */
  ghost predicate HasDue(s: Sim)
  {
    exists l :: 0 <= l < |s.qs| && s.qs[l].arrival != [] && s.qs[l].arrival[0] < |s.ps|
      && s.ps[s.qs[l].arrival[0]].arrivalTime <= s.clock
  }

  /** Work left: time still to run plus processes still to arrive. */
  ghost function Pot(s: Sim): int
  {
    TotalRemaining(s.ps) + Pending(s.qs)
  }

  /** 0 when the next arrival step will move a process, 1 otherwise. */
  ghost function Flag(s: Sim): int
  {
    if HasDue(s) then 0 else 1
  }

  // ---------------------------------------------------------------------------
  // Sums
  // ---------------------------------------------------------------------------

  /** Appending an entry adds its time to the trace total. */
  lemma TraceTotalAppend(tr: seq<TraceItem>, e: TraceItem)
    ensures TraceTotal(tr + [e]) == TraceTotal(tr) + e.time
  {
    assert (tr + [e])[..|tr|] == tr;
  }

  /** Changing one process changes the sum by the change in its remaining
      time. */
  lemma {:induction false} TotalRemainingUpdate(ps: seq<Process>, i: nat, p: Process)
    requires i < |ps|
    ensures TotalRemaining(ps[i := p]) == TotalRemaining(ps) - ps[i].remainingTime + p.remainingTime
    decreases |ps|
  {
    var n := |ps| - 1;
    if i == n {
      assert ps[i := p][..n] == ps[..n];
    } else {
      assert ps[i := p][..n] == ps[..n][i := p];
      TotalRemainingUpdate(ps[..n], i, p);
    }
  }

  /** Two process lists with the same remaining times have the same sum. */
  lemma {:induction false} TotalRemainingAgree(ps: seq<Process>, ps': seq<Process>)
    requires |ps| == |ps'|
    requires forall j :: 0 <= j < |ps| ==> ps[j].remainingTime == ps'[j].remainingTime
    ensures TotalRemaining(ps) == TotalRemaining(ps')
    decreases |ps|
  {
    if ps != [] {
      TotalRemainingAgree(ps[..|ps| - 1], ps'[..|ps| - 1]);
    }
  }

  /** No remaining time is negative, so neither is the sum. */
  lemma {:induction false} TotalRemainingNonnegative(ps: seq<Process>)
    requires forall j :: 0 <= j < |ps| ==> ps[j].remainingTime >= 0
    ensures TotalRemaining(ps) >= 0
    decreases |ps|
  {
    if ps != [] {
      TotalRemainingNonnegative(ps[..|ps| - 1]);
    }
  }

  /** Under the invariant no process has negative remaining time, so the
      work left is never negative. */
  lemma PotNonnegative(s: Sim, init: seq<Process>)
    requires Inv(s, init)
    ensures Pot(s) >= 0
  {
    forall j | 0 <= j < |s.ps| ensures s.ps[j].remainingTime >= 0 {
      assert Account(s.ps[j], init[j], s.clock);
    }
    TotalRemainingNonnegative(s.ps);
  }

  // ---------------------------------------------------------------------------
  // Facts about the invariant's parts
  // ---------------------------------------------------------------------------

  /** Arrival order depends only on arrival times. */
  lemma ArrivalOrderedAgree(ps: seq<Process>, ps': seq<Process>, s: seq<nat>)
    requires |ps| == |ps'| && ArrivalOrdered(ps, s)
    requires forall k :: 0 <= k < |ps| ==> ps[k].arrivalTime == ps'[k].arrivalTime
    ensures ArrivalOrdered(ps', s)
  {
    forall i, j | 0 <= i < j < |s| ensures Before(ps', s[i], s[j]) {
      assert Before(ps, s[i], s[j]);
    }
  }

  /** A list keeps holding its processes when the only process that changes
      is not on it and keeps its level. */
  lemma HoldsUpdate(ps: seq<Process>, s: seq<nat>, l: int, st: State, i: nat, p: Process)
    requires Holds(ps, s, l, st) && i < |ps| && i !in s
    ensures Holds(ps[i := p], s, l, st)
  {
    forall k | 0 <= k < |s| ensures s[k] != i {
      assert s[k] in s;
    }
  }

  /** A list's tail holds what the list held. */
  lemma HoldsTail(ps: seq<Process>, s: seq<nat>, l: int, st: State)
    requires Holds(ps, s, l, st) && s != []
    ensures Holds(ps, s[1..], l, st)
    ensures forall y: nat :: y in s[1..] <==> y in s && y != s[0]
  {
    forall y: nat ensures y in s[1..] <==> y in s && y != s[0] {
      if y in s && y != s[0] {
        var k :| 0 <= k < |s| && s[k] == y;
        assert s[1..][k - 1] == y;
      }
      if y in s[1..] {
        var k :| 0 <= k < |s| - 1 && s[1..][k] == y;
        assert s[k + 1] == y;
      }
    }
  }

  /** Levels stay in order, and processes stay where they are, when no state,
      level or arrival time changes. */
  lemma LevelsAgree(ps: seq<Process>, ps': seq<Process>, qs: seq<Level>, current: Option<nat>)
    requires |ps| == |ps'| && Levels(ps, qs) && Placed(ps, qs, current)
    requires forall k :: 0 <= k < |ps| ==>
      ps'[k].state == ps[k].state && ps'[k].priority == ps[k].priority && ps'[k].arrivalTime == ps[k].arrivalTime
    ensures Levels(ps', qs) && Placed(ps', qs, current)
  {
    forall l | 0 <= l < |qs| ensures LevelOk(ps', qs[l], l) {
      assert LevelOk(ps, qs[l], l);
      ArrivalOrderedAgree(ps, ps', qs[l].arrival);
    }
    forall j | 0 <= j < |ps'| ensures Located(ps', qs, current, j) {
      assert Located(ps, qs, current, j);
    }
  }

  /** A process on a list of level `l` in state `st` belongs to level `l`
      and is in state `st`. */
  lemma OnList(ps: seq<Process>, s: seq<nat>, l: int, st: State, y: nat)
    requires Holds(ps, s, l, st) && y in s
    ensures y < |ps| && ps[y].priority == l && ps[y].state == st
  {
    var k :| 0 <= k < |s| && s[k] == y;
  }
  /** The indices on the ready lists designate processes. */
  predicate ReadyIndices(ps: seq<Process>, qs: seq<Level>)
  {
    forall l :: 0 <= l < |qs| ==> Indices(ps, qs[l].ready)
  }

  /** Under the invariant every list holds indices of processes. */
  lemma InvIndices(s: Sim, init: seq<Process>)
    requires Inv(s, init)
    ensures ArrivalIndices(s.ps, s.qs) && ReadyIndices(s.ps, s.qs)
  {
    forall l | 0 <= l < |s.qs| ensures Indices(s.ps, s.qs[l].arrival) && Indices(s.ps, s.qs[l].ready) {
      assert LevelOk(s.ps, s.qs[l], l);
    }
  }

  /** A process of another level or in another state is not on a list. */
  lemma NotOnList(ps: seq<Process>, s: seq<nat>, l: int, st: State, y: nat)
    requires Holds(ps, s, l, st) && y < |ps| && (ps[y].priority != l || ps[y].state != st)
    ensures y !in s
  {
    if y in s {
      OnList(ps, s, l, st, y);
    }
  }

  /** A list that gains one process of its level and state, not on it
      before, and nothing else, still holds its processes. */
  lemma HoldsAdd(ps: seq<Process>, s: seq<nat>, r: seq<nat>, l: int, st: State, x: nat)
    requires Holds(ps, s, l, st) && x < |ps| && ps[x].priority == l && ps[x].state == st
    requires Distinct(r) && forall y: nat :: y in r <==> y in s || y == x
    ensures Holds(ps, r, l, st)
  {
    forall k | 0 <= k < |r| ensures r[k] < |ps| && ps[r[k]].priority == l && ps[r[k]].state == st {
      assert r[k] in r;
      if r[k] != x {
        OnList(ps, s, l, st, r[k]);
      }
    }
  }

  /** Appending an element not on a list keeps it free of repetitions. */
  lemma DistinctAppend<T>(s: seq<T>, x: T)
    requires Distinct(s) && x !in s
    ensures Distinct(s + [x]) && forall y :: y in s + [x] <==> y in s || y == x
  {
  }

  /** The tail of an ordered arrival list is ordered. */
  lemma ArrivalOrderedTail(ps: seq<Process>, s: seq<nat>)
    requires ArrivalOrdered(ps, s) && s != []
    ensures ArrivalOrdered(ps, s[1..])
  {
    forall i, j | 0 <= i < j < |s| - 1 ensures Before(ps, s[1..][i], s[1..][j]) {
      assert Before(ps, s[i + 1], s[j + 1]);
    }
  }

  /** Every process except `i` that was on a list is on the same list of
      the same level afterwards. */
  ghost predicate Kept(qs: seq<Level>, qs': seq<Level>, i: nat)
  {
    && |qs'| == |qs|
    && forall m, j: nat :: 0 <= m < |qs| && j != i ==>
         && (j in qs[m].arrival ==> j in qs'[m].arrival)
         && (j in qs[m].ready ==> j in qs'[m].ready)
         && (j in qs[m].finished ==> j in qs'[m].finished)
  }

  /** The processes other than `i` stay where they are when their states and
      levels do not change and their lists keep them. */
  lemma PlacedOthers(ps: seq<Process>, qs: seq<Level>, cur: Option<nat>,
                     ps': seq<Process>, qs': seq<Level>, cur': Option<nat>, i: nat)
    requires Placed(ps, qs, cur) && |ps'| == |ps| && Kept(qs, qs', i)
    requires forall j :: 0 <= j < |ps| && j != i ==>
      ps'[j].state == ps[j].state && ps'[j].priority == ps[j].priority
    requires cur.Some? && cur.value != i ==> cur' == cur
    ensures forall j :: 0 <= j < |ps| && j != i ==> Located(ps', qs', cur', j)
  {
    forall j | 0 <= j < |ps| && j != i ensures Located(ps', qs', cur', j) {
      assert Located(ps, qs, cur, j);
    }
  }

  /** Changing process `i` without moving it to another level or changing
      its arrival time leaves the other levels in order. */
  lemma OtherLevels(ps: seq<Process>, qs: seq<Level>, i: nat, p: Process)
    requires Levels(ps, qs) && i < |ps|
    requires p.priority == ps[i].priority && p.arrivalTime == ps[i].arrivalTime
    ensures forall m :: 0 <= m < |qs| && m != ps[i].priority ==> LevelOk(ps[i := p], qs[m], m)
  {
    forall m | 0 <= m < |qs| && m != ps[i].priority ensures LevelOk(ps[i := p], qs[m], m) {
      var q := qs[m];
      assert LevelOk(ps, q, m);
      NotOnList(ps, q.arrival, m, Loaded, i);
      NotOnList(ps, q.ready, m, Ready, i);
      NotOnList(ps, q.finished, m, Finished, i);
      HoldsUpdate(ps, q.arrival, m, Loaded, i, p);
      HoldsUpdate(ps, q.ready, m, Ready, i, p);
      HoldsUpdate(ps, q.finished, m, Finished, i, p);
      ArrivalOrderedAgree(ps, ps[i := p], q.arrival);
    }
  }

  // ---------------------------------------------------------------------------
  // process_arrival as a step
  // ---------------------------------------------------------------------------

  /** One turn of the inner loop of `process_arrival` on level `l`: the
      front of its arrival list is admitted at the clock, enqueued on the
      ready list and popped. */
  function AdmitNext(s: Sim, l: nat): Sim
    requires l < |s.qs| && s.qs[l].arrival != [] && s.qs[l].arrival[0] < |s.ps|
  {
    var q, i := s.qs[l], s.qs[l].arrival[0];
    var ps' := s.ps[i := Admit(s.ps[i], s.clock)];
    s.(ps := ps', qs := s.qs[l := q.(ready := Enqueue(q, i, ps'), arrival := q.arrival[1..])])
  }

  /** A pristine process whose arrival time has come is READY after its
      admission, with a time line of one WAIT slice from its arrival to the
      clock, or none when it arrives right now. */
  lemma AdmitAccount(p: Process, p0: Process, clock: int)
    requires Account(p, p0, clock) && p.state == Loaded && p.executionTime > 0 && p.arrivalTime <= clock
    ensures Account(Admit(p, clock), p0, clock)
  {
    assert Pristine(p);
    AdmitActive(p, clock);
  }

  /** The time line of an admitted pristine process covers the time from its
      arrival to the clock, all of it waiting. */
  lemma AdmitActive(p: Process, clock: int)
    requires Pristine(p) && p.executionTime > 0 && p.arrivalTime <= clock
    ensures Active(Admit(p, clock), clock)
  {
    var a := Admit(p, clock);
    if clock > p.arrivalTime {
      TilesExtend([], p.arrivalTime, p.arrivalTime, Wait, clock - p.arrivalTime);
      assert a.slices == [] + [Slice(Wait, p.arrivalTime, clock)];
    }
  }

  /** Admitting the front of the arrival list of level `l` keeps the level
      in order: the process leaves the arrival list and joins the ready
      list. */
  lemma AdmitLevel(ps: seq<Process>, q: Level, l: int, p: Process)
    requires LevelOk(ps, q, l) && q.arrival != []
    requires p.priority == l && p.state == Ready && p.arrivalTime == ps[q.arrival[0]].arrivalTime
    ensures var i := q.arrival[0]; var ps' := ps[i := p];
      LevelOk(ps', q.(ready := Enqueue(q, i, ps'), arrival := q.arrival[1..]), l)
  {
    var i := q.arrival[0];
    var ps' := ps[i := p];
    OnList(ps, q.arrival, l, Loaded, i);
    HoldsTail(ps, q.arrival, l, Loaded);
    HoldsUpdate(ps, q.arrival[1..], l, Loaded, i, p);
    ArrivalOrderedTail(ps, q.arrival);
    ArrivalOrderedAgree(ps, ps', q.arrival[1..]);
    NotOnList(ps, q.ready, l, Ready, i);
    HoldsUpdate(ps, q.ready, l, Ready, i, p);
    EnqueueMembers(q, i, ps');
    HoldsAdd(ps', q.ready, Enqueue(q, i, ps'), l, Ready, i);
    NotOnList(ps, q.finished, l, Finished, i);
    HoldsUpdate(ps, q.finished, l, Finished, i, p);
  }

  /** One admission keeps the invariant. */
  lemma AdmitKeeps(s: Sim, init: seq<Process>, l: nat)
    requires Inv(s, init) && l < |s.qs| && s.qs[l].arrival != []
    requires s.qs[l].arrival[0] < |s.ps| && s.ps[s.qs[l].arrival[0]].arrivalTime <= s.clock
    ensures Inv(AdmitNext(s, l), init)
  {
    var q, i := s.qs[l], s.qs[l].arrival[0];
    assert LevelOk(s.ps, q, l);
    OnList(s.ps, q.arrival, l, Loaded, i);
    var p' := Admit(s.ps[i], s.clock);
    var t := AdmitNext(s, l);
    AdmitAccounts(s.ps, init, s.clock, i);
    AdmitLevels(s.ps, s.qs, l, s.clock);
    AdmitPlaced(s.ps, s.qs, s.current, l, s.clock);
    if s.current.Some? {
      assert s.ps[s.current.value].state == Running;
    }
    TotalRemainingUpdate(s.ps, i, p');
  }

  /** The accounts after an admission. */
  lemma AdmitAccounts(ps: seq<Process>, init: seq<Process>, clock: int, i: nat)
    requires |ps| == |init| && i < |ps| && ps[i].state == Loaded && ps[i].executionTime > 0
    requires ps[i].arrivalTime <= clock
    requires forall j :: 0 <= j < |ps| ==> Account(ps[j], init[j], clock)
    ensures var ps' := ps[i := Admit(ps[i], clock)];
      forall j :: 0 <= j < |ps'| ==> Account(ps'[j], init[j], clock)
  {
    AdmitAccount(ps[i], init[i], clock);
  }

  /** The levels after an admission on level `l`. */
  lemma AdmitLevels(ps: seq<Process>, qs: seq<Level>, l: nat, clock: int)
    requires Levels(ps, qs) && l < |qs| && qs[l].arrival != [] && qs[l].arrival[0] < |ps|
    requires ps[qs[l].arrival[0]].priority == l
    ensures var q, i := qs[l], qs[l].arrival[0];
      var ps' := ps[i := Admit(ps[i], clock)];
      Levels(ps', qs[l := q.(ready := Enqueue(q, i, ps'), arrival := q.arrival[1..])])
  {
    var q, i := qs[l], qs[l].arrival[0];
    var p' := Admit(ps[i], clock);
    OtherLevels(ps, qs, i, p');
    AdmitLevel(ps, q, l, p');
  }

  /** Where the processes are after an admission on level `l`. */
  lemma AdmitPlaced(ps: seq<Process>, qs: seq<Level>, cur: Option<nat>, l: nat, clock: int)
    requires Levels(ps, qs) && Placed(ps, qs, cur)
    requires l < |qs| && qs[l].arrival != [] && qs[l].arrival[0] < |ps|
    ensures var q, i := qs[l], qs[l].arrival[0];
      var ps' := ps[i := Admit(ps[i], clock)];
      Placed(ps', qs[l := q.(ready := Enqueue(q, i, ps'), arrival := q.arrival[1..])], cur)
  {
    var q, i := qs[l], qs[l].arrival[0];
    var ps' := ps[i := Admit(ps[i], clock)];
    var qs' := qs[l := q.(ready := Enqueue(q, i, ps'), arrival := q.arrival[1..])];
    assert LevelOk(ps, q, l);
    OnList(ps, q.arrival, l, Loaded, i);
    HoldsTail(ps, q.arrival, l, Loaded);
    EnqueueMembers(q, i, ps');
    assert Kept(qs, qs', i);
    if cur.Some? && cur.value == i {
      assert Located(ps, qs, cur, i);
    }
    PlacedOthers(ps, qs, cur, ps', qs', cur, i);
    assert Located(ps', qs', cur, i);
  }
  /** The inner loop of `process_arrival` on level `l`, at the clock. */
  function DrainAt(s: Sim, l: nat): (r: Sim)
    requires l < |s.qs| && ArrivalIndices(s.ps, s.qs)
  {
    var d := Drain(s.ps, s.qs[l], s.clock);
    s.(ps := d.0, qs := s.qs[l := d.1])
  }

  /** Draining a level keeps the invariant. */
  lemma {:induction false} DrainKeeps(s: Sim, init: seq<Process>, l: nat)
    requires Inv(s, init) && ArrivalIndices(s.ps, s.qs) && l < |s.qs|
    ensures Inv(DrainAt(s, l), init)
    decreases |s.qs[l].arrival|
  {
    var q := s.qs[l];
    if q.arrival != [] && s.ps[q.arrival[0]].arrivalTime <= s.clock {
      AdmitKeeps(s, init, l);
      var t := AdmitNext(s, l);
      InvIndices(t, init);
      DrainKeeps(t, init, l);
      var d := Drain(t.ps, t.qs[l], t.clock);
      assert t.qs[l := d.1] == s.qs[l := d.1];
      assert DrainAt(t, l) == DrainAt(s, l);
    } else {
      assert s.qs[l := q] == s.qs;
    }
  }

  /** `process_arrival` from level `l` on, at the clock. */
  function ArriveAt(s: Sim, l: nat): (r: Sim)
    requires l <= |s.qs| && ArrivalIndices(s.ps, s.qs)
  {
    var r := ArriveFrom(s.ps, s.qs, s.clock, l);
    s.(ps := r.0, qs := r.1)
  }

  /** `process_arrival(current_time, queues, nqueues)` as a step. */
  function Arrive(s: Sim): (r: Sim)
    requires ArrivalIndices(s.ps, s.qs)
  {
    ArriveAt(s, 0)
  }

  /** `process_arrival` from any level on keeps the invariant. */
  lemma {:induction false} ArriveKeeps(s: Sim, init: seq<Process>, l: nat)
    requires Inv(s, init) && ArrivalIndices(s.ps, s.qs) && l <= |s.qs|
    ensures Inv(ArriveAt(s, l), init)
    decreases |s.qs| - l
  {
    if l < |s.qs| {
      ArriveFromStep(s.ps, s.qs, s.clock, l);
      DrainKeeps(s, init, l);
      var t := DrainAt(s, l);
      InvIndices(t, init);
      ArriveKeeps(t, init, l + 1);
    }
  }

  /** `process_arrival` keeps the invariant and leaves no due process at the
      front of an arrival list.  It never adds work, and it takes away at
      least one pending process when one was due. */
  lemma ArriveStep(s: Sim, init: seq<Process>)
    requires Inv(s, init)
    ensures ArrivalIndices(s.ps, s.qs)
    ensures Inv(Arrive(s), init) && !HasDue(Arrive(s))
    ensures Pot(Arrive(s)) <= Pot(s) && (HasDue(s) ==> Pot(Arrive(s)) < Pot(s))
    ensures Arrive(s).current == s.current && Arrive(s).clock == s.clock
  {
    InvIndices(s, init);
    ArriveKeeps(s, init, 0);
    ArriveFromFacts(s.ps, s.qs, s.clock, 0);
    ArriveCount(s.ps, s.qs, s.clock, 0);
  }

  // ---------------------------------------------------------------------------
  // Selecting the next process
  // ---------------------------------------------------------------------------

  /** The first level from `l` on whose ready list is not empty. */
  function FirstReady(qs: seq<Level>, l: nat): (r: Option<nat>)
    requires l <= |qs|
    ensures r == None <==> forall m :: l <= m < |qs| ==> qs[m].ready == []
    ensures r.Some? ==> && l <= r.value < |qs| && qs[r.value].ready != []
                        && forall m :: l <= m < r.value ==> qs[m].ready == []
    decreases |qs| - l
  {
    if l == |qs| then None
    else if qs[l].ready != [] then Some(l)
    else FirstReady(qs, l + 1)
  }

  /** The selection in `schedule` when no process is running: the front of
      the ready list of the first level that has one is popped, becomes
      RUNNING with a fresh quantum, and its level is remembered.  A process is
      selected exactly when some ready list is not empty; the arrival lists
      and the clock do not change. */
  function Select(s: Sim): (r: Sim)
    requires ReadyIndices(s.ps, s.qs) && s.current == None
    ensures r.current == None <==> forall l :: 0 <= l < |s.qs| ==> s.qs[l].ready == []
    ensures r.current == None ==> r == s
    ensures r.clock == s.clock && |r.ps| == |s.ps| && |r.qs| == |s.qs|
    ensures forall l :: 0 <= l < |s.qs| ==> r.qs[l].arrival == s.qs[l].arrival
    ensures r.current.Some? ==>
      && FirstReady(s.qs, 0) == Some(r.index)
      && r.current.value == s.qs[r.index].ready[0]
      && r.used == 0
      && r.ps == s.ps[r.current.value := s.ps[r.current.value].(state := Running)]
      && r.qs == s.qs[r.index := s.qs[r.index].(ready := s.qs[r.index].ready[1..])]
  {
    match FirstReady(s.qs, 0)
    case None => s
    case Some(l) =>
      var c := s.qs[l].ready[0];
      assert s.qs[l].ready[0] in s.qs[l].ready;
      s.(ps := s.ps[c := s.ps[c].(state := Running)],
         qs := s.qs[l := s.qs[l].(ready := s.qs[l].ready[1..])],
         current := Some(c), used := 0, index := l)
  }

  /** Selection keeps the invariant. */
  lemma SelectKeeps(s: Sim, init: seq<Process>)
    requires Inv(s, init) && s.current == None
    ensures ReadyIndices(s.ps, s.qs) && Inv(Select(s), init)
  {
    InvIndices(s, init);
    var r := Select(s);
    match FirstReady(s.qs, 0)
    case None =>
    case Some(l) =>
      var q, c := s.qs[l], s.qs[l].ready[0];
      assert LevelOk(s.ps, q, l);
      assert c in q.ready;
      OnList(s.ps, q.ready, l, Ready, c);
      var p' := s.ps[c].(state := Running);
      assert r.ps == s.ps[c := p'];
      assert Account(s.ps[c], init[c], s.clock);
      AccountsUpdate(s.ps, init, s.clock, c, p');
      SelectLevels(s.ps, s.qs, l);
      SelectPlaced(s.ps, s.qs, l);
      TotalRemainingUpdate(s.ps, c, p');
  }

  /** Whether a process is due depends only on the arrival lists, the
      arrival times and the clock. */
  lemma HasDueAgree(s: Sim, t: Sim)
    requires |t.ps| == |s.ps| && |t.qs| == |s.qs| && t.clock == s.clock
    requires forall l :: 0 <= l < |s.qs| ==> t.qs[l].arrival == s.qs[l].arrival
    requires forall j :: 0 <= j < |s.ps| ==> t.ps[j].arrivalTime == s.ps[j].arrivalTime
    ensures HasDue(t) == HasDue(s)
  {
    if HasDue(s) {
      var l :| 0 <= l < |s.qs| && s.qs[l].arrival != [] && s.qs[l].arrival[0] < |s.ps|
        && s.ps[s.qs[l].arrival[0]].arrivalTime <= s.clock;
      assert t.qs[l].arrival == s.qs[l].arrival;
    }
    if HasDue(t) {
      var l :| 0 <= l < |t.qs| && t.qs[l].arrival != [] && t.qs[l].arrival[0] < |t.ps|
        && t.ps[t.qs[l].arrival[0]].arrivalTime <= t.clock;
      assert t.qs[l].arrival == s.qs[l].arrival;
    }
  }

  /** Selection changes neither the work left nor whether a process is
      due. */
  lemma SelectPot(s: Sim)
    requires ReadyIndices(s.ps, s.qs) && s.current == None
    ensures Pot(Select(s)) == Pot(s) && HasDue(Select(s)) == HasDue(s)
  {
    var r := Select(s);
    match FirstReady(s.qs, 0)
    case None =>
    case Some(l) =>
      var q, c := s.qs[l], s.qs[l].ready[0];
      assert c in q.ready;
      var p' := s.ps[c].(state := Running);
      TotalRemainingUpdate(s.ps, c, p');
      PendingUpdate(s.qs, l, r.qs[l]);
      HasDueAgree(s, r);
  }

  /** The levels after the front of the ready list of level `l` is taken to
      run. */
  lemma SelectLevels(ps: seq<Process>, qs: seq<Level>, l: nat)
    requires Levels(ps, qs) && l < |qs| && qs[l].ready != []
    ensures var q, c := qs[l], qs[l].ready[0];
      c < |ps| && Levels(ps[c := ps[c].(state := Running)], qs[l := q.(ready := q.ready[1..])])
  {
    var q, c := qs[l], qs[l].ready[0];
    assert LevelOk(ps, q, l);
    assert c in q.ready;
    OnList(ps, q.ready, l, Ready, c);
    var p' := ps[c].(state := Running);
    OtherLevels(ps, qs, c, p');
    HoldsTail(ps, q.ready, l, Ready);
    HoldsUpdate(ps, q.ready[1..], l, Ready, c, p');
    NotOnList(ps, q.arrival, l, Loaded, c);
    HoldsUpdate(ps, q.arrival, l, Loaded, c, p');
    ArrivalOrderedAgree(ps, ps[c := p'], q.arrival);
    NotOnList(ps, q.finished, l, Finished, c);
    HoldsUpdate(ps, q.finished, l, Finished, c, p');
  }

  /** Where the processes are after the front of the ready list of level
      `l` is taken to run. */
  lemma SelectPlaced(ps: seq<Process>, qs: seq<Level>, l: nat)
    requires Levels(ps, qs) && Placed(ps, qs, None) && l < |qs| && qs[l].ready != []
    ensures var q, c := qs[l], qs[l].ready[0];
      c < |ps| && Placed(ps[c := ps[c].(state := Running)], qs[l := q.(ready := q.ready[1..])], Some(c))
  {
    var q, c := qs[l], qs[l].ready[0];
    assert LevelOk(ps, q, l);
    assert c in q.ready;
    OnList(ps, q.ready, l, Ready, c);
    var ps' := ps[c := ps[c].(state := Running)];
    var qs' := qs[l := q.(ready := q.ready[1..])];
    HoldsTail(ps, q.ready, l, Ready);
    assert Kept(qs, qs', c);
    PlacedOthers(ps, qs, None, ps', qs', Some(c), c);
    assert Located(ps', qs', Some(c), c);
  }

  /** With no process running and nothing ready, every process is LOADED or
      FINISHED. */
  lemma Idle(s: Sim, init: seq<Process>)
    requires Inv(s, init) && s.current == None
    requires forall l :: 0 <= l < |s.qs| ==> s.qs[l].ready == []
    ensures forall j :: 0 <= j < |s.ps| ==> s.ps[j].state == Loaded || s.ps[j].state == Finished
  {
    forall j | 0 <= j < |s.ps| ensures s.ps[j].state == Loaded || s.ps[j].state == Finished {
      assert Located(s.ps, s.qs, s.current, j);
      assert Account(s.ps[j], init[j], s.clock);
    }
  }

  /** Replacing one process by one whose account is in order keeps every
      account in order. */
  lemma AccountsUpdate(ps: seq<Process>, init: seq<Process>, clock: int, c: nat, p: Process)
    requires |ps| == |init| && c < |ps| && Account(p, init[c], clock)
    requires forall j :: 0 <= j < |ps| ==> Account(ps[j], init[j], clock)
    ensures forall j :: 0 <= j < |ps| ==> Account(ps[c := p][j], init[j], clock)
  {
  }

  /** The accounts of processes that are LOADED or FINISHED stay in order
      when the clock moves forward. */
  lemma AccountsLater(ps: seq<Process>, init: seq<Process>, clock: int, later: int)
    requires |ps| == |init| && clock <= later
    requires forall j :: 0 <= j < |ps| ==> Account(ps[j], init[j], clock)
    requires forall j :: 0 <= j < |ps| ==> ps[j].state == Loaded || ps[j].state == Finished
    ensures forall j :: 0 <= j < |ps| ==> Account(ps[j], init[j], later)
  {
    forall j | 0 <= j < |ps| ensures Account(ps[j], init[j], later) {
      assert Account(ps[j], init[j], clock);
    }
  }

  /** With no process due, every process at the front of an arrival list
      arrives after the clock, and, as the loader demands, before INT_MAX. */
  lemma FrontsAhead(s: Sim, init: seq<Process>)
    requires Inv(s, init) && !HasDue(s)
    ensures ArrivalIndices(s.ps, s.qs)
    ensures forall l :: 0 <= l < |s.qs| && s.qs[l].arrival != [] ==>
      s.clock < s.ps[s.qs[l].arrival[0]].arrivalTime < IntMax
  {
    InvIndices(s, init);
    forall l | 0 <= l < |s.qs| && s.qs[l].arrival != []
      ensures s.clock < s.ps[s.qs[l].arrival[0]].arrivalTime < IntMax
    {
      var i := s.qs[l].arrival[0];
      assert Account(s.ps[i], init[i], s.clock);
    }
  }

  /** When nothing can run, `schedule` moves the clock to the next arrival:
      the invariant holds at that time, the work left is the same, and a
      process is then due. */
  lemma JumpKeeps(s: Sim, init: seq<Process>)
    requires Inv(s, init) && s.current == None && !HasDue(s)
    requires forall l :: 0 <= l < |s.qs| ==> s.qs[l].ready == []
    ensures ArrivalIndices(s.ps, s.qs)
    ensures var na := NextArrival(s.ps, s.qs);
      na != -1 ==> && s.clock < na
                   && Inv(s.(clock := na), init) && HasDue(s.(clock := na))
                   && Pot(s.(clock := na)) == Pot(s)
  {
    FrontsAhead(s, init);
    NextDue(s);
    var na := NextArrival(s.ps, s.qs);
    if na != -1 {
      IdleLater(s, init, na);
    }
  }

  /** The next arrival lies after the clock, and once the clock reaches it
      a process is due. */
  lemma NextDue(s: Sim)
    requires ArrivalIndices(s.ps, s.qs)
    requires forall l :: 0 <= l < |s.qs| && s.qs[l].arrival != [] ==>
      s.clock < s.ps[s.qs[l].arrival[0]].arrivalTime
    ensures var na := NextArrival(s.ps, s.qs);
      na != -1 ==> s.clock < na && HasDue(s.(clock := na))
  {
    var na := NextArrival(s.ps, s.qs);
    if na != -1 {
      var l :| 0 <= l < |s.qs| && s.qs[l].arrival != [] && na == s.ps[s.qs[l].arrival[0]].arrivalTime;
      assert HasDue(s.(clock := na));
    }
  }

  /** With no process running and nothing ready, the invariant survives a
      move of the clock forward. */
  lemma IdleLater(s: Sim, init: seq<Process>, later: int)
    requires Inv(s, init) && s.current == None && s.clock <= later
    requires forall l :: 0 <= l < |s.qs| ==> s.qs[l].ready == []
    ensures Inv(s.(clock := later), init)
  {
    Idle(s, init);
    AccountsLater(s.ps, init, s.clock, later);
  }

  /** When nothing can run and no process will arrive, every process has
      finished and the arrival and ready lists are empty: this is where the
      main loop of `schedule` ends. */
  lemma FinishAll(s: Sim, init: seq<Process>)
    requires Inv(s, init) && s.current == None && !HasDue(s)
    requires forall l :: 0 <= l < |s.qs| ==> s.qs[l].ready == []
    ensures ArrivalIndices(s.ps, s.qs)
    ensures NextArrival(s.ps, s.qs) == -1 ==>
      && (forall l :: 0 <= l < |s.qs| ==> s.qs[l].arrival == [])
      && (forall j :: 0 <= j < |s.ps| ==> s.ps[j].state == Finished)
  {
    FrontsAhead(s, init);
    if NextArrival(s.ps, s.qs) == -1 {
      Idle(s, init);
      forall j | 0 <= j < |s.ps| ensures s.ps[j].state == Finished {
        assert Located(s.ps, s.qs, s.current, j);
      }
    }
  }

  // ---------------------------------------------------------------------------
  // Running the selected process for one slice
  // ---------------------------------------------------------------------------

  /** The `min` macro of sched.h. */
  function Min(a: int, b: int): (m: int)
    ensures m <= a && m <= b && (m == a || m == b)
  {
    if a < b then a else b
  }

  /** The length of the next slice of the running process `p` of level `q`,
      given the quantum it has used, the clock and the next arrival (-1 for
      none): its remaining time, cut to the rest of its quantum on a limited
      level, cut at the next arrival, and at least 1. */
  function SliceLength(p: Process, q: Level, used: int, clock: int, next: int): (d: int)
    ensures d >= 1
  {
    var full := p.remainingTime;
    var capped := if Limited(q) then Min(full, q.quantum - used) else full;
    var cut := if next != -1 && next < clock + capped then next - clock else capped;
    if cut <= 0 then 1 else cut
  }

  /** A slice never overruns the remaining time, the quantum or the next
      arrival, and it ends at the first of the three. */
  lemma SliceBounds(p: Process, q: Level, used: int, clock: int, next: int)
    requires p.remainingTime > 0 && (Limited(q) ==> used < q.quantum)
    requires next == -1 || clock < next
    ensures var d := SliceLength(p, q, used, clock, next);
      && 1 <= d <= p.remainingTime
      && (Limited(q) ==> used + d <= q.quantum)
      && (next != -1 ==> clock + d <= next)
      && (d == p.remainingTime || (Limited(q) && used + d == q.quantum) || (next != -1 && clock + d == next))
  {
  }

  /** What `add_waiting_time` does to one READY process: its waiting time
      grows by the slice and its time line gets a WAIT slice. */
  function AddWait(p: Process, t: int, d: int): Process
  {
    p.(waitingTime := p.waitingTime + d, slices := p.slices + [Slice(Wait, t, t + d)])
  }

  /** `add_waiting_time(processes, current, t, d)` over all processes. */
  function Charged(ps: seq<Process>, c: nat, t: int, d: int): seq<Process>
  {
    seq(|ps|, j requires 0 <= j < |ps| => if j != c && ps[j].state == Ready then AddWait(ps[j], t, d) else ps[j])
  }

  /** The running process runs for `d`: its remaining time drops and its CPU
      time grows by `d`, it gets a CPU slice, every other READY process
      waits, the trace gets an entry and the clock and the used quantum
      advance. */
  function Run(s: Sim, d: int): Sim
    requires s.current.Some? && s.current.value < |s.ps|
  {
    var c := s.current.value;
    var p := s.ps[c];
    var ran := p.(remainingTime := p.remainingTime - d, cpuTime := p.cpuTime + d,
                  slices := p.slices + [Slice(Cpu, s.clock, s.clock + d)]);
    s.(ps := Charged(s.ps[c := ran], c, s.clock, d), clock := s.clock + d, used := s.used + d,
       trace := s.trace + [TraceItem(p.name, d)])
  }

  /** What becomes of the running process after its slice, in the order of
      the source's tests: FINISHED when no time is left; back to the tail of
      its ready list when its quantum on a limited level is used up; back
      into its ready list by remaining time on an SRT level; running on
      otherwise. */
  function Dispose(s: Sim): Sim
    requires s.current.Some? && s.current.value < |s.ps| && s.index < |s.qs|
  {
    var c, q := s.current.value, s.qs[s.index];
    var p := s.ps[c];
    if p.remainingTime <= 0 then
      s.(ps := s.ps[c := p.(state := Finished, finishedTime := s.clock)],
         qs := s.qs[s.index := q.(finished := q.finished + [c])], current := None)
    else if q.strategy == RR && q.quantum > 0 && s.used >= q.quantum then
      s.(ps := s.ps[c := p.(state := Ready)],
         qs := s.qs[s.index := q.(ready := q.ready + [c])], current := None)
    else if q.strategy == SRT then
      var ps' := s.ps[c := p.(state := Ready)];
      s.(ps := ps', qs := s.qs[s.index := q.(ready := InsertOrdered<nat>(q.ready, c, BySrt(ps')))],
         current := None)
    else s
  }

  /** The running process leaves the CPU exactly when it has no time left,
      its quantum on a limited level is used up, or its level is SRT; a
      process on a FIFO, SJF or unlimited RR level keeps the CPU until it
      finishes, whatever became ready elsewhere.  It is FINISHED exactly when
      no time is left. */
  lemma DisposeOutcome(s: Sim)
    requires s.current.Some? && s.current.value < |s.ps| && s.index < |s.qs|
    requires s.ps[s.current.value].state == Running
    ensures var t, c, q := Dispose(s), s.current.value, s.qs[s.index];
      && (t.current == None <==>
            s.ps[c].remainingTime <= 0 || (Limited(q) && s.used >= q.quantum) || q.strategy == SRT)
      && (t.ps[c].state == Finished <==> s.ps[c].remainingTime <= 0)
      && (t.current != None ==> t == s)
      && |t.ps| == |s.ps| && t.clock == s.clock && t.trace == s.trace
  {
  }

  /** Where the running process `c` of level `l` goes after its slice.  With
      no time left it is FINISHED at the clock and appended to the finished
      list of its level; with its quantum on a limited level used up it is
      READY at the tail of its ready list; on an SRT level it is READY and
      put back into its ready list with `compare_srt`.  No other process and
      no other level changes. */
  lemma DisposePlace(s: Sim)
    requires s.current.Some? && s.current.value < |s.ps| && s.index < |s.qs|
    ensures var t, c, l := Dispose(s), s.current.value, s.index;
      var p, q := s.ps[c], s.qs[l];
      && |t.ps| == |s.ps| && |t.qs| == |s.qs|
      && (forall j :: 0 <= j < |s.ps| && j != c ==> t.ps[j] == s.ps[j])
      && (forall m :: 0 <= m < |s.qs| && m != l ==> t.qs[m] == s.qs[m])
      && t.qs[l].arrival == q.arrival
      && (p.remainingTime <= 0 ==>
            && t.ps[c] == p.(state := Finished, finishedTime := s.clock)
            && t.qs[l].finished == q.finished + [c] && t.qs[l].ready == q.ready)
      && (p.remainingTime > 0 && Limited(q) && s.used >= q.quantum ==>
            && t.ps[c] == p.(state := Ready)
            && t.qs[l].ready == q.ready + [c] && t.qs[l].finished == q.finished)
      && (p.remainingTime > 0 && !(Limited(q) && s.used >= q.quantum) && q.strategy == SRT ==>
            && t.ps[c] == p.(state := Ready)
            && t.qs[l].ready == InsertOrdered<nat>(q.ready, c, BySrt(t.ps))
            && t.qs[l].finished == q.finished)
  {
  }

  /** The account of the running process right after its slice, when it may
      have no time left. */
  ghost predicate Ran(p: Process, p0: Process, clock: int)
  {
    && SameIdentity(p, p0)
    && p.cpuTime - p0.cpuTime == p.executionTime - p.remainingTime
    && p.state == Running
    && 0 <= p.remainingTime
    && Tiles(p.slices, p.arrivalTime, clock)
    && p.waitingTime == SumWait(p.slices)
    && SumCpu(p.slices) == p.executionTime - p.remainingTime
  }

  /** The state between a slice and the decision about the running process:
      the invariant, except that the running process may have run out of
      time or quantum. */
  ghost predicate Inflight(s: Sim, init: seq<Process>)
  {
    && |s.ps| == |init|
    && Admissible(init, |s.qs|)
    && 0 <= s.clock
    && s.current.Some? && s.current.value < |s.ps| && s.index < |s.qs|
    && s.ps[s.current.value].priority == s.index
    && (Limited(s.qs[s.index]) ==> s.used <= s.qs[s.index].quantum)
    && Ran(s.ps[s.current.value], init[s.current.value], s.clock)
    && (forall j :: 0 <= j < |s.ps| && j != s.current.value ==> Account(s.ps[j], init[j], s.clock))
    && Levels(s.ps, s.qs)
    && Placed(s.ps, s.qs, s.current)
    && TraceTotal(s.trace) + TotalRemaining(s.ps) == TotalRemaining(init)
  }

  /** The accounts after a slice of length `d` of the running process. */
  lemma RunAccounts(s: Sim, init: seq<Process>, d: int)
    requires |s.ps| == |init| && s.current.Some? && s.current.value < |s.ps|
    requires s.ps[s.current.value].state == Running && 1 <= d <= s.ps[s.current.value].remainingTime
    requires forall j :: 0 <= j < |s.ps| ==> Account(s.ps[j], init[j], s.clock)
    requires forall j :: 0 <= j < |s.ps| && j != s.current.value ==> s.ps[j].state != Running
    ensures var r, c := Run(s, d), s.current.value;
      && Ran(r.ps[c], init[c], r.clock)
      && forall j :: 0 <= j < |r.ps| && j != c ==> Account(r.ps[j], init[j], r.clock)
  {
    var c, clock := s.current.value, s.clock;
    var r := Run(s, d);
    var p := s.ps[c];
    assert Account(p, init[c], clock);
    TilesExtend(p.slices, p.arrivalTime, clock, Cpu, d);
    assert Ran(r.ps[c], init[c], r.clock);
    forall j | 0 <= j < |r.ps| && j != c ensures Account(r.ps[j], init[j], r.clock) {
      var q := s.ps[j];
      assert Account(q, init[j], clock);
      if q.state == Ready {
        TilesExtend(q.slices, q.arrivalTime, clock, Wait, d);
        assert r.ps[j] == AddWait(q, clock, d);
      } else {
        assert r.ps[j] == q;
      }
    }
  }

  /** A slice keeps the levels and the places, and takes `d` off the work
      left while the trace grows by `d`. */
  lemma RunShape(s: Sim, d: int)
    requires s.current.Some? && s.current.value < |s.ps|
    requires Levels(s.ps, s.qs) && Placed(s.ps, s.qs, s.current)
    ensures var r := Run(s, d);
      && Levels(r.ps, r.qs) && Placed(r.ps, r.qs, r.current)
      && TotalRemaining(r.ps) == TotalRemaining(s.ps) - d
      && TraceTotal(r.trace) == TraceTotal(s.trace) + d
  {
    var c := s.current.value;
    var p := s.ps[c];
    var ran := p.(remainingTime := p.remainingTime - d, cpuTime := p.cpuTime + d,
                  slices := p.slices + [Slice(Cpu, s.clock, s.clock + d)]);
    var r := Run(s, d);
    LevelsAgree(s.ps, r.ps, s.qs, s.current);
    TotalRemainingUpdate(s.ps, c, ran);
    TotalRemainingAgree(s.ps[c := ran], r.ps);
    TraceTotalAppend(s.trace, TraceItem(p.name, d));
  }

  /** A slice that overruns neither the remaining time nor the quantum
      leads from the invariant to the in-flight state. */
  lemma RunInflight(s: Sim, init: seq<Process>, d: int)
    requires Inv(s, init) && s.current.Some?
    requires 1 <= d <= s.ps[s.current.value].remainingTime
    requires Limited(s.qs[s.index]) ==> s.used + d <= s.qs[s.index].quantum
    ensures Inflight(Run(s, d), init)
    ensures TotalRemaining(Run(s, d).ps) == TotalRemaining(s.ps) - d
  {
    var c := s.current.value;
    forall j | 0 <= j < |s.ps| && j != c ensures s.ps[j].state != Running {
      assert Located(s.ps, s.qs, s.current, j);
    }
    RunAccounts(s, init, d);
    RunShape(s, d);
  }

  /** The level of the running process after it is put back on its ready
      list (`st` READY, new ready list `r`) or on its finished list (`st`
      FINISHED, new finished list `r`). */
  lemma ParkLevel(ps: seq<Process>, q: Level, l: int, c: nat, p: Process, st: State, r: seq<nat>)
    requires LevelOk(ps, q, l) && c < |ps| && ps[c].state == Running && ps[c].priority == l
    requires p.priority == l && p.arrivalTime == ps[c].arrivalTime && p.state == st
    requires st == Ready || st == Finished
    requires Distinct(r)
    requires forall y: nat :: y in r <==> y in (if st == Ready then q.ready else q.finished) || y == c
    ensures LevelOk(ps[c := p], if st == Ready then q.(ready := r) else q.(finished := r), l)
  {
    var ps' := ps[c := p];
    NotOnList(ps, q.arrival, l, Loaded, c);
    NotOnList(ps, q.ready, l, Ready, c);
    NotOnList(ps, q.finished, l, Finished, c);
    HoldsUpdate(ps, q.arrival, l, Loaded, c, p);
    HoldsUpdate(ps, q.ready, l, Ready, c, p);
    HoldsUpdate(ps, q.finished, l, Finished, c, p);
    ArrivalOrderedAgree(ps, ps', q.arrival);
    if st == Ready {
      HoldsAdd(ps', q.ready, r, l, Ready, c);
    } else {
      HoldsAdd(ps', q.finished, r, l, Finished, c);
    }
  }

  /** Where the processes are after the running process is put back on a
      list of its level. */
  lemma ParkPlaced(ps: seq<Process>, qs: seq<Level>, c: nat, p: Process, st: State, r: seq<nat>)
    requires Placed(ps, qs, Some(c)) && c < |ps| && ps[c].state == Running
    requires 0 <= ps[c].priority < |qs|
    requires p.priority == ps[c].priority && p.state == st && (st == Ready || st == Finished)
    requires var q := qs[ps[c].priority];
      forall y: nat :: y in r <==> y in (if st == Ready then q.ready else q.finished) || y == c
    ensures var l := ps[c].priority; var q := qs[l];
      Placed(ps[c := p], qs[l := if st == Ready then q.(ready := r) else q.(finished := r)], None)
  {
    var l := ps[c].priority;
    var q := qs[l];
    var qs' := qs[l := if st == Ready then q.(ready := r) else q.(finished := r)];
    assert Kept(qs, qs', c);
    PlacedOthers(ps, qs, Some(c), ps[c := p], qs', None, c);
    assert Located(ps[c := p], qs', None, c);
  }

  /** Accounts that hold for every process but `c` hold for all once `c`
      is replaced by a process whose account holds. */
  lemma AccountsPark(ps: seq<Process>, init: seq<Process>, clock: int, c: nat, p: Process)
    requires |ps| == |init| && c < |ps| && Account(p, init[c], clock)
    requires forall j :: 0 <= j < |ps| && j != c ==> Account(ps[j], init[j], clock)
    ensures forall j :: 0 <= j < |ps| ==> Account(ps[c := p][j], init[j], clock)
  {
  }

  /** The decision about the running process after its slice restores the
      invariant and changes neither the work left nor the arrival lists. */
  lemma DisposeKeeps(s: Sim, init: seq<Process>)
    requires Inflight(s, init)
    ensures Inv(Dispose(s), init)
    ensures TotalRemaining(Dispose(s).ps) == TotalRemaining(s.ps)
    ensures Pending(Dispose(s).qs) == Pending(s.qs)
  {
    var c, l := s.current.value, s.index;
    var q, p := s.qs[l], s.ps[c];
    var t := Dispose(s);
    assert LevelOk(s.ps, q, l);
    if p.remainingTime <= 0 {
      var p' := p.(state := Finished, finishedTime := s.clock);
      NotOnList(s.ps, q.finished, l, Finished, c);
      DistinctAppend(q.finished, c);
      ParkLevel(s.ps, q, l, c, p', Finished, q.finished + [c]);
      ParkPlaced(s.ps, s.qs, c, p', Finished, q.finished + [c]);
      DisposeCommon(s, init, p', t.qs[l]);
    } else if q.strategy == RR && q.quantum > 0 && s.used >= q.quantum {
      var p' := p.(state := Ready);
      NotOnList(s.ps, q.ready, l, Ready, c);
      DistinctAppend(q.ready, c);
      ParkLevel(s.ps, q, l, c, p', Ready, q.ready + [c]);
      ParkPlaced(s.ps, s.qs, c, p', Ready, q.ready + [c]);
      DisposeCommon(s, init, p', t.qs[l]);
    } else if q.strategy == SRT {
      var p' := p.(state := Ready);
      var r := InsertOrdered<nat>(q.ready, c, BySrt(s.ps[c := p']));
      NotOnList(s.ps, q.ready, l, Ready, c);
      InsertOrderedDistinct<nat>(q.ready, c, BySrt(s.ps[c := p']));
      forall y: nat ensures y in r <==> y in q.ready || y == c {
        InsertOrderedMembers<nat>(q.ready, c, BySrt(s.ps[c := p']), y);
      }
      ParkLevel(s.ps, q, l, c, p', Ready, r);
      ParkPlaced(s.ps, s.qs, c, p', Ready, r);
      DisposeCommon(s, init, p', t.qs[l]);
    } else {
      AccountsPark(s.ps, init, s.clock, c, p);
    }
  }

  /** What the three branches of the decision that take the running process
      off the CPU have in common: one process and one level change, and the
      other levels stay in order. */
  lemma DisposeCommon(s: Sim, init: seq<Process>, p': Process, q': Level)
    requires Inflight(s, init)
    requires var c := s.current.value; var p := s.ps[c];
      && p'.priority == p.priority && p'.arrivalTime == p.arrivalTime
      && p'.remainingTime == p.remainingTime && q'.arrival == s.qs[s.index].arrival
      && q'.quantum == s.qs[s.index].quantum && q'.strategy == s.qs[s.index].strategy
      && Account(p', init[c], s.clock)
    requires var t := s.(ps := s.ps[s.current.value := p'], qs := s.qs[s.index := q'], current := None);
      LevelOk(t.ps, q', s.index) && Placed(t.ps, t.qs, None)
    ensures var t := s.(ps := s.ps[s.current.value := p'], qs := s.qs[s.index := q'], current := None);
      && Inv(t, init)
      && TotalRemaining(t.ps) == TotalRemaining(s.ps)
      && Pending(t.qs) == Pending(s.qs)
  {
    var c, l := s.current.value, s.index;
    var t := s.(ps := s.ps[c := p'], qs := s.qs[l := q'], current := None);
    AccountsPark(s.ps, init, s.clock, c, p');
    OtherLevels(s.ps, s.qs, c, p');
    TotalRemainingUpdate(s.ps, c, p');
    PendingUpdate(s.qs, l, q');
  }

  /** One slice and the decision after it keep the invariant and take time
      off the work left. */
  lemma StepKeeps(s: Sim, init: seq<Process>)
    requires Inv(s, init) && s.current.Some? && !HasDue(s)
    ensures ArrivalIndices(s.ps, s.qs) && s.current.value < |s.ps| && s.index < |s.qs|
    ensures var c := s.current.value;
      var d := SliceLength(s.ps[c], s.qs[s.index], s.used, s.clock, NextArrival(s.ps, s.qs));
      Inv(Dispose(Run(s, d)), init) && Pot(Dispose(Run(s, d))) < Pot(s)
  {
    FrontsAhead(s, init);
    var c := s.current.value;
    assert Account(s.ps[c], init[c], s.clock);
    var next := NextArrival(s.ps, s.qs);
    var d := SliceLength(s.ps[c], s.qs[s.index], s.used, s.clock, next);
    SliceBounds(s.ps[c], s.qs[s.index], s.used, s.clock, next);
    RunInflight(s, init, d);
    DisposeKeeps(Run(s, d), init);
  }

  // ---------------------------------------------------------------------------
  // Start and end of the simulation
  // ---------------------------------------------------------------------------

  /** The state `prepare` and the declarations of `schedule` leave: the
      restarted processes, every one on the arrival list of its level, the
      clock at 0, nothing running and an empty trace. */
  function Start(ps: seq<Process>, qs: seq<Level>): (s: Sim)
    requires forall i :: 0 <= i < |ps| ==> 0 <= ps[i].priority < |qs|
  {
    var init := RestartAll(ps);
    Sim(init, Enroll(init, Cleared(qs), |ps|), 0, None, 0, 0, [])
  }

  /** The invariant holds at the start, for processes the loader accepts. */
  lemma StartInv(ps: seq<Process>, qs: seq<Level>)
    requires forall i :: 0 <= i < |ps| ==>
      0 <= ps[i].priority < |qs| && ps[i].executionTime > 0 && ps[i].arrivalTime < IntMax
    ensures Inv(Start(ps, qs), RestartAll(ps))
  {
    var init := RestartAll(ps);
    var s := Start(ps, qs);
    var cl := Cleared(qs);
    forall l | 0 <= l < |qs| ensures LevelOk(init, s.qs[l], l) {
      EnrollKeeps(init, cl, |ps|, l);
      EnrollMembers(init, cl, |ps|, l);
      EnrollOrdered(init, cl, |ps|, l);
      EnrollDistinct(init, cl, |ps|, l);
      var a := s.qs[l].arrival;
      forall k | 0 <= k < |a| ensures a[k] < |init| && init[a[k]].priority == l && init[a[k]].state == Loaded {
        assert a[k] in a;
      }
    }
    forall j | 0 <= j < |init| ensures Located(init, s.qs, None, j) {
      EnrollMembers(init, cl, |ps|, init[j].priority);
    }
  }

  /** The total execution time of the processes. */
  function TotalExecution(ps: seq<Process>): int
  {
    if ps == [] then 0 else TotalExecution(ps[..|ps| - 1]) + ps[|ps| - 1].executionTime
  }

  /** The remaining times add up to the execution times when every process
      still has all of its execution time to run, and to 0 when none has
      any left. */
  lemma {:induction false} TotalRemainingExtremes(ps: seq<Process>)
    ensures (forall j :: 0 <= j < |ps| ==> ps[j].remainingTime == ps[j].executionTime)
      ==> TotalRemaining(ps) == TotalExecution(ps)
    ensures (forall j :: 0 <= j < |ps| ==> ps[j].remainingTime == 0) ==> TotalRemaining(ps) == 0
    decreases |ps|
  {
    if ps != [] {
      TotalRemainingExtremes(ps[..|ps| - 1]);
    }
  }

  /** Two process lists with the same execution times have the same total. */
  lemma {:induction false} TotalExecutionAgree(ps: seq<Process>, ps': seq<Process>)
    requires |ps| == |ps'|
    requires forall j :: 0 <= j < |ps| ==> ps[j].executionTime == ps'[j].executionTime
    ensures TotalExecution(ps) == TotalExecution(ps')
    decreases |ps|
  {
    if ps != [] {
      TotalExecutionAgree(ps[..|ps| - 1], ps'[..|ps| - 1]);
    }
  }

  /** The final pass of `schedule` over the processes: a waiting time of -1
      becomes 0, and then every waiting time becomes the total length of the
      WAIT slices of the process. */
  function Recomputed(ps: seq<Process>): (r: seq<Process>)
    ensures |r| == |ps|
    ensures forall j :: 0 <= j < |ps| ==> r[j] == ps[j].(waitingTime := SumWait(ps[j].slices))
  {
    seq(|ps|, j requires 0 <= j < |ps| =>
      var p := ps[j];
      var p' := if p.waitingTime == -1 then p.(waitingTime := 0) else p;
      p'.(waitingTime := SumWait(p'.slices)))
  }

  /** What the simulation promises of a process that started as `p0`: it is
      FINISHED with nothing left to run, its CPU time has grown by its
      execution time, and its time line runs without gaps from its arrival
      to its finishing time, split into its execution time and its waiting
      time. */
  ghost predicate Completed(p: Process, p0: Process)
  {
    && SameIdentity(p, p0)
    && p.state == Finished
    && p.remainingTime == 0
    && p.cpuTime == p0.cpuTime + p0.executionTime
    && p.waitingTime == SumWait(p.slices) >= 0
    && Tiles(p.slices, p.arrivalTime, p.finishedTime)
    && p.finishedTime == p.arrivalTime + p.executionTime + p.waitingTime
  }

  /** When the main loop ends with every process FINISHED, each one is
      completed and on the finished list of its level, the trace holds the
      total execution time, and the final pass changes nothing. */
  lemma FinalState(s: Sim, init: seq<Process>)
    requires Inv(s, init)
    requires forall j :: 0 <= j < |s.ps| ==> s.ps[j].state == Finished
    ensures forall j :: 0 <= j < |s.ps| ==> Completed(s.ps[j], init[j])
    ensures forall j :: 0 <= j < |s.ps| ==> 0 <= s.ps[j].priority < |s.qs| && j in s.qs[s.ps[j].priority].finished
    ensures TraceTotal(s.trace) == TotalExecution(init)
    ensures Recomputed(s.ps) == s.ps
  {
    forall j | 0 <= j < |s.ps| ensures 0 <= s.ps[j].priority < |s.qs| && j in s.qs[s.ps[j].priority].finished {
      assert Located(s.ps, s.qs, s.current, j);
    }
    forall j | 0 <= j < |s.ps| ensures Completed(s.ps[j], init[j]) {
      var p := s.ps[j];
      assert Account(p, init[j], s.clock);
      TilesSpan(p.slices, p.arrivalTime, p.finishedTime);
    }
    TotalRemainingExtremes(s.ps);
    TotalRemainingExtremes(init);
    TotalExecutionAgree(s.ps, init);
  }

  /** Completion is stated against the records as the caller handed them
      over as well as against the records `restart_process` made of them. */
  lemma CompletedAll(ps: seq<Process>, ps0: seq<Process>)
    requires |ps| == |ps0|
    requires forall j :: 0 <= j < |ps| ==> Completed(ps[j], RestartAll(ps0)[j])
    ensures forall j :: 0 <= j < |ps| ==> Completed(ps[j], ps0[j])
  {
    forall j | 0 <= j < |ps| ensures Completed(ps[j], ps0[j]) {
      assert Completed(ps[j], Restart(ps0[j]));
    }
  }

  // ---------------------------------------------------------------------------
  // One turn of the main loop
  // ---------------------------------------------------------------------------

  /** What the first half of a turn leaves: after `process_arrival` the
      invariant holds and nothing is due, and so after a selection. */
  lemma TurnFacts(s: Sim, init: seq<Process>)
    requires Inv(s, init)
    ensures ArrivalIndices(s.ps, s.qs)
    ensures var a := Arrive(s);
      && Inv(a, init) && !HasDue(a) && ArrivalIndices(a.ps, a.qs) && ReadyIndices(a.ps, a.qs)
      && (a.current == None ==>
            var b := Select(a);
            Inv(b, init) && !HasDue(b) && ArrivalIndices(b.ps, b.qs) && Pot(b) == Pot(a))
  {
    ArriveStep(s, init);
    var a := Arrive(s);
    InvIndices(a, init);
    if a.current == None {
      SelectKeeps(a, init);
      SelectPot(a);
      InvIndices(Select(a), init);
    }
  }

  /** The first half of a turn: `process_arrival`, then a selection when
      nothing runs. */
  ghost function Prelude(s: Sim, init: seq<Process>): Sim
    requires Inv(s, init)
  {
    TurnFacts(s, init);
    var a := Arrive(s);
    if a.current == None then Select(a) else a
  }

  /** One turn of the main loop of `schedule`: arrivals; a selection when
      nothing runs; then, when still nothing runs, the end of the loop (the
      flag is true) if no process will arrive, or else a move of the clock to
      the next arrival; otherwise one slice of the running process and the
      decision about it. */
  ghost function Turn(s: Sim, init: seq<Process>): (Sim, bool)
    requires Inv(s, init)
  {
    TurnFacts(s, init);
    var b := Prelude(s, init);
    if b.current == None then
      var na := NextArrival(b.ps, b.qs);
      if na == -1 then (b, true) else (b.(clock := na), false)
    else
      StepKeeps(b, init);
      var c := b.current.value;
      var d := SliceLength(b.ps[c], b.qs[b.index], b.used, b.clock, NextArrival(b.ps, b.qs));
      (Dispose(Run(b, d)), false)
  }

  /** Every turn keeps the invariant.  A turn that ends the loop leaves
      every process FINISHED and the arrival and ready lists empty; any
      other turn takes work off, or keeps the work and makes a process
      due, so the loop ends. */
  lemma TurnKeeps(s: Sim, init: seq<Process>)
    requires Inv(s, init)
    ensures var r := Turn(s, init);
      && Inv(r.0, init) && 0 <= Pot(r.0) && 0 <= Pot(s)
      && (r.1 ==> && (forall j :: 0 <= j < |r.0.ps| ==> r.0.ps[j].state == Finished)
                  && (forall l :: 0 <= l < |r.0.qs| ==> r.0.qs[l].arrival == [] && r.0.qs[l].ready == []))
      && (!r.1 ==> Pot(r.0) < Pot(s) || (Pot(r.0) == Pot(s) && Flag(r.0) < Flag(s)))
  {
    PotNonnegative(s, init);
    TurnFacts(s, init);
    ArriveStep(s, init);
    var a := Arrive(s);
    if a.current == None {
      var b := Select(a);
      if b.current == None {
        FinishAll(b, init);
        JumpKeeps(b, init);
      } else {
        StepKeeps(b, init);
      }
    } else {
      StepKeeps(a, init);
    }
    PotNonnegative(Turn(s, init).0, init);
  }
}
