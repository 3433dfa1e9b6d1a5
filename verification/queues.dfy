/**
 * The priority levels of sched.c (`priority_queue` in sched.h) and the
 * routines that fill and drain their lists: `create_queues`, `prepare`,
 * `process_arrival`, `get_next_arrival` and `get_ready_count`.  A level's
 * three lists hold process pointers; here they hold indices into the array
 * of processes, and each list is the sequence of its elements.
 */
module Queues {
  import opened Processes
  import opened LinkedList

  /** `priority_queue`: a level with its strategy, its quantum and its ready,
      arrival and finished lists. */
  datatype Level = Level(
    quantum: int,
    strategy: Strategy,
    ready: seq<nat>,
    arrival: seq<nat>,
    finished: seq<nat>)

  // ---------------------------------------------------------------------------
  // Comparators over process indices
  // ---------------------------------------------------------------------------

  /** `compare_arrival` applied to the processes two indices designate. */
  function ByArrival(ps: seq<Process>): (nat, nat) -> int
  {
    (a: nat, b: nat) => if a < |ps| && b < |ps| then CompareArrival(ps[a], ps[b]) else 0
  }

  /** `compare_sjf` applied to the processes two indices designate. */
  function BySjf(ps: seq<Process>): (nat, nat) -> int
  {
    (a: nat, b: nat) => if a < |ps| && b < |ps| then CompareSjf(ps[a], ps[b]) else 0
  }

  /** `compare_srt` applied to the processes two indices designate. */
  function BySrt(ps: seq<Process>): (nat, nat) -> int
  {
    (a: nat, b: nat) => if a < |ps| && b < |ps| then CompareSrt(ps[a], ps[b]) else 0
  }

  /** Every index in the list designates a process. */
  predicate Indices(ps: seq<Process>, s: seq<nat>)
  {
    forall j :: 0 <= j < |s| ==> s[j] < |ps|
  }

  /** Every arrival list holds indices of processes. */
  predicate ArrivalIndices(ps: seq<Process>, qs: seq<Level>)
  {
    forall l :: 0 <= l < |qs| ==> Indices(ps, qs[l].arrival)
  }

  // ---------------------------------------------------------------------------
  // create_queues
  // ---------------------------------------------------------------------------

  /** `create_queues(n)`: `n` round-robin levels with quantum 0 and three
      empty lists each. */
  method CreateQueues(n: nat) returns (qs: array<Level>)
    ensures fresh(qs) && qs.Length == n
    ensures forall l :: 0 <= l < n ==> qs[l] == Level(0, RR, [], [], [])
  {
    qs := new Level[n];
    for l := 0 to n
      invariant forall m :: 0 <= m < l ==> qs[m] == Level(0, RR, [], [], [])
    {
      qs[l] := Level(0, RR, [], [], []);
    }
  }

  // ---------------------------------------------------------------------------
  // prepare
  // ---------------------------------------------------------------------------

  /** The levels with their three lists emptied. */
  function Cleared(qs: seq<Level>): (r: seq<Level>)
    ensures |r| == |qs|
    ensures forall l :: 0 <= l < |qs| ==>
      r[l] == Level(qs[l].quantum, qs[l].strategy, [], [], [])
  {
    seq(|qs|, l requires 0 <= l < |qs| => qs[l].(ready := [], arrival := [], finished := []))
  }

  /** The processes with every one of them restarted. */
  function RestartAll(ps: seq<Process>): (r: seq<Process>)
    ensures |r| == |ps|
    ensures forall i :: 0 <= i < |ps| ==> r[i] == Restart(ps[i])
  {
    seq(|ps|, i requires 0 <= i < |ps| => Restart(ps[i]))
  }

  /** The levels after the first `n` processes, in order, have been inserted
      into the arrival lists of their levels with `compare_arrival`; nothing
      but the arrival lists changes. */
  function Enroll(ps: seq<Process>, qs: seq<Level>, n: nat): (r: seq<Level>)
    requires n <= |ps|
    requires forall i :: 0 <= i < n ==> 0 <= ps[i].priority < |qs|
    ensures |r| == |qs|
    decreases n
  {
    if n == 0 then qs
    else
      var r := Enroll(ps, qs, n - 1);
      var l := ps[n - 1].priority;
      r[l := r[l].(arrival := InsertOrdered<nat>(r[l].arrival, n - 1, ByArrival(ps)))]
  }

  /** Enrolling one more process inserts it into the arrival list of its
      level and changes no other level. */
  lemma EnrollStep(ps: seq<Process>, qs: seq<Level>, n: nat)
    requires n < |ps|
    requires forall i :: 0 <= i <= n ==> 0 <= ps[i].priority < |qs|
    ensures var r, l := Enroll(ps, qs, n), ps[n].priority;
      Enroll(ps, qs, n + 1) == r[l := r[l].(arrival := InsertOrdered<nat>(r[l].arrival, n, ByArrival(ps)))]
  {
  }

  /** Process `a` comes before process `b` in an arrival list: it arrives
      earlier, or at the same time and earlier in the process list. */
  predicate Before(ps: seq<Process>, a: nat, b: nat)
    requires a < |ps| && b < |ps|
  {
    ps[a].arrivalTime < ps[b].arrivalTime || (ps[a].arrivalTime == ps[b].arrivalTime && a < b)
  }

  /** The arrival list is in ascending order of arrival time, processes that
      arrive at the same time in the order of the process list. */
  ghost predicate ArrivalOrdered(ps: seq<Process>, s: seq<nat>)
  {
    && Indices(ps, s)
    && forall i, j :: 0 <= i < j < |s| ==> Before(ps, s[i], s[j])
  }

  /** The arrival time of the process an index designates. */
  function ArrivalKey(ps: seq<Process>): nat -> int
  {
    (i: nat) => if i < |ps| then ps[i].arrivalTime else 0
  }

  /** Inserting a process with `compare_arrival` after every process of a
      smaller index keeps an arrival list ordered. */
  lemma InsertByArrival(ps: seq<Process>, s: seq<nat>, x: nat)
    requires ArrivalOrdered(ps, s) && x < |ps|
    requires forall i: nat :: i in s ==> i < x
    ensures ArrivalOrdered(ps, InsertOrdered<nat>(s, x, ByArrival(ps)))
  {
    var cmp, key := ByArrival(ps), ArrivalKey(ps);
    assert SortedByKey(s, key) by {
      forall i, j | 0 <= i < j < |s| ensures key(s[i]) <= key(s[j]) {
        assert Before(ps, s[i], s[j]);
      }
    }
    var k := InsertionPoint(s, x, cmp);
    InsertionPointByKey(s, x, cmp, key);
    forall j | 0 <= j < |s| ensures s[j] < x {
      assert s[j] in s;
    }
    SpliceByArrival(ps, s, x, k);
    InsertOrderedSplice(s, x, cmp);
  }

  /** Putting process `x`, newer than every process of an ordered arrival
      list, after the processes that arrive no later and before those that
      arrive later keeps the list ordered. */
  lemma SpliceByArrival(ps: seq<Process>, s: seq<nat>, x: nat, k: nat)
    requires ArrivalOrdered(ps, s) && x < |ps| && k <= |s|
    requires forall j :: 0 <= j < |s| ==> s[j] < x
    requires forall j :: 0 <= j < k ==> ps[s[j]].arrivalTime <= ps[x].arrivalTime
    requires forall j :: k <= j < |s| ==> ps[x].arrivalTime < ps[s[j]].arrivalTime
    ensures ArrivalOrdered(ps, s[..k] + [x] + s[k..])
  {
    SpliceIndex(s, k, x);
    var r := s[..k] + [x] + s[k..];
    forall i, j | 0 <= i < j < |r| ensures Before(ps, r[i], r[j]) {
      if j < k {
        assert Before(ps, s[i], s[j]);
      } else if j == k {
        assert r[i] == s[i];
      } else if i < k {
        assert Before(ps, s[i], s[j - 1]);
      } else if i == k {
        assert r[j] == s[j - 1];
      } else {
        assert Before(ps, s[i - 1], s[j - 1]);
      }
    }
  }

  /** Process `i` is one of the first `n` and belongs to level `l`. */
  predicate OnLevel(ps: seq<Process>, n: nat, l: nat, i: nat)
    requires n <= |ps|
  {
    i < n && ps[i].priority == l
  }

  /** What `prepare` puts in the emptied arrival list of level `l`: exactly
      the enrolled processes of that level. */
  lemma {:induction false} EnrollMembers(ps: seq<Process>, qs: seq<Level>, n: nat, l: nat)
    requires n <= |ps| && l < |qs| && qs[l].arrival == []
    requires forall i :: 0 <= i < n ==> 0 <= ps[i].priority < |qs|
    ensures forall i: nat :: i in Enroll(ps, qs, n)[l].arrival <==> OnLevel(ps, n, l, i)
    decreases n
  {
    if n > 0 {
      EnrollMembers(ps, qs, n - 1, l);
      var s: seq<nat> := Enroll(ps, qs, n - 1)[l].arrival;
      var e := Enroll(ps, qs, n)[l].arrival;
      var x: nat := n - 1;
      if ps[x].priority == l {
        assert e == InsertOrdered<nat>(s, x, ByArrival(ps));
        forall i: nat ensures i in e <==> OnLevel(ps, n, l, i) {
          InsertOrderedMembers<nat>(s, x, ByArrival(ps), i);
          assert OnLevel(ps, n, l, i) <==> OnLevel(ps, n - 1, l, i) || i == x;
        }
      } else {
        assert e == s;
      }
    }
  }

  /** The arrival list `prepare` builds in an emptied level is ordered by
      arrival time and then by position in the process list. */
  lemma {:induction false} EnrollOrdered(ps: seq<Process>, qs: seq<Level>, n: nat, l: nat)
    requires n <= |ps| && l < |qs| && qs[l].arrival == []
    requires forall i :: 0 <= i < n ==> 0 <= ps[i].priority < |qs|
    ensures ArrivalOrdered(ps, Enroll(ps, qs, n)[l].arrival)
    decreases n
  {
    if n > 0 {
      EnrollOrdered(ps, qs, n - 1, l);
      var s: seq<nat> := Enroll(ps, qs, n - 1)[l].arrival;
      var x: nat := n - 1;
      if ps[x].priority == l {
        EnrollMembers(ps, qs, n - 1, l);
        InsertByArrival(ps, s, x);
        assert Enroll(ps, qs, n)[l].arrival == InsertOrdered<nat>(s, x, ByArrival(ps));
      } else {
        assert Enroll(ps, qs, n)[l].arrival == s;
      }
    }
  }

  /** `prepare` changes nothing but the arrival lists. */
  lemma {:induction false} EnrollKeeps(ps: seq<Process>, qs: seq<Level>, n: nat, l: nat)
    requires n <= |ps| && l < |qs|
    requires forall i :: 0 <= i < n ==> 0 <= ps[i].priority < |qs|
    ensures Enroll(ps, qs, n)[l] == qs[l].(arrival := Enroll(ps, qs, n)[l].arrival)
    decreases n
  {
    if n > 0 {
      EnrollKeeps(ps, qs, n - 1, l);
    }
  }

  /** The arrival list `prepare` builds in an emptied level holds no process
      twice. */
  lemma {:induction false} EnrollDistinct(ps: seq<Process>, qs: seq<Level>, n: nat, l: nat)
    requires n <= |ps| && l < |qs| && qs[l].arrival == []
    requires forall i :: 0 <= i < n ==> 0 <= ps[i].priority < |qs|
    ensures Distinct(Enroll(ps, qs, n)[l].arrival)
    decreases n
  {
    if n > 0 {
      EnrollDistinct(ps, qs, n - 1, l);
      var s: seq<nat> := Enroll(ps, qs, n - 1)[l].arrival;
      if ps[n - 1].priority == l {
        EnrollMembers(ps, qs, n - 1, l);
        InsertOrderedDistinct<nat>(s, n - 1, ByArrival(ps));
      }
    }
  }

  /** The clearing half of `prepare`: every level loses the contents of its
      three lists. */
  method ClearLevels(queues: array<Level>)
    modifies queues
    ensures queues[..] == Cleared(old(queues[..]))
  {
    for l := 0 to queues.Length
      invariant forall m :: 0 <= m < l ==> queues[m] == Cleared(old(queues[..]))[m]
      invariant forall m :: l <= m < queues.Length ==> queues[m] == old(queues[m])
    {
      queues[l] := queues[l].(ready := []);
      queues[l] := queues[l].(arrival := []);
      queues[l] := queues[l].(finished := []);
    }
  }

  /** `prepare`: empties the three lists of every level, then restarts each
      process and inserts it into the arrival list of its level with
      `compare_arrival`.  The priority of a process is used as a level index
      without a check, so it must be one. */
  method Prepare(procs: array<Process>, queues: array<Level>)
    requires forall i :: 0 <= i < procs.Length ==> 0 <= procs[i].priority < queues.Length
    modifies procs, queues
    ensures procs[..] == RestartAll(old(procs[..]))
    ensures queues[..] == Enroll(procs[..], Cleared(old(queues[..])), procs.Length)
  {
    ClearLevels(queues);
    EnrollAll(procs, queues);
  }

  /** `compare_arrival` reads nothing but arrival times, so two process lists
      with the same arrival times give the same insertion. */
  lemma ArrivalAgree(ps1: seq<Process>, ps2: seq<Process>, s: seq<nat>, x: nat)
    requires |ps1| == |ps2|
    requires forall k :: 0 <= k < |ps1| ==> ps1[k].arrivalTime == ps2[k].arrivalTime
    ensures InsertOrdered<nat>(s, x, ByArrival(ps1)) == InsertOrdered<nat>(s, x, ByArrival(ps2))
  {
    InsertOrderedCongruent(s, x, ByArrival(ps1), ByArrival(ps2));
  }

  /** Enrolling depends on nothing but priorities and arrival times. */
  lemma {:induction false} EnrollAgree(ps1: seq<Process>, ps2: seq<Process>, qs: seq<Level>, n: nat)
    requires n <= |ps1| == |ps2|
    requires forall k :: 0 <= k < n ==> 0 <= ps1[k].priority < |qs| && ps2[k].priority == ps1[k].priority
    requires forall k :: 0 <= k < |ps1| ==> ps1[k].arrivalTime == ps2[k].arrivalTime
    ensures Enroll(ps1, qs, n) == Enroll(ps2, qs, n)
    decreases n
  {
    if n > 0 {
      EnrollAgree(ps1, ps2, qs, n - 1);
      ArrivalAgree(ps1, ps2, Enroll(ps1, qs, n - 1)[ps1[n - 1].priority].arrival, n - 1);
    }
  }

  /** The second loop of `prepare`: restarts every process and inserts it
      into the arrival list of its level. */
  method EnrollAll(procs: array<Process>, queues: array<Level>)
    requires forall i :: 0 <= i < procs.Length ==> 0 <= procs[i].priority < queues.Length
    modifies procs, queues
    ensures procs[..] == RestartAll(old(procs[..]))
    ensures queues[..] == Enroll(procs[..], old(queues[..]), procs.Length)
  {
    ghost var start, initial := queues[..], procs[..];
    for i := 0 to procs.Length
      invariant forall j :: 0 <= j < i ==> procs[j] == Restart(initial[j])
      invariant forall j :: i <= j < procs.Length ==> procs[j] == initial[j]
      invariant queues[..] == Enroll(initial, start, i)
    {
      EnrollNext(procs, queues, i, initial, start);
    }
    assert procs[..] == RestartAll(initial);
    EnrollAgree(initial, procs[..], start, procs.Length);
  }

  /** One turn of the second loop of `prepare`: restarts process `i` and
      inserts it into the arrival list of its level. */
  method EnrollNext(procs: array<Process>, queues: array<Level>, i: nat,
                    ghost initial: seq<Process>, ghost start: seq<Level>)
    requires i < procs.Length == |initial| && |start| == queues.Length
    requires forall j :: 0 <= j < |initial| ==> 0 <= initial[j].priority < |start|
    requires forall j :: 0 <= j < i ==> procs[j] == Restart(initial[j])
    requires forall j :: i <= j < procs.Length ==> procs[j] == initial[j]
    requires queues[..] == Enroll(initial, start, i)
    modifies procs, queues
    ensures forall j :: 0 <= j <= i ==> procs[j] == Restart(initial[j])
    ensures forall j :: i < j < procs.Length ==> procs[j] == initial[j]
    ensures queues[..] == Enroll(initial, start, i + 1)
  {
    procs[i] := Restart(procs[i]);
    var l := procs[i].priority;
    ArrivalAgree(procs[..], initial, queues[l].arrival, i);
    EnrollStep(initial, start, i);
    queues[l] := queues[l].(arrival := InsertOrdered<nat>(queues[l].arrival, i, ByArrival(procs[..])));
  }

  // ---------------------------------------------------------------------------
  // process_arrival
  // ---------------------------------------------------------------------------

  /** What `process_arrival` does to one process whose arrival time has come:
      READY, waiting since it arrived, and a WAIT slice for that wait when it
      is not empty. */
  function Admit(p: Process, now: int): Process
  {
    var waited := now - p.arrivalTime;
    p.(state := Ready, waitingTime := waited,
       slices := if waited > 0 then p.slices + [Slice(Wait, p.arrivalTime, now)] else p.slices)
  }

  /** The ready list of `q` after process `i` arrives: by `compare_sjf` on an
      SJF level, by `compare_srt` on an SRT level, at the tail otherwise. */
  function Enqueue(q: Level, i: nat, ps: seq<Process>): seq<nat>
  {
    if q.strategy == SJF then InsertOrdered<nat>(q.ready, i, BySjf(ps))
    else if q.strategy == SJF || q.strategy == SRT then InsertOrdered<nat>(q.ready, i, BySrt(ps))
    else q.ready + [i]
  }

  /** Where an arriving process goes: on an SJF level in front of the first
      process that has not had the CPU yet and has more time left; on an SRT
      level after every process with no more time left than it and in front
      of the first with more; at the tail otherwise. */
  lemma EnqueuePlace(q: Level, i: nat, ps: seq<Process>)
    requires Indices(ps, q.ready) && i < |ps|
    ensures var s, r := q.ready, Enqueue(q, i, ps);
      && (q.strategy == SJF ==>
            var k := InsertionPoint(s, i, BySjf(ps));
            && r == s[..k] + [i] + s[k..]
            && (forall j :: 0 <= j < k ==> !(ps[s[j]].cpuTime <= 0 && ps[i].remainingTime < ps[s[j]].remainingTime))
            && (k < |s| ==> ps[s[k]].cpuTime <= 0 && ps[i].remainingTime < ps[s[k]].remainingTime))
      && (q.strategy == SRT ==>
            var k := InsertionPoint(s, i, BySrt(ps));
            && r == s[..k] + [i] + s[k..]
            && (forall j :: 0 <= j < k ==> ps[s[j]].remainingTime <= ps[i].remainingTime)
            && (k < |s| ==> ps[i].remainingTime < ps[s[k]].remainingTime))
      && (q.strategy != SJF && q.strategy != SRT ==> r == s + [i])
  {
    var s := q.ready;
    if q.strategy == SJF {
      InsertionPointWalk(s, i, BySjf(ps));
      InsertOrderedSplice(s, i, BySjf(ps));
    } else if q.strategy == SRT {
      InsertionPointWalk(s, i, BySrt(ps));
      InsertOrderedSplice(s, i, BySrt(ps));
    }
  }

  /** The ready list after an arrival holds the processes it held and the new
      one, and no process twice when the new one was not there. */
  lemma EnqueueMembers(q: Level, i: nat, ps: seq<Process>)
    ensures forall y: nat :: y in Enqueue(q, i, ps) <==> y in q.ready || y == i
    ensures Distinct(q.ready) && i !in q.ready ==> Distinct(Enqueue(q, i, ps))
  {
    var cmp := if q.strategy == SJF then BySjf(ps) else BySrt(ps);
    if q.strategy == SJF || q.strategy == SRT {
      assert Enqueue(q, i, ps) == InsertOrdered<nat>(q.ready, i, cmp);
      forall y: nat ensures y in Enqueue(q, i, ps) <==> y in q.ready || y == i {
        InsertOrderedMembers<nat>(q.ready, i, cmp, y);
      }
      if Distinct(q.ready) && i !in q.ready {
        InsertOrderedDistinct<nat>(q.ready, i, cmp);
      }
    } else {
      assert Distinct(q.ready) && i !in q.ready ==> Distinct(q.ready + [i]);
    }
  }

  /** One level of `process_arrival`: while the front of the arrival list is
      due at `now`, it is admitted, enqueued on the ready list and popped.
      Gives the processes, the level and how many processes moved. */
  function Drain(ps: seq<Process>, q: Level, now: int): (r: (seq<Process>, Level, nat))
    requires Indices(ps, q.arrival)
    ensures |r.0| == |ps| && r.2 <= |q.arrival|
    ensures r.1.arrival == q.arrival[r.2..]
    ensures r.1.quantum == q.quantum && r.1.strategy == q.strategy && r.1.finished == q.finished
    decreases |q.arrival|
  {
    if q.arrival == [] || ps[q.arrival[0]].arrivalTime > now then (ps, q, 0)
    else
      var i := q.arrival[0];
      var ps' := ps[i := Admit(ps[i], now)];
      var d := Drain(ps', q.(ready := Enqueue(q, i, ps'), arrival := q.arrival[1..]), now);
      (d.0, d.1, d.2 + 1)
  }

  /** A drain keeps the arrival times. */
  lemma {:induction false} DrainArrivals(ps: seq<Process>, q: Level, now: int)
    requires Indices(ps, q.arrival)
    ensures var r := Drain(ps, q, now);
      forall k :: 0 <= k < |ps| ==> r.0[k].arrivalTime == ps[k].arrivalTime
    decreases |q.arrival|
  {
    if q.arrival != [] && ps[q.arrival[0]].arrivalTime <= now {
      var i := q.arrival[0];
      var ps' := ps[i := Admit(ps[i], now)];
      DrainArrivals(ps', q.(ready := Enqueue(q, i, ps'), arrival := q.arrival[1..]), now);
    }
  }

  /** A drain stops at the first process that is not due. */
  lemma {:induction false} DrainStops(ps: seq<Process>, q: Level, now: int)
    requires Indices(ps, q.arrival)
    ensures var r := Drain(ps, q, now);
      r.1.arrival == [] || r.0[r.1.arrival[0]].arrivalTime > now
    decreases |q.arrival|
  {
    if q.arrival != [] && ps[q.arrival[0]].arrivalTime <= now {
      var i := q.arrival[0];
      var ps' := ps[i := Admit(ps[i], now)];
      var q' := q.(ready := Enqueue(q, i, ps'), arrival := q.arrival[1..]);
      DrainStops(ps', q', now);
      DrainArrivals(ps', q', now);
    }
  }

  /** `process_arrival` from level `l` on: drains the levels in order. */
  function ArriveFrom(ps: seq<Process>, qs: seq<Level>, now: int, l: nat): (r: (seq<Process>, seq<Level>, nat))
    requires l <= |qs| && ArrivalIndices(ps, qs)
    ensures |r.0| == |ps| && |r.1| == |qs|
    decreases |qs| - l
  {
    if l == |qs| then (ps, qs, 0)
    else
      var d := Drain(ps, qs[l], now);
      var r := ArriveFrom(d.0, qs[l := d.1], now, l + 1);
      (r.0, r.1, d.2 + r.2)
  }

  /** After `process_arrival` from level `l` on, no arrival list from `l` on
      has a due process at its front; the levels before `l` and the arrival
      times are as they were, and when nothing moved nothing changed. */
  lemma {:induction false} ArriveFromFacts(ps: seq<Process>, qs: seq<Level>, now: int, l: nat)
    requires l <= |qs| && ArrivalIndices(ps, qs)
    ensures var r := ArriveFrom(ps, qs, now, l);
      && ArrivalIndices(r.0, r.1)
      && (forall k :: 0 <= k < |ps| ==> r.0[k].arrivalTime == ps[k].arrivalTime)
      && (forall m :: 0 <= m < l ==> r.1[m] == qs[m])
      && (forall m :: l <= m < |qs| && r.1[m].arrival != [] ==> r.0[r.1[m].arrival[0]].arrivalTime > now)
      && (r.2 == 0 ==> r.0 == ps && r.1 == qs)
    decreases |qs| - l
  {
    if l < |qs| {
      var d := Drain(ps, qs[l], now);
      ArriveFromStep(ps, qs, now, l);
      DrainArrivals(ps, qs[l], now);
      DrainStops(ps, qs[l], now);
      ArriveFromFacts(d.0, qs[l := d.1], now, l + 1);
    }
  }

  /** `process_arrival(now, queues, nqueues)`: moves every due process from
      the arrival lists to the ready lists and returns how many moved. */
  method ProcessArrival(now: int, procs: array<Process>, queues: array<Level>) returns (total: nat)
    requires ArrivalIndices(procs[..], queues[..])
    modifies procs, queues
    ensures (procs[..], queues[..], total) == ArriveFrom(old(procs[..]), old(queues[..]), now, 0)
  {
    ghost var target := ArriveFrom(procs[..], queues[..], now, 0);
    total := 0;
    for i := 0 to queues.Length
      invariant ArrivalIndices(procs[..], queues[..])
      invariant var r := ArriveFrom(procs[..], queues[..], now, i);
        r.0 == target.0 && r.1 == target.1 && total + r.2 == target.2
    {
      ArriveFromStep(procs[..], queues[..], now, i);
      if queues[i].arrival == [] {
        assert queues[..][i := queues[i]] == queues[..];
        continue;
      }
      var moved := DrainLevel(now, procs, queues, i);
      total := total + moved;
    }
  }

  /** Draining level `l` leaves every arrival list holding indices of
      processes, and `process_arrival` from `l` on is that drain followed by
      the levels after it. */
  lemma ArriveFromStep(ps: seq<Process>, qs: seq<Level>, now: int, l: nat)
    requires l < |qs| && ArrivalIndices(ps, qs)
    ensures var d := Drain(ps, qs[l], now);
      && ArrivalIndices(d.0, qs[l := d.1])
      && ArriveFrom(ps, qs, now, l) == (var r := ArriveFrom(d.0, qs[l := d.1], now, l + 1); (r.0, r.1, d.2 + r.2))
  {
  }

  /** The inner loop of `process_arrival` on level `i`: admits the due
      processes at the front of its arrival list one by one. */
  method DrainLevel(now: int, procs: array<Process>, queues: array<Level>, i: nat) returns (moved: nat)
    requires i < queues.Length && Indices(procs[..], queues[i].arrival)
    modifies procs, queues
    ensures var d := Drain(old(procs[..]), old(queues[i]), now);
      procs[..] == d.0 && queues[..] == old(queues[..])[i := d.1] && moved == d.2
  {
    ghost var target := Drain(procs[..], queues[i], now);
    moved := 0;
    var processed := false;
    while !processed
      invariant Indices(procs[..], queues[i].arrival)
      invariant forall m :: 0 <= m < queues.Length && m != i ==> queues[m] == old(queues[m])
      invariant var d := Drain(procs[..], queues[i], now);
        d.0 == target.0 && d.1 == target.1 && moved + d.2 == target.2
      invariant processed ==> queues[i].arrival == [] || procs[queues[i].arrival[0]].arrivalTime > now
      decreases |queues[i].arrival|, if processed then 0 else 1
    {
      if queues[i].arrival == [] {
        processed := true;
        continue;
      }
      var p := queues[i].arrival[0];
      if procs[p].arrivalTime > now {
        processed := true;
        continue;
      }
      AdmitFront(now, procs, queues, i);
      moved := moved + 1;
    }
    assert queues[..] == old(queues[..])[i := queues[i]];
  }

  /** One turn of that loop: the process `p` at the front of the arrival
      list of level `i` becomes READY (with its waiting time so far and a
      WAIT slice when it waited), joins the ready list and leaves the arrival
      list. */
  method AdmitFront(now: int, procs: array<Process>, queues: array<Level>, i: nat)
    requires i < queues.Length && queues[i].arrival != [] && queues[i].arrival[0] < procs.Length
    modifies procs, queues
    ensures var p, q := old(queues[i].arrival[0]), old(queues[i]);
      && procs[..] == old(procs[..])[p := Admit(old(procs[p]), now)]
      && queues[i] == q.(ready := Enqueue(q, p, procs[..]), arrival := q.arrival[1..])
      && forall m :: 0 <= m < queues.Length && m != i ==> queues[m] == old(queues[m])
  {
    var p := queues[i].arrival[0];
    var q := procs[p].(state := Ready, waitingTime := now - procs[p].arrivalTime);
    if q.waitingTime > 0 {
      q := q.(slices := q.slices + [Slice(Wait, q.arrivalTime, now)]);
    }
    procs[p] := q;
    var ready;
    if queues[i].strategy == SJF {
      ready := InsertOrdered<nat>(queues[i].ready, p, BySjf(procs[..]));
    } else if queues[i].strategy == SJF || queues[i].strategy == SRT {
      ready := InsertOrdered<nat>(queues[i].ready, p, BySrt(procs[..]));
    } else {
      ready := queues[i].ready + [p];
    }
    queues[i] := queues[i].(ready := ready, arrival := queues[i].arrival[1..]);
  }

  /** Number of processes on the arrival lists. */
  function Pending(qs: seq<Level>): nat
  {
    if qs == [] then 0 else Pending(qs[..|qs| - 1]) + |qs[|qs| - 1].arrival|
  }

  /** Replacing one level changes the count by the difference in the length
      of its arrival list. */
  lemma {:induction false} PendingUpdate(qs: seq<Level>, l: nat, q: Level)
    requires l < |qs|
    ensures Pending(qs[l := q]) == Pending(qs) - |qs[l].arrival| + |q.arrival|
    decreases |qs|
  {
    var n := |qs| - 1;
    if l == n {
      assert qs[l := q][..n] == qs[..n];
    } else {
      assert qs[l := q][..n] == qs[..n][l := q];
      PendingUpdate(qs[..n], l, q);
    }
  }

  /** `process_arrival` returns the number of processes it took off the
      arrival lists. */
  lemma {:induction false} ArriveCount(ps: seq<Process>, qs: seq<Level>, now: int, l: nat)
    requires l <= |qs| && ArrivalIndices(ps, qs)
    ensures var r := ArriveFrom(ps, qs, now, l); Pending(r.1) + r.2 == Pending(qs)
    decreases |qs| - l
  {
    if l < |qs| {
      var d := Drain(ps, qs[l], now);
      ArriveFromStep(ps, qs, now, l);
      PendingUpdate(qs, l, d.1);
      ArriveCount(d.0, qs[l := d.1], now, l + 1);
    }
  }

  // ---------------------------------------------------------------------------
  // get_next_arrival and get_ready_count
  // ---------------------------------------------------------------------------

  /** `get_next_arrival`'s running minimum over the fronts of the arrival
      lists of levels 0 .. n-1, starting from the sentinel INT_MAX. */
  function FrontsMin(ps: seq<Process>, qs: seq<Level>, n: nat): (m: int)
    requires n <= |qs| && ArrivalIndices(ps, qs)
    ensures m <= IntMax
    ensures forall l :: 0 <= l < n && qs[l].arrival != [] ==> m <= ps[qs[l].arrival[0]].arrivalTime
    ensures m == IntMax || exists l :: 0 <= l < n && qs[l].arrival != [] && m == ps[qs[l].arrival[0]].arrivalTime
    decreases n
  {
    if n == 0 then IntMax
    else
      var m := FrontsMin(ps, qs, n - 1);
      if qs[n - 1].arrival != [] && ps[qs[n - 1].arrival[0]].arrivalTime < m
      then ps[qs[n - 1].arrival[0]].arrivalTime
      else m
  }

  /** The earliest arrival time at the front of an arrival list, or -1 when
      no front arrives before INT_MAX. */
  function NextArrival(ps: seq<Process>, qs: seq<Level>): (r: int)
    requires ArrivalIndices(ps, qs)
    ensures (forall l :: 0 <= l < |qs| && qs[l].arrival != [] ==> ps[qs[l].arrival[0]].arrivalTime >= IntMax)
      ==> r == -1
    ensures (exists l :: 0 <= l < |qs| && qs[l].arrival != [] && ps[qs[l].arrival[0]].arrivalTime < IntMax)
      ==> && r < IntMax
          && (exists l :: 0 <= l < |qs| && qs[l].arrival != [] && r == ps[qs[l].arrival[0]].arrivalTime)
          && (forall l :: 0 <= l < |qs| && qs[l].arrival != [] ==> r <= ps[qs[l].arrival[0]].arrivalTime)
  {
    var m := FrontsMin(ps, qs, |qs|);
    if m == IntMax then -1 else m
  }

  /** `get_next_arrival(queues, nqueues)`. */
  method GetNextArrival(queues: array<Level>, procs: array<Process>) returns (r: int)
    requires ArrivalIndices(procs[..], queues[..])
    ensures r == NextArrival(procs[..], queues[..])
  {
    r := IntMax;
    for i := 0 to queues.Length
      invariant r == FrontsMin(procs[..], queues[..], i)
    {
      if queues[i].arrival != [] {
        var arrivalTime := procs[queues[i].arrival[0]].arrivalTime;
        r := if r < arrivalTime then r else arrivalTime;
      }
    }
    if r == IntMax {
      r := -1;
    }
  }

  /** Number of processes on the ready lists of levels 0 .. n-1. */
  function ReadyTotal(qs: seq<Level>, n: nat): (r: nat)
    requires n <= |qs|
    ensures r == 0 <==> forall l :: 0 <= l < n ==> qs[l].ready == []
    ensures forall l :: 0 <= l < n ==> |qs[l].ready| <= r
  {
    if n == 0 then 0 else ReadyTotal(qs, n - 1) + |qs[n - 1].ready|
  }

  /** `get_ready_count(queues, nqueues)`: the number of ready processes on
      all levels. */
  method GetReadyCount(queues: array<Level>) returns (r: nat)
    ensures r == ReadyTotal(queues[..], queues.Length)
  {
    r := 0;
    for i := 0 to queues.Length
      invariant r == ReadyTotal(queues[..], i)
    {
      r := r + |queues[i].ready|;
    }
  }
}
