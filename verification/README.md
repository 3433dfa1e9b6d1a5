# CPUSchedulerSim in Dafny

A model of the core of CPUSchedulerSim. This is a discrete-event simulator of
CPU scheduling over several priority levels. Each level has a strategy (FIFO,
SJF, RR or SRT), a quantum, and three process lists: arrival, ready and finished.

The model has one module per part of the core:

- **Processes** (`processes.dfy`) covers the process record, `create_process`,
  `restart_process` and the three comparators. It also defines the time line of
  a process, which is its list of CPU and WAIT slices.
- **LinkedList** (`linked_list.dfy`) covers the doubly-linked list of `list.c`.
  - It is a class `List<T>` of `Node<T>` objects, with `head`, `tail` and
    `count` fields and `next`/`previous` links.
  - A ghost sequence `Contents` says what the list holds.
  - Every operation is proved against that sequence.
  - `insert_ordered` is also specified by a pure function, `InsertOrdered`. The
    engine uses that function for its queues.
- **Queues** (`queues.dfy`) covers the levels. A process is represented by its
  index in the process array, so a level's lists are sequences of indices.
  - It models `create_queues`, `prepare`, `process_arrival`,
    `get_next_arrival` and `get_ready_count`.
  - Each of these is an imperative method over an array of levels and an array
    of processes, proved equal to a pure function.
- **Simulation** (`simulation.dfy`) defines the state of the main loop of
  `schedule` and each of its steps as a function. It also defines the loop
  invariant, and proves that every step keeps it and that the loop
  terminates. The invariant says:
  - each process is in exactly one place;
  - the arrival lists are ordered;
  - the slices of each process tile the time since it arrived;
  - the waiting time is the total of the WAIT slices;
  - the trace holds exactly the CPU time handed out.
- **Scheduler** (`scheduler.dfy`) is `schedule` itself, on arrays, proved step
  by step against Simulation. It also holds `add_waiting_time` and
  `max_scheduling_time`.
- **Util** (`util.dfy`) covers the string helpers of `util.c`. Strings are
  `seq<char>` and a C NULL pointer is `None`.
- **Split** (`split.dfy`) covers `split` and `default_delimiters`.
  - The result record is a class whose `parts` field is an array of 255
    optional strings.
  - The tokens are specified by a pure function `Tokens`.
- **Wrappers** (`wrappers.dfy`) holds the `Option` type.

`create_slice` has no member of its own. It is the `Slice(kind, from, to)`
constructor of the `Slice` datatype, used wherever the source calls it.

Two details of the code worth knowing:

- An arriving process on an SJF level is inserted with `compare_sjf`, which
  has the "already had the CPU" tie-break. A process on an SRT level uses
  `compare_srt`, which compares remaining times only (src/sched.c:472-481).
- `create_process` validates nothing. The checks live in the loader
  (main.c:217-239). The engine's preconditions are those checks:
  - a level for every process;
  - a positive execution time;
  - an arrival time below `INT_MAX`, as `get_next_arrival`'s sentinel demands.

## Model

| member | source | states |
|---|---|---|
| Processes.CreateProcess | src/sched.c:320-341 | The new process holds the name and both times, with priority -1, pid 0 and CPU time 0. It is pristine: remaining time equal to execution time, waiting and finishing time -1, LOADED, no slices. Restarting it changes nothing. The name must fit the 80-byte buffer. |
| Processes.Restart | src/sched.c:343-351 | A restarted process is pristine. It keeps its identity, priority, arrival and execution times, and its CPU time, which is not reset. |
| Processes.RestartIdempotent | src/sched.c:343-351 | Restarting twice is restarting once; a pristine process is unchanged by a restart. |
| Processes.CompareArrival | src/sched.c:269-280 | Positive exactly when `a` arrives before `b`, negative exactly when it arrives after. |
| Processes.CompareSjf | src/sched.c:282-302 | Positive exactly when `b` has not had the CPU and `a` has less time left. Negative whenever `b` already had the CPU. |
| Processes.CompareSrt | src/sched.c:304-318 | Positive exactly when `a` has less time left than `b`, negative exactly when it has more. |
| Processes.TilesSpan | src/sched.c:117-126 | A time line that tiles [from, to) splits the span exactly into CPU time plus waiting time, and both totals are non-negative. |
| Processes.TilesExtend | src/sched.c:123 | Appending a slice of positive length at the end extends the tiling and adds its length to the total of its kind. |
| LinkedList.InsertionPoint | src/list.c:92-98 | The walk's stopping index is within the list. |
| LinkedList.InsertionPointWalk | src/list.c:92-98 | The walk passes every element `e` with `compare(x, e) <= 0` before the stopping index and stops at one with `compare(x, e) > 0`. |
| LinkedList.InsertionPointUnique | src/list.c:92-98 | Any index with those two properties is the stopping index. |
| LinkedList.InsertOrdered | src/list.c:72-126 | The list after `insert_ordered` has one more element. |
| LinkedList.InsertOrderedPermutes | src/list.c:72-126 | The insertion adds exactly the new element as a multiset. |
| LinkedList.InsertOrderedSplice | src/list.c:100-120 | The new element sits at the stopping index, with the elements before it and after it unchanged and in order. |
| LinkedList.InsertOrderedMembers | src/list.c:72-126 | The members afterwards are the old members and the new one. |
| LinkedList.InsertionPointByKey | src/sched.c:269-318 | With a comparator that subtracts keys, the new element goes after every element with a key no larger and before every element with a larger key. Equal keys keep insertion order. |
| LinkedList.InsertOrderedByKey | src/list.c:72-126 | Such a comparator keeps a list sorted by key sorted. |
| LinkedList.InsertOrderedCongruent | src/list.c:92-98 | Two comparators that agree on the list's own elements insert at the same place. |
| LinkedList.InsertOrderedDistinct | src/list.c:72-126 | Inserting an element not yet present keeps the list free of repetitions. |
| LinkedList.Node.constructor | src/list.c:23-34 | `create_node`: a node holding the data, linked to nothing. |
| LinkedList.List.constructor | src/list.c:11-21 | `create_list`: a valid empty list with no head, no tail and count 0. |
| LinkedList.Empty | src/list.c:275-278 | True exactly for a null list or one with no elements. |
| LinkedList.Front | src/list.c:185-196 | Nothing for a null or empty list; otherwise the first element. |
| LinkedList.Back | src/list.c:198-209 | Nothing for a null or empty list; otherwise the last element. |
| LinkedList.ClearList | src/list.c:36-64 | A non-null list is left valid and empty, with no head, no tail and count 0. |
| LinkedList.PushFront | src/list.c:128-155 | The element is prepended, the others keep their order, and the count rises by one. The list stays valid. A null list is returned unchanged. |
| LinkedList.PushBack | src/list.c:157-183 | The element is appended, the others keep their order, and the count rises by one. The list stays valid. A null list is returned unchanged. |
| LinkedList.PopFront | src/list.c:211-241 | The first element is removed and the count falls by one. An empty or null list is left alone. The links stay valid. |
| LinkedList.PopBack | src/list.c:243-273 | The last element is removed and the count falls by one. An empty or null list is left alone. The links stay valid. |
| LinkedList.InsertOrderedInto | src/list.c:72-126 | The contents become `InsertOrdered` of the old contents, the count rises by one, and the list stays valid. A null list is returned unchanged. |
| LinkedList.FindPlace | src/list.c:84-98 | The walk ends with `aux` on the node at the insertion point (null past the end) and `ant` on the node before it (null at the head). |
| LinkedList.LinkOrdered | src/list.c:92-123 | Linking the new node at the place found yields `InsertOrdered` of the old contents, with the count up by one. |
| LinkedList.LinkOnly | src/list.c:84-89 | On an empty list the node becomes both head and tail. |
| LinkedList.LinkFirst | src/list.c:100-107 | The node becomes the new head in front of the old nodes. |
| LinkedList.LinkLast | src/list.c:108-115 | The node goes after the last node and becomes the tail. |
| LinkedList.LinkBetween | src/list.c:108-120 | The node goes between its predecessor and the node the walk stopped at. The node sequence and the contents gain it at that index. |
| LinkedList.InsertOrderedFront | src/list.c:102-107 | An insertion that stops at the head is a prepend. |
| LinkedList.InsertOrderedBack | src/list.c:110-115 | An insertion that runs off the end is an append. |
| Queues.CreateQueues | src/sched.c:214-231 | `n` fresh levels, each RR with quantum 0 and three empty lists. |
| Queues.RestartAll | src/sched.c:408-413 | Every process is replaced by its restart. |
| Queues.Cleared | src/sched.c:386-405 | The same number of levels, each keeping strategy and quantum, with three empty lists. |
| Queues.ClearLevels | src/sched.c:386-405 | The levels become `Cleared` of the old levels. |
| Queues.Prepare | src/sched.c:379-419 | The processes are restarted. The levels are the cleared levels with every process enrolled, in process-list order, on the arrival list of its level. |
| Queues.EnrollAll | src/sched.c:408-413 | The second loop of `prepare` restarts every process and enrolls it. |
| Queues.Enroll | src/sched.c:408-413 | The levels after the first `n` processes are enrolled, as many as before. EnrollStep, EnrollMembers, EnrollOrdered, EnrollDistinct and EnrollKeeps state the rest. Each process is inserted with `compare_arrival` into the arrival list of its own level. Each arrival list ends up holding exactly its level's processes, ascending by arrival time, with no repetition. Nothing but the arrival lists changes. |
| Queues.EnrollNext | src/sched.c:410-412 | One turn restarts process `i` and enrolls it, leaving later processes alone. |
| Queues.EnrollStep | src/sched.c:412 | Enrolling one more process inserts it into the arrival list of its own level with `compare_arrival` and changes no other level. |
| Queues.EnrollMembers | src/sched.c:379-419 | After `prepare`, the arrival list of a level holds exactly the processes of that level. |
| Queues.EnrollOrdered | src/sched.c:379-419 | After `prepare`, each arrival list is ascending by arrival time, with ties in process-list order. |
| Queues.EnrollDistinct | src/sched.c:379-419 | After `prepare`, no arrival list holds a process twice. |
| Queues.EnrollKeeps | src/sched.c:379-419 | `prepare` changes nothing of a level but its arrival list. |
| Queues.InsertByArrival | src/sched.c:412 | Inserting a newer process with `compare_arrival` keeps an arrival list ordered. |
| Queues.ArrivalAgree | src/sched.c:269-280 | `compare_arrival` insertion depends on nothing but arrival times. |
| Queues.EnrollAgree | src/sched.c:408-413 | Enrolling depends on nothing but priorities and arrival times. |
| Queues.EnqueuePlace | src/sched.c:472-486 | The arriving process is inserted according to its level. On an SJF level it goes before the first process that has not had the CPU and has more time left. On an SRT level it goes after every process with no more time left and before the first with more. On FIFO and RR levels it goes at the tail. |
| Queues.EnqueueMembers | src/sched.c:472-486 | The ready list gains exactly the arriving process, and stays free of repetitions. |
| Queues.Admit | src/sched.c:461-468 | A due process as `process_arrival` leaves it. AdmitActive and AdmitAccount state its properties. It is READY. Its time line is the one WAIT slice [arrival, now), or empty when it arrives right now. Its waiting time is the total of that time line. |
| Queues.Enqueue | src/sched.c:472-486 | The ready list after an arrival. EnqueuePlace and EnqueueMembers state its properties. The process goes by `compare_sjf` on an SJF level, by `compare_srt` on an SRT level, and at the tail otherwise. Exactly that process is added. |
| Queues.Drain | src/sched.c:436-493 | Draining one level pops a prefix of its arrival list of the length it reports and keeps everything else of the level except the ready list. |
| Queues.DrainArrivals | src/sched.c:436-493 | A drain keeps every arrival time. |
| Queues.DrainStops | src/sched.c:452-458 | The drain stops at the first process that is not due: afterwards the arrival list is empty or its front arrives later than `now`. |
| Simulation.AdmitAccount | src/sched.c:461-468 | A pristine process whose arrival time has come is READY after admission. Its time line is one WAIT slice [arrival, now), or none when it arrives right now, and its waiting time is the total of that time line. |
| Queues.ArriveFrom | src/sched.c:421-495 | `process_arrival` keeps the number of processes and levels. |
| Queues.ArriveFromFacts | src/sched.c:421-495 | Afterwards no arrival list has a due process at its front. The arrival times are unchanged, and when nothing moved nothing changed. |
| Queues.ArriveCount | src/sched.c:421-495 | The count returned is the number of processes taken off the arrival lists. |
| Queues.ProcessArrival | src/sched.c:421-495 | The imperative `process_arrival` leaves the processes, the levels and the count that `ArriveFrom` defines. |
| Queues.DrainLevel | src/sched.c:436-493 | The inner loop on one level leaves what `Drain` defines. |
| Queues.AdmitFront | src/sched.c:448-491 | One turn admits the front process, enqueues it by strategy and pops it. |
| Queues.FrontsMin | src/sched.c:497-521 | The running minimum is at most `INT_MAX` and at most every front arrival time, and is one of them unless it is `INT_MAX`. |
| Queues.NextArrival | src/sched.c:497-527 | -1 exactly when no front arrives before `INT_MAX`. Otherwise it is the least front arrival time. |
| Queues.GetNextArrival | src/sched.c:497-527 | The loop returns `NextArrival`. |
| Queues.ReadyTotal | src/sched.c:529-541 | Zero exactly when every ready list is empty; never less than any one ready list's length. |
| Queues.GetReadyCount | src/sched.c:529-541 | The loop returns `ReadyTotal` over all levels. |
| Simulation.FirstReady | src/sched.c:73-83 | None exactly when every ready list from `l` on is empty. Otherwise it is the first level with a non-empty ready list. |
| Simulation.Select | src/sched.c:71-84 | A process is selected exactly when some ready list is non-empty. It is the front of the first non-empty ready list, which loses it; the process becomes RUNNING, its level is recorded and the quantum used restarts at 0. Nothing else changes. With no ready process, nothing changes at all. |
| Simulation.SelectKeeps | src/sched.c:71-84 | Selection keeps the loop invariant. |
| Simulation.Min | src/sched.h:15 | The smaller of the two. |
| Simulation.SliceLength | src/sched.c:97-115 | A slice is at least 1. |
| Simulation.SliceBounds | src/sched.c:97-115 | For a running process with time left, the slice lies between 1 and the remaining time. It stays within the rest of a limited quantum and never passes the next arrival. It ends at the first of the three. |
| Simulation.DisposeOutcome | src/sched.c:138-167 | The process leaves the CPU exactly when it has no time left, a limited quantum is used up, or its level is SRT. Otherwise it keeps the CPU, on a FIFO, SJF or quantum-0 RR level. It is FINISHED exactly when no time is left. |
| Simulation.DisposePlace | src/sched.c:138-167 | Where the process goes. With no time left it is FINISHED at the current clock and appended to its level's finished list. With its limited quantum used up it is READY at the tail of the ready list. On an SRT level it is READY and inserted into the ready list by `compare_srt`. No other process and no other level changes, and the arrival list stays. |
| Simulation.DisposeKeeps | src/sched.c:138-167 | The decision after a slice restores the invariant, and keeps the work left and the arrival lists. |
| Simulation.RunInflight | src/sched.c:117-136 | A slice within the remaining time and quantum leads from the invariant to the state before the decision. The remaining total drops by the slice. |
| Simulation.Run | src/sched.c:117-136 | One slice of the running process. RunShape, RunAccounts and RunInflight state its properties. It keeps the levels and places, takes the slice off the remaining total and adds it to the trace total. Every time line still tiles up to the new clock, with the waiting time equal to its WAIT total. |
| Simulation.RunShape | src/sched.c:117-136 | A slice keeps the levels and the places. The remaining total drops by the slice and the trace total grows by it. |
| Simulation.RunAccounts | src/sched.c:117-126 | After a slice, the running process's time line tiles [arrival, new clock). Its waiting time is its WAIT total and its CPU total is the time it has run. The bookkeeping of every other process still holds at the new clock, the READY ones through their new WAIT slice. |
| Simulation.Charged | src/sched.c:566-579 | `add_waiting_time` over all processes. Scheduler.AddWaitingTime performs it on the array and RunAccounts states its effect on the accounts. Every READY process other than the running one waits `d` more and gets a WAIT slice [t, t+d). |
| Simulation.Dispose | src/sched.c:138-167 | The decision after a slice. DisposeOutcome, DisposePlace and DisposeKeeps state its properties: when the process leaves the CPU, where it goes, and that the invariant is restored. |
| Simulation.StepKeeps | src/sched.c:97-167 | A slice and the decision after it keep the invariant and strictly decrease the work left. |
| Simulation.ArriveStep | src/sched.c:68 | `process_arrival` keeps the invariant and leaves no due process. It never adds work, and it removes a pending process when one was due. |
| Simulation.Arrive | src/sched.c:68 | `process_arrival` as a step of the loop. ArriveStep and ArriveKeeps state what it keeps: the invariant holds afterwards and no process is due. It never adds work, and it removes a pending process when one was due. |
| Simulation.ArriveKeeps | src/sched.c:421-495 | `process_arrival` from any level on keeps the invariant. |
| Simulation.JumpKeeps | src/sched.c:86-94 | When nothing can run, the clock moves forward to the next arrival. The invariant holds there, the work is the same, and a process is due. |
| Simulation.FinishAll | src/sched.c:87-92 | When nothing can run and nothing will arrive, every process is FINISHED and all arrival and ready lists are empty. |
| Simulation.StartInv | src/sched.c:61-66 | The state `prepare` leaves satisfies the loop invariant. |
| Simulation.Start | src/sched.c:61-63 | The state `prepare` leaves: the restarted processes enrolled on their arrival lists, the clock at 0, nothing running and an empty trace. StartInv states that the invariant holds there. |
| Simulation.TurnKeeps | src/sched.c:66-168 | Every turn keeps the invariant. A turn that stops the loop leaves every process FINISHED and every arrival and ready list empty. Any other turn decreases the termination measure: the remaining time plus the pending arrivals, then whether a process is due. |
| Simulation.TurnFacts | src/sched.c:68-84 | After `process_arrival` the invariant holds and nothing is due. The same holds after the selection that follows when nothing runs, and the selection keeps the work left. |
| Simulation.Prelude | src/sched.c:68-84 | The first half of a turn: `process_arrival`, then a selection when nothing runs. TurnFacts states what it keeps. |
| Simulation.Turn | src/sched.c:66-168 | One turn of the main loop. TurnKeeps states that it keeps the invariant, that a stopping turn ends with everything finished, and that every other turn decreases the termination measure. |
| Simulation.FinalState | src/sched.c:168-187 | At the end every process is completed and on the finished list of its level. Its waiting time already equals the total of its WAIT slices, so the final pass changes nothing. The trace totals the execution times. |
| Simulation.CompletedAll | src/sched.c:343-351 | Completion against the restarted records is completion against the original ones. |
| Simulation.TotalRemainingExtremes | src/sched.c:118 | The remaining times total the execution times at the start, and 0 when none is left. |
| Simulation.Recomputed | src/sched.c:170-187 | The final pass keeps the number of processes and sets each waiting time to the total of that process's WAIT slices, changing nothing else. |
| Scheduler.SelectReady | src/sched.c:71-84 | The selection loop performs `Select`. |
| Scheduler.AddWaitingTime | src/sched.c:566-579 | Every READY process other than the running one waits `d` more and gets a WAIT slice [t, t+d). No other process changes. |
| Scheduler.DisposeCurrent | src/sched.c:138-167 | The decision after a slice performs `Dispose`. |
| Scheduler.ComputeSlice | src/sched.c:97-115 | The slice computed is `SliceLength` with the next arrival. |
| Scheduler.Execute | src/sched.c:117-136 | Running the slice performs `Run`: remaining time down and CPU time up by the slice, a CPU slice, the other READY processes charged, one trace entry, and the clock advanced. |
| Scheduler.RunTurn | src/sched.c:66-168 | One turn of the loop on the arrays performs `Turn`. |
| Scheduler.ArriveAndSelect | src/sched.c:68-84 | The first half of a turn on the arrays performs `Prelude`. |
| Scheduler.RunSlice | src/sched.c:97-167 | The second half of a turn on the arrays: the slice `SliceLength` computes is run and the decision taken, as `Dispose` of `Run`. |
| Scheduler.WaitTotal | src/sched.c:177-185 | The total length of the WAIT slices. |
| Scheduler.RecomputeWaiting | src/sched.c:170-187 | The final pass performs `Recomputed`. |
| Scheduler.FinalPass | src/sched.c:170-187 | When every waiting time already is its WAIT total, the final pass leaves the processes unchanged. |
| Scheduler.MainLoop | src/sched.c:66-168 | The loop ends with every process completed and on the finished list of its level. Every arrival and ready list is empty, and the trace totals the execution times. |
| Scheduler.Schedule | src/sched.c:41-212 | For processes the loader accepts, every process ends completed against its record on entry. It is FINISHED, has no time left, and its CPU time grew by its execution time. Its slices tile [arrival, finish), and finish = arrival + execution + waiting, where waiting is its WAIT total. It sits on the finished list of its level. Every arrival and ready list is empty, and the trace totals the execution times. |
| Scheduler.LatestFinish | src/sched.c:543-564 | At least 0 and at least every finishing time. It is 0 or one of them. |
| Scheduler.MaxSchedulingTime | src/sched.c:543-564 | The loop returns `LatestFinish`. |
| Util.LoweredFacts | src/util.c:12-26 | Lower-casing keeps the length and lowers every upper-case letter. It leaves every other character alone, leaves no upper-case letter, and is idempotent. |
| Util.Lowered | src/util.c:12-26 | The string `lcase` leaves behind. LoweredFacts states its properties. |
| Util.LCase | src/util.c:12-26 | The buffer is lower-cased in place and the same buffer is returned. |
| Util.Reverse | src/util.c:150-161 | Same length; character `i` is character `n-1-i` of the input. |
| Util.ReverseReverse | src/util.c:150-161 | Reversing twice gives the string back. |
| Util.StrRev | src/util.c:150-161 | The buffer is reversed in place and the same buffer is returned (as intended; see Findings). |
| Util.Concat | src/util.c:61-69 | The result is `str1` followed by `str2`, of the sum of their lengths. |
| Util.FirstNotIn | src/util.c:71-87 | The offset of the first character not in the set, or the length; every earlier character is in the set. |
| Util.FirstIn | src/util.c:89-105 | The offset of the first character in the set, or the length; no earlier character is in the set. |
| Util.FindFirstNotOf | src/util.c:71-87 | NULL exactly for NULL input; otherwise the scan's result is `FirstNotIn`. |
| Util.FindFirstOf | src/util.c:89-105 | NULL exactly for NULL input; otherwise the scan's result is `FirstIn`. |
| Util.FirstNotInUnique | src/util.c:71-87 | Any offset with the two properties of `FirstNotIn` is it. |
| Util.FirstInUnique | src/util.c:89-105 | Any offset with the two properties of `FirstIn` is it. |
| Util.FirstIndex | src/util.c:118-121 | `strchr`: the first occurrence, or none exactly when the character does not occur. |
| Util.LastIndex | src/util.c:114-117 | `strrchr`: the last occurrence, or none exactly when the character does not occur. |
| Util.TruncateTo | src/util.c:107-141 | The prefix before the first (or last) occurrence of `c`, or the whole string when `c` is absent. NULL when that occurrence is at index 0. |
| Util.RemoveExtension | src/util.c:56-59 | The path before its last '.', the whole path without a '.', and NULL when the only '.' is first. |
| Util.RemoveExtensionExample | src/util.c:56-59 | "test/fifo.txt" becomes "test/fifo". |
| Util.ReversedPrefix | src/util.c:39 | The reversed extension begins the reversed path exactly when the path ends with the extension. |
| Util.ReplaceExtension | src/util.c:28-54 | A path ending with `oldext` gets it replaced by `newext`; any other path gets `newext` appended. |
| Util.ReplaceExtensionRoundTrip | src/util.c:28-54 | The result ends with `newext`, and replacing it back restores a path that ended with `oldext`. |
| Util.ReplaceExtensionAsWritten | src/util.c:28-54 | The code as written, over the indeterminate results of `strrev` and the fresh block's contents. Any result ends with `newext`. Without a suffix match it appends. With a match it succeeds exactly when the block starts with NUL. |
| Util.ReplaceExtensionLucky | src/util.c:28-54 | With the reversals right and a NUL-initialised block, the code as written gives the intended result. |
| Util.UnreturnedReverse | src/util.c:150-161 | A counterexample: "f.c" with ".c"→".h" gives "f.c.h" instead of "f.h" when the value taken for the reversed `oldext` is not a prefix of the value taken for the reversed path (e.g. "x" and ""). |
| Util.UnterminatedStem | src/util.c:42-44 | A counterexample: the same call overruns the block when its first byte is not NUL. |
| Split.DefaultDelimiters | src/split.c:15 | Exactly the four characters space, tab, CR and LF. |
| Split.Delimiters | src/split.c:32-35 | The default set for a NULL or empty `delim`, otherwise `delim`; never empty. |
| Split.TokensShape | src/split.c:45-63 | No token is empty and none holds a delimiter. |
| Split.TokensNone | src/split.c:45-47 | No token exactly when the string is made of delimiters only, the empty string included. |
| Split.TokensFilter | src/split.c:45-63 | The tokens written one after the other are exactly the non-delimiter characters of the string, in order. |
| Split.TokensJoin | src/split.c:45-63 | Splitting valid tokens joined by a delimiter gives them back, so tokens are the maximal non-delimiter runs. |
| Split.TokensStep | src/split.c:49-62 | From the start of a token, the loop takes the run up to the next delimiter and resumes after the delimiters that follow. |
| Split.Tokens | src/split.c:45-63 | The tokens of a string, the maximal runs of non-delimiter characters. TokensShape, TokensNone, TokensFilter and TokensJoin state their properties. |
| Split.SplitList.constructor | src/split.c:37-43 | A fresh record with count 0 and all 255 parts NULL. |
| Split.Split | src/split.c:23-68 | A fresh record whose count is the number of tokens. Its first `count` parts are the tokens in order, and every later part is NULL. A NULL string gives count 0. |
| Split.FillParts | src/split.c:45-63 | The loop stores every token of the string in order and returns their number. |
| Split.TakeToken | src/split.c:49-62 | One turn stores the next token in the next part and moves past it and its trailing delimiters. |

## Left out

- Output is not modelled. That covers `print_queue`, `print_process` and `print_slices`, the `printf` lines of `schedule`, `prepare` and `process_arrival`, and the float average waiting time (src/sched.c:189-211). The trace is returned as a sequence instead of being printed.
- Memory management is not modelled: `malloc`, `free`, `destroy_list`, `free_split_list`, and the `erase_data` flag of `clear_list`. Lists own their nodes; allocation failure is not modelled.
- The list iterators `head`, `tail`, `next` and `previous` are not modelled. Loops over the process list are loops over array indices, and a pointer comparison with the running process is an index comparison.
- main.c, plot.c and the configuration loader are not part of this model. Their checks appear as preconditions of `Scheduler.Schedule`.
- Integer widths are not modelled. The simulation uses unbounded integers, so overflow of the clock or of the comparators' subtractions is absent. Within the loader's bounds the comparators' differences fit in 32 bits.
- Scheduler.Schedule: requires every arrival time to be below `INT_MAX`. `get_next_arrival` uses `INT_MAX` as its "nothing pending" sentinel, so a process arriving exactly at `INT_MAX` would never be admitted.
- Scheduler.Schedule: does not restate the trace entry by entry. It states the trace total; the entries are per step, in `Scheduler.Execute`.
- `lcase` follows the "C" locale: only 'A'..'Z' are upper case.
- The test `pos == NULL` in `split` (src/split.c:51-54) cannot succeed for a non-NULL string, so it has no branch in the model.
- Split.Split: requires at most 255 tokens. `split` writes `parts[i]` without a bound, so more tokens overrun the record.
- The `time_slice <= 0` branch of `schedule` (src/sched.c:113-115) is modelled in `SliceLength`. Under the invariant it is never taken, as `SliceBounds` shows.
- The empty `else if` of `schedule` for strategies other than FIFO and SJF (src/sched.c:164-167) does nothing. `Dispose` keeps the process running there, as in the other fall-through cases.
- The `SJF ||` half of the SRT test in `process_arrival` (src/sched.c:477) is unreachable after the SJF test before it, and the model has only the SRT case.
- `StrRev` on the empty string: the source computes a pointer one before the buffer but never dereferences it. The model simply leaves the empty buffer alone.
- The FIFO example in which A(0,5) and B(1,3) give the trace A 1, A 4, B 3 is not stated as a concrete lemma. Slice splitting at arrivals is stated in general by `SliceBounds`.

## Findings

| source | as written | input that shows it | evidently intended | confidence | as-written member | corrected member |
|---|---|---|---|---|---|---|
| src/util.c:150-161 | `strrev` reverses its argument in place but ends without a `return`, so `replace_extension` compares two indeterminate values in its `strstr` test | `replace_extension("f.c", ".c", ".h")` gives "f.c.h" when the value taken for the reversed `oldext` is not a prefix of the value taken for the reversed path (e.g. "x" and "") | `strrev` returns its argument, and the result is "f.h" | not executed | Util.UnreturnedReverse | Util.ReplaceExtension |
| src/util.c:42-44 | `strncpy` copies the stem into a fresh block without a terminator, and `strcat` then appends at the first NUL it finds | `replace_extension("f.c", ".c", ".h")` with a fresh block that starts "Z\0\0": the write runs past the block | the stem is terminated before `strcat`, and the result is "f.h" | not executed | Util.UnterminatedStem | Util.ReplaceExtension |
