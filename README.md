# CPU scheduling simulator — a verified Dafny model

This project models the simulation core of a small C CPU-scheduling
simulator, `Schedule.h`. Each of its eight `getGantt*` routines takes an
array of process records and a count. It does three things:

- it rejects a count below 1 and a missing array;
- it sorts the array in place by arrival time, with a per-policy secondary key;
- it simulates one scheduling policy, writing each process's waiting and
  turnaround times into its record and returning a Gantt chart.

The chart is a linked list of `(pid, start, finish)` entries, where pid `-1`
means IDLE.

The policies use two engines:

- **Batch engine** (FCFS, SJF, HRRN, non-preemptive Priority, LJF). It
  dispatches one process at a time for its whole burst. Before each
  dispatch it picks from the window of waiting processes that have already
  arrived, and rotates the chosen one into place. When nothing has arrived,
  it emits an IDLE entry up to the next arrival.
- **Tick engine** (SRTF, preemptive Priority, LRTF). For every unit of time
  it runs the best eligible process for one unit. The unit either extends
  the last chart entry, when that entry has the same owner, or appends a new
  one-unit entry.

Modules (one file each):

- `processes.dfy` (`Processes`): the process record, the ranking keys
  (`Rank`, `TieBreak`), the sort order, and the descriptors that a run may
  permute but not alter.
- `timeline.dfy` (`Timeline`): chart entries (`Owner` is `Idle` or
  `Pid(id)`), the chart's shape predicates (contiguous, coalesced, positive),
  the time accounting (`OwnedTime`, `BusyTime`, `Completion`), and the
  append-or-extend step `Record`.
- `ordering.dfy` (`Ordering`): the exchange-sort prologue, as methods on the
  array.
- `batch.dfy` (`Batch`): the window scan, the three selections, the rotation,
  the dispatch, and the batch loop, with its invariant `Progress` and final
  contract `BatchSchedule`.
- `ticks.dfy` (`Ticks`): the per-tick scan, one tick, and the tick loop, with
  its invariant `Clock` and final contract `TickSchedule`.
- `scenarios.dfy` (`Scenarios`): small concrete runs that the whole-run
  contracts tell apart (a needless IDLE entry, a wrong ranking, a NaN
  ratio).
- `scheduler.dfy` (`Scheduler`): the eight entry points. The C `NULL` result
  is `None`. `BatchGantt` and `TickGantt` are the shared bodies, and each
  `Gantt*` method instantiates one of them with its sort key and ranking.

Two details of the C code are modelled as written:

- The tick engine's scan replaces its candidate only on a strictly better
  key (Schedule.h:1071, 1193, 1314). Among equally ranked eligible
  processes the lowest array index runs. After the unstable arrival sort
  that is not always the lowest pid.
- When the first arrival is 0, the batch engine's first step
  (Schedule.h:463-473, 698-707) runs `process[0]` from time 0 without
  scanning a window. After the policy's own arrival sort, `process[0]` is
  as good as every process arriving at 0 (`Batch.FirstDispatchBest`). It is
  the policy's choice, as a scan would make it, except under HRRN when its
  burst is 0: its ratio is then NaN, and a scan would pass over it
  (`Scenarios.FirstStepWithoutScan`).

The batch engine's whole-run contract `BatchSchedule` states the policy:
each dispatched process was, when it started, at least as good under the
policy as every process dispatched after it that had already arrived.
Under HRRN, a process whose ratio is NaN (burst 0, not yet waited) runs
ahead of an arrived process with a proper ratio only in the window-less
first step. The contract also states the idle rule: every IDLE entry ends no later than the arrival
of any process dispatched after it. The tick engine's whole-run contract
ties the final array and chart to `Ticks.Simulate`, a reference run that
picks with the given ranking at every tick.

## Model

| member | source | states |
|---|---|---|
| Ordering.Exchange | Schedule.h:536-539 | the swap exchanges exactly the two records, keeps the multiset of records, and keeps pids distinct |
| Ordering.ExchangeKeepsFront | Schedule.h:533-549 | after a swap triggered because `a[j]` belongs before `a[i]`, no record in `a[i+1..j]` belongs before the new `a[i]` (the sort key is transitive) |
| Ordering.SettleFront | Schedule.h:533-549 | the inner loop leaves `a[..i]` untouched, leaves no later record that belongs before `a[i]`, keeps the records before `i` in front of the rest, and permutes the array |
| Ordering.SortByArrival | Schedule.h:531-550 | the prologue (same code at 430-441, 654-675, 785-806, 912-932, 1036-1056, 1157-1178, 1279-1299) leaves a permutation of the input: arrival non-decreasing and, within equal arrivals, never a later record strictly better on the policy's tie key; it is not stable |
| Timeline.Record | Schedule.h:1101-1122 | one unit `[t, t+1)` extends the last entry when its owner matches and otherwise appends a new entry; the chart stays contiguous from 0, keeps neighbours with different owners and has no empty entry, and now ends at `t+1` with the given owner |
| Timeline.RecordAccounts | Schedule.h:1101-1122 | one recorded unit gives its owner exactly one more unit and no other owner any, makes `t+1` the owner's last finish time, leaves every other owner's last finish time unchanged, and adds one busy unit unless the owner is IDLE |
| Batch.WindowEnd | Schedule.h:589 | the window is the maximal run from `i` whose arrivals are not after the current finish time |
| Batch.SelectRanked | Schedule.h:591-593 | the SJF, Priority (846-850) and LJF (972-974) scans: no window member strictly outranks the chosen one, and the chosen one strictly outranks every member before it, so it is the leftmost best |
| Batch.ResponseRatio | Schedule.h:717-718 | the ratio is `1 + wait/burst`, at least 1 for an arrived process with a positive burst; with burst 0 it is NaN at wait 0 and +infinity after that |
| Batch.SelectHRRN | Schedule.h:713-723 | the HRRN scan from a best of -1: no window member's ratio exceeds the chosen one's, and the chosen one's exceeds every earlier member's unless that member's ratio is NaN; the scan ends at `a[i]` with a NaN ratio only when every ratio in the window is NaN |
| Batch.RotateToFront | Schedule.h:594-600 | the chosen record goes to `i`, `s[i..m)` moves right by one in its old order, and all other positions are unchanged |
| Batch.RotatePermutes | Schedule.h:594-600 | the rotation is a permutation |
| Batch.RotateKeepsAdmissible | Schedule.h:594-600 | the rotation keeps pids distinct and times non-negative |
| Batch.RotateKeepsSuffixSorted | Schedule.h:594-600 | after the rotation, the records after `i` are still sorted by arrival |
| Batch.Rotate | Schedule.h:594-600 | the shifting loop leaves exactly `RotateToFront` of the old array |
| Batch.Dispatched | Schedule.h:609-610 | a dispatched record keeps its descriptor, with `wait = start - arrive` and `turnaround = wait + burst` |
| Batch.Choose | Schedule.h:585-593 | the chosen record has arrived and is at least as good under the policy as every waiting record that has arrived; FCFS takes `a[i]`, a ranked policy the leftmost best, and HRRN a record whose ratio exceeds every earlier non-NaN ratio, taking a NaN ratio only as `a[i]` when every arrived ratio is NaN (the same step appears at 712-723, 842-850 and 967-974) |
| Batch.DispatchStep | Schedule.h:594-610 | one dispatch moves `s[m]` to `i` with `wait = start - arrive` and `turnaround = wait + burst`, and permutes the descriptors, which it leaves unchanged when `m == i` |
| Batch.Dispatch | Schedule.h:594-610 | the array afterwards is exactly `DispatchStep` of the old one |
| Batch.DispatchKeepsDone | Schedule.h:602-610 | after a dispatch, the first `i+1` records each ran in one entry of exactly their burst, in chart order, with `wait = start - arrive >= 0` and `turnaround = finish - arrive = wait + burst` |
| Batch.DispatchKeepsProgress | Schedule.h:585-611 | a dispatch at the current finish time keeps the loop invariant with one more process done: the chart stays contiguous and coalesced, the suffix stays sorted, and the records stay a permutation |
| Batch.IdleKeepsProgress | Schedule.h:613-621 | when the next waiting process has not arrived, an IDLE entry that ends exactly at its arrival keeps the loop invariant; because that process runs next, two IDLE entries are never adjacent |
| Batch.DispatchNext | Schedule.h:574-611 | the dispatching branch: before any entry exists it runs `a[i]` from 0 for its burst without a window; afterwards the dispatched index is the one the policy prefers at the current finish time; the new array is exactly `DispatchStep` of the old one, the chart gains exactly that process's entry, FCFS keeps the array's order, and the invariant with fairness holds with one more process done |
| Batch.IdleUntil | Schedule.h:613-621 | the idle branch appends one IDLE entry from the current finish time to the next arrival and keeps the loop invariant with the same process still next |
| Batch.BatchStarts | Schedule.h:559-567 | the loop invariant holds at the start, with an IDLE entry `[0, arrive[0])` when the first arrival is not 0 and an empty chart otherwise |
| Batch.FirstDispatchBest | Schedule.h:463-473 | after the policy's arrival sort, `s[0]` is at least as good as every process arriving at 0, and unless the policy is HRRN with `s[0]`'s burst 0 it is exactly what a scan at time 0 would choose (`Preferred`) |
| Batch.IdleKeepsFair | Schedule.h:613-621 | an IDLE entry up to the arrival of the next waiting process is justified: no waiting process arrives before it ends, and no earlier choice changes |
| Batch.DispatchKeepsIdleJustified | Schedule.h:594-611 | a rotation and dispatch keep every earlier IDLE entry justified, because the waiting records are the same processes rearranged |
| Batch.DispatchKeepsSelected | Schedule.h:585-611 | dispatching a best waiting process keeps every earlier choice justified and justifies the new one against every process still waiting that has arrived |
| Batch.DispatchKeepsEngine | Schedule.h:585-611 | one dispatch of a best waiting process at the current finish time keeps both the loop invariant and the fairness of all choices, with one more process done |
| Batch.IdleEndsAtArrival | Schedule.h:613-621 | in a finished run, every IDLE entry is directly followed by a dispatch of a process that arrived exactly when the IDLE entry ends |
| Batch.DispatchAt | Schedule.h:594-611 | dispatching a best waiting record `a[m]` leaves exactly `DispatchStep` of the old array, appends exactly its entry `[cursor, cursor + burst)`, and keeps the loop invariant and the fairness of every choice with `i+1` processes done |
| Batch.RunBatch | Schedule.h:557-624 | the engine loop (same code at 448-501, 681-755, 813-882, 938-1005) ends with a permutation of the records and a chart that is contiguous from 0, whose first entry is IDLE `[0, arrive[0])` when the first arrival is not 0 and otherwise runs the first process over `[0, burst)`, coalesced, without an empty IDLE entry, and ending in a busy entry; every process ran exactly once, in chart order, for exactly its burst, with its wait and turnaround from that entry; each dispatched process was, when it started, at least as good under the policy as every later-dispatched process that had arrived, and under HRRN a NaN ratio ran ahead of an arrived proper ratio only in the first step from 0; every IDLE entry ends no later than the arrival of every process dispatched after it; FCFS keeps the order of the records |
| Batch.Advance | Schedule.h:570-622 | one loop pass dispatches exactly when the chart is empty or `a[i]` has arrived: then it returns the dispatched index `m` (`i` on an empty chart, otherwise the one the policy prefers), leaves exactly `DispatchStep` of the old array and appends exactly `a[m]`'s entry; otherwise the array is unchanged, exactly one IDLE entry up to `a[i]`'s arrival is appended, and the finish time moves forward to it; either way the loop invariant `Engine` (progress, fairness, first entry, finish time) is kept |
| Ticks.PickTick | Schedule.h:1069-1078 | the scan returns no index exactly when no process is eligible (arrived, burst left); otherwise it returns an eligible index that no eligible process outranks and that outranks every eligible index before it (also 1191-1198, 1312-1319) |
| Ticks.PickedUnique | Schedule.h:1069-1078 | the tick's choice is fully determined: at most one outcome meets the specification |
| Ticks.PickOfPicked | Schedule.h:1069-1078 | the reference choice `PickOf`, which replaces its candidate by a later eligible record only when that record strictly outranks it, meets the scan's specification `Picked` |
| Ticks.Ticked | Schedule.h:1092-1098 | a run unit takes one from the remaining burst and changes nothing else, except that on reaching 0 it writes `turnaround = t+1 - arrive` and `wait = turnaround - initial burst` |
| Ticks.SumBurstUpdate | Schedule.h:1092 | replacing one record changes the total remaining burst by exactly the difference of its bursts |
| Ticks.CompletedUpdate | Schedule.h:1094-1095 | the finished-process count changes only through the updated record, and grows by one exactly when that record reaches burst 0 |
| Ticks.NoneCompleted | Schedule.h:1063 | before the first tick the count is 0 |
| Ticks.AllFinished | Schedule.h:1065 | when the count equals `n`, every process has finished |
| Ticks.ZeroBurstStalls | Schedule.h:1065-1070 | a process whose burst starts at 0 is never eligible and never counted, so `completed < n` holds forever and the loop does not end |
| Ticks.IdleBeforeHorizon | Schedule.h:1080-1085 | an IDLE tick while processes remain happens only before the latest arrival, which bounds the run of IDLE ticks |
| Ticks.ClockStarts | Schedule.h:1062-1063 | the loop invariant holds with an empty chart at time 0 |
| Ticks.ClockEnds | Schedule.h:1065 | at loop exit every burst is used up, and the invariant becomes the final contract `TickSchedule` |
| Ticks.IdleTickKeepsClock | Schedule.h:1080-1085 | an IDLE tick recorded on the chart keeps the loop invariant, with no burst and no statistics changed |
| Ticks.IdleTickKeepsUsed | Schedule.h:1080-1085 | an IDLE tick gives no process any unit on the chart |
| Ticks.IdleTickKeepsReported | Schedule.h:1101-1112 | an IDLE tick leaves every process's last finish time, and so its statistics, unchanged |
| Ticks.RunTickKeepsUsed | Schedule.h:1086-1092 | after a run tick, each process still owns on the chart exactly the units it has used, and none before it arrived |
| Ticks.RunTickKeepsReported | Schedule.h:1094-1098 | after a run tick, statistics are written exactly for the finished processes, from the end of their last entry, with a non-negative wait |
| Ticks.RunTickKeepsClock | Schedule.h:1086-1122 | a run tick keeps the loop invariant, and the count grows exactly when the process used its last unit |
| Ticks.RunUnit | Schedule.h:1086-1099 | running `a[m]` for one unit changes exactly that record, to `Ticked`, records the unit for its pid, and counts a completion exactly when its burst reaches 0 |
| Ticks.Tick | Schedule.h:1066-1123 | one loop pass picks as `PickTick` specifies, which is exactly the reference choice `PickOf`; it leaves exactly the reference state `TickState` (unchanged on an IDLE tick, `Ticked` at the pick otherwise), records the unit for the picked owner, and keeps the invariant; a completion leaves a busy last entry; while processes remain, the total remaining burst never grows, and it stays the same only before the latest arrival |
| Ticks.Simulate | Schedule.h:1062-1123 | the reference run with a given ranking: after `t` ticks its chart is contiguous from 0 and ends at `t`, and its array has the input's length |
| Ticks.Step | Schedule.h:1065-1123 | one loop pass keeps the invariant and the agreement with the reference run, leaves a busy last entry when the count reaches `n`, and never increases the total remaining burst, keeping it the same only before the latest arrival |
| Ticks.RunTicks | Schedule.h:1062-1126 | the loop (same code at 1184-1248, 1305-1369) ends with a chart that is contiguous from 0, coalesced, without empty entries and ending in a busy entry; its busy time equals the total initial burst; every process kept its identity, used up its burst, owns exactly its initial burst on the chart, and got `turnaround = last finish - arrive` and `wait = turnaround - initial burst >= 0`; the final array and chart are exactly those of the reference run under the given ranking after some number of ticks |
| Scheduler.BatchGantt | Schedule.h:525-556 | no chart when the count is below 1 or the array is missing; otherwise the array is sorted with the policy's tie key, the batch engine runs on that order under the policy (every choice and every IDLE entry justified, the first entry from the earliest arrival), and the descriptors are a permutation of the input |
| Scheduler.TickGantt | Schedule.h:1030-1060 | no chart when the count is below 1 or the array is missing; otherwise the array is sorted with the given tie key, and the final array and chart are those of the reference run with the given ranking on that order, which ends when every process has finished |
| Scheduler.GanttFCFS | Schedule.h:403-502 | arrival sort without a tie key, then the batch engine taking the next waiting process, which keeps the sorted order; an IDLE entry appears only while no waiting process has arrived |
| Scheduler.GanttSJF | Schedule.h:504-625 | sort with shorter burst first on ties, then the batch engine where no process dispatched later had arrived with a strictly shorter burst when a process started |
| Scheduler.GanttHRRN | Schedule.h:627-756 | sort with shorter burst first on ties, then the batch engine where no process dispatched later that had arrived had a strictly higher response ratio when a process started, and a NaN ratio ran ahead of an arrived proper ratio only in the first step from 0 |
| Scheduler.GanttPriority | Schedule.h:758-883 | sort with lower priority value first on ties, then the batch engine where no process dispatched later had arrived with a strictly lower priority value when a process started |
| Scheduler.GanttLJF | Schedule.h:885-1006 | sort with longer burst first on ties, then the batch engine where no process dispatched later had arrived with a strictly longer burst when a process started |
| Scheduler.GanttSRTF | Schedule.h:1008-1127 | sort with shorter burst first on ties, then the reference run that gives each unit to the eligible process with the least remaining burst, lowest index first |
| Scheduler.GanttPriorityPreemptive | Schedule.h:1129-1249 | sort with lower priority value first on ties, then the reference run that gives each unit to the eligible process with the lowest priority value, lowest index first |
| Scheduler.GanttLRTF | Schedule.h:1251-1370 | sort with longer burst first on ties, then the reference run that gives each unit to the eligible process with the most remaining burst, lowest index first |
| Scenarios.NeedlessIdleRejected | Schedule.h:477-498 | FCFS with P0 (arrives 0, burst 5) and P1 (arrives 1, burst 3): a chart that idles from 5 to 7 before running P1 is not a batch schedule, because P1 had arrived when P0 finished |
| Scenarios.LongestFirstNotShortestFirst | Schedule.h:585-593 | with P0 (0, burst 2), P1 (1, burst 5) and P2 (1, burst 1), the order P0, P1, P2 is not a shortest-job-first schedule, because P2 had arrived with a shorter burst when P1 started |
| Scenarios.NaNRatioPassedOver | Schedule.h:713-723 | with a just-arrived burst-0 record (ratio NaN) before a record with ratio 1, stopping at the NaN record is not the HRRN choice |
| Scenarios.NaNRatioNotAhead | Schedule.h:713-723 | HRRN with P0 (0, burst 2), P1 (1, burst 3) and P2 (2, burst 0): a chart running P2 from 2 to 2 before P1 is not an HRRN schedule, because at time 2 the scan passes over P2's NaN ratio |
| Scenarios.FirstStepWithoutScan | Schedule.h:698-707 | HRRN with P0 (0, burst 0) and P1 (0, burst 3): the window-less first step's choice P0 is as good as P1 up to the NaN rule, but is not what a scan would prefer |
| Scenarios.RankDecidesFirstTick | Schedule.h:1066-1078 | with P0 (burst 1) and P1 (burst 2) both arriving at 0, the reference run gives the first unit to P0 under the least-remaining ranking and to P1 under the most-remaining ranking |

## Left out

- The input readers `getProcesses`, `getProcessesPriority`, `getProcessesFile` and `getProcessesFilePriority` (Schedule.h:70-333) do console and file I/O. The guarantees they give are preconditions here: a count of at least 1, non-negative times, distinct pids that are not negative (the readers number them from 0), and `burst == initial_burst`.
- `displayProcesses`, `displayGantt`, `destroyGantt` and `destroyProcesses` are left out: they only print output, average floats and free memory.
- The `main` programs in FCFS.c, HRRN.c, priority.c, priority_preemptive.c and round_robin.c are left out: they only call the readers, a `getGantt*` routine and the display helpers.
- Round Robin is left out: round_robin.c calls `getGanttRoundRobin`, which is not defined anywhere in the repository.
- `malloc`, a failing allocation and the linked-list pointers are not modelled. The chart is a sequence of entries.
- 32-bit `int` overflow of times, bursts and sums is not modelled: integers are unbounded.
- Batch.ResponseRatio: uses exact real arithmetic where the source uses a 32-bit `float`. Ties or orderings that come from float rounding are not captured. Divisions by a zero burst are modelled as IEEE infinities and NaN.
- Ticks.PickTick: the source starts its scan from an `INT_MAX` sentinel (`INT_MIN` for LRTF), so it never picks a process whose remaining burst or priority equals that sentinel. The model starts with "nothing seen yet" and would pick such a process.
- Ticks.RunTicks: requires every initial burst to be at least 1. With a burst of 0 the source loops forever (`Ticks.ZeroBurstStalls`).
- Batch.RunBatch: among equally good waiting processes, the final contract does not say which one ran; the source takes the leftmost in the window. That tie-break is stated per dispatch, by `Batch.Choose` and `Batch.DispatchNext`.
- Scheduler.BatchGantt: the same leftmost tie-break is not part of `BatchOutcome`, as for `Batch.RunBatch`.
- Scheduler.GanttSJF: the same leftmost tie-break is not part of its final contract, as for `Batch.RunBatch`.
- Scheduler.GanttHRRN: the same leftmost tie-break is not part of its final contract, as for `Batch.RunBatch`.
- Scheduler.GanttPriority: the same leftmost tie-break is not part of its final contract, as for `Batch.RunBatch`.
- Scheduler.GanttLJF: the same leftmost tie-break is not part of its final contract, as for `Batch.RunBatch`.
- Batch.FirstDispatchBest: under HRRN with `s[0]`'s burst 0, the first step runs `s[0]` although a scan would pass over its NaN ratio; the model runs it too, as the source does, so `Preferred` is not claimed for that case (`Scenarios.FirstStepWithoutScan`).
- Scheduler.GanttFCFS and the other entry points require the count to equal the array length. The source trusts its caller for this.
