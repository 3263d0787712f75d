/** The preemptive tick engine shared by SRTF, preemptive Priority and LRTF:
    every unit of time runs the best ready process for one unit. */
module Ticks {
  import opened Processes
  import opened Timeline

  /** A process may run at `now`: it has arrived and has burst left. */
  predicate Eligible(p: Process, now: int) {
    p.arrive <= now && p.burst > 0
  }

  /** `pick` is the choice of one tick over `s` at `now`: `None` when no process
      is eligible, otherwise an eligible process that no eligible process
      outranks and that outranks every eligible process before it. */
  ghost predicate Picked(s: seq<Process>, rank: Rank, now: int, pick: Option<nat>) {
    match pick
    case None => forall k :: 0 <= k < |s| ==> !Eligible(s[k], now)
    case Some(m) =>
      && m < |s| && Eligible(s[m], now)
      && (forall k :: 0 <= k < |s| && Eligible(s[k], now) ==> !Beats(rank, s[k], s[m]))
      && (forall k :: 0 <= k < m && Eligible(s[k], now) ==> Beats(rank, s[m], s[k]))
  }

  /** The specification leaves no freedom: at most one choice satisfies it. */
  lemma PickedUnique(s: seq<Process>, rank: Rank, now: int, p: Option<nat>, q: Option<nat>)
    requires Picked(s, rank, now, p) && Picked(s, rank, now, q)
    ensures p == q
  {
    if p.Some? { assert Eligible(s[p.value], now); }
    if q.Some? { assert Eligible(s[q.value], now); }
  }

  /** The choice of one tick as a function: the choice over all records but the
      last, replaced by the last record when it is eligible and either nothing
      was chosen or it strictly outranks the choice. */
  function PickOf(s: seq<Process>, rank: Rank, now: int): (pick: Option<nat>)
    ensures pick.Some? ==> pick.value < |s| && Eligible(s[pick.value], now)
  {
    if s == [] then None
    else
      var n := |s| - 1;
      var p := PickOf(s[..n], rank, now);
      if Eligible(s[n], now) && (p.None? || Beats(rank, s[n], s[p.value])) then Some(n) else p
  }

  /** The function makes the choice the specification describes. */
  lemma {:induction false} PickOfPicked(s: seq<Process>, rank: Rank, now: int)
    ensures Picked(s, rank, now, PickOf(s, rank, now))
  {
    if s != [] {
      var n := |s| - 1;
      PickOfPicked(s[..n], rank, now);
      assert forall k :: 0 <= k < n ==> s[..n][k] == s[k];
    }
  }

  /** The scan of one tick. The source keeps the best key seen so far starting
      from a sentinel (`INT_MAX` or `INT_MIN`); here "nothing seen yet" is `None`.
      A later candidate replaces the current one only when it strictly outranks it. */
  method PickTick(a: array<Process>, rank: Rank, now: int) returns (pick: Option<nat>)
    ensures Picked(a[..], rank, now, pick)
  {
    pick := None;
    var k := 0;
    while k < a.Length
      invariant 0 <= k <= a.Length
      invariant pick.None? ==> forall x :: 0 <= x < k ==> !Eligible(a[x], now)
      invariant pick.Some? ==>
        && pick.value < k && Eligible(a[pick.value], now)
        && (forall x :: 0 <= x < k && Eligible(a[x], now) ==> !Beats(rank, a[x], a[pick.value]))
        && (forall x :: 0 <= x < pick.value && Eligible(a[x], now) ==> Beats(rank, a[pick.value], a[x]))
    {
      if Eligible(a[k], now) {
        if pick.None? || Beats(rank, a[k], a[pick.value]) {
          pick := Some(k);
        }
      }
      k := k + 1;
    }
  }

  /** The owner of the unit a tick records: IDLE, or the picked process. */
  function Runner(s: seq<Process>, pick: Option<nat>): Owner
    requires pick.Some? ==> pick.value < |s|
  {
    if pick.None? then Idle else Pid(s[pick.value].pid)
  }

  /** Process `p` after running the unit `[now, now+1)`: one unit less burst and,
      when that was its last unit, its statistics. */
  function Ticked(p: Process, now: int): (r: Process)
    requires p.burst > 0
    ensures r.pid == p.pid && r.arrive == p.arrive && r.priority == p.priority
    ensures r.initialBurst == p.initialBurst && r.burst == p.burst - 1
    ensures r.burst > 0 ==> r.wait == p.wait && r.turnaround == p.turnaround
    ensures r.burst == 0 ==> r.turnaround == now + 1 - p.arrive
    ensures r.burst == 0 ==> r.wait == r.turnaround - p.initialBurst
  {
    if p.burst - 1 == 0 then
      var turnaround := now + 1 - p.arrive;
      p.(burst := 0, turnaround := turnaround, wait := turnaround - p.initialBurst)
    else
      p.(burst := p.burst - 1)
  }

  /** The records after the tick at `now`: the chosen process, if any, ran for one unit. */
  function TickState(s: seq<Process>, rank: Rank, now: int): (r: seq<Process>)
    ensures |r| == |s|
  {
    match PickOf(s, rank, now)
    case None => s
    case Some(m) => s[m := Ticked(s[m], now)]
  }

  /** The records and the chart after the first `t` ticks of the engine on `s0`:
      each tick runs the chosen process for one unit, or idles, and records the
      unit on the chart. */
  function Simulate(s0: seq<Process>, rank: Rank, t: nat): (r: (seq<Process>, seq<Entry>))
    ensures |r.0| == |s0| && Contiguous(r.1) && EndTime(r.1) == t
  {
    if t == 0 then (s0, [])
    else
      var prev := Simulate(s0, rank, t - 1);
      (TickState(prev.0, rank, t - 1), Record(prev.1, Runner(prev.0, PickOf(prev.0, rank, t - 1)), t - 1))
  }

  /** One more tick of the simulation from the state after `t` ticks. */
  lemma SimulateNext(s0: seq<Process>, rank: Rank, t: nat, s: seq<Process>, g: seq<Entry>)
    requires Simulate(s0, rank, t) == (s, g)
    ensures Simulate(s0, rank, t + 1) == (TickState(s, rank, t), Record(g, Runner(s, PickOf(s, rank, t)), t))
  {
  }

  /** `s` and `g` are the records and the chart after some number of ticks on `s0`. */
  ghost predicate Simulated(s0: seq<Process>, rank: Rank, s: seq<Process>, g: seq<Entry>) {
    exists t: nat :: Simulate(s0, rank, t) == (s, g)
  }

  /** Sum of the remaining bursts. */
  function SumBurst(s: seq<Process>): int {
    if s == [] then 0 else SumBurst(s[..|s| - 1]) + s[|s| - 1].burst
  }

  lemma {:induction false} SumBurstUpdate(s: seq<Process>, k: int, p: Process)
    requires 0 <= k < |s|
    ensures SumBurst(s[k := p]) == SumBurst(s) - s[k].burst + p.burst
  {
    var t := s[k := p];
    if k < |s| - 1 {
      assert t[..|t| - 1] == s[..|s| - 1][k := p];
      SumBurstUpdate(s[..|s| - 1], k, p);
    } else {
      assert t[..|t| - 1] == s[..|s| - 1];
    }
  }

  lemma {:induction false} SumBurstNonNegative(s: seq<Process>)
    requires forall k :: 0 <= k < |s| ==> s[k].burst >= 0
    ensures SumBurst(s) >= 0
    ensures SumBurst(s) == 0 <==> forall k :: 0 <= k < |s| ==> s[k].burst == 0
  {
    if s != [] {
      SumBurstNonNegative(s[..|s| - 1]);
      var s' := s[..|s| - 1];
      assert forall k :: 0 <= k < |s'| ==> s'[k] == s[k];
    }
  }

  /** `s[k]` started with some burst (in `s0`) and has none left. */
  ghost predicate Finished(s0: seq<Process>, s: seq<Process>, k: int)
    requires |s0| == |s| && 0 <= k < |s|
  {
    s0[k].burst > 0 && s[k].burst == 0
  }

  /** How many processes have finished: the engine's `completed` counter. */
  ghost function Completed(s0: seq<Process>, s: seq<Process>): (r: nat)
    requires |s0| == |s|
    ensures r <= |s|
  {
    if s == [] then 0
    else
      Completed(s0[..|s0| - 1], s[..|s| - 1])
        + (if s0[|s0| - 1].burst > 0 && s[|s| - 1].burst == 0 then 1 else 0)
  }

  lemma {:induction false} CompletedUpdate(s0: seq<Process>, s: seq<Process>, k: int, p: Process)
    requires |s0| == |s| && 0 <= k < |s|
    ensures Completed(s0, s[k := p]) == Completed(s0, s)
      - (if Finished(s0, s, k) then 1 else 0)
      + (if s0[k].burst > 0 && p.burst == 0 then 1 else 0)
  {
    var t := s[k := p];
    if k < |s| - 1 {
      assert t[..|t| - 1] == s[..|s| - 1][k := p];
      CompletedUpdate(s0[..|s0| - 1], s[..|s| - 1], k, p);
    } else {
      assert t[..|t| - 1] == s[..|s| - 1];
    }
  }

  /** While the counter is below `n`, some process has not finished. */
  lemma {:induction false} SomeUnfinished(s0: seq<Process>, s: seq<Process>)
    requires |s0| == |s| && Completed(s0, s) < |s|
    ensures exists k :: 0 <= k < |s| && !Finished(s0, s, k)
  {
    var n := |s| - 1;
    if s0[n].burst > 0 && s[n].burst == 0 {
      SomeUnfinished(s0[..n], s[..n]);
      var k :| 0 <= k < n && !Finished(s0[..n], s[..n], k);
      assert !Finished(s0, s, k);
    } else {
      assert !Finished(s0, s, n);
    }
  }

  /** Before the first tick no process has finished. */
  lemma {:induction false} NoneCompleted(s0: seq<Process>)
    ensures Completed(s0, s0) == 0
  {
    if s0 != [] {
      NoneCompleted(s0[..|s0| - 1]);
    }
  }

  /** When the counter reaches `n`, every process has finished. */
  lemma {:induction false} AllFinished(s0: seq<Process>, s: seq<Process>)
    requires |s0| == |s| && Completed(s0, s) == |s|
    ensures forall k :: 0 <= k < |s| ==> Finished(s0, s, k)
  {
    if s != [] {
      var n := |s| - 1;
      AllFinished(s0[..n], s[..n]);
      forall k | 0 <= k < |s|
        ensures Finished(s0, s, k)
      {
        if k < n { assert Finished(s0[..n], s[..n], k); }
      }
    }
  }

  /** A process that starts with burst 0 is never counted, so with one of them
      the counter stays below `n` and the engine's loop never exits. */
  lemma {:induction false} ZeroBurstStalls(s0: seq<Process>, s: seq<Process>, z: int)
    requires |s0| == |s| && 0 <= z < |s| && s0[z].burst == 0
    ensures Completed(s0, s) < |s|
  {
    var n := |s| - 1;
    if z < n {
      ZeroBurstStalls(s0[..n], s[..n], z);
    } else {
      assert Completed(s0[..n], s[..n]) <= n;
    }
  }

  /** Latest arrival time (0 for no process). */
  function LatestArrival(s: seq<Process>): (r: int)
    ensures r >= 0
    ensures forall k :: 0 <= k < |s| ==> s[k].arrive <= r
  {
    if s == [] then 0
    else
      var r := LatestArrival(s[..|s| - 1]);
      assert forall k :: 0 <= k < |s| - 1 ==> s[..|s| - 1][k] == s[k];
      if s[|s| - 1].arrive > r then s[|s| - 1].arrive else r
  }

  /** Only the run-time fields of a record change while the engine runs. */
  ghost predicate SameProcess(p0: Process, p: Process) {
    p.pid == p0.pid && p.arrive == p0.arrive && p.priority == p0.priority && p.initialBurst == p0.initialBurst
  }

  /** The statistics the engine writes when `p` completes at `finish`. */
  ghost predicate Stats(p: Process, finish: int) {
    p.turnaround == finish - p.arrive && p.wait == p.turnaround - p.initialBurst
  }

  /** Per process: its identity is kept, its burst only shrinks, the chart gives
      it exactly the units it has used, and it used none before it arrived. */
  ghost predicate Used(s0: seq<Process>, s: seq<Process>, g: seq<Entry>, t: int) {
    && |s| == |s0|
    && (forall k :: 0 <= k < |s| ==> SameProcess(s0[k], s[k]) && 0 <= s[k].burst <= s0[k].burst)
    && (forall k :: 0 <= k < |s| ==> OwnedTime(g, Pid(s[k].pid)) == s0[k].burst - s[k].burst)
    && (forall k :: 0 <= k < |s| ==>
          s0[k].burst - s[k].burst <= (if t > s[k].arrive then t - s[k].arrive else 0))
  }

  /** Per process: the statistics are written exactly once it has finished. */
  ghost predicate Reported(s0: seq<Process>, s: seq<Process>, g: seq<Entry>)
    requires |s| == |s0|
  {
    forall k :: 0 <= k < |s| ==>
      if Finished(s0, s, k) then Stats(s[k], Completion(g, Pid(s[k].pid))) && s[k].wait >= 0
      else s[k].wait == s0[k].wait && s[k].turnaround == s0[k].turnaround
  }

  ghost predicate Accounted(s0: seq<Process>, s: seq<Process>, g: seq<Entry>, t: int) {
    Used(s0, s, g, t) && Reported(s0, s, g)
  }

  /** What the input readers guarantee and the engine relies on. */
  ghost predicate AsRead(s0: seq<Process>) {
    (forall k :: 0 <= k < |s0| ==> s0[k].burst == s0[k].initialBurst >= 0) && DistinctPids(s0)
  }

  /** The chart of a tick engine at time `t`: contiguous from 0 up to `t`,
      neighbours with different owners, no empty entry. */
  ghost predicate TickChart(g: seq<Entry>, t: int) {
    Contiguous(g) && Coalesced(g) && Positive(g) && EndTime(g) == t >= 0
  }

  /** Every process of the run needs at least one unit. */
  ghost predicate PositiveBursts(s0: seq<Process>) {
    forall k :: 0 <= k < |s0| ==> s0[k].burst >= 1
  }

  /** The invariant of the engine loop at time `t` with `completed` finished processes. */
  ghost predicate Clock(s0: seq<Process>, s: seq<Process>, g: seq<Entry>, t: int, completed: int) {
    && AsRead(s0) && TickChart(g, t) && Accounted(s0, s, g, t)
    && BusyTime(g) == SumBurst(s0) - SumBurst(s)
    && completed == Completed(s0, s)
  }

  /** An IDLE tick happens only before the latest arrival: some process has
      not finished, and it is not eligible only because it has not arrived. */
  lemma IdleBeforeHorizon(s0: seq<Process>, s: seq<Process>, g: seq<Entry>, t: int, c: int)
    requires Clock(s0, s, g, t, c) && c < |s|
    requires forall k :: 0 <= k < |s| ==> s0[k].burst >= 1 && !Eligible(s[k], t)
    ensures t < LatestArrival(s0)
  {
    SomeUnfinished(s0, s);
    var k :| 0 <= k < |s| && !Finished(s0, s, k);
    assert s[k].burst > 0 && s[k].arrive == s0[k].arrive;
  }

  /** The invariant holds before the first tick. */
  lemma ClockStarts(s0: seq<Process>)
    requires AsRead(s0)
    ensures Clock(s0, s0, [], 0, 0)
  {
    NoneCompleted(s0);
  }

  /** What a tick run establishes between its input `s0`, its final array `s`
      and its chart `g`: the chart is contiguous from 0 with no empty entry and
      no two neighbours of the same owner, and ends with the unit that finished
      the last process; its busy time is the total burst;
      every process kept its identity, used up its burst, owns exactly its
      initial burst on the chart, and got statistics from the end of its last
      entry, with a wait that is never negative. */
  ghost predicate TickSchedule(s0: seq<Process>, s: seq<Process>, g: seq<Entry>) {
    && |s| == |s0|
    && Contiguous(g) && Coalesced(g) && Positive(g) && g != [] && !g[|g| - 1].owner.Idle?
    && BusyTime(g) == SumBurst(s0)
    && (forall k :: 0 <= k < |s| ==> SameProcess(s0[k], s[k]) && s[k].burst == 0)
    && (forall k :: 0 <= k < |s| ==> OwnedTime(g, Pid(s[k].pid)) == s[k].initialBurst)
    && (forall k :: 0 <= k < |s| ==> Stats(s[k], Completion(g, Pid(s[k].pid))) && s[k].wait >= 0)
  }

  /** When the counter reaches `n`, every burst has been used up. */
  lemma ClockEnds(s0: seq<Process>, s: seq<Process>, g: seq<Entry>, t: int, c: int)
    requires Clock(s0, s, g, t, c) && c == |s|
    requires PositiveBursts(s0)
    requires g != [] && !g[|g| - 1].owner.Idle?
    ensures TickSchedule(s0, s, g)
  {
    AllFinished(s0, s);
    SumBurstNonNegative(s);
  }

  /** An IDLE tick gives no process any unit. */
  lemma IdleTickKeepsUsed(s0: seq<Process>, s: seq<Process>, g: seq<Entry>, t: int)
    requires Used(s0, s, g, t) && Contiguous(g) && EndTime(g) == t
    ensures Used(s0, s, Record(g, Idle, t), t + 1)
  {
    RecordOwnedTime(g, Idle, t);
    forall k | 0 <= k < |s|
      ensures OwnedTime(Record(g, Idle, t), Pid(s[k].pid)) == s0[k].burst - s[k].burst
    {
      assert Pid(s[k].pid) != Idle;
    }
  }

  /** An IDLE tick moves no process's last finish time. */
  lemma IdleTickKeepsReported(s0: seq<Process>, s: seq<Process>, g: seq<Entry>, t: int)
    requires |s| == |s0| && Reported(s0, s, g) && Contiguous(g) && EndTime(g) == t
    ensures Reported(s0, s, Record(g, Idle, t))
  {
    RecordCompletion(g, Idle, t);
    forall k | 0 <= k < |s|
      ensures Completion(Record(g, Idle, t), Pid(s[k].pid)) == Completion(g, Pid(s[k].pid))
    {
      assert Pid(s[k].pid) != Idle;
    }
  }

  /** An IDLE tick (no process eligible) keeps the invariant. */
  lemma IdleTickKeepsClock(s0: seq<Process>, s: seq<Process>, g: seq<Entry>, t: int, c: int)
    requires Clock(s0, s, g, t, c)
    ensures Clock(s0, s, Record(g, Idle, t), t + 1, c)
  {
    IdleTickKeepsUsed(s0, s, g, t);
    IdleTickKeepsReported(s0, s, g, t);
    RecordBusyTime(g, Idle, t);
  }

  /** The identity of the records stays that of `s0`, so pids stay distinct. */
  lemma SameProcessesDistinct(s0: seq<Process>, s: seq<Process>)
    requires |s| == |s0| && DistinctPids(s0)
    requires forall k :: 0 <= k < |s| ==> SameProcess(s0[k], s[k])
    ensures DistinctPids(s)
  {
    forall x, y | 0 <= x < y < |s|
      ensures s[x].pid != s[y].pid
    {
      assert s[x].pid == s0[x].pid && s[y].pid == s0[y].pid;
    }
  }

  /** A tick that runs the eligible process `s[m]` gives it one more unit on the
      chart and no other process any. */
  lemma RunTickKeepsUsed(s0: seq<Process>, s: seq<Process>, g: seq<Entry>, t: int, m: int)
    requires Used(s0, s, g, t) && DistinctPids(s0) && Contiguous(g) && EndTime(g) == t
    requires 0 <= m < |s| && Eligible(s[m], t)
    ensures Used(s0, s[m := Ticked(s[m], t)], Record(g, Pid(s[m].pid), t), t + 1)
  {
    var s', g' := s[m := Ticked(s[m], t)], Record(g, Pid(s[m].pid), t);
    RecordAccounts(g, Pid(s[m].pid), t);
    SameProcessesDistinct(s0, s);
    forall k | 0 <= k < |s'|
      ensures SameProcess(s0[k], s'[k]) && 0 <= s'[k].burst <= s0[k].burst
      ensures OwnedTime(g', Pid(s'[k].pid)) == s0[k].burst - s'[k].burst
      ensures s0[k].burst - s'[k].burst <= (if t + 1 > s'[k].arrive then t + 1 - s'[k].arrive else 0)
    {
      if k != m { assert s[k].pid != s[m].pid; }
    }
  }

  /** A tick that runs the eligible process `s[m]` writes its statistics when it
      uses its last unit and leaves every other record's statistics alone. */
  lemma RunTickKeepsReported(s0: seq<Process>, s: seq<Process>, g: seq<Entry>, t: int, m: int)
    requires Used(s0, s, g, t) && Reported(s0, s, g) && AsRead(s0) && DistinctPids(s)
    requires Contiguous(g) && EndTime(g) == t && 0 <= m < |s| && Eligible(s[m], t)
    ensures Reported(s0, s[m := Ticked(s[m], t)], Record(g, Pid(s[m].pid), t))
  {
    var s', g' := s[m := Ticked(s[m], t)], Record(g, Pid(s[m].pid), t);
    RecordAccounts(g, Pid(s[m].pid), t);
    forall k | 0 <= k < |s'|
      ensures if Finished(s0, s', k) then Stats(s'[k], Completion(g', Pid(s'[k].pid))) && s'[k].wait >= 0
              else s'[k].wait == s0[k].wait && s'[k].turnaround == s0[k].turnaround
    {
      if k != m {
        assert s[k].pid != s[m].pid;
        assert Completion(g', Pid(s[k].pid)) == Completion(g, Pid(s[k].pid));
      } else if s'[m].burst == 0 {
        assert Completion(g', Pid(s[m].pid)) == t + 1;
      }
    }
  }

  /** A tick that runs the eligible process `s[m]` keeps the invariant, and the
      counter grows exactly when `s[m]` used its last unit. */
  lemma RunTickKeepsClock(s0: seq<Process>, s: seq<Process>, g: seq<Entry>, t: int, c: int, m: int)
    requires Clock(s0, s, g, t, c) && 0 <= m < |s| && Eligible(s[m], t)
    ensures Clock(s0, s[m := Ticked(s[m], t)], Record(g, Pid(s[m].pid), t), t + 1,
                  c + (if s[m].burst == 1 then 1 else 0))
  {
    RunTickKeepsUsed(s0, s, g, t, m);
    SameProcessesDistinct(s0, s);
    RunTickKeepsReported(s0, s, g, t, m);
    RecordAccounts(g, Pid(s[m].pid), t);
    SumBurstUpdate(s, m, Ticked(s[m], t));
    CompletedUpdate(s0, s, m, Ticked(s[m], t));
  }

  /** The picked process `a[m]` runs for the unit `[t, t+1)`: its burst drops by
      one, and when that was its last unit the counter grows and its statistics
      are written from the end of the unit. */
  method RunUnit(a: array<Process>, ghost s0: seq<Process>, g: seq<Entry>, t: int, completed: int, m: nat)
    returns (g': seq<Entry>, completed': int)
    requires Clock(s0, a[..], g, t, completed) && m < a.Length && Eligible(a[m], t)
    modifies a
    ensures a[..] == old(a[..])[m := Ticked(old(a[m]), t)]
    ensures g' == Record(g, Pid(old(a[m]).pid), t)
    ensures completed' == completed + (if a[m].burst == 0 then 1 else 0)
    ensures Clock(s0, a[..], g', t + 1, completed')
  {
    RunTickKeepsClock(s0, a[..], g, t, completed, m);
    completed' := completed;
    var p := a[m].(burst := a[m].burst - 1);
    if p.burst == 0 {
      completed' := completed' + 1;
      p := p.(turnaround := t + 1 - p.arrive);
      p := p.(wait := p.turnaround - p.initialBurst);
    }
    assert p == Ticked(a[m], t);
    a[m] := p;
    g' := Record(g, Pid(p.pid), t);
  }

  /** One pass of the engine loop at time `t`: picks a process, runs it for one
      unit (or idles), records the unit on the chart and counts a completion. */
  method Tick(a: array<Process>, rank: Rank, ghost s0: seq<Process>, g: seq<Entry>, t: int, completed: int)
    returns (pick: Option<nat>, g': seq<Entry>, completed': int)
    requires Clock(s0, a[..], g, t, completed)
    modifies a
    ensures Picked(old(a[..]), rank, t, pick) && pick == PickOf(old(a[..]), rank, t)
    ensures a[..] == TickState(old(a[..]), rank, t)
    ensures g' == Record(g, Runner(old(a[..]), pick), t)
    ensures pick.None? ==> a[..] == old(a[..]) && completed' == completed
    ensures pick.Some? ==>
      && a[..] == old(a[..])[pick.value := Ticked(old(a[pick.value]), t)]
      && completed' == completed + (if a[pick.value].burst == 0 then 1 else 0)
    ensures Clock(s0, a[..], g', t + 1, completed')
    ensures completed' != completed ==> !g'[|g'| - 1].owner.Idle?
    ensures completed < |s0| && PositiveBursts(s0) ==>
      && 0 <= SumBurst(a[..]) <= SumBurst(old(a[..]))
      && (SumBurst(a[..]) == SumBurst(old(a[..])) ==> t < LatestArrival(s0))
  {
    ghost var s := a[..];
    SumBurstNonNegative(s);
    pick := PickTick(a, rank, t);
    PickOfPicked(s, rank, t);
    PickedUnique(s, rank, t, pick, PickOf(s, rank, t));
    match pick {
      case None =>
        IdleTickKeepsClock(s0, s, g, t, completed);
        if completed < |s0| && PositiveBursts(s0) {
          IdleBeforeHorizon(s0, s, g, t, completed);
        }
        assert Runner(s, pick) == Idle;
        g' := Record(g, Idle, t);
        completed' := completed;
      case Some(m) =>
        SumBurstUpdate(s, m, Ticked(s[m], t));
        assert Runner(s, pick) == Pid(s[m].pid);
        g', completed' := RunUnit(a, s0, g, t, completed, m);
    }
  }

  /** One tick of the engine loop, as the loop sees it: the engine state
      follows the reference run one more unit, and either some burst was used
      up or the clock is still before the latest arrival. */
  method Step(a: array<Process>, rank: Rank, ghost s0: seq<Process>, g: seq<Entry>, t: nat, completed: int)
    returns (g': seq<Entry>, completed': int)
    requires Clock(s0, a[..], g, t, completed) && completed < |s0| && PositiveBursts(s0)
    requires Simulated(s0, rank, a[..], g)
    modifies a
    ensures Clock(s0, a[..], g', t + 1, completed')
    ensures Simulated(s0, rank, a[..], g')
    ensures completed' == |s0| ==> g' != [] && !g'[|g'| - 1].owner.Idle?
    ensures 0 <= SumBurst(a[..]) <= SumBurst(old(a[..]))
    ensures SumBurst(a[..]) == SumBurst(old(a[..])) ==> t < LatestArrival(s0)
  {
    ghost var u: nat :| Simulate(s0, rank, u) == (a[..], g);
    SimulateNext(s0, rank, u, a[..], g);
    var pick;
    pick, g', completed' := Tick(a, rank, s0, g, t, completed);
  }

  /** The engine loop (`while (completed < n)`), run on the sorted array. Every
      tick runs the picked process or is IDLE, and is recorded by extending the
      last entry or appending a new one. The source's loop only ends when every
      burst is at least 1 (see `ZeroBurstStalls`), which this method requires. */
  method RunTicks(a: array<Process>, rank: Rank) returns (g: seq<Entry>)
    requires a.Length >= 1 && DistinctPids(a[..])
    requires forall k :: 0 <= k < a.Length ==>
      a[k].pid >= 0 && a[k].burst == a[k].initialBurst >= 1 && a[k].arrive >= 0
    modifies a
    ensures TickSchedule(old(a[..]), a[..], g)
    ensures Simulated(old(a[..]), rank, a[..], g)
  {
    ghost var s0 := a[..];
    ghost var horizon := LatestArrival(s0);
    assert PositiveBursts(s0);
    var n := a.Length;
    g := [];
    var completed := 0;
    var t := 0;
    ClockStarts(s0);
    assert Simulate(s0, rank, 0) == (a[..], g);
    while completed < n
      invariant a.Length == n
      invariant Clock(s0, a[..], g, t, completed)
      invariant Simulated(s0, rank, a[..], g)
      invariant completed == n ==> g != [] && !g[|g| - 1].owner.Idle?
      decreases SumBurst(a[..]), horizon - t
    {
      g, completed := Step(a, rank, s0, g, t, completed);
      t := t + 1;
    }
    ClockEnds(s0, a[..], g, t, completed);
  }
}
