/** The eight `getGantt*` entry points: each rejects an empty count or a
    missing array, sorts the array by arrival with its own secondary key, and
    runs one of the two engines on it. A missing chart (`NULL`) is `None`. */
module Scheduler {
  import opened Processes
  import opened Timeline
  import opened Ordering
  import opened Batch
  import opened Ticks

  /** What a batch entry point establishes between the records it was given
      and the final array: the records were sorted by arrival with the policy's
      secondary key, the batch engine ran on that order under `policy`, and no
      record was lost or altered apart from its statistics. */
  ghost predicate BatchOutcome(given: seq<Process>, s: seq<Process>, g: seq<Entry>, policy: BatchPolicy) {
    && multiset(Descriptors(s)) == multiset(Descriptors(given))
    && exists sorted ::
         && multiset(sorted) == multiset(given) && Ordered(sorted, PolicyTie(policy))
         && BatchSchedule(sorted, s, g, policy) && g[0] == FirstEntry(sorted[0])
         && (policy.FirstCome? ==> Descriptors(s) == Descriptors(sorted))
  }

  /** What a preemptive entry point establishes: the records were sorted by
      arrival with key `tie`, and the tick engine, choosing by `rank`, ran on
      that order until every process finished. */
  ghost predicate TickOutcome(given: seq<Process>, s: seq<Process>, g: seq<Entry>, tie: TieBreak, rank: Rank) {
    exists sorted ::
      && multiset(sorted) == multiset(given) && Ordered(sorted, tie)
      && TickSchedule(sorted, s, g) && Simulated(sorted, rank, s, g)
  }

  /** What the input readers guarantee for a preemptive run: distinct pids that
      are not negative, arrivals not negative, and a positive burst equal to its
      initial copy. */
  ghost predicate TickReady(s: seq<Process>) {
    && DistinctPids(s)
    && forall k :: 0 <= k < |s| ==> s[k].pid >= 0 && s[k].burst == s[k].initialBurst >= 1 && s[k].arrive >= 0
  }

  /** The common body of FCFS, SJF, HRRN, Priority and LJF. */
  method BatchGantt(a: array?<Process>, n: int, policy: BatchPolicy) returns (r: Option<seq<Entry>>)
    requires a != null && n >= 1 ==> n == a.Length && Admissible(a[..])
    modifies a
    ensures n < 1 || a == null ==> r.None? && (a != null ==> a[..] == old(a[..]))
    ensures n >= 1 && a != null ==> r.Some? && BatchOutcome(old(a[..]), a[..], r.value, policy)
  {
    if n < 1 {
      return None;
    }
    if a == null {
      return None;
    }
    ghost var given := a[..];
    SortByArrival(a, PolicyTie(policy));
    ghost var sorted := a[..];
    PermutationKeeps(given, sorted, (p: Process) => p.pid >= 0 && p.arrive >= 0 && p.burst >= 0);
    var g := RunBatch(a, policy);
    DescriptorsPermute(given, sorted);
    assert BatchSchedule(sorted, a[..], g, policy);
    r := Some(g);
  }

  /** The common body of SRTF, preemptive Priority and LRTF. */
  method TickGantt(a: array?<Process>, n: int, tie: TieBreak, rank: Rank) returns (r: Option<seq<Entry>>)
    requires a != null && n >= 1 ==> n == a.Length && TickReady(a[..])
    modifies a
    ensures n < 1 || a == null ==> r.None? && (a != null ==> a[..] == old(a[..]))
    ensures n >= 1 && a != null ==> r.Some? && TickOutcome(old(a[..]), a[..], r.value, tie, rank)
  {
    if n < 1 {
      return None;
    }
    if a == null {
      return None;
    }
    ghost var given := a[..];
    SortByArrival(a, tie);
    ghost var sorted := a[..];
    PermutationKeeps(given, sorted, (p: Process) => p.pid >= 0 && p.burst == p.initialBurst >= 1 && p.arrive >= 0);
    var g := RunTicks(a, rank);
    assert TickSchedule(sorted, a[..], g) && Simulated(sorted, rank, a[..], g);
    r := Some(g);
  }

  /** First-Come First-Serve: arrival order, each process to completion. */
  method GanttFCFS(a: array?<Process>, n: int) returns (r: Option<seq<Entry>>)
    requires a != null && n >= 1 ==> n == a.Length && Admissible(a[..])
    modifies a
    ensures n < 1 || a == null ==> r.None? && (a != null ==> a[..] == old(a[..]))
    ensures n >= 1 && a != null ==> r.Some? && BatchOutcome(old(a[..]), a[..], r.value, FirstCome)
  {
    r := BatchGantt(a, n, FirstCome);
  }

  /** Shortest Job First: the shortest arrived burst runs next, to completion. */
  method GanttSJF(a: array?<Process>, n: int) returns (r: Option<seq<Entry>>)
    requires a != null && n >= 1 ==> n == a.Length && Admissible(a[..])
    modifies a
    ensures n < 1 || a == null ==> r.None? && (a != null ==> a[..] == old(a[..]))
    ensures n >= 1 && a != null ==>
      r.Some? && BatchOutcome(old(a[..]), a[..], r.value, Ranked(ShortestBurst))
  {
    r := BatchGantt(a, n, Ranked(ShortestBurst));
  }

  /** Highest Response Ratio Next: the arrived process with the highest
      `(wait + burst) / burst` runs next, to completion. */
  method GanttHRRN(a: array?<Process>, n: int) returns (r: Option<seq<Entry>>)
    requires a != null && n >= 1 ==> n == a.Length && Admissible(a[..])
    modifies a
    ensures n < 1 || a == null ==> r.None? && (a != null ==> a[..] == old(a[..]))
    ensures n >= 1 && a != null ==>
      r.Some? && BatchOutcome(old(a[..]), a[..], r.value, HighestResponseRatio)
  {
    r := BatchGantt(a, n, HighestResponseRatio);
  }

  /** Non-preemptive Priority: the arrived process with the lowest priority
      value runs next, to completion. */
  method GanttPriority(a: array?<Process>, n: int) returns (r: Option<seq<Entry>>)
    requires a != null && n >= 1 ==> n == a.Length && Admissible(a[..])
    modifies a
    ensures n < 1 || a == null ==> r.None? && (a != null ==> a[..] == old(a[..]))
    ensures n >= 1 && a != null ==>
      r.Some? && BatchOutcome(old(a[..]), a[..], r.value, Ranked(LowestPriority))
  {
    r := BatchGantt(a, n, Ranked(LowestPriority));
  }

  /** Longest Job First: the longest arrived burst runs next, to completion. */
  method GanttLJF(a: array?<Process>, n: int) returns (r: Option<seq<Entry>>)
    requires a != null && n >= 1 ==> n == a.Length && Admissible(a[..])
    modifies a
    ensures n < 1 || a == null ==> r.None? && (a != null ==> a[..] == old(a[..]))
    ensures n >= 1 && a != null ==>
      r.Some? && BatchOutcome(old(a[..]), a[..], r.value, Ranked(LongestBurst))
  {
    r := BatchGantt(a, n, Ranked(LongestBurst));
  }

  /** Shortest Remaining Time First: every unit goes to the arrived process
      with the least remaining burst. */
  method GanttSRTF(a: array?<Process>, n: int) returns (r: Option<seq<Entry>>)
    requires a != null && n >= 1 ==> n == a.Length && TickReady(a[..])
    modifies a
    ensures n < 1 || a == null ==> r.None? && (a != null ==> a[..] == old(a[..]))
    ensures n >= 1 && a != null ==> r.Some? && TickOutcome(old(a[..]), a[..], r.value, ThenBy(ShortestBurst), ShortestBurst)
  {
    r := TickGantt(a, n, ThenBy(ShortestBurst), ShortestBurst);
  }

  /** Preemptive Priority: every unit goes to the arrived, unfinished process
      with the lowest priority value. */
  method GanttPriorityPreemptive(a: array?<Process>, n: int) returns (r: Option<seq<Entry>>)
    requires a != null && n >= 1 ==> n == a.Length && TickReady(a[..])
    modifies a
    ensures n < 1 || a == null ==> r.None? && (a != null ==> a[..] == old(a[..]))
    ensures n >= 1 && a != null ==> r.Some? && TickOutcome(old(a[..]), a[..], r.value, ThenBy(LowestPriority), LowestPriority)
  {
    r := TickGantt(a, n, ThenBy(LowestPriority), LowestPriority);
  }

  /** Longest Remaining Time First: every unit goes to the arrived process
      with the most remaining burst. */
  method GanttLRTF(a: array?<Process>, n: int) returns (r: Option<seq<Entry>>)
    requires a != null && n >= 1 ==> n == a.Length && TickReady(a[..])
    modifies a
    ensures n < 1 || a == null ==> r.None? && (a != null ==> a[..] == old(a[..]))
    ensures n >= 1 && a != null ==> r.Some? && TickOutcome(old(a[..]), a[..], r.value, ThenBy(LongestBurst), LongestBurst)
  {
    r := TickGantt(a, n, ThenBy(LongestBurst), LongestBurst);
  }
}
