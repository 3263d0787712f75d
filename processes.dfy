/** Process descriptors of the scheduling simulator and the keys its policies rank them by. */
module Processes {

  datatype Option<T> = None | Some(value: T)

  /** One process record. `burst` is the remaining CPU burst: the preemptive
      engines count it down in place, and `initialBurst` keeps the value that
      was read. `wait` and `turnaround` are outputs written by the engines. */
  datatype Process = Process(
    pid: int,
    arrive: int,
    burst: int,
    priority: int,
    initialBurst: int,
    wait: int,
    turnaround: int)

  /** The ranking rules the policies use to pick among ready processes. */
  datatype Rank = ShortestBurst | LongestBurst | LowestPriority

  /** `p` strictly outranks `q` (a lower priority value is more important). */
  predicate Beats(rank: Rank, p: Process, q: Process) {
    match rank
    case ShortestBurst => p.burst < q.burst
    case LongestBurst => p.burst > q.burst
    case LowestPriority => p.priority < q.priority
  }

  /** The secondary key of the arrival sort: none (FCFS) or one of the ranks. */
  datatype TieBreak = ArrivalOnly | ThenBy(rank: Rank)

  predicate TieBeats(tie: TieBreak, p: Process, q: Process) {
    tie.ThenBy? && Beats(tie.rank, p, q)
  }

  /** The exchange condition of the arrival sort: `p` belongs strictly before `q`. */
  predicate Precedes(tie: TieBreak, p: Process, q: Process) {
    p.arrive < q.arrive || (p.arrive == q.arrive && TieBeats(tie, p, q))
  }

  /** Non-decreasing arrival; among equal arrivals, never a later process that outranks an earlier one. */
  ghost predicate Ordered(s: seq<Process>, tie: TieBreak) {
    forall x, y :: 0 <= x < y < |s| ==>
      s[x].arrive <= s[y].arrive && (s[x].arrive == s[y].arrive ==> !TieBeats(tie, s[y], s[x]))
  }

  ghost predicate ArrivalSorted(s: seq<Process>) {
    forall x, y :: 0 <= x < y < |s| ==> s[x].arrive <= s[y].arrive
  }

  ghost predicate DistinctPids(s: seq<Process>) {
    forall x, y :: 0 <= x < y < |s| ==> s[x].pid != s[y].pid
  }

  /** What the input readers guarantee: non-negative times, and pids that are
      distinct and not negative (the chart's -1 is reserved for IDLE). */
  ghost predicate Admissible(s: seq<Process>) {
    && (forall k :: 0 <= k < |s| ==> s[k].pid >= 0 && s[k].arrive >= 0 && s[k].burst >= 0)
    && DistinctPids(s)
  }

  /** A record with its output fields cleared: what a run may permute but not alter. */
  function Descriptor(p: Process): Process {
    p.(wait := 0, turnaround := 0)
  }

  function Descriptors(s: seq<Process>): (r: seq<Process>)
    ensures |r| == |s|
    ensures forall k :: 0 <= k < |s| ==> r[k] == Descriptor(s[k])
  {
    seq(|s|, k requires 0 <= k < |s| => Descriptor(s[k]))
  }

  /** A per-record property that holds of every record holds after any
      rearrangement of the records. */
  lemma PermutationKeeps(s: seq<Process>, t: seq<Process>, P: Process -> bool)
    requires multiset(t) == multiset(s)
    requires forall k :: 0 <= k < |s| ==> P(s[k])
    ensures forall k :: 0 <= k < |t| ==> P(t[k])
  {
    forall k | 0 <= k < |t|
      ensures P(t[k])
    {
      assert t[k] in multiset(t);
      assert t[k] in multiset(s);
    }
  }

  lemma DescriptorsAppend(s: seq<Process>, t: seq<Process>)
    ensures Descriptors(s + t) == Descriptors(s) + Descriptors(t)
  {
  }

  /** Rearranging the records rearranges their descriptors the same way. */
  lemma {:induction false} DescriptorsPermute(s: seq<Process>, t: seq<Process>)
    requires multiset(t) == multiset(s)
    ensures multiset(Descriptors(t)) == multiset(Descriptors(s))
    decreases |s|
  {
    if s == [] {
      assert |t| == |multiset(t)| == 0;
    } else {
      var s', x := s[..|s| - 1], s[|s| - 1];
      assert s == s' + [x];
      assert x in multiset(t);
      var k :| 0 <= k < |t| && t[k] == x;
      var t' := t[..k] + t[k + 1..];
      assert t == t[..k] + [x] + t[k + 1..];
      assert multiset(t) == multiset(t[..k]) + multiset{x} + multiset(t[k + 1..]);
      assert multiset(s) == multiset(s') + multiset{x};
      assert multiset(t') == multiset(t[..k]) + multiset(t[k + 1..]);
      assert multiset(t') == multiset(t) - multiset{x};
      assert multiset(s') == multiset(s) - multiset{x};
      DescriptorsPermute(s', t');
      DescriptorsAppend(s', [x]);
      DescriptorsAppend(t[..k], [x]);
      DescriptorsAppend(t[..k] + [x], t[k + 1..]);
      DescriptorsAppend(t[..k], t[k + 1..]);
    }
  }
}
