/** The non-preemptive batch engine shared by FCFS, SJF, HRRN, Priority and LJF:
    every dispatched process runs its whole burst in one entry. */
module Batch {
  import opened Processes
  import opened Timeline

  /** How the batch engine picks among the processes that have arrived. */
  datatype BatchPolicy = FirstCome | Ranked(rank: Rank) | HighestResponseRatio

  /** The scan of the selection window: from `i`, the maximal run of records
      whose arrival is not after `now`. */
  method WindowEnd(a: array<Process>, i: int, now: int) returns (j: int)
    requires 0 <= i < a.Length && a[i].arrive <= now
    ensures i < j <= a.Length
    ensures forall k :: i <= k < j ==> a[k].arrive <= now
    ensures j == a.Length || a[j].arrive > now
  {
    j := i + 1;
    while j < a.Length && a[j].arrive <= now
      invariant i < j <= a.Length
      invariant forall k :: i <= k < j ==> a[k].arrive <= now
    {
      j := j + 1;
    }
  }

  /** Leftmost best of the window `a[i..j)` by `rank`: a later candidate replaces
      the current one only when it strictly outranks it. */
  method SelectRanked(a: array<Process>, i: int, j: int, rank: Rank) returns (m: int)
    requires 0 <= i < j <= a.Length
    ensures i <= m < j
    ensures forall k :: i <= k < j ==> !Beats(rank, a[k], a[m])
    ensures forall k :: i <= k < m ==> Beats(rank, a[m], a[k])
  {
    m := i;
    var k := i + 1;
    while k < j
      invariant i <= m < k <= j
      invariant forall x :: i <= x < k ==> !Beats(rank, a[x], a[m])
      invariant forall x :: i <= x < m ==> Beats(rank, a[m], a[x])
    {
      if Beats(rank, a[k], a[m]) {
        m := k;
      }
      k := k + 1;
    }
  }

  /** A response ratio as the source's single-precision arithmetic sees it, with
      the infinities and NaN that a zero burst produces, and without rounding. */
  datatype Ratio = NegInf | Finite(value: real) | PosInf | NaN

  /** `1 + (now - arrive) / burst`. */
  function ResponseRatio(p: Process, now: int): (r: Ratio)
    ensures p.burst > 0 && p.arrive <= now ==> r.Finite? && r.value >= 1.0
    ensures p.burst == 0 ==> (r.NaN? <==> p.arrive == now)
    ensures p.burst == 0 ==> (r.PosInf? <==> p.arrive < now)
  {
    var waited := now - p.arrive;
    if p.burst != 0 then
      Finite(1.0 + waited as real / p.burst as real)
    else if waited > 0 then PosInf
    else if waited < 0 then NegInf
    else NaN
  }

  /** The floating-point comparison `x > y`: false whenever NaN is involved. */
  predicate Exceeds(x: Ratio, y: Ratio) {
    if x.NaN? || y.NaN? then false
    else if x.PosInf? then !y.PosInf?
    else if x.NegInf? then false
    else if y.NegInf? then true
    else if y.PosInf? then false
    else x.value > y.value
  }

  /** The HRRN scan over the window, starting from a best ratio of -1. No
      candidate's ratio exceeds the chosen one's, and every earlier candidate's
      is exceeded by it unless it is NaN; with positive bursts this is the
      leftmost maximum. A NaN ratio never beats -1, so a record with a NaN ratio
      is kept only as the initial `a[i]` when every ratio in the window is NaN. */
  method SelectHRRN(a: array<Process>, i: int, j: int, now: int) returns (m: int)
    requires 0 <= i < j <= a.Length
    requires forall k :: i <= k < j ==> a[k].arrive <= now && a[k].burst >= 0
    ensures i <= m < j
    ensures forall k :: i <= k < j ==> !Exceeds(ResponseRatio(a[k], now), ResponseRatio(a[m], now))
    ensures forall k :: i <= k < m ==>
      Exceeds(ResponseRatio(a[m], now), ResponseRatio(a[k], now)) || ResponseRatio(a[k], now).NaN?
    ensures ResponseRatio(a[m], now).NaN? ==>
      m == i && forall k :: i <= k < j ==> ResponseRatio(a[k], now).NaN?
  {
    m := i;
    var best := Finite(-1.0);
    var k := i;
    while k < j
      invariant i <= k <= j && i <= m < j && (m < k || m == i)
      invariant best.Finite? || best.PosInf?
      invariant best == ResponseRatio(a[m], now)
             || (m == i && best == Finite(-1.0) && (k > i ==> ResponseRatio(a[i], now).NaN?))
      invariant forall x :: i <= x < k ==> !Exceeds(ResponseRatio(a[x], now), best)
      invariant forall x :: i <= x < m ==>
        Exceeds(best, ResponseRatio(a[x], now)) || ResponseRatio(a[x], now).NaN?
      invariant ResponseRatio(a[m], now).NaN? ==>
        m == i && best == Finite(-1.0) && forall x :: i <= x < k ==> ResponseRatio(a[x], now).NaN?
    {
      var r := ResponseRatio(a[k], now);
      if Exceeds(r, best) {
        m := k;
        best := r;
      }
      k := k + 1;
    }
  }

  /** `s` with `s[m]` moved to position `i` and `s[i..m)` shifted right by one. */
  function RotateToFront<T>(s: seq<T>, i: int, m: int): (r: seq<T>)
    requires 0 <= i <= m < |s|
    ensures |r| == |s| && r[i] == s[m]
    ensures forall x :: 0 <= x < i ==> r[x] == s[x]
    ensures forall x :: i < x <= m ==> r[x] == s[x - 1]
    ensures forall x :: m < x < |s| ==> r[x] == s[x]
  {
    s[..i] + [s[m]] + s[i..m] + s[m + 1..]
  }

  lemma {:induction false} RotatePermutes<T>(s: seq<T>, i: int, m: int)
    requires 0 <= i <= m < |s|
    ensures multiset(RotateToFront(s, i, m)) == multiset(s)
  {
    calc {
      multiset(RotateToFront(s, i, m));
      multiset(s[..i]) + multiset{s[m]} + multiset(s[i..m]) + multiset(s[m + 1..]);
      { assert s[i..m + 1] == s[i..m] + [s[m]]; }
      multiset(s[..i]) + multiset(s[i..m + 1]) + multiset(s[m + 1..]);
      { assert s == s[..i] + s[i..m + 1] + s[m + 1..]; }
      multiset(s);
    }
  }

  lemma RotateDescriptors(s: seq<Process>, i: int, m: int)
    requires 0 <= i <= m < |s|
    ensures Descriptors(RotateToFront(s, i, m)) == RotateToFront(Descriptors(s), i, m)
  {
  }

  /** The rotation keeps pids distinct and times admissible. */
  lemma RotateKeepsAdmissible(s: seq<Process>, i: int, m: int)
    requires 0 <= i <= m < |s| && Admissible(s)
    ensures Admissible(RotateToFront(s, i, m))
  {
    var r := RotateToFront(s, i, m);
    forall x, y | 0 <= x < y < |r|
      ensures r[x].pid != r[y].pid
    {
      var x' := if x == i then m else if i < x <= m then x - 1 else x;
      var y' := if y == i then m else if i < y <= m then y - 1 else y;
      assert r[x] == s[x'] && r[y] == s[y'];
      if x' > y' { assert s[y'].pid != s[x'].pid; }
    }
  }

  /** After moving the chosen record to `i`, the records after `i` are the old
      `s[i..]` less one record, in their old order, so still sorted by arrival. */
  lemma RotateKeepsSuffixSorted(s: seq<Process>, i: int, m: int)
    requires 0 <= i <= m < |s|
    requires forall x, y :: i <= x < y < |s| ==> s[x].arrive <= s[y].arrive
    ensures forall x, y :: i < x < y < |s| ==>
      RotateToFront(s, i, m)[x].arrive <= RotateToFront(s, i, m)[y].arrive
  {
    var r := RotateToFront(s, i, m);
    forall x, y | i < x < y < |s|
      ensures r[x].arrive <= r[y].arrive
    {
      var x' := if x <= m then x - 1 else x;
      var y' := if y <= m then y - 1 else y;
      assert r[x] == s[x'] && r[y] == s[y'];
    }
  }

  /** The rotation loop of the source: `temp = a[m]`, shift `a[i..m)` right by one, `a[i] = temp`. */
  method Rotate(a: array<Process>, i: int, m: int)
    requires 0 <= i <= m < a.Length
    modifies a
    ensures a[..] == RotateToFront(old(a[..]), i, m)
  {
    var temp := a[m];
    var k := m;
    while k > i
      invariant i <= k <= m
      invariant forall x :: 0 <= x <= k ==> a[x] == old(a[x])
      invariant forall x :: k < x <= m ==> a[x] == old(a[x - 1])
      invariant forall x :: m < x < a.Length ==> a[x] == old(a[x])
    {
      a[k] := a[k - 1];
      k := k - 1;
    }
    a[i] := temp;
    assert a[..] == RotateToFront(old(a[..]), i, m);
  }

  /** Process `p` ran in entry `e` for exactly its burst, and its statistics
      were derived from that entry. */
  ghost predicate Scheduled(p: Process, e: Entry) {
    && e.owner == Pid(p.pid)
    && e.finish == e.start + p.burst
    && p.wait == e.start - p.arrive >= 0
    && p.turnaround == e.finish - p.arrive == p.wait + p.burst
  }

  /** An IDLE entry always covers some time. */
  ghost predicate IdlePositive(g: seq<Entry>) {
    forall q :: 0 <= q < |g| && g[q].owner.Idle? ==> g[q].start < g[q].finish
  }

  ghost predicate ChartShape(g: seq<Entry>) {
    Contiguous(g) && Coalesced(g) && IdlePositive(g)
  }

  /** `s[..i]` ran, in order, in the busy entries of `g`. */
  ghost predicate Done(s: seq<Process>, g: seq<Entry>, i: int) {
    && 0 <= i <= |s| && |Busy(g)| == i
    && forall k :: 0 <= k < i ==> Scheduled(s[k], Busy(g)[k])
  }

  /** The secondary key of each batch policy's arrival sort. */
  function PolicyTie(policy: BatchPolicy): TieBreak {
    match policy
    case FirstCome => ArrivalOnly
    case Ranked(rank) => ThenBy(rank)
    case HighestResponseRatio => ThenBy(ShortestBurst)
  }

  /** Under `policy`, running `p` at `now` was at least as good a choice as
      running the waiting process `q`: FCFS never passes over an earlier
      arrival, a ranked policy never over a process that outranks `p`, and HRRN
      never over one whose response ratio exceeds `p`'s. When the choice came
      from the scan (`scanned`), HRRN also never runs a NaN ratio ahead of a
      ratio that is not NaN: the scan from -1 passes over NaN ratios. */
  ghost predicate AtLeastAsGood(policy: BatchPolicy, p: Process, q: Process, now: int, scanned: bool) {
    match policy
    case FirstCome => p.arrive <= q.arrive
    case Ranked(rank) => !Beats(rank, q, p)
    case HighestResponseRatio =>
      && !Exceeds(ResponseRatio(q, now), ResponseRatio(p, now))
      && (scanned && ResponseRatio(p, now).NaN? ==> ResponseRatio(q, now).NaN?)
  }

  /** `s[m]` is at least as good as every waiting record of `s[i..]` that has arrived by `now`. */
  ghost predicate BestWaiting(s: seq<Process>, i: int, m: int, now: int, policy: BatchPolicy, scanned: bool) {
    && 0 <= i <= m < |s|
    && forall y :: i <= y < |s| && s[y].arrive <= now ==> AtLeastAsGood(policy, s[m], s[y], now, scanned)
  }

  /** Whether the `k`-th dispatch, starting at `start`, selected through the
      window scan: every dispatch does except the first one at time 0, which
      runs the first record without a scan. */
  function Scanned(k: int, start: int): bool {
    k > 0 || start > 0
  }

  /** When it started, the `k`-th dispatched process `s[k]` (one of the first
      `i`) was at least as good a choice as `s[x]`, if `s[x]` was still waiting
      and had arrived. */
  ghost predicate ChoseOver(s: seq<Process>, g: seq<Entry>, i: int, k: int, x: int, policy: BatchPolicy) {
    0 <= k < i && k < |Busy(g)| && k < x < |s| && s[x].arrive <= Busy(g)[k].start ==>
      AtLeastAsGood(policy, s[k], s[x], Busy(g)[k].start, Scanned(k, Busy(g)[k].start))
  }

  /** Each of the first `i` dispatched processes was, when it started, at least
      as good a choice as every process dispatched after it that had arrived. */
  ghost predicate Selected(s: seq<Process>, g: seq<Entry>, i: int, policy: BatchPolicy) {
    forall k, x :: ChoseOver(s, g, i, k, x, policy)
  }

  /** If `g[q]` is an IDLE entry and `s[x]` was still waiting then, `s[x]`
      arrives no earlier than the IDLE entry ends. */
  ghost predicate IdleEndsBy(s: seq<Process>, g: seq<Entry>, q: int, x: int) {
    0 <= q < |g| && g[q].owner.Idle? && |Busy(g[..q])| <= x < |s| ==> s[x].arrive >= g[q].finish
  }

  /** Every IDLE entry was emitted when no waiting process had arrived: each
      process dispatched after it arrives no earlier than the IDLE entry ends. */
  ghost predicate IdleJustified(s: seq<Process>, g: seq<Entry>) {
    forall q, x :: IdleEndsBy(s, g, q, x)
  }

  /** The choices behind the chart: why each process ran when it did, and why each IDLE entry is there. */
  ghost predicate Fair(s: seq<Process>, g: seq<Entry>, i: int, policy: BatchPolicy) {
    IdleJustified(s, g) && Selected(s, g, i, policy)
  }

  /** What a batch run under `policy` establishes between its input `s0`, its
      final array `s` (the processes in the order they ran) and its chart `g`. */
  ghost predicate BatchSchedule(s0: seq<Process>, s: seq<Process>, g: seq<Entry>, policy: BatchPolicy) {
    && multiset(Descriptors(s)) == multiset(Descriptors(s0))
    && ChartShape(g) && g != [] && !g[|g| - 1].owner.Idle?
    && Done(s, g, |s|)
    && Fair(s, g, |s|, policy)
  }

  /** In a finished run every IDLE entry is followed by a dispatch, and the
      process dispatched there arrived exactly when the IDLE entry ends. */
  lemma IdleEndsAtArrival(s0: seq<Process>, s: seq<Process>, g: seq<Entry>, policy: BatchPolicy, q: int)
    requires BatchSchedule(s0, s, g, policy) && 0 <= q < |g| && g[q].owner.Idle?
    ensures q + 1 < |g| && |Busy(g[..q])| < |s|
    ensures g[q + 1] == Busy(g)[|Busy(g[..q])|]
    ensures s[|Busy(g[..q])|].arrive == g[q].finish
  {
    IdleThenBusy(g, q);
    var k := |Busy(g[..q])|;
    assert Scheduled(s[k], Busy(g)[k]) && IdleEndsBy(s, g, q, k);
  }

  /** How the end of the chart relates to the next waiting process `s[i]`. */
  ghost predicate Linked(s: seq<Process>, g: seq<Entry>, i: int) {
    && 0 <= i <= |s| && |s| >= 1
    && (g == [] ==> i == 0 && s[0].arrive == 0)
    && (g != [] && g[|g| - 1].owner.Idle? ==> i < |s| && s[i].arrive == EndTime(g))
    && (g != [] && !g[|g| - 1].owner.Idle? ==> 0 < i == |Busy(g)| && g[|g| - 1] == Busy(g)[i - 1])
  }

  /** The records from `i` on are waiting, sorted by arrival. */
  ghost predicate Waiting(s: seq<Process>, i: int) {
    && Admissible(s)
    && forall x, y :: 0 <= x && i <= x < y < |s| ==> s[x].arrive <= s[y].arrive
  }

  /** The invariant of the engine loop after `i` processes have been dispatched. */
  ghost predicate Progress(s0: seq<Process>, s: seq<Process>, g: seq<Entry>, i: int) {
    && ChartShape(g) && Linked(s, g, i) && Done(s, g, i) && Waiting(s, i)
    && multiset(Descriptors(s)) == multiset(Descriptors(s0))
  }

  /** The chart entry of process `p` dispatched at `start`: its whole burst. */
  function RunEntry(p: Process, start: int): Entry {
    Entry(Pid(p.pid), start, start + p.burst)
  }

  /** The statistics the source writes when `p` starts at `start`. */
  function Dispatched(p: Process, start: int): (r: Process)
    ensures Descriptor(r) == Descriptor(p)
    ensures r.turnaround == r.wait + p.burst
  {
    p.(wait := start - p.arrive, turnaround := start + p.burst - p.arrive)
  }

  lemma DispatchedDescriptors(s: seq<Process>, i: int, start: int)
    requires 0 <= i < |s|
    ensures Descriptors(s[i := Dispatched(s[i], start)]) == Descriptors(s)
  {
  }

  /** Appending an entry that starts where the chart ends and has a new owner keeps its shape. */
  lemma ChartAppend(g: seq<Entry>, e: Entry)
    requires ChartShape(g) && e.start == EndTime(g) <= e.finish
    requires g != [] ==> g[|g| - 1].owner != e.owner
    requires e.owner.Idle? ==> e.start < e.finish
    ensures ChartShape(g + [e])
  {
  }

  lemma DoneAppend(s: seq<Process>, g: seq<Entry>, i: int, p: Process, e: Entry)
    requires Done(s, g, i) && i < |s| && Scheduled(p, e)
    ensures Done(s[i := p], g + [e], i + 1)
  {
    BusyAppend(g, e);
    var s', g' := s[i := p], g + [e];
    forall k | 0 <= k < i + 1
      ensures Scheduled(s'[k], Busy(g')[k])
    {
      if k < i { assert s'[k] == s[k] && Busy(g')[k] == Busy(g)[k]; }
    }
  }

  lemma DispatchKeepsWaiting(s: seq<Process>, i: int, start: int)
    requires Admissible(s) && 0 <= i < |s|
    requires forall x, y :: i < x < y < |s| ==> s[x].arrive <= s[y].arrive
    ensures Waiting(s[i := Dispatched(s[i], start)], i + 1)
  {
    var s' := s[i := Dispatched(s[i], start)];
    forall x, y | 0 <= x < y < |s'|
      ensures s'[x].pid != s'[y].pid
    {
      assert s'[x].pid == s[x].pid && s'[y].pid == s[y].pid;
    }
  }

  /** Moving the chosen waiting record to position `i` leaves the dispatched
      prefix alone and keeps the records admissible and the rest sorted. */
  lemma RotateKeepsDone(s0: seq<Process>, s: seq<Process>, g: seq<Entry>, i: int, m: int)
    requires Progress(s0, s, g, i) && i <= m < |s|
    ensures var r := RotateToFront(s, i, m);
      && Done(r, g, i) && Admissible(r) && r[i] == s[m]
      && (forall x, y :: i < x < y < |r| ==> r[x].arrive <= r[y].arrive)
      && multiset(Descriptors(r)) == multiset(Descriptors(s0))
      && (i > 0 ==> r[i - 1] == s[i - 1] && r[i - 1].pid != r[i].pid)
  {
    var r := RotateToFront(s, i, m);
    RotatePermutes(Descriptors(s), i, m);
    RotateDescriptors(s, i, m);
    RotateKeepsAdmissible(s, i, m);
    RotateKeepsSuffixSorted(s, i, m);
    assert forall k :: 0 <= k < i ==> r[k] == s[k];
    if i > 0 { assert r[i - 1].pid != r[i].pid; }
  }

  /** The new entry of a dispatch starts where the chart ends and, when the
      chart ends with a process, belongs to a different one. */
  lemma DispatchKeepsShape(s0: seq<Process>, s: seq<Process>, g: seq<Entry>, i: int, m: int)
    requires Progress(s0, s, g, i) && i <= m < |s|
    ensures ChartShape(g + [RunEntry(s[m], EndTime(g))])
  {
    var r := RotateToFront(s, i, m);
    RotateKeepsDone(s0, s, g, i, m);
    if g != [] && !g[|g| - 1].owner.Idle? {
      assert g[|g| - 1].owner == Pid(r[i - 1].pid);
    }
    ChartAppend(g, RunEntry(s[m], EndTime(g)));
  }

  /** The chart side of one dispatch: the new entry records the dispatched
      process as the next one done and ends the chart with it. */
  lemma DispatchKeepsDone(s0: seq<Process>, s: seq<Process>, g: seq<Entry>, i: int, m: int)
    requires Progress(s0, s, g, i) && i <= m < |s| && s[m].arrive <= EndTime(g)
    ensures var s', g' := DispatchStep(s, i, m, EndTime(g)),
                          g + [RunEntry(s[m], EndTime(g))];
      Done(s', g', i + 1) && Linked(s', g', i + 1)
  {
    var r := RotateToFront(s, i, m);
    var t := EndTime(g);
    var e := RunEntry(s[m], t);
    var s' := DispatchStep(s, i, m, t);
    RotateKeepsDone(s0, s, g, i, m);
    assert s' == r[i := Dispatched(r[i], t)];
    assert Scheduled(s'[i], e);
    DoneAppend(r, g, i, s'[i], e);
    BusyAppend(g, e);
  }

  /** One dispatch: the chosen waiting process `s[m]`, which has arrived, moves
      to position `i` and runs from the end of the chart for its whole burst.
      The loop invariant holds again with one more process done. */
  lemma DispatchKeepsProgress(s0: seq<Process>, s: seq<Process>, g: seq<Entry>, i: int, m: int)
    requires Progress(s0, s, g, i) && i <= m < |s| && s[m].arrive <= EndTime(g)
    ensures Progress(s0, DispatchStep(s, i, m, EndTime(g)),
                     g + [RunEntry(s[m], EndTime(g))], i + 1)
  {
    var r := RotateToFront(s, i, m);
    var t := EndTime(g);
    DispatchKeepsShape(s0, s, g, i, m);
    DispatchKeepsDone(s0, s, g, i, m);
    RotateKeepsDone(s0, s, g, i, m);
    DispatchKeepsWaiting(r, i, t);
    assert DispatchStep(s, i, m, t) == r[i := Dispatched(r[i], t)];
  }

  /** One dispatch of a best waiting process keeps the whole loop invariant. */
  lemma DispatchKeepsEngine(s0: seq<Process>, s: seq<Process>, g: seq<Entry>, i: int, m: int, policy: BatchPolicy,
                            s': seq<Process>, g': seq<Entry>)
    requires Progress(s0, s, g, i) && Fair(s, g, i, policy)
    requires BestWaiting(s, i, m, EndTime(g), policy, Scanned(i, EndTime(g))) && s[m].arrive <= EndTime(g)
    requires s' == DispatchStep(s, i, m, EndTime(g))
    requires g' == g + [RunEntry(s[m], EndTime(g))]
    ensures Progress(s0, s', g', i + 1) && Fair(s', g', i + 1, policy)
  {
    DispatchKeepsProgress(s0, s, g, i, m);
    DispatchKeepsIdleJustified(s, g, i, m, EndTime(g));
    DispatchKeepsSelected(s, g, i, m, EndTime(g), policy);
  }

  /** An IDLE entry up to the next arrival keeps the loop invariant. */
  lemma IdleKeepsProgress(s0: seq<Process>, s: seq<Process>, g: seq<Entry>, i: int)
    requires Progress(s0, s, g, i) && g != [] && i < |s| && s[i].arrive > EndTime(g)
    ensures Progress(s0, s, g + [Entry(Idle, EndTime(g), s[i].arrive)], i)
  {
    var e := Entry(Idle, EndTime(g), s[i].arrive);
    ChartAppend(g, e);
    BusyAppend(g, e);
  }

  /** The invariant holds before the loop, whether or not the chart starts with
      an IDLE entry up to the first arrival. */
  lemma BatchStarts(s0: seq<Process>, policy: BatchPolicy)
    requires |s0| >= 1 && Admissible(s0) && ArrivalSorted(s0)
    ensures var g := if s0[0].arrive != 0 then [Entry(Idle, 0, s0[0].arrive)] else [];
      Progress(s0, s0, g, 0) && Fair(s0, g, 0, policy)
  {
    var g: seq<Entry> := if s0[0].arrive != 0 then [Entry(Idle, 0, s0[0].arrive)] else [];
    assert Busy(g) == [];
    assert g != [] ==> g[..0] == [];
  }

  /** Before any entry exists the engine runs `s[0]` at time 0 without a
      window. After the policy's own arrival sort no process arriving at 0 is
      better; unless HRRN meets a burst of 0 (a NaN ratio) in `s[0]`, that is
      exactly the scan's choice. */
  lemma FirstDispatchBest(s: seq<Process>, policy: BatchPolicy)
    requires |s| >= 1 && Admissible(s) && Ordered(s, PolicyTie(policy)) && s[0].arrive == 0
    ensures BestWaiting(s, 0, 0, 0, policy, false)
    ensures !policy.HighestResponseRatio? || s[0].burst > 0 ==> Preferred(s, 0, 0, 0, policy)
  {
    var scanned := !policy.HighestResponseRatio? || s[0].burst > 0;
    forall y | 0 <= y < |s| && s[y].arrive <= 0
      ensures AtLeastAsGood(policy, s[0], s[y], 0, scanned)
    {
      if y > 0 {
        assert s[y].arrive == s[0].arrive;
        assert !TieBeats(PolicyTie(policy), s[y], s[0]);
      }
    }
  }

  /** An IDLE entry up to the arrival of the next waiting process `s[i]` is
      justified: every waiting process arrives no earlier. */
  lemma IdleKeepsFair(s: seq<Process>, g: seq<Entry>, i: int, policy: BatchPolicy)
    requires Fair(s, g, i, policy) && |Busy(g)| == i < |s|
    requires forall x :: i <= x < |s| ==> s[i].arrive <= s[x].arrive
    ensures Fair(s, g + [Entry(Idle, EndTime(g), s[i].arrive)], i, policy)
  {
    var e := Entry(Idle, EndTime(g), s[i].arrive);
    var g' := g + [e];
    BusyAppend(g, e);
    forall q, x
      ensures IdleEndsBy(s, g', q, x)
    {
      if 0 <= q < |g| {
        assert g'[..q] == g[..q] && g'[q] == g[q] && IdleEndsBy(s, g, q, x);
      } else if q == |g| {
        assert g'[..q] == g;
      }
    }
    forall k, x
      ensures ChoseOver(s, g', i, k, x, policy)
    {
      assert ChoseOver(s, g, i, k, x, policy);
    }
  }

  /** A dispatch keeps every IDLE entry justified: the records from any
      position on are still the same processes, rearranged. */
  lemma DispatchKeepsIdleJustified(s: seq<Process>, g: seq<Entry>, i: int, m: int, now: int)
    requires IdleJustified(s, g) && 0 <= i <= m < |s| && |Busy(g)| == i
    ensures IdleJustified(DispatchStep(s, i, m, now), g + [RunEntry(s[m], now)])
  {
    var s', e := DispatchStep(s, i, m, now), RunEntry(s[m], now);
    var g' := g + [e];
    DispatchStepOrigin(s, i, m, now);
    forall q, x | 0 <= q < |g'| && g'[q].owner.Idle? && |Busy(g'[..q])| <= x < |s'|
      ensures IdleEndsBy(s', g', q, x)
    {
      assert q < |g| && g'[..q] == g[..q] && g'[q] == g[q];
      BusyPrefix(g, q);
      assert SameKeys(s'[x], s[Origin(i, m, x)]) && IdleEndsBy(s, g, q, Origin(i, m, x));
    }
  }

  /** A dispatch of a best waiting process keeps every earlier choice justified
      and justifies the new one. */
  lemma DispatchKeepsSelected(s: seq<Process>, g: seq<Entry>, i: int, m: int, now: int, policy: BatchPolicy)
    requires Selected(s, g, i, policy) && BestWaiting(s, i, m, now, policy, Scanned(i, now)) && |Busy(g)| == i
    ensures Selected(DispatchStep(s, i, m, now), g + [RunEntry(s[m], now)], i + 1, policy)
  {
    var s', e := DispatchStep(s, i, m, now), RunEntry(s[m], now);
    var g' := g + [e];
    DispatchStepOrigin(s, i, m, now);
    BusyAppend(g, e);
    forall k, x | 0 <= k < i + 1 && k < |Busy(g')| && k < x < |s'| && s'[x].arrive <= Busy(g')[k].start
      ensures ChoseOver(s', g', i + 1, k, x, policy)
    {
      var t, y := Busy(g')[k].start, Origin(i, m, x);
      if k < i {
        assert Busy(g')[k] == Busy(g)[k] && ChoseOver(s, g, i, k, y, policy);
        SameKeysDecide(policy, s[k], s[y], s'[k], s'[x], t, Scanned(k, t));
      } else {
        assert Busy(g')[k] == e && s[y].arrive <= now;
        SameKeysDecide(policy, s[m], s[y], s'[k], s'[x], t, Scanned(k, t));
      }
    }
  }

  /** `s[m]` is the process `policy` selects among the waiting records `s[i..]`
      that have arrived by `now`: it is at least as good as each of them, and
      FCFS takes `s[i]`; a ranked policy takes the leftmost best; HRRN takes a
      record whose ratio exceeds that of every record before it except NaN ones,
      and a record with a NaN ratio only as `s[i]` when every ratio is NaN. */
  ghost predicate Preferred(s: seq<Process>, i: int, m: int, now: int, policy: BatchPolicy) {
    && BestWaiting(s, i, m, now, policy, true)
    && (policy.FirstCome? ==> m == i)
    && (policy.Ranked? ==> forall k :: i <= k < m ==> Beats(policy.rank, s[m], s[k]))
    && (policy.HighestResponseRatio? ==>
          && (forall k :: i <= k < m ==>
                Exceeds(ResponseRatio(s[m], now), ResponseRatio(s[k], now)) || ResponseRatio(s[k], now).NaN?)
          && (ResponseRatio(s[m], now).NaN? ==>
                m == i && forall k :: i <= k < |s| && s[k].arrive <= now ==> ResponseRatio(s[k], now).NaN?))
  }

  /** The selection a dispatch makes once the next waiting process `a[i]` has
      arrived by `now`: FCFS takes `a[i]`; the other policies scan the window of
      arrived processes. Because the waiting records are sorted by arrival, the
      window holds every waiting process that has arrived. */
  method Choose(a: array<Process>, i: int, now: int, policy: BatchPolicy) returns (m: int)
    requires 0 <= i < a.Length && a[i].arrive <= now
    requires forall x, y :: i <= x < y < a.Length ==> a[x].arrive <= a[y].arrive
    requires forall k :: i <= k < a.Length ==> a[k].burst >= 0
    ensures i <= m < a.Length && a[m].arrive <= now
    ensures Preferred(a[..], i, m, now, policy)
  {
    match policy {
      case FirstCome =>
        m := i;
      case Ranked(rank) =>
        var j := WindowEnd(a, i, now);
        m := SelectRanked(a, i, j, rank);
      case HighestResponseRatio =>
        var j := WindowEnd(a, i, now);
        m := SelectHRRN(a, i, j, now);
    }
  }

  /** The records after one dispatch: `s[m]` moved to position `i`, with the
      statistics of a start at `start`. */
  function DispatchStep(s: seq<Process>, i: int, m: int, start: int): (r: seq<Process>)
    requires 0 <= i <= m < |s|
    ensures |r| == |s| && Descriptor(r[i]) == Descriptor(s[m])
    ensures r[i].wait == start - s[m].arrive && r[i].turnaround == r[i].wait + s[m].burst
    ensures multiset(Descriptors(r)) == multiset(Descriptors(s))
    ensures m == i ==> Descriptors(r) == Descriptors(s)
  {
    var r := RotateToFront(s, i, m);
    RotatePermutes(Descriptors(s), i, m);
    RotateDescriptors(s, i, m);
    DispatchedDescriptors(r, i, start);
    assert m == i ==> r == s;
    r[i := Dispatched(r[i], start)]
  }

  /** The position before a dispatch step of the record at `x` after it. */
  function Origin(i: int, m: int, x: int): int {
    if x < i then x else if x == i then m else if x <= m then x - 1 else x
  }

  /** The fields a policy ranks by. */
  ghost predicate SameKeys(p: Process, q: Process) {
    p.pid == q.pid && p.arrive == q.arrive && p.burst == q.burst && p.priority == q.priority
  }

  /** Whether one process was at least as good a choice as another depends on their keys only. */
  lemma SameKeysDecide(policy: BatchPolicy, p: Process, q: Process, p': Process, q': Process, now: int,
                        scanned: bool)
    requires SameKeys(p, p') && SameKeys(q, q') && AtLeastAsGood(policy, p, q, now, scanned)
    ensures AtLeastAsGood(policy, p', q', now, scanned)
  {
    assert ResponseRatio(p, now) == ResponseRatio(p', now) && ResponseRatio(q, now) == ResponseRatio(q', now);
  }

  /** After a dispatch step every record is the record it came from, with at
      most its statistics changed; only the dispatched one moves forward. */
  lemma DispatchStepOrigin(s: seq<Process>, i: int, m: int, start: int)
    requires 0 <= i <= m < |s|
    ensures forall x :: 0 <= x < |s| ==> i <= Origin(i, m, x) < |s| || Origin(i, m, x) == x < i
    ensures forall x :: 0 <= x < |s| ==> SameKeys(DispatchStep(s, i, m, start)[x], s[Origin(i, m, x)])
    ensures forall x :: 0 <= x < |s| && x != i ==> DispatchStep(s, i, m, start)[x] == s[Origin(i, m, x)]
  {
    var r := RotateToFront(s, i, m);
    assert DispatchStep(s, i, m, start) == r[i := Dispatched(r[i], start)];
  }

  /** Dispatches the chosen process `a[m]`: moves it to position `i` and writes
      the statistics of a start at `start`; the caller appends its entry. */
  method Dispatch(a: array<Process>, i: int, m: int, start: int)
    requires 0 <= i <= m < a.Length
    modifies a
    ensures a[..] == DispatchStep(old(a[..]), i, m, start)
  {
    if m != i {
      Rotate(a, i, m);
    }
    ghost var r := a[..];
    a[i] := a[i].(wait := start - a[i].arrive, turnaround := start + a[i].burst - a[i].arrive);
    assert a[..] == r[i := Dispatched(r[i], start)];
  }

  /** The dispatching pass of the engine loop: dispatches the selected process
      `a[m]` at `cursor` and appends its entry. */
  method DispatchAt(a: array<Process>, ghost s0: seq<Process>, g: seq<Entry>, i: int, m: int, cursor: int,
                    policy: BatchPolicy)
    returns (g': seq<Entry>)
    requires Progress(s0, a[..], g, i) && i <= m < a.Length && a[m].arrive <= cursor == EndTime(g)
    requires Fair(a[..], g, i, policy) && BestWaiting(a[..], i, m, cursor, policy, Scanned(i, cursor))
    modifies a
    ensures a[..] == DispatchStep(old(a[..]), i, m, cursor)
    ensures g' == g + [RunEntry(old(a[m]), cursor)]
    ensures Progress(s0, a[..], g', i + 1) && Fair(a[..], g', i + 1, policy)
  {
    var e := RunEntry(a[m], cursor);
    Dispatch(a, i, m, cursor);
    g' := g + [e];
    DispatchKeepsEngine(s0, old(a[..]), g, i, m, policy, a[..], g');
  }

  /** The dispatching branch of the engine loop once `a[i]` has arrived: selects
      by the policy and dispatches. Before any entry exists the first process
      starts at 0 without a window. */
  method DispatchNext(a: array<Process>, ghost s0: seq<Process>, g: seq<Entry>, i: int, cursor: int, policy: BatchPolicy)
    returns (m: int, g': seq<Entry>)
    requires Progress(s0, a[..], g, i) && Fair(a[..], g, i, policy) && i < a.Length && cursor == EndTime(g)
    requires g == [] ==> BestWaiting(a[..], i, i, cursor, policy, Scanned(i, cursor))
    requires g == [] || a[i].arrive <= cursor
    modifies a
    ensures i <= m < a.Length && (g == [] ==> m == i)
    ensures g != [] ==> Preferred(old(a[..]), i, m, cursor, policy)
    ensures a[..] == DispatchStep(old(a[..]), i, m, cursor)
    ensures g' == g + [RunEntry(old(a[..])[m], cursor)]
    ensures Progress(s0, a[..], g', i + 1) && Fair(a[..], g', i + 1, policy)
    ensures g == [] ==> g' == [FirstEntry(old(a[i]))]
    ensures policy.FirstCome? ==> Descriptors(a[..]) == Descriptors(old(a[..]))
  {
    ghost var s := a[..];
    m := i;
    if g != [] {
      m := Choose(a, i, cursor, policy);
    }
    assert a[..] == s && a[m] == s[m];
    g' := DispatchAt(a, s0, g, i, m, cursor, policy);
  }

  /** The idle branch of the engine loop: the next waiting process `a[i]` has
      not arrived, so the chart idles up to its arrival and `a[i]` is retried. */
  method IdleUntil(a: array<Process>, ghost s0: seq<Process>, g: seq<Entry>, i: int, cursor: int,
                   ghost policy: BatchPolicy)
    returns (g': seq<Entry>)
    requires Progress(s0, a[..], g, i) && g != [] && i < a.Length && a[i].arrive > cursor == EndTime(g)
    requires Fair(a[..], g, i, policy)
    ensures g' == g + [Entry(Idle, cursor, a[i].arrive)]
    ensures Progress(s0, a[..], g', i) && Fair(a[..], g', i, policy) && EndTime(g') == a[i].arrive
  {
    IdleKeepsProgress(s0, a[..], g, i);
    IdleKeepsFair(a[..], g, i, policy);
    g' := g + [Entry(Idle, cursor, a[i].arrive)];
  }

  /** The first chart entry: IDLE up to the first arrival when that is not 0,
      otherwise the first process from 0 for its whole burst. */
  function FirstEntry(p: Process): Entry {
    if p.arrive != 0 then Entry(Idle, 0, p.arrive) else RunEntry(p, 0)
  }

  /** The invariant of the engine loop before process `i` is settled: the
      processes before `i` are dispatched fairly, the chart ends at `cursor`,
      and the first entry is the one the source writes before the loop. */
  ghost predicate Engine(s0: seq<Process>, s: seq<Process>, g: seq<Entry>, i: int, cursor: int,
                         policy: BatchPolicy) {
    && |s0| >= 1 && |s| >= 1
    && Progress(s0, s, g, i) && Fair(s, g, i, policy)
    && (g == [] ==> BestWaiting(s, 0, 0, 0, policy, false) && s[0] == s0[0])
    && (g != [] ==> g[0] == FirstEntry(s0[0]))
    && cursor == EndTime(g)
    && (policy.FirstCome? ==> Descriptors(s) == Descriptors(s0))
  }

  /** One pass of the engine loop: when the chart is empty or `a[i]` has
      arrived, the process `a[m]` the policy prefers is dispatched and its entry
      appended; otherwise the CPU idles until `a[i]` arrives, and it is
      dispatched on the next pass. */
  method Advance(a: array<Process>, ghost s0: seq<Process>, g: seq<Entry>, i: int, cursor: int,
                 policy: BatchPolicy)
    returns (m: int, g': seq<Entry>, i': int, cursor': int)
    requires i < a.Length && Engine(s0, a[..], g, i, cursor, policy)
    modifies a
    ensures Engine(s0, a[..], g', i', cursor', policy)
    ensures i' == i + 1 <==> g == [] || old(a[i]).arrive <= cursor
    ensures i' == i + 1 ==>
      && i <= m < a.Length && (g == [] ==> m == i)
      && (g != [] ==> Preferred(old(a[..]), i, m, cursor, policy))
      && a[..] == DispatchStep(old(a[..]), i, m, cursor)
      && g' == g + [RunEntry(old(a[..])[m], cursor)] && cursor' == EndTime(g')
    ensures i' == i + 1 || (i' == i && a[..] == old(a[..]) && cursor < a[i].arrive == cursor')
    ensures i' == i ==> g' == g + [Entry(Idle, cursor, a[i].arrive)]
  {
    m := i;
    if g == [] || a[i].arrive <= cursor {
      m, g' := DispatchNext(a, s0, g, i, cursor, policy);
      assert g'[0] == FirstEntry(s0[0]) by {
        if g != [] { assert g'[0] == g[0]; }
      }
      cursor' := EndTime(g');
      i' := i + 1;
    } else {
      g' := IdleUntil(a, s0, g, i, cursor, policy);
      assert g'[0] == g[0];
      cursor' := a[i].arrive;
      i' := i;
    }
  }

  /** The engine loop. `cursor` is the finish time of the last entry (`gcurr->finish_time`). */
  method RunBatch(a: array<Process>, policy: BatchPolicy) returns (g: seq<Entry>)
    requires a.Length >= 1 && Admissible(a[..]) && Ordered(a[..], PolicyTie(policy))
    modifies a
    ensures BatchSchedule(old(a[..]), a[..], g, policy)
    ensures policy.FirstCome? ==> Descriptors(a[..]) == Descriptors(old(a[..]))
    ensures g[0] == FirstEntry(old(a[0]))
  {
    ghost var s0 := a[..];
    var n := a.Length;
    g := [];
    var cursor := 0;
    if a[0].arrive != 0 {
      g := [Entry(Idle, 0, a[0].arrive)];
      cursor := a[0].arrive;
    }
    BatchStarts(s0, policy);
    if a[0].arrive == 0 {
      FirstDispatchBest(s0, policy);
    }
    var i := 0;
    while i < n
      invariant a.Length == n && Engine(s0, a[..], g, i, cursor, policy)
      decreases n - i, if i < n && a[i].arrive > cursor then 1 else 0
    {
      var m;
      m, g, i, cursor := Advance(a, s0, g, i, cursor, policy);
    }
  }
}
