/** Small concrete runs that the whole-run contracts tell apart: each lemma
    names a chart that a different policy, or a needless IDLE entry, would
    produce and shows the contract rejects it. Process fields are
    `Process(pid, arrive, burst, priority, initialBurst, wait, turnaround)`. */
module Scenarios {
  import opened Processes
  import opened Timeline
  import opened Batch
  import opened Ticks

  /** FCFS on P0 (arrives 0, burst 5) and P1 (arrives 1, burst 3) runs P1 at 5:
      a chart that idles from 5 to 7 first is not a batch schedule. */
  lemma NeedlessIdleRejected()
    ensures !BatchSchedule(
      [Process(0, 0, 5, 0, 5, 0, 0), Process(1, 1, 3, 0, 3, 0, 0)],
      [Process(0, 0, 5, 0, 5, 0, 5), Process(1, 1, 3, 0, 3, 6, 9)],
      [Entry(Pid(0), 0, 5), Entry(Idle, 5, 7), Entry(Pid(1), 7, 10)], FirstCome)
  {
    var s0 := [Process(0, 0, 5, 0, 5, 0, 0), Process(1, 1, 3, 0, 3, 0, 0)];
    var s := [Process(0, 0, 5, 0, 5, 0, 5), Process(1, 1, 3, 0, 3, 6, 9)];
    var g := [Entry(Pid(0), 0, 5), Entry(Idle, 5, 7), Entry(Pid(1), 7, 10)];
    if BatchSchedule(s0, s, g, FirstCome) {
      assert g[..1] == [Entry(Pid(0), 0, 5)];
      assert Busy(g[..1]) == [Entry(Pid(0), 0, 5)];
      IdleEndsAtArrival(s0, s, g, FirstCome, 1);
    }
  }

  /** P0 (arrives 0, burst 2), P1 (arrives 1, burst 5), P2 (arrives 1, burst 1):
      the longest-first order P0, P1, P2 is not a shortest-job-first schedule,
      because P2 had arrived with a shorter burst when P1 started. */
  lemma LongestFirstNotShortestFirst()
    ensures !BatchSchedule(
      [Process(0, 0, 2, 0, 2, 0, 0), Process(1, 1, 5, 0, 5, 0, 0), Process(2, 1, 1, 0, 1, 0, 0)],
      [Process(0, 0, 2, 0, 2, 0, 2), Process(1, 1, 5, 0, 5, 1, 6), Process(2, 1, 1, 0, 1, 6, 7)],
      [Entry(Pid(0), 0, 2), Entry(Pid(1), 2, 7), Entry(Pid(2), 7, 8)], Ranked(ShortestBurst))
  {
    var s0 := [Process(0, 0, 2, 0, 2, 0, 0), Process(1, 1, 5, 0, 5, 0, 0), Process(2, 1, 1, 0, 1, 0, 0)];
    var s := [Process(0, 0, 2, 0, 2, 0, 2), Process(1, 1, 5, 0, 5, 1, 6), Process(2, 1, 1, 0, 1, 6, 7)];
    var g := [Entry(Pid(0), 0, 2), Entry(Pid(1), 2, 7), Entry(Pid(2), 7, 8)];
    assert Busy(g) == g by {
      assert g[..2] == [g[0], g[1]] && g[..1] == [g[0]];
    }
    assert !ChoseOver(s, g, 3, 1, 2, Ranked(ShortestBurst));
  }

  /** With ratios NaN (burst 0, just arrived) and 1 at time 3, the HRRN scan
      from -1 passes over the NaN record: stopping at it is not the choice. */
  lemma NaNRatioPassedOver()
    ensures !Preferred([Process(0, 3, 0, 0, 0, 0, 0), Process(1, 3, 4, 0, 4, 0, 0)], 0, 0, 3, HighestResponseRatio)
  {
    var s := [Process(0, 3, 0, 0, 0, 0, 0), Process(1, 3, 4, 0, 4, 0, 0)];
    assert ResponseRatio(s[0], 3).NaN? && !ResponseRatio(s[1], 3).NaN?;
  }

  /** HRRN on P0 (arrives 0, burst 2), P1 (arrives 1, burst 3) and P2
      (arrives 2, burst 0): at time 2 the scan passes over P2's NaN ratio and
      runs P1, so a chart running P2 from 2 to 2 before P1 is not an HRRN
      schedule. */
  lemma NaNRatioNotAhead()
    ensures !BatchSchedule(
      [Process(0, 0, 2, 0, 2, 0, 0), Process(1, 1, 3, 0, 3, 0, 0), Process(2, 2, 0, 0, 0, 0, 0)],
      [Process(0, 0, 2, 0, 2, 0, 2), Process(2, 2, 0, 0, 0, 0, 0), Process(1, 1, 3, 0, 3, 1, 4)],
      [Entry(Pid(0), 0, 2), Entry(Pid(2), 2, 2), Entry(Pid(1), 2, 5)], HighestResponseRatio)
  {
    var s := [Process(0, 0, 2, 0, 2, 0, 2), Process(2, 2, 0, 0, 0, 0, 0), Process(1, 1, 3, 0, 3, 1, 4)];
    var g := [Entry(Pid(0), 0, 2), Entry(Pid(2), 2, 2), Entry(Pid(1), 2, 5)];
    assert Busy(g) == g by {
      assert g[..2] == [g[0], g[1]] && g[..1] == [g[0]];
    }
    assert ResponseRatio(s[1], 2).NaN? && !ResponseRatio(s[2], 2).NaN?;
    assert !ChoseOver(s, g, 3, 1, 2, HighestResponseRatio);
  }

  /** HRRN on P0 (arrives 0, burst 0) and P1 (arrives 0, burst 3): the first
      step runs P0 without a scan, although the scan would pass over its NaN
      ratio and pick P1. The first dispatch is best up to the NaN rule only. */
  lemma FirstStepWithoutScan()
    ensures BestWaiting([Process(0, 0, 0, 0, 0, 0, 0), Process(1, 0, 3, 0, 3, 0, 0)], 0, 0, 0,
                        HighestResponseRatio, false)
    ensures !Preferred([Process(0, 0, 0, 0, 0, 0, 0), Process(1, 0, 3, 0, 3, 0, 0)], 0, 0, 0,
                       HighestResponseRatio)
  {
    var s := [Process(0, 0, 0, 0, 0, 0, 0), Process(1, 0, 3, 0, 3, 0, 0)];
    assert ResponseRatio(s[0], 0).NaN? && !ResponseRatio(s[1], 0).NaN?;
  }

  /** P0 (burst 1) and P1 (burst 2), both arriving at 0: the first unit goes
      to P0 under SRTF and to P1 under LRTF. */
  lemma RankDecidesFirstTick()
    ensures Simulate([Process(0, 0, 1, 0, 1, 0, 0), Process(1, 0, 2, 0, 2, 0, 0)], ShortestBurst, 1).1
         == [Entry(Pid(0), 0, 1)]
    ensures Simulate([Process(0, 0, 1, 0, 1, 0, 0), Process(1, 0, 2, 0, 2, 0, 0)], LongestBurst, 1).1
         == [Entry(Pid(1), 0, 1)]
  {
    var s0 := [Process(0, 0, 1, 0, 1, 0, 0), Process(1, 0, 2, 0, 2, 0, 0)];
    assert s0[..1] == [s0[0]] && s0[..1][..0] == [];
    assert PickOf(s0, ShortestBurst, 0) == Some(0);
    assert PickOf(s0, LongestBurst, 0) == Some(1);
  }
}
