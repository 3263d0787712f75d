/** The Gantt chart: an ordered sequence of (owner, start, finish) entries.
    The linked list of the source becomes a sequence; the pid -1 of an idle
    slot becomes the `Idle` owner. */
module Timeline {

  datatype Owner = Idle | Pid(id: int)

  datatype Entry = Entry(owner: Owner, start: int, finish: int)

  /** Finish time of the last entry; a chart with no entries ends at time 0. */
  function EndTime(g: seq<Entry>): int {
    if g == [] then 0 else g[|g| - 1].finish
  }

  /** Entries chain from time 0 with no gap and no overlap, and none runs backwards. */
  ghost predicate Contiguous(g: seq<Entry>) {
    && (|g| > 0 ==> g[0].start == 0)
    && (forall k :: 0 <= k < |g| ==> g[k].start <= g[k].finish)
    && (forall k :: 0 < k < |g| ==> g[k - 1].finish == g[k].start)
  }

  /** Two neighbouring entries never have the same owner (IDLE included). */
  ghost predicate Coalesced(g: seq<Entry>) {
    forall k :: 0 < k < |g| ==> g[k - 1].owner != g[k].owner
  }

  /** Every entry covers at least one time unit. */
  ghost predicate Positive(g: seq<Entry>) {
    forall k :: 0 <= k < |g| ==> g[k].start < g[k].finish
  }

  /** The entries that run a process, in chart order. */
  function Busy(g: seq<Entry>): (r: seq<Entry>)
    ensures |r| <= |g|
    ensures forall k :: 0 <= k < |r| ==> !r[k].owner.Idle?
  {
    if g == [] then []
    else Busy(g[..|g| - 1]) + (if g[|g| - 1].owner.Idle? then [] else [g[|g| - 1]])
  }

  /** Total length of the entries owned by `o`. */
  function OwnedTime(g: seq<Entry>, o: Owner): int {
    if g == [] then 0
    else
      var e := g[|g| - 1];
      OwnedTime(g[..|g| - 1], o) + (if e.owner == o then e.finish - e.start else 0)
  }

  /** Total length of the entries that run some process. */
  function BusyTime(g: seq<Entry>): int {
    if g == [] then 0
    else
      var e := g[|g| - 1];
      BusyTime(g[..|g| - 1]) + (if e.owner.Idle? then 0 else e.finish - e.start)
  }

  /** Finish time of the last entry owned by `o` (0 when it owns none). */
  function Completion(g: seq<Entry>, o: Owner): int {
    if g == [] then 0
    else if g[|g| - 1].owner == o then g[|g| - 1].finish
    else Completion(g[..|g| - 1], o)
  }

  lemma BusyAppend(g: seq<Entry>, e: Entry)
    ensures Busy(g + [e]) == Busy(g) + (if e.owner.Idle? then [] else [e])
  {
    assert (g + [e])[..|g|] == g;
  }

  /** The busy entries of a prefix of the chart are a prefix of its busy entries. */
  lemma {:induction false} BusyPrefix(g: seq<Entry>, q: int)
    requires 0 <= q <= |g|
    ensures |Busy(g[..q])| <= |Busy(g)| && Busy(g[..q]) == Busy(g)[..|Busy(g[..q])|]
    decreases |g|
  {
    if q < |g| {
      var h := g[..|g| - 1];
      assert g[..q] == h[..q];
      BusyPrefix(h, q);
    } else {
      assert g[..q] == g;
    }
  }

  /** The busy entries up to and including `g[q]`. */
  lemma BusyStep(g: seq<Entry>, q: int)
    requires 0 <= q < |g|
    ensures Busy(g[..q + 1]) == Busy(g[..q]) + (if g[q].owner.Idle? then [] else [g[q]])
  {
    assert g[..q + 1] == g[..q] + [g[q]];
    BusyAppend(g[..q], g[q]);
  }

  /** In a coalesced chart that ends with a process, an IDLE entry is followed
      by a busy entry: the next one in the busy order. */
  lemma IdleThenBusy(g: seq<Entry>, q: int)
    requires Coalesced(g) && g != [] && !g[|g| - 1].owner.Idle?
    requires 0 <= q < |g| && g[q].owner.Idle?
    ensures q + 1 < |g| && |Busy(g[..q])| < |Busy(g)|
    ensures g[q + 1] == Busy(g)[|Busy(g[..q])|]
  {
    assert q + 1 < |g| && !g[q + 1].owner.Idle?;
    BusyStep(g, q);
    BusyStep(g, q + 1);
    BusyPrefix(g, q + 2);
  }

  /** When the last entry runs a process, it is the last busy entry. */
  lemma BusyLast(g: seq<Entry>)
    requires g != [] && !g[|g| - 1].owner.Idle?
    ensures Busy(g) != [] && Busy(g)[|Busy(g)| - 1] == g[|g| - 1]
  {
  }

  /** One unit tick `[t, t+1)` for owner `o`: the last entry is extended when it
      has the same owner, otherwise a new entry is appended. */
  function Record(g: seq<Entry>, o: Owner, t: int): (r: seq<Entry>)
    requires Contiguous(g) && EndTime(g) == t
    ensures Contiguous(r) && EndTime(r) == t + 1 && r != [] && r[|r| - 1].owner == o
    ensures Coalesced(g) ==> Coalesced(r)
    ensures Positive(g) ==> Positive(r)
    ensures |r| == |g| || r == g + [Entry(o, t, t + 1)]
  {
    if g != [] && g[|g| - 1].owner == o then
      var r := g[..|g| - 1] + [g[|g| - 1].(finish := t + 1)];
      assert r[..|r| - 1] == g[..|g| - 1];
      r
    else
      var r := g + [Entry(o, t, t + 1)];
      assert r[..|r| - 1] == g;
      r
  }

  /** The entries of `Record(g, o, t)` before its last one, and that last one. */
  lemma RecordSplit(g: seq<Entry>, o: Owner, t: int)
    requires Contiguous(g) && EndTime(g) == t
    ensures var r := Record(g, o, t);
      if g != [] && g[|g| - 1].owner == o
      then r[..|r| - 1] == g[..|g| - 1] && r[|r| - 1] == Entry(o, g[|g| - 1].start, t + 1)
      else r[..|r| - 1] == g && r[|r| - 1] == Entry(o, t, t + 1)
  {
    var r := Record(g, o, t);
    if g != [] && g[|g| - 1].owner == o {
      assert r[..|r| - 1] == g[..|g| - 1];
    } else {
      assert r[..|r| - 1] == g;
    }
  }

  /** One unit tick gives `o` one more unit and no other owner any. */
  lemma RecordOwnedTime(g: seq<Entry>, o: Owner, t: int)
    requires Contiguous(g) && EndTime(g) == t
    ensures forall o' :: OwnedTime(Record(g, o, t), o') == OwnedTime(g, o') + (if o' == o then 1 else 0)
  {
    RecordSplit(g, o, t);
  }

  /** One unit tick makes `t+1` the last finish of `o` and leaves the others'. */
  lemma RecordCompletion(g: seq<Entry>, o: Owner, t: int)
    requires Contiguous(g) && EndTime(g) == t
    ensures forall o' :: o' != o ==> Completion(Record(g, o, t), o') == Completion(g, o')
    ensures Completion(Record(g, o, t), o) == t + 1
  {
    RecordSplit(g, o, t);
  }

  /** One unit tick adds a busy unit unless `o` is IDLE. */
  lemma RecordBusyTime(g: seq<Entry>, o: Owner, t: int)
    requires Contiguous(g) && EndTime(g) == t
    ensures BusyTime(Record(g, o, t)) == BusyTime(g) + (if o.Idle? then 0 else 1)
  {
    RecordSplit(g, o, t);
  }

  /** What one unit tick adds up to: one more unit for `o` and none for any
      other owner, the same last entry for every other owner, and one more busy
      unit unless `o` is IDLE. */
  lemma RecordAccounts(g: seq<Entry>, o: Owner, t: int)
    requires Contiguous(g) && EndTime(g) == t
    ensures forall o' :: OwnedTime(Record(g, o, t), o') == OwnedTime(g, o') + (if o' == o then 1 else 0)
    ensures forall o' :: o' != o ==> Completion(Record(g, o, t), o') == Completion(g, o')
    ensures Completion(Record(g, o, t), o) == t + 1
    ensures BusyTime(Record(g, o, t)) == BusyTime(g) + (if o.Idle? then 0 else 1)
  {
    RecordOwnedTime(g, o, t);
    RecordCompletion(g, o, t);
    RecordBusyTime(g, o, t);
  }
}
