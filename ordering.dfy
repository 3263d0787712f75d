/** The sort prologue every `getGantt*` routine runs before simulating:
    an exchange sort on arrival time with a per-policy secondary key. */
module Ordering {
  import opened Processes

  /** Exchanges two records of the process array. */
  method Exchange(a: array<Process>, i: int, j: int)
    requires 0 <= i < j < a.Length
    modifies a
    ensures a[..] == old(a[..])[i := old(a[j])][j := old(a[i])]
    ensures multiset(a[..]) == multiset(old(a[..]))
    ensures DistinctPids(old(a[..])) ==> DistinctPids(a[..])
  {
    a[i], a[j] := a[j], a[i];
    ghost var s := old(a[..]);
    if DistinctPids(s) {
      forall x, y | 0 <= x < y < a.Length
        ensures a[x].pid != a[y].pid
      {
        var x' := if x == i then j else if x == j then i else x;
        var y' := if y == i then j else if y == j then i else y;
        assert a[x] == s[x'] && a[y] == s[y'];
        assert x' != y';
        if x' > y' { assert s[y'].pid != s[x'].pid; }
      }
    }
  }

  /** Every record at or after `i` may stand after every record before `i`. */
  ghost predicate Split(s: seq<Process>, i: int, tie: TieBreak) {
    forall x, y :: 0 <= x < i <= y < |s| ==> !Precedes(tie, s[y], s[x])
  }

  /** Exchanging two records at or after `i` keeps the split at `i`. */
  lemma ExchangeKeepsSplit(s: seq<Process>, i: int, x: int, y: int, tie: TieBreak)
    requires Split(s, i, tie) && 0 <= i <= x < y < |s|
    ensures Split(s[x := s[y]][y := s[x]], i, tie)
  {
    var t := s[x := s[y]][y := s[x]];
    forall u, v | 0 <= u < i <= v < |t|
      ensures !Precedes(tie, t[v], t[u])
    {
      var v' := if v == x then y else if v == y then x else v;
      assert t[u] == s[u] && t[v] == s[v'];
    }
  }

  /** `Precedes` is transitive: it compares arrival first, then an integer key. */
  lemma PrecedesTransitive(tie: TieBreak, p: Process, q: Process, r: Process)
    requires Precedes(tie, p, q) && Precedes(tie, q, r)
    ensures Precedes(tie, p, r)
  {
  }

  /** After `a[j]` and `a[i]` are exchanged because `a[j]` precedes `a[i]`, the
      new `a[i]` still has no record in `a[i+1..j]` preceding it. */
  lemma ExchangeKeepsFront(s: seq<Process>, i: int, j: int, tie: TieBreak)
    requires 0 <= i < j < |s| && Precedes(tie, s[j], s[i])
    requires forall y :: i < y < j ==> !Precedes(tie, s[y], s[i])
    ensures var t := s[i := s[j]][j := s[i]];
      forall y :: i < y <= j ==> !Precedes(tie, t[y], t[i])
  {
    var t := s[i := s[j]][j := s[i]];
    forall y | i < y <= j
      ensures !Precedes(tie, t[y], t[i])
    {
      if Precedes(tie, t[y], t[i]) { PrecedesTransitive(tie, t[y], t[i], s[i]); }
    }
  }

  /** The inner loop of the sort: compares `a[i]` with every later `a[j]` and
      exchanges the two whenever `a[j]` has the earlier arrival, or the same
      arrival and the better tie key (the source tests the two cases one after
      the other). Afterwards no later record precedes `a[i]`. */
  method SettleFront(a: array<Process>, i: int, tie: TieBreak)
    requires 0 <= i < a.Length && Split(a[..], i, tie)
    modifies a
    ensures a[..i] == old(a[..i])
    ensures forall y :: i < y < a.Length ==> !Precedes(tie, a[y], a[i])
    ensures Split(a[..], i, tie)
    ensures multiset(a[..]) == multiset(old(a[..]))
    ensures DistinctPids(old(a[..])) ==> DistinctPids(a[..])
  {
    var j := i + 1;
    while j < a.Length
      invariant i + 1 <= j <= a.Length
      invariant a[..i] == old(a[..i])
      invariant forall y :: i < y < j ==> !Precedes(tie, a[y], a[i])
      invariant Split(a[..], i, tie)
      invariant multiset(a[..]) == multiset(old(a[..]))
      invariant DistinctPids(old(a[..])) ==> DistinctPids(a[..])
    {
      if Precedes(tie, a[j], a[i]) {
        ExchangeKeepsSplit(a[..], i, i, j, tie);
        ExchangeKeepsFront(a[..], i, j, tie);
        Exchange(a, i, j);
      }
      j := j + 1;
    }
  }

  /** The whole prologue. The result is ordered and a permutation; it is not
      stable, so records equal on the whole key may change places. */
  method SortByArrival(a: array<Process>, tie: TieBreak)
    modifies a
    ensures Ordered(a[..], tie)
    ensures multiset(a[..]) == multiset(old(a[..]))
    ensures DistinctPids(old(a[..])) ==> DistinctPids(a[..])
  {
    var i := 0;
    while i < a.Length - 1
      invariant 0 <= i <= a.Length
      invariant multiset(a[..]) == multiset(old(a[..]))
      invariant DistinctPids(old(a[..])) ==> DistinctPids(a[..])
      invariant forall x, y :: 0 <= x < y < i ==> !Precedes(tie, a[y], a[x])
      invariant Split(a[..], i, tie)
    {
      ghost var before := a[..];
      SettleFront(a, i, tie);
      assert forall x :: 0 <= x < i ==> a[x] == before[x];
      i := i + 1;
    }
    assert forall x, y :: 0 <= x < y < a.Length ==> !Precedes(tie, a[y], a[x]);
  }
}
