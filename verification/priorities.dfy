// Priorities and per-core segments of the sorted pointer array.
module Priorities {
  import opened Sequences
  import opened TaskSet
  import opened Wrappers

  const TOP_PRIORITY: nat := 50

  // The cores of the first n pointers, in pointer order.
  function CoresOf(subs: seq<Subtask>, order: seq<nat>): (cs: seq<nat>)
    requires forall i :: 0 <= i < |order| ==> order[i] < |subs|
    ensures |cs| == |order|
  {
    seq(|order|, i requires 0 <= i < |order| => subs[order[i]].core)
  }

  predicate NonDecreasing(cs: seq<nat>) {
    forall i, j :: 0 <= i < j < |cs| ==> cs[i] <= cs[j]
  }

  // Where the run of equal cores around position i begins.
  function RunStart(cs: seq<nat>, i: nat): (r: nat)
    requires i < |cs|
    ensures r <= i && cs[r] == cs[i] && (r == 0 || cs[r - 1] != cs[i])
    ensures forall k :: r <= k <= i ==> cs[k] == cs[i]
  {
    if i == 0 || cs[i] != cs[i - 1] then i else RunStart(cs, i - 1)
  }

  // Where the walk that starts at position i stops: at a core change or at the end.
  function RunEnd(cs: seq<nat>, i: nat): (r: nat)
    requires i < |cs|
    ensures i < r <= |cs| && (r == |cs| || cs[r] != cs[i])
    ensures forall k :: i <= k < r ==> cs[k] == cs[i]
    decreases |cs| - i
  {
    if i + 1 == |cs| || cs[i + 1] != cs[i] then i + 1 else RunEnd(cs, i + 1)
  }

  // The 32-bit countdown from the top priority along a run.
  function PriorityAt(cs: seq<nat>, i: nat): nat
    requires i < |cs|
  {
    (TOP_PRIORITY - (i - RunStart(cs, i))) % 0x1_0000_0000
  }

  // The first position of core c, or the sentinel's when the core is unused.
  function FirstOf(cs: seq<nat>, c: nat): (r: nat)
    ensures r <= |cs| && (r < |cs| ==> cs[r] == c)
    ensures forall k :: 0 <= k < r ==> cs[k] != c
  {
    if cs == [] || cs[0] == c then 0 else 1 + FirstOf(cs[1..], c)
  }

  // The table after the first k pointers' subtasks have their priorities.
  predicate PrioritiesWritten(before: seq<Subtask>, after: seq<Subtask>, order: seq<nat>, k: nat)
    requires k <= |order| && forall i :: 0 <= i < |order| ==> order[i] < |before|
  {
    && |after| == |before|
    && (forall i :: 0 <= i < k ==>
          after[order[i]] == before[order[i]].(priority := PriorityAt(CoresOf(before, order), i)))
    && (forall p :: 0 <= p < |before| && p !in order[..k] ==> after[p] == before[p])
  }

  lemma PriorityNext(before: seq<Subtask>, now: seq<Subtask>, order: seq<nat>, k: nat)
    requires k < |order| && Distinct(order) && forall i :: 0 <= i < |order| ==> order[i] < |before|
    requires PrioritiesWritten(before, now, order, k)
    ensures now[order[k]] == before[order[k]]
    ensures PrioritiesWritten(before,
              now[order[k] := before[order[k]].(priority := PriorityAt(CoresOf(before, order), k))], order, k + 1)
  {
    hide PriorityAt, CoresOf;
    assert order[..k + 1] == order[..k] + [order[k]];
  }

  lemma PrioritiesSoFar(before: seq<Subtask>, now: seq<Subtask>, order: seq<nat>, k: nat)
    requires 0 < k <= |order| && forall i :: 0 <= i < |order| ==> order[i] < |before|
    requires PrioritiesWritten(before, now, order, k)
    ensures var last := now[order[k - 1]];
            last.core == CoresOf(before, order)[k - 1]
            && last.priority == PriorityAt(CoresOf(before, order), k - 1)
  {
    hide PriorityAt;
  }

  // The offset of a position in its run.
  function Rank(cs: seq<nat>, i: nat): nat
    requires i < |cs|
  {
    i - RunStart(cs, i)
  }

  // The countdown from 50, which goes on from the largest 32-bit value after zero.
  function CountdownFrom(rank: nat): int {
    if rank <= TOP_PRIORITY then TOP_PRIORITY - rank else 0x1_0000_0000 + TOP_PRIORITY - rank
  }

  lemma PriorityValue(cs: seq<nat>, i: nat)
    requires i < |cs| < 0x1_0000_0000
    ensures PriorityAt(cs, i) == CountdownFrom(Rank(cs, i))
  {
  }

  lemma CountDown(cs: seq<nat>, i: nat)
    requires i < |cs| < 0x1_0000_0000
    ensures i > 0 && cs[i] == cs[i - 1] ==> PriorityAt(cs, i) == (PriorityAt(cs, i - 1) - 1) % 0x1_0000_0000
    ensures i == 0 || cs[i] != cs[i - 1] ==> PriorityAt(cs, i) == TOP_PRIORITY
  {
  }

  // In sorted order position i opens its core's run exactly when it is that core's first.
  lemma FirstOfRun(cs: seq<nat>, i: nat)
    requires NonDecreasing(cs) && i < |cs|
    ensures i == 0 || cs[i] != cs[i - 1] <==> FirstOf(cs, cs[i]) == i
    ensures forall c :: FirstOf(cs, c) == i ==> c == cs[i]
  {
  }

  // The start addresses after the first k positions: null where the core has not shown up.
  predicate StartsSoFar(cs: seq<nat>, starts: seq<Option<nat>>, k: nat) {
    forall c :: 0 <= c < |starts| ==>
      starts[c] == (if FirstOf(cs, c) < k then Some(FirstOf(cs, c)) else None)
  }

  // The priority loop, and the loop that points unused cores at the sentinel.
  method AssignPriorities(subs: array<Subtask>, order: seq<nat>, cores: nat) returns (startAddr: array<Option<nat>>)
    requires |order| < 0x1_0000_0000 && Distinct(order)
    requires forall i :: 0 <= i < |order| ==> order[i] < subs.Length && subs[order[i]].core < cores
    requires NonDecreasing(CoresOf(subs[..], order))
    modifies subs
    ensures PrioritiesWritten(old(subs[..]), subs[..], order, |order|)
    ensures startAddr.Length == cores && fresh(startAddr)
    ensures forall c :: 0 <= c < cores ==> startAddr[c] == Some(FirstOf(CoresOf(old(subs[..]), order), c))
  {
    hide PriorityAt, PrioritiesWritten, FirstOf, NonDecreasing;
    ghost var before := subs[..];
    ghost var cs := CoresOf(before, order);
    startAddr := new Option<nat>[cores](_ => None);
    NothingWritten(before, order);
    for i := 0 to |order|
      invariant fresh(startAddr) && startAddr.Length == cores && subs.Length == |before|
      invariant PrioritiesWritten(before, subs[..], order, i)
      invariant StartsSoFar(cs, startAddr[..], i)
    {
      PriorityNext(before, subs[..], order, i);
      CountDown(cs, i);
      FirstOfRun(cs, i);
      var p := order[i];
      if i > 0 {
        PrioritiesSoFar(before, subs[..], order, i);
      }
      if i == 0 || subs[p].core != subs[order[i - 1]].core {
        subs[p] := subs[p].(priority := TOP_PRIORITY);
        startAddr[subs[p].core] := Some(i);
      } else {
        subs[p] := subs[p].(priority := (subs[order[i - 1]].priority - 1) % 0x1_0000_0000);
      }
    }
    for c := 0 to cores
      invariant fresh(startAddr) && startAddr.Length == cores
      invariant PrioritiesWritten(before, subs[..], order, |order|)
      invariant forall b :: 0 <= b < c ==> startAddr[b] == Some(FirstOf(cs, b))
      invariant forall b :: c <= b < cores ==>
                  startAddr[b] == (if FirstOf(cs, b) < |cs| then Some(FirstOf(cs, b)) else None)
    {
      if startAddr[c] == None {
        startAddr[c] := Some(|order|);
      }
    }
  }

  lemma NothingWritten(before: seq<Subtask>, order: seq<nat>)
    requires forall i :: 0 <= i < |order| ==> order[i] < |before|
    ensures PrioritiesWritten(before, before, order, 0)
  {
  }

  // ---------- What the segments mean ----------

  // Position i is visited by the walk of core c.
  predicate Visits(cs: seq<nat>, c: nat, i: nat) {
    var start := FirstOf(cs, c);
    start < |cs| && start <= i < RunEnd(cs, start)
  }

  // The walks of all cores together visit every subtask exactly once, on its own core;
  // an unused core visits none.
  lemma WalksCoverOnce(cs: seq<nat>, c: nat, i: nat)
    requires NonDecreasing(cs) && i < |cs|
    ensures Visits(cs, c, i) <==> c == cs[i]
  {
    var start := FirstOf(cs, c);
    if start < |cs| {
      var end := RunEnd(cs, start);
      assert end < |cs| ==> cs[end] > c;
    }
  }

  lemma SameRun(cs: seq<nat>, r: nat, k: nat)
    requires r <= k < |cs| && (r == 0 || cs[r - 1] != cs[r])
    requires forall j :: r <= j <= k ==> cs[j] == cs[r]
    ensures RunStart(cs, k) == r
  {
  }

  // The priority of any position of the run around i.
  lemma PriorityInRun(cs: seq<nat>, i: nat, k: nat)
    requires i < |cs| < 0x1_0000_0000 && RunStart(cs, i) <= k <= i
    ensures PriorityAt(cs, k) == CountdownFrom(k - RunStart(cs, i))
  {
    hide PriorityAt;
    SameRun(cs, RunStart(cs, i), k);
    PriorityValue(cs, k);
  }

  lemma PriorityAlongWalk(cs: seq<nat>, start: nat, k: nat)
    requires start < |cs| < 0x1_0000_0000 && FirstOf(cs, cs[start]) == start && start <= k < RunEnd(cs, start)
    ensures PriorityAt(cs, k) == CountdownFrom(k - start)
  {
    hide PriorityAt, CountdownFrom;
    assert start > 0 ==> cs[start - 1] != cs[start];
    SameRun(cs, start, k);
    PriorityInRun(cs, k, k);
  }

  // On one core the countdown is strict exactly while it does not pass zero.
  lemma PrioritiesStrict(cs: seq<nat>, i: nat)
    requires i < |cs| < 0x1_0000_0000
    ensures (forall k :: RunStart(cs, i) <= k < i ==> PriorityAt(cs, k) > PriorityAt(cs, i))
            <==> Rank(cs, i) <= TOP_PRIORITY
  {
    hide PriorityAt, RunStart;
    PriorityInRun(cs, i, i);
    PriorityInRun(cs, i, RunStart(cs, i));
    if Rank(cs, i) <= TOP_PRIORITY {
      forall k | RunStart(cs, i) <= k < i
        ensures PriorityAt(cs, k) > PriorityAt(cs, i)
      {
        PriorityInRun(cs, i, k);
      }
    }
  }

  // A core of 52 subtasks: the last one's priority has wrapped above all the others.
  lemma CountdownWraps(c: nat)
    ensures var cs := seq(52, _ => c);
            PriorityAt(cs, 0) == 50 && PriorityAt(cs, 50) == 0 && PriorityAt(cs, 51) == 0xFFFF_FFFF
  {
    hide PriorityAt, RunStart;
    var cs := seq(52, _ => c);
    OneRun(cs, c);
    PriorityInRun(cs, 51, 0);
    PriorityInRun(cs, 51, 50);
    PriorityInRun(cs, 51, 51);
  }

  lemma OneRun(cs: seq<nat>, c: nat)
    requires |cs| == 52 && forall i :: 0 <= i < 52 ==> cs[i] == c
    ensures RunStart(cs, 51) == 0
  {
    SameRun(cs, 0, 51);
  }

  // Priorities on one core never repeat.
  lemma PrioritiesDistinct(cs: seq<nat>, i: nat, k: nat)
    requires NonDecreasing(cs) && i < k < |cs| < 0x1_0000_0000 && cs[i] == cs[k]
    ensures PriorityAt(cs, i) != PriorityAt(cs, k)
  {
    hide PriorityAt;
    SameRun(cs, RunStart(cs, i), k);
    PriorityValue(cs, i);
    PriorityValue(cs, k);
  }
}
