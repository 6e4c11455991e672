// Calibration mode: loop-count search, the per-core walk, and the initialisation that prepares it.
module Calibration {
  import opened Words
  import opened Sequences
  import opened TaskSet
  import opened Priorities

  const MAX_COUNT: uint32 := 100_000_000
  const NSEC_PER_MSEC := 1_000_000

  // The clock: the duration of the k-th probe of subtask p with a given loop count.
  type Clock = (nat, nat, nat) -> int

  // ---------- The loop-count search ----------

  // The duration does not depend on when it is measured, and grows with the loop count.
  ghost predicate Monotone(duration: Clock, p: nat) {
    && (forall k: nat, count: nat :: duration(p, k, count) == duration(p, 0, count))
    && (forall a: nat, b: nat :: a <= b ==> duration(p, 0, a) <= duration(p, 0, b))
  }

  // Unless high is the maximum one of the first probes reached the target with it, and unless low is
  // zero one of them did not reach it with one less.
  ghost predicate Crosses(duration: Clock, p: nat, target: int, probes: nat, low: nat, high: nat) {
    && (high < MAX_COUNT ==> SomeReached(duration, p, target, probes, high))
    && (low > 0 ==> SomeMissed(duration, p, target, probes, low - 1))
  }

  ghost predicate SomeReached(duration: Clock, p: nat, target: int, probes: nat, count: nat) {
    exists k: nat :: k < probes && duration(p, k, count) >= target
  }

  ghost predicate SomeMissed(duration: Clock, p: nat, target: int, probes: nat, count: nat) {
    exists k: nat :: k < probes && duration(p, k, count) < target
  }

  lemma ProbeNarrows(duration: Clock, p: nat, target: int, probes: nat, low: nat, high: nat, mid: nat)
    requires Crosses(duration, p, target, probes, low, high)
    ensures if duration(p, probes, mid) >= target then Crosses(duration, p, target, probes + 1, low, mid)
            else Crosses(duration, p, target, probes + 1, mid + 1, high)
  {
    assert SomeReached(duration, p, target, probes, high) ==> SomeReached(duration, p, target, probes + 1, high);
    assert low > 0 && SomeMissed(duration, p, target, probes, low - 1)
           ==> SomeMissed(duration, p, target, probes + 1, low - 1);
  }

  // The least count that reaches the target, or the maximum when none below it does, lies between low
  // and high.
  ghost predicate LeastBetween(duration: Clock, p: nat, target: int, low: nat, high: nat) {
    && (high < MAX_COUNT ==> duration(p, 0, high) >= target)
    && (forall k: nat :: k < low ==> duration(p, 0, k) < target)
  }

  lemma LeastNarrows(duration: Clock, p: nat, target: int, probes: nat, low: nat, high: nat, mid: nat)
    requires Monotone(duration, p) ==> LeastBetween(duration, p, target, low, high)
    ensures Monotone(duration, p) ==>
              if duration(p, probes, mid) >= target then LeastBetween(duration, p, target, low, mid)
              else LeastBetween(duration, p, target, mid + 1, high)
  {
  }

  // What the search promises for any clock, and for a monotone one.
  ghost predicate GoodCount(duration: Clock, p: nat, target: int, count: nat) {
    && count <= MAX_COUNT && Crosses(duration, p, target, 27, count, count)
    && (Monotone(duration, p) ==> LeastBetween(duration, p, target, count, count))
  }

  function Target(s: Subtask): int {
    s.exeTime * NSEC_PER_MSEC
  }

  lemma TwentySevenHalvings()
    ensures ShiftRight(MAX_COUNT, 27) == 0
  {
    Pow2Values();
    assert Pow2(31) == 16 * Pow2(27);
    ShiftIsQuotient(MAX_COUNT, 27);
  }

  // The binary search, which leaves its probes in the loop count until it is done.
  method SearchLoopCount(subs: array<Subtask>, p: nat, duration: Clock) returns (probes: nat)
    requires p < subs.Length && subs[p].exeTime * NSEC_PER_MSEC < 0x1_0000_0000
    modifies subs
    ensures subs[..] == old(subs[..])[p := old(subs[p]).(loopCount := subs[p].loopCount)]
    ensures GoodCount(duration, p, Target(old(subs[p])), subs[p].loopCount)
    ensures probes <= 27
  {
    hide Crosses, LeastBetween, Monotone;
    var minCnt: uint32, maxCnt: uint32 := 0, MAX_COUNT;
    var target: uint32 := subs[p].exeTime * NSEC_PER_MSEC;
    probes := 0;
    TwentySevenHalvings();
    NoProbes(duration, p, target);
    NothingKnown(duration, p, target);
    while minCnt < maxCnt
      invariant subs[..] == old(subs[..])[p := old(subs[p]).(loopCount := subs[p].loopCount)]
      invariant minCnt <= maxCnt <= MAX_COUNT
      invariant probes <= 27 && maxCnt - minCnt <= ShiftRight(MAX_COUNT, probes)
      invariant Crosses(duration, p, target, probes, minCnt, maxCnt)
      invariant Monotone(duration, p) ==> LeastBetween(duration, p, target, minCnt, maxCnt)
    {
      var sum: uint32 := minCnt + maxCnt;
      var mid: uint32 := sum / 2;
      subs[p] := subs[p].(loopCount := mid);
      var elapsed := duration(p, probes, subs[p].loopCount);
      ProbeNarrows(duration, p, target, probes, minCnt, maxCnt, mid);
      LeastNarrows(duration, p, target, probes, minCnt, maxCnt, mid);
      if elapsed >= target {
        maxCnt := mid;
      } else {
        minCnt := mid + 1;
      }
      assert probes < 27;
      probes := probes + 1;
    }
    subs[p] := subs[p].(loopCount := maxCnt);
    MoreProbes(duration, p, target, probes, maxCnt);
  }

  lemma NoProbes(duration: Clock, p: nat, target: int)
    ensures Crosses(duration, p, target, 0, 0, MAX_COUNT)
  {
  }

  lemma NothingKnown(duration: Clock, p: nat, target: int)
    ensures LeastBetween(duration, p, target, 0, MAX_COUNT)
  {
  }

  lemma MoreProbes(duration: Clock, p: nat, target: int, probes: nat, count: nat)
    requires probes <= 27 && Crosses(duration, p, target, probes, count, count)
    ensures Crosses(duration, p, target, 27, count, count)
  {
    assert SomeReached(duration, p, target, probes, count) ==> SomeReached(duration, p, target, 27, count);
    assert count > 0 && SomeMissed(duration, p, target, probes, count - 1)
           ==> SomeMissed(duration, p, target, 27, count - 1);
  }

  // ---------- The walk of one core ----------

  // The table after the walk has passed the positions from start up to end.
  ghost predicate Calibrated(before: seq<Subtask>, after: seq<Subtask>, order: seq<nat>,
                             start: nat, end: nat, duration: Clock)
    requires start <= end <= |order| && forall i :: 0 <= i < |order| ==> order[i] < |before|
  {
    && |after| == |before|
    && (forall i :: start <= i < end ==> CalibratedAt(before, after, order[i], duration))
    && (forall p :: 0 <= p < |before| && p !in order[start..end] ==> after[p] == before[p])
  }

  ghost predicate CalibratedAt(before: seq<Subtask>, after: seq<Subtask>, p: nat, duration: Clock)
    requires p < |before| == |after|
  {
    && after[p] == before[p].(loopCount := after[p].loopCount)
    && GoodCount(duration, p, Target(before[p]), after[p].loopCount)
  }

  lemma CalibratedNext(before: seq<Subtask>, now: seq<Subtask>, after: seq<Subtask>, order: seq<nat>,
                       start: nat, end: nat, duration: Clock)
    requires start <= end < |order| && Distinct(order) && forall i :: 0 <= i < |order| ==> order[i] < |before|
    requires Calibrated(before, now, order, start, end, duration)
    requires |after| == |before| && after == now[order[end] := after[order[end]]]
    requires CalibratedAt(now, after, order[end], duration)
    ensures Calibrated(before, after, order, start, end + 1, duration)
  {
    hide GoodCount;
    assert order[start..end + 1] == order[start..end] + [order[end]];
    assert order[end] !in order[start..end];
  }

  // A walk leaves the cores and execution times alone.
  lemma CalibratedKeeps(before: seq<Subtask>, now: seq<Subtask>, order: seq<nat>,
                        start: nat, end: nat, duration: Clock, p: nat)
    requires start <= end <= |order| && forall i :: 0 <= i < |order| ==> order[i] < |before|
    requires Calibrated(before, now, order, start, end, duration) && p < |before|
    ensures |now| == |before| && now[p].core == before[p].core && now[p].exeTime == before[p].exeTime
  {
    hide GoodCount;
    if p in order[start..end] {
      var i :| start <= i < end && order[i] == p;
    }
  }

  lemma SentinelStops(cs: seq<nat>, start: nat)
    requires start < |cs| && cs[start] != cs[|cs| - 1]
    ensures RunEnd(cs, start) < |cs|
  {
  }

  lemma RunHasOneCore(subs: seq<Subtask>, ptr: seq<nat>, start: nat)
    requires start < |ptr| && forall i :: 0 <= i < |ptr| ==> ptr[i] < |subs|
    ensures forall k :: start <= k < RunEnd(CoresOf(subs, ptr), start) ==> subs[ptr[k]].core == subs[ptr[start]].core
  {
    var cs := CoresOf(subs, ptr);
    forall k | start <= k < RunEnd(cs, start)
      ensures subs[ptr[k]].core == subs[ptr[start]].core
    {
      assert cs[k] == cs[start];
    }
  }

  // The thread of one core: ptr lists the subtasks, and its last entry is the sentinel.
  method CalibrateCore(subs: array<Subtask>, ptr: seq<nat>, start: nat, coreNum: nat, duration: Clock)
    returns (end: nat)
    requires start < |ptr| && Distinct(ptr)
    requires forall i :: 0 <= i < |ptr| ==> ptr[i] < subs.Length
    requires forall i :: 0 <= i < |ptr| - 1 ==>
               subs[ptr[i]].core < coreNum && subs[ptr[i]].exeTime * NSEC_PER_MSEC < 0x1_0000_0000
    requires subs[ptr[|ptr| - 1]].core == coreNum
    modifies subs
    ensures end == (if start == |ptr| - 1 then start else RunEnd(CoresOf(old(subs[..]), ptr), start))
    ensures start <= end < |ptr| && Calibrated(old(subs[..]), subs[..], ptr, start, end, duration)
  {
    hide Calibrated, CalibratedAt, GoodCount, Distinct, Target;
    ghost var before := subs[..];
    ghost var cs := CoresOf(before, ptr);
    var core := subs[ptr[start]].core;
    end := start;
    NothingCalibrated(before, ptr, start, duration);
    if core == coreNum {
      return;
    }
    ghost var stop := RunEnd(cs, start);
    SentinelStops(cs, start);
    RunHasOneCore(before, ptr, start);
    while subs[ptr[end]].core == core
      invariant start <= end <= stop < |ptr| && subs.Length == |before|
      invariant Calibrated(before, subs[..], ptr, start, end, duration)
      decreases stop - end
    {
      ghost var now := subs[..];
      CalibratedKeeps(before, now, ptr, start, end, duration, ptr[end]);
      assert end < stop;
      var _ := SearchLoopCount(subs, ptr[end], duration);
      SearchedIsCalibrated(now, subs[..], ptr[end], duration);
      CalibratedNext(before, now, subs[..], ptr, start, end, duration);
      end := end + 1;
      CalibratedKeeps(before, subs[..], ptr, start, end, duration, ptr[end]);
    }
    CalibratedKeeps(before, subs[..], ptr, start, end, duration, ptr[end]);
  }

  lemma NothingCalibrated(before: seq<Subtask>, order: seq<nat>, start: nat, duration: Clock)
    requires start <= |order| && forall i :: 0 <= i < |order| ==> order[i] < |before|
    ensures Calibrated(before, before, order, start, start, duration)
  {
  }

  lemma SearchedIsCalibrated(now: seq<Subtask>, after: seq<Subtask>, p: nat, duration: Clock)
    requires p < |now| == |after| && after == now[p := now[p].(loopCount := after[p].loopCount)]
    requires GoodCount(duration, p, Target(now[p]), after[p].loopCount)
    ensures CalibratedAt(now, after, p, duration)
  {
  }
}
