// The whole of calibration mode: accumulate, place, prioritise, calibrate.
module Initialisation {
  import opened Words
  import opened Wrappers
  import opened Sequences
  import opened Permutations
  import opened TaskSet
  import opened Deadlines
  import opened Placement
  import opened Priorities
  import opened Prioritising
  import opened Calibration
  import KernelSort

  // ---------- Placing ----------

  lemma UtilIsPreorder(tasks: seq<Task>, subs: seq<Subtask>, n: nat, cmp: (nat, nat) --> int)
    requires UtilReady(tasks, subs, n)
    requires forall a, b :: 0 <= a < n && 0 <= b < n ==>
               cmp.requires(a, b) && cmp(a, b) == ByUtil(tasks, subs, n, a, b)
    ensures KernelSort.TotalPreorder(cmp, n)
  {
    hide UtilReady, ByUtil;
    forall a, b, c | 0 <= a < n && 0 <= b < n && 0 <= c < n
      ensures cmp(a, b) == -cmp(b, a)
      ensures cmp(a, b) <= 0 && cmp(b, c) <= 0 ==> cmp(a, c) <= 0
    {
      UtilPreorder(tasks, subs, n, a, b, c);
    }
  }

  ghost predicate SortedByUtil(tasks: seq<Task>, subs: seq<Subtask>, n: nat, order: seq<nat>)
    requires UtilReady(tasks, subs, n) && KernelSort.Below(order, n)
  {
    forall i, k :: 0 <= i < k < |order| ==> ByUtil(tasks, subs, n, order[i], order[k]) <= 0
  }

  method SortByUtil(tasks: array<Task>, subs: array<Subtask>, ptr: array<nat>, n: nat)
    requires n <= ptr.Length && UtilReady(tasks[..], subs[..], n) && IsPermutation(ptr[..n], n)
    modifies ptr
    ensures IsPermutation(ptr[..n], n) && ptr[n..] == old(ptr[n..])
    ensures KernelSort.Below(ptr[..n], n) && SortedByUtil(tasks[..], subs[..], n, ptr[..n])
  {
    hide UtilReady, ByUtil;
    var ts, ss := tasks[..], subs[..];
    var cmp := (a: nat, b: nat) requires UtilReady(ts, ss, n) && a < n && b < n => ByUtil(ts, ss, n, a, b);
    PermutationFacts(ptr[..n], n);
    UtilIsPreorder(ts, ss, n, cmp);
    KernelSort.Sort(ptr, n, cmp, n);
  }

  // All positions below n can be placed.
  predicate AllPlaceable(tasks: seq<Task>, subs: seq<Subtask>, n: nat) {
    n <= |subs|
    && forall p :: 0 <= p < n ==> subs[p].taskId < |tasks| && tasks[subs[p].taskId].period > 0
  }

  lemma PlaceableAll(tasks: seq<Task>, subs: seq<Subtask>, n: nat, order: seq<nat>)
    requires AllPlaceable(tasks, subs, n) && KernelSort.Below(order, n)
    ensures Placeable(tasks, subs, order)
  {
  }

  function LoadOnCore(tasks: seq<Task>, subs: seq<Subtask>, n: nat, hyperPeriod: nat, c: nat): nat
    requires AllPlaceable(tasks, subs, n)
  {
    LoadOn(tasks, subs, Identity(n), hyperPeriod, Some(c))
  }

  function TotalLoad(tasks: seq<Task>, subs: seq<Subtask>, n: nat, hyperPeriod: nat): nat
    requires AllPlaceable(tasks, subs, n)
  {
    LoadOn(tasks, subs, Identity(n), hyperPeriod, None)
  }

  // Every single load fits a core, and all of them together stay below the rejection threshold.
  predicate Schedulable(tasks: seq<Task>, subs: seq<Subtask>, n: nat, hyperPeriod: nat, cores: nat)
    requires AllPlaceable(tasks, subs, n)
  {
    && (forall p :: 0 <= p < n ==> ScaledLoad(subs[p], tasks[subs[p].taskId], hyperPeriod) <= hyperPeriod)
    && TotalLoad(tasks, subs, n, hyperPeriod) < RejectionThreshold(cores, hyperPeriod)
  }

  predicate DoesNotFit(tasks: seq<Task>, subs: seq<Subtask>, n: nat, hyperPeriod: nat, p: nat, c: nat)
    requires AllPlaceable(tasks, subs, n) && p < n
  {
    LoadOnCore(tasks, subs, n, hyperPeriod, c)
    + ScaledLoad(subs[p], tasks[subs[p].taskId], hyperPeriod) > hyperPeriod
  }

  // What the placement promises: a core for each subtask, no core over the limit and no subtask that
  // would have fitted on a lower core. When the case was flagged core 0 is left out of that: it has
  // received every subtask that fits on no core.
  predicate WellPlaced(tasks: seq<Task>, subs: seq<Subtask>, n: nat, hyperPeriod: nat, cores: nat, invalid: bool)
    requires AllPlaceable(tasks, subs, n)
  {
    && (forall p :: 0 <= p < n ==> subs[p].core < cores)
    && (forall c :: 0 <= c < cores && (invalid ==> c > 0) ==>
          LoadOnCore(tasks, subs, n, hyperPeriod, c) <= hyperPeriod)
    && (forall p, c :: 0 <= p < n && 0 <= c < subs[p].core && (invalid ==> c > 0) ==>
          DoesNotFit(tasks, subs, n, hyperPeriod, p, c))
    && (invalid ==> exists p :: 0 <= p < n && subs[p].core == 0
                                && forall c :: 0 < c < cores ==> DoesNotFit(tasks, subs, n, hyperPeriod, p, c))
  }

  lemma OutcomeIsWellPlaced(tasks: seq<Task>, before: seq<Subtask>, after: seq<Subtask>, n: nat,
                            order: seq<nat>, hyperPeriod: nat, cores: nat)
    requires AllPlaceable(tasks, before, n) && IsPermutation(order, n) && cores > 0
    requires Placeable(tasks, before, order)
    requires CoresWritten(before, after, order,
                          Place(LoadsOf(tasks, before, order, hyperPeriod), cores, hyperPeriod).cores)
    ensures AllPlaceable(tasks, after, n)
    ensures WellPlaced(tasks, after, n, hyperPeriod, cores,
                       Invalid(Place(LoadsOf(tasks, before, order, hyperPeriod), cores, hyperPeriod)))
  {
    hide Place, Invalid, LoadOn, CoreLoad, IsPermutation;
    var loads := LoadsOf(tasks, before, order, hyperPeriod);
    var out := Place(loads, cores, hyperPeriod);
    PermutationFacts(order, n);
    PlacementInBounds(loads, cores, hyperPeriod);
    forall p | 0 <= p < n
      ensures after[p].core < cores && after[p] == before[p].(core := after[p].core)
    {
      var i := PositionOf(order, n, p);
    }
    forall c | 0 <= c < cores && (Invalid(out) ==> c > 0)
      ensures LoadOnCore(tasks, after, n, hyperPeriod, c) == out.agg[c]
    {
      OutcomeLoad(tasks, before, after, n, order, hyperPeriod, cores, c);
    }
    forall p, c | 0 <= p < n && 0 <= c < after[p].core && (Invalid(out) ==> c > 0)
      ensures DoesNotFit(tasks, after, n, hyperPeriod, p, c)
    {
      var i := PositionOf(order, n, p);
      PlacementIsFirstFit(loads, cores, hyperPeriod, i);
    }
    if Invalid(out) {
      var i := SomeRejected(out);
      PlacementIsFirstFit(loads, cores, hyperPeriod, i);
      RejectedOnCoreZero(loads, cores, hyperPeriod, i);
      assert forall c :: 0 < c < cores ==> DoesNotFit(tasks, after, n, hyperPeriod, order[i], c);
    }
  }

  lemma SomeRejected(out: Outcome) returns (i: nat)
    requires Invalid(out)
    ensures i < |out.rejected| && out.rejected[i]
  {
    i :| 0 <= i < |out.rejected| && out.rejected[i];
  }

  lemma OutcomeLoad(tasks: seq<Task>, before: seq<Subtask>, after: seq<Subtask>, n: nat,
                    order: seq<nat>, hyperPeriod: nat, cores: nat, c: nat)
    requires AllPlaceable(tasks, before, n) && AllPlaceable(tasks, after, n) && IsPermutation(order, n) && c < cores
    requires Placeable(tasks, before, order)
    requires CoresWritten(before, after, order,
                          Place(LoadsOf(tasks, before, order, hyperPeriod), cores, hyperPeriod).cores)
    requires c > 0 || !Invalid(Place(LoadsOf(tasks, before, order, hyperPeriod), cores, hyperPeriod))
    ensures LoadOnCore(tasks, after, n, hyperPeriod, c)
            == Place(LoadsOf(tasks, before, order, hyperPeriod), cores, hyperPeriod).agg[c]
  {
    hide Place, Invalid, LoadOn, CoreLoad, ScaledLoad;
    var loads := LoadsOf(tasks, before, order, hyperPeriod);
    var out := Place(loads, cores, hyperPeriod);
    PermutationFacts(order, n);
    if c > 0 {
      OtherCoresConserve(loads, cores, hyperPeriod, c);
    } else {
      PlacementConserves(loads, cores, hyperPeriod, c);
    }
    LoadOnIsCoreLoad(tasks, before, after, order, out.cores, hyperPeriod, c);
    LoadOnIgnoresOrder(tasks, after, order, Identity(n), hyperPeriod, Some(c));
  }

  // The comparator's order makes first fit a first-fit-decreasing placement.
  lemma SchedulableIsPlaced(tasks: seq<Task>, subs: seq<Subtask>, n: nat, order: seq<nat>,
                            hyperPeriod: nat, cores: nat)
    requires UtilReady(tasks, subs, n) && IsPermutation(order, n) && KernelSort.Below(order, n)
    requires SortedByUtil(tasks, subs, n, order) && cores > 0
    requires AllPlaceable(tasks, subs, n) && Placeable(tasks, subs, order)
    requires Schedulable(tasks, subs, n, hyperPeriod, cores)
    ensures !Invalid(Place(LoadsOf(tasks, subs, order, hyperPeriod), cores, hyperPeriod))
  {
    hide Place, Invalid, LoadOn, CompUtil, ScaledLoad, IsPermutation;
    var loads := LoadsOf(tasks, subs, order, hyperPeriod);
    forall i, k | 0 <= i < k < |order|
      ensures loads[i] >= loads[k]
    {
      assert ByUtil(tasks, subs, n, order[i], order[k]) <= 0;
      UtilOrderGivesDecreasingLoads(subs[order[i]], tasks[subs[order[i]].taskId],
                                    subs[order[k]], tasks[subs[order[k]].taskId], hyperPeriod);
    }
    TotalIsSum(tasks, subs, n, order, hyperPeriod);
    FirstFitDecreasing(loads, cores, hyperPeriod);
  }

  lemma TotalIsSum(tasks: seq<Task>, subs: seq<Subtask>, n: nat, order: seq<nat>, hyperPeriod: nat)
    requires AllPlaceable(tasks, subs, n) && IsPermutation(order, n) && Placeable(tasks, subs, order)
    ensures Sum(LoadsOf(tasks, subs, order, hyperPeriod)) == TotalLoad(tasks, subs, n, hyperPeriod)
  {
    hide LoadOn, ScaledLoad;
    var cores := seq(|order|, i requires 0 <= i < |order| => subs[order[i]].core);
    LoadOnIsCoreLoad(tasks, subs, subs, order, cores, hyperPeriod, 0);
    LoadOnIgnoresOrder(tasks, subs, order, Identity(n), hyperPeriod, None);
  }

  // The second loop of the initialisation, after the sort by utilisation.
  method PlaceAll(tasks: array<Task>, subs: array<Subtask>, ptr: array<nat>, n: nat, hyperPeriod: uint32, cores: nat)
    returns (invalid: bool)
    requires n <= ptr.Length && IsPermutation(ptr[..n], n) && 0 < cores < 0x1_0000_0000
    requires UtilReady(tasks[..], subs[..], n) && AllPlaceable(tasks[..], subs[..], n)
    requires forall p :: 0 <= p < n ==> (subs[p].exeTime + 1) * hyperPeriod < 0x1_0000_0000
    modifies subs, ptr
    ensures IsPermutation(ptr[..n], n) && ptr[n..] == old(ptr[n..])
    ensures forall p :: 0 <= p < n ==> subs[p] == old(subs[p]).(core := subs[p].core)
    ensures subs[n..] == old(subs[n..])
    ensures AllPlaceable(tasks[..], subs[..], n)
    ensures WellPlaced(tasks[..], subs[..], n, hyperPeriod, cores, invalid)
    ensures Schedulable(tasks[..], old(subs[..]), n, hyperPeriod, cores) ==> !invalid
  {
    hide UtilReady, SortedByUtil, Place, LoadsOf, Placeable, WellPlaced, Schedulable, Invalid, IsPermutation;
    SortByUtil(tasks, subs, ptr, n);
    ghost var before := subs[..];
    var order := ptr[..n];
    PermutationFacts(order, n);
    PlaceableAll(tasks[..], subs[..], n, order);
    var flag, agg := PlaceSubtasks(tasks, subs, order, hyperPeriod, cores);
    invalid := flag;
    OutcomeIsWellPlaced(tasks[..], before, subs[..], n, order, hyperPeriod, cores);
    if Schedulable(tasks[..], before, n, hyperPeriod, cores) {
      SchedulableIsPlaced(tasks[..], before, n, order, hyperPeriod, cores);
    }
    forall p | 0 <= p < n
      ensures subs[p] == before[p].(core := subs[p].core)
    {
      var i := PositionOf(order, n, p);
    }
  }

  // ---------- Calibrating ----------

  // The table after the threads of the first k cores have done their walks.
  ghost predicate CoresCalibrated(before: seq<Subtask>, now: seq<Subtask>, n: nat, k: nat, duration: Clock)
    requires n <= |before|
  {
    && |now| == |before|
    && (forall p :: 0 <= p < n && before[p].core < k ==> CalibratedAt(before, now, p, duration))
    && (forall p :: 0 <= p < |before| && (p >= n || before[p].core >= k) ==> now[p] == before[p])
  }

  lemma {:induction false} RunEndBeforeSentinel(cs: seq<nat>, sentinel: nat, start: nat)
    requires start < |cs| && cs[start] != sentinel
    ensures RunEnd(cs + [sentinel], start) == RunEnd(cs, start)
    decreases |cs| - start
  {
    if start + 1 < |cs| && cs[start + 1] == cs[start] {
      RunEndBeforeSentinel(cs, sentinel, start + 1);
    }
  }

  // The walk of a core lists exactly that core's subtasks.
  lemma WalkLists(subs: seq<Subtask>, n: nat, ptr: seq<nat>, c: nat, start: nat, end: nat, p: nat)
    requires n < |subs| && |ptr| == n + 1 && ptr[n] == n && IsPermutation(ptr[..n], n) && p < n
    requires forall i :: 0 <= i < |ptr| ==> ptr[i] < |subs|
    requires NonDecreasing(CoresOf(subs, ptr[..n])) && start == FirstOf(CoresOf(subs, ptr[..n]), c)
    requires end == (if start == n then n else RunEnd(CoresOf(subs, ptr[..n]), start))
    ensures p in ptr[start..end] <==> subs[p].core == c
  {
    hide IsPermutation, NonDecreasing, FirstOf;
    PermutationFacts(ptr[..n], n);
    RunLists(subs, n, ptr[..n], c, p);
    SliceInside(ptr, n, start, end);
  }

  // One core's walk calibrates exactly that core's subtasks.
  lemma WalkCalibratesCore(before: seq<Subtask>, now: seq<Subtask>, after: seq<Subtask>, n: nat,
                           ptr: seq<nat>, c: nat, start: nat, end: nat, duration: Clock)
    requires n < |before| && |ptr| == n + 1 && ptr[n] == n && IsPermutation(ptr[..n], n)
    requires forall i :: 0 <= i < |ptr| ==> ptr[i] < |before|
    requires NonDecreasing(CoresOf(before, ptr[..n])) && start == FirstOf(CoresOf(before, ptr[..n]), c)
    requires end == (if start == n then n else RunEnd(CoresOf(before, ptr[..n]), start))
    requires CoresCalibrated(before, now, n, c, duration)
    requires start <= end <= n && Calibrated(now, after, ptr, start, end, duration)
    ensures CoresCalibrated(before, after, n, c + 1, duration)
  {
    hide GoodCount, IsPermutation, Distinct, NonDecreasing, FirstOf, RunEnd, CoresOf;
    PermutationFacts(ptr[..n], n);
    forall p | 0 <= p < n
      ensures p in ptr[start..end] <==> before[p].core == c
    {
      WalkLists(before, n, ptr, c, start, end, p);
    }
    assert n !in ptr[start..end];
  }

  // ---------- From the tables to the calibrated threads ----------

  // No arithmetic on the tables leaves the width it is done in.
  predicate TablesFit(tasks: seq<Task>, subs: seq<Subtask>, n: nat)
    requires Layout(tasks, subs, n)
  {
    && n < 0x1_0000_0000 && SumsFit(tasks, subs, n) && PeriodsFit(tasks, subs, n)
    && (forall p, i :: 0 <= p < n && 0 <= i < |tasks| ==>
          (subs[p].exeTime + 1) * tasks[i].period < 0x1_0000_0000)
    && (forall i :: 0 <= i < |tasks| ==> tasks[i].period < 0x1_0000_0000)
    && (forall p :: 0 <= p < n ==> subs[p].exeTime * NSEC_PER_MSEC < 0x1_0000_0000)
    && (forall p, q :: 0 <= p < n && 0 <= q < n ==> DeadlineProductFits(tasks, subs, n, p, q))
  }

  predicate DeadlineProductFits(tasks: seq<Task>, subs: seq<Subtask>, n: nat, p: nat, q: nat)
    requires Layout(tasks, subs, n) && p < n && q < n
  {
    assert SubtaskFits(tasks, subs, p) && SubtaskFits(tasks, subs, q);
    assert TaskFits(tasks, subs, n, subs[q].taskId);
    FitsInt64(tasks[subs[p].taskId].period * CumulativeTime(tasks, subs, p)
              * TaskTime(tasks, subs, n, subs[q].taskId))
  }

  lemma AccumulatedPlaceable(tasks: seq<Task>, subs: seq<Subtask>, n: nat, after: seq<Task>, subsAfter: seq<Subtask>)
    requires Layout(tasks, subs, n) && AccumulatedUpTo(tasks, subs, n, |tasks|, after, subsAfter)
    ensures AllPlaceable(tasks, subs, n) && AllPlaceable(after, subsAfter, n)
    ensures forall p :: 0 <= p < n ==>
              && subsAfter[p].taskId == subs[p].taskId
              && after[subs[p].taskId].period == tasks[subs[p].taskId].period
              && subsAfter[p].exeTime == subs[p].exeTime && subsAfter[p].core == subs[p].core
  {
    hide CumulativeTime, TaskTime;
    forall p | 0 <= p < n
      ensures subs[p].taskId < |tasks| && tasks[subs[p].taskId].period > 0
    {
      assert SubtaskFits(tasks, subs, p);
      assert TaskFits(tasks, subs, n, subs[p].taskId);
    }
  }

  lemma UtilProductFits(tasks: seq<Task>, subs: seq<Subtask>, n: nat, p: nat, q: nat)
    requires Layout(tasks, subs, n) && TablesFit(tasks, subs, n) && AllPlaceable(tasks, subs, n) && p < n && q < n
    ensures FitsInt64(subs[p].exeTime * tasks[subs[q].taskId].period)
  {
    hide Layout, PeriodsFit, SumsFit, DeadlineProductFits;
    OneLess(subs[p].exeTime, tasks[subs[q].taskId].period);
  }

  lemma OneLess(e: nat, t: nat)
    ensures 0 <= e * t <= (e + 1) * t
  {
  }

  lemma AccumulatedUtilReady(tasks: seq<Task>, subs: seq<Subtask>, n: nat, after: seq<Task>, subsAfter: seq<Subtask>)
    requires Layout(tasks, subs, n) && TablesFit(tasks, subs, n)
    requires AccumulatedUpTo(tasks, subs, n, |tasks|, after, subsAfter)
    ensures UtilReady(after, subsAfter, n)
  {
    hide AccumulatedUpTo, Layout, TablesFit, FitsInt64;
    AccumulatedPlaceable(tasks, subs, n, after, subsAfter);
    forall p, q | 0 <= p < n && 0 <= q < n
      ensures FitsInt64(subsAfter[p].exeTime * after[subsAfter[q].taskId].period)
    {
      UtilProductFits(tasks, subs, n, p, q);
    }
  }

  lemma AccumulatedDeadlineReady(tasks: seq<Task>, subs: seq<Subtask>, n: nat,
                                 after: seq<Task>, subsAfter: seq<Subtask>)
    requires Layout(tasks, subs, n) && TablesFit(tasks, subs, n)
    requires AccumulatedUpTo(tasks, subs, n, |tasks|, after, subsAfter)
    ensures DeadlineReady(after, subsAfter, n)
  {
    hide CumulativeTime, TaskTime;
    AccumulatedPlaceable(tasks, subs, n, after, subsAfter);
    forall p, q | 0 <= p < n && 0 <= q < n
      ensures subsAfter[p].taskId < |after| && DeadlineFits(after[subsAfter[p].taskId], subsAfter[p])
      ensures subsAfter[q].taskId < |after|
      ensures FitsInt64(after[subsAfter[p].taskId].period * subsAfter[p].cumulativeExeTime
                        * after[subsAfter[q].taskId].exeTime)
    {
      DeadlinesAlongTask(tasks, subs, n, after, subsAfter, p, p);
      DeadlinesAlongTask(tasks, subs, n, after, subsAfter, q, q);
      ExactTotals(tasks, subs, n, after, subsAfter, p, q);
      assert DeadlineProductFits(tasks, subs, n, p, q);
    }
  }

  lemma ExactTotals(tasks: seq<Task>, subs: seq<Subtask>, n: nat, after: seq<Task>, subsAfter: seq<Subtask>,
                    p: nat, q: nat)
    requires Layout(tasks, subs, n) && AccumulatedUpTo(tasks, subs, n, |tasks|, after, subsAfter)
    requires p < n && q < n
    ensures SubtaskFits(tasks, subs, p) && SubtaskFits(tasks, subs, q) && TaskFits(tasks, subs, n, subs[q].taskId)
    ensures |subsAfter| == |subs| && |after| == |tasks|
    ensures subsAfter[p].taskId == subs[p].taskId && subsAfter[q].taskId == subs[q].taskId
    ensures after[subs[p].taskId].period == tasks[subs[p].taskId].period
    ensures subsAfter[p].cumulativeExeTime == CumulativeTime(tasks, subs, p)
    ensures after[subs[q].taskId].exeTime == TaskTime(tasks, subs, n, subs[q].taskId)
  {
    hide CumulativeTime, TaskTime, TaskFits;
    assert SubtaskFits(tasks, subs, p) && SubtaskFits(tasks, subs, q);
    assert TaskFits(tasks, subs, n, subs[q].taskId);
  }

  // Two tables that agree on what the placement looks at.
  predicate SameLoads(tasksA: seq<Task>, subsA: seq<Subtask>, tasksB: seq<Task>, subsB: seq<Subtask>, n: nat) {
    && AllPlaceable(tasksA, subsA, n) && AllPlaceable(tasksB, subsB, n)
    && forall p :: 0 <= p < n ==>
         && subsA[p].exeTime == subsB[p].exeTime && subsA[p].core == subsB[p].core
         && tasksA[subsA[p].taskId].period == tasksB[subsB[p].taskId].period
  }

  lemma {:induction false} LoadOnSame(tasksA: seq<Task>, subsA: seq<Subtask>, tasksB: seq<Task>, subsB: seq<Subtask>,
                                      n: nat, order: seq<nat>, hyperPeriod: nat, core: Option<nat>)
    requires SameLoads(tasksA, subsA, tasksB, subsB, n) && KernelSort.Below(order, n)
    ensures Placeable(tasksA, subsA, order) && Placeable(tasksB, subsB, order)
    ensures LoadOn(tasksA, subsA, order, hyperPeriod, core) == LoadOn(tasksB, subsB, order, hyperPeriod, core)
  {
    if order != [] {
      assert Last(order) < n;
      LoadOnSame(tasksA, subsA, tasksB, subsB, n, Front(order), hyperPeriod, core);
    }
  }

  lemma SchedulableSame(tasksA: seq<Task>, subsA: seq<Subtask>, tasksB: seq<Task>, subsB: seq<Subtask>,
                        n: nat, hyperPeriod: nat, cores: nat)
    requires SameLoads(tasksA, subsA, tasksB, subsB, n)
    ensures Schedulable(tasksA, subsA, n, hyperPeriod, cores) ==> Schedulable(tasksB, subsB, n, hyperPeriod, cores)
  {
    hide LoadOn;
    LoadOnSame(tasksA, subsA, tasksB, subsB, n, Identity(n), hyperPeriod, None);
    forall p | 0 <= p < n
      ensures ScaledLoad(subsA[p], tasksA[subsA[p].taskId], hyperPeriod)
              == ScaledLoad(subsB[p], tasksB[subsB[p].taskId], hyperPeriod)
    {
      SameScaledLoad(tasksA, subsA, tasksB, subsB, n, hyperPeriod, p);
    }
  }

  lemma WellPlacedSame(tasksA: seq<Task>, subsA: seq<Subtask>, tasksB: seq<Task>, subsB: seq<Subtask>,
                       n: nat, hyperPeriod: nat, cores: nat, invalid: bool)
    requires SameLoads(tasksA, subsA, tasksB, subsB, n)
    requires WellPlaced(tasksA, subsA, n, hyperPeriod, cores, invalid)
    ensures WellPlaced(tasksB, subsB, n, hyperPeriod, cores, invalid)
  {
    hide LoadOn, ScaledLoad;
    forall c
      ensures LoadOnCore(tasksA, subsA, n, hyperPeriod, c) == LoadOnCore(tasksB, subsB, n, hyperPeriod, c)
    {
      LoadOnSame(tasksA, subsA, tasksB, subsB, n, Identity(n), hyperPeriod, Some(c));
    }
    forall p, c | 0 <= p < n
      ensures DoesNotFit(tasksA, subsA, n, hyperPeriod, p, c) <==> DoesNotFit(tasksB, subsB, n, hyperPeriod, p, c)
    {
      SameScaledLoad(tasksA, subsA, tasksB, subsB, n, hyperPeriod, p);
    }
  }

  lemma SameScaledLoad(tasksA: seq<Task>, subsA: seq<Subtask>, tasksB: seq<Task>, subsB: seq<Subtask>,
                       n: nat, hyperPeriod: nat, p: nat)
    requires SameLoads(tasksA, subsA, tasksB, subsB, n) && p < n
    ensures ScaledLoad(subsA[p], tasksA[subsA[p].taskId], hyperPeriod)
            == ScaledLoad(subsB[p], tasksB[subsB[p].taskId], hyperPeriod)
  {
  }

  // The calibration threads, one core after the other: their walks touch disjoint subtasks.
  method CalibrateAll(subs: array<Subtask>, ptr: seq<nat>, n: nat, startAddr: array<Option<nat>>, duration: Clock)
    requires |ptr| == n + 1 == subs.Length && ptr[n] == n && IsPermutation(ptr[..n], n)
    requires KernelSort.Below(ptr[..n], n) && NonDecreasing(CoresOf(subs[..], ptr[..n]))
    requires forall c :: 0 <= c < startAddr.Length ==> startAddr[c] == Some(FirstOf(CoresOf(subs[..], ptr[..n]), c))
    requires forall p :: 0 <= p < n ==>
               subs[p].core < startAddr.Length && subs[p].exeTime * NSEC_PER_MSEC < 0x1_0000_0000
    requires subs[n].core == startAddr.Length
    modifies subs
    ensures CoresCalibrated(old(subs[..]), subs[..], n, startAddr.Length, duration)
  {
    hide GoodCount, IsPermutation, NonDecreasing, FirstOf, CoresCalibrated, Calibrated;
    ghost var before := subs[..];
    ghost var order := ptr[..n];
    PermutationFacts(order, n);
    NoCoreCalibrated(before, n, duration);
    for c := 0 to startAddr.Length
      invariant CoresCalibrated(before, subs[..], n, c, duration)
    {
      ghost var now := subs[..];
      var start := startAddr[c].value;
      CalibratedCores(before, now, n, c, duration);
      WalkStaysOnCore(before, now, ptr, n, start);
      var end := CalibrateCore(subs, ptr, start, startAddr.Length, duration);
      WalkCalibratesCore(before, now, subs[..], n, ptr, c, start, end, duration);
    }
  }

  lemma NoCoreCalibrated(before: seq<Subtask>, n: nat, duration: Clock)
    requires n <= |before|
    ensures CoresCalibrated(before, before, n, 0, duration)
  {
  }

  lemma CalibratedCores(before: seq<Subtask>, now: seq<Subtask>, n: nat, c: nat, duration: Clock)
    requires n <= |before| && CoresCalibrated(before, now, n, c, duration)
    ensures |now| == |before|
    ensures forall p :: 0 <= p < |before| ==> now[p] == before[p].(loopCount := now[p].loopCount)
  {
    hide GoodCount;
  }

  lemma WalkStaysOnCore(before: seq<Subtask>, now: seq<Subtask>, ptr: seq<nat>, n: nat, start: nat)
    requires |ptr| == n + 1 == |before| == |now| && ptr[n] == n && start <= n
    requires Distinct(ptr[..n]) && forall i :: 0 <= i < n ==> ptr[i] < n && before[ptr[i]].core < before[n].core
    requires forall p :: 0 <= p < |before| ==> now[p] == before[p].(loopCount := now[p].loopCount)
    ensures Distinct(ptr)
    ensures start < n ==> RunEnd(CoresOf(now, ptr), start) == RunEnd(CoresOf(before, ptr[..n]), start)
  {
    forall i, k | 0 <= i < k < |ptr|
      ensures ptr[i] != ptr[k]
    {
      assert k < n ==> ptr[..n][i] != ptr[..n][k];
    }
    var cs := CoresOf(before, ptr[..n]);
    assert CoresOf(now, ptr) == cs + [before[n].core];
    if start < n {
      RunEndBeforeSentinel(cs, before[n].core, start);
    }
  }

  lemma FitsFacts(tasks: seq<Task>, subs: seq<Subtask>, n: nat)
    requires Layout(tasks, subs, n) && TablesFit(tasks, subs, n)
    ensures n < 0x1_0000_0000 && SumsFit(tasks, subs, n)
    ensures forall p :: 0 <= p < n ==> subs[p].exeTime * NSEC_PER_MSEC < 0x1_0000_0000
  {
  }

  lemma LoadsFit(tasks: seq<Task>, subs: seq<Subtask>, n: nat, hyperPeriod: nat)
    requires Layout(tasks, subs, n) && TablesFit(tasks, subs, n) && IsMaxPeriod(tasks, hyperPeriod)
    ensures hyperPeriod < 0x1_0000_0000
    ensures forall p :: 0 <= p < n ==> (subs[p].exeTime + 1) * hyperPeriod < 0x1_0000_0000
  {
    hide Layout;
  }

  lemma SentinelIsApart(tasks: seq<Task>, subs: seq<Subtask>, after: seq<Subtask>, n: nat)
    requires n < |subs| == |after| && forall p :: 0 <= p < n ==> after[p] == subs[p]
    ensures UtilReady(tasks, subs, n) ==> UtilReady(tasks, after, n)
    ensures AllPlaceable(tasks, subs, n) ==> AllPlaceable(tasks, after, n)
  {
  }

  lemma CalibratedTable(before: seq<Subtask>, after: seq<Subtask>, n: nat, cores: nat, duration: Clock)
    requires n <= |before| && CoresCalibrated(before, after, n, cores, duration)
    requires forall p :: 0 <= p < n ==> before[p].core < cores
    ensures |after| == |before|
    ensures forall p :: 0 <= p < n ==>
              && after[p] == before[p].(loopCount := after[p].loopCount)
              && GoodCount(duration, p, Target(before[p]), after[p].loopCount)
  {
    hide GoodCount;
  }

  lemma WellPlacedCores(tasks: seq<Task>, subs: seq<Subtask>, n: nat, hyperPeriod: nat, cores: nat, invalid: bool)
    requires AllPlaceable(tasks, subs, n) && WellPlaced(tasks, subs, n, hyperPeriod, cores, invalid)
    ensures forall p :: 0 <= p < n ==> subs[p].core < cores
  {
  }

  // The computed fields aside, the tables are as they were; the sums are the prefix sums.
  predicate TablesKept(tasks: seq<Task>, subs: seq<Subtask>, n: nat, after: seq<Task>, subsAfter: seq<Subtask>)
    requires Layout(tasks, subs, n)
  {
    && |after| == |tasks| && |subsAfter| == |subs|
    && (forall i :: 0 <= i < |tasks| ==> after[i] == WithTotal(tasks[i], TaskTime(tasks, subs, n, i)))
    && (forall p :: 0 <= p < n ==>
          assert SubtaskFits(tasks, subs, p);
          var s := subsAfter[p];
          s == subs[p].(cumulativeExeTime := CumulativeTime(tasks, subs, p),
                        core := s.core, priority := s.priority, loopCount := s.loopCount))
  }

  lemma TablesAreKept(tasks: seq<Task>, subs: seq<Subtask>, n: nat, after: seq<Task>,
                      subsMid: seq<Subtask>, subsAfter: seq<Subtask>)
    requires Layout(tasks, subs, n) && AccumulatedUpTo(tasks, subs, n, |tasks|, after, subsMid)
    requires |subsAfter| == |subs|
    requires forall p :: 0 <= p < n ==>
               var s := subsAfter[p];
               s == subsMid[p].(core := s.core, priority := s.priority, loopCount := s.loopCount)
    ensures TablesKept(tasks, subs, n, after, subsAfter)
  {
    hide CumulativeTime, TaskTime, WithTotal;
    forall p | 0 <= p < n
      ensures SubtaskFits(tasks, subs, p)
      ensures subsMid[p] == subs[p].(cumulativeExeTime := CumulativeTime(tasks, subs, p))
    {
      assert SubtaskFits(tasks, subs, p);
    }
  }

  lemma SumsSame(tasks: seq<Task>, subsA: seq<Subtask>, subsB: seq<Subtask>, n: nat)
    requires SumsAlongTasks(tasks, subsA, n) && |subsA| == |subsB|
    requires forall p :: 0 <= p < n ==>
               var s := subsB[p];
               s == subsA[p].(core := s.core, priority := s.priority, loopCount := s.loopCount)
    ensures SumsAlongTasks(tasks, subsB, n)
  {
    forall p | 0 <= p < n
      ensures AddsUp(tasks, subsB, p)
    {
      assert AddsUp(tasks, subsA, p);
    }
  }

  // From the placed subtasks to the calibrated ones.
  method PrioritiseAndCalibrate(tasks: array<Task>, subs: array<Subtask>, ptr: array<nat>, n: nat,
                                cores: nat, duration: Clock)
    requires ptr.Length == subs.Length == n + 1 && IsPermutation(ptr[..n], n) && ptr[n] == n && n < 0x1_0000_0000
    requires DeadlineReady(tasks[..], subs[..], n) && subs[n].core == cores
    requires forall p :: 0 <= p < n ==> subs[p].core < cores && subs[p].exeTime * NSEC_PER_MSEC < 0x1_0000_0000
    modifies subs, ptr
    ensures Prioritised(tasks[..], subs[..], n, ptr[..n]) && DeadlineReady(tasks[..], subs[..], n)
    ensures WellPrioritised(tasks[..], subs[..], n) && OrderedWhereSmall(tasks[..], subs[..], n)
    ensures forall p :: 0 <= p < n ==>
              && subs[p] == old(subs[p]).(priority := subs[p].priority, loopCount := subs[p].loopCount)
              && GoodCount(duration, p, Target(old(subs[p])), subs[p].loopCount)
  {
    hide DeadlineReady, WellPrioritised, OrderedWhereSmall, Prioritised,
         GoodCount, IsPermutation, NonDecreasing, FirstOf;
    assert ptr[n..][0] == n && subs[n..][0].core == cores;
    var startAddr := PrioritiseAll(tasks, subs, ptr, n, cores);
    assert ptr[n..][0] == n && subs[n..][0].core == cores;
    ghost var before := subs[..];
    CalibrateAll(subs, ptr[..], n, startAddr, duration);
    CalibratedTable(before, subs[..], n, cores, duration);
    DeadlineReadySame(tasks[..], before, subs[..], n);
    PrioritisedSame(tasks[..], before, subs[..], n, ptr[..n]);
    PrioritiesMean(tasks[..], subs[..], n, ptr[..n]);
  }

  // Calibration mode from the static tables to the calibrated subtasks. The last slot of subs is
  // the sentinel behind the pointer array, which is handed back as the second sort leaves it.
  method InitCalibrate(tasks: array<Task>, subs: array<Subtask>, cores: nat, duration: Clock)
    returns (hyperPeriod: nat, invalid: bool, ptr: array<nat>)
    requires subs.Length > 0 && 0 < cores < 0x1_0000_0000
    requires Layout(tasks[..], subs[..], subs.Length - 1) && TablesFit(tasks[..], subs[..], subs.Length - 1)
    modifies tasks, subs
    ensures IsMaxPeriod(old(tasks[..]), hyperPeriod)
    ensures var n := subs.Length - 1;
            && AllPlaceable(tasks[..], subs[..], n)
            && WellPlaced(tasks[..], subs[..], n, hyperPeriod, cores, invalid)
            && ptr.Length == n + 1 && Prioritised(tasks[..], subs[..], n, ptr[..n])
            && DeadlineReady(tasks[..], subs[..], n)
            && WellPrioritised(tasks[..], subs[..], n) && OrderedWhereSmall(tasks[..], subs[..], n)
            && AllPlaceable(old(tasks[..]), old(subs[..]), n)
            && (Schedulable(old(tasks[..]), old(subs[..]), n, hyperPeriod, cores) ==> !invalid)
    ensures TablesKept(old(tasks[..]), old(subs[..]), subs.Length - 1, tasks[..], subs[..])
    ensures SumsAlongTasks(tasks[..], subs[..], subs.Length - 1)
    ensures forall p :: 0 <= p < subs.Length - 1 ==>
              GoodCount(duration, p, Target(old(subs[p])), subs[p].loopCount)
  {
    hide TablesKept, SumsAlongTasks, Layout, TablesFit, AccumulatedUpTo, UtilReady, DeadlineReady, WellPlaced,
         WellPrioritised, OrderedWhereSmall, Prioritised, Schedulable, GoodCount, IsPermutation,
         NonDecreasing, FirstOf;
    ghost var tasks0, subs0 := tasks[..], subs[..];
    var n := subs.Length - 1;
    FitsFacts(tasks0, subs0, n);
    hyperPeriod := Accumulate(tasks, subs, n);
    ghost var tasks1, subs1 := tasks[..], subs[..];
    AccumulatedPlaceable(tasks0, subs0, n, tasks1, subs1);
    AccumulatedUtilReady(tasks0, subs0, n, tasks1, subs1);
    AccumulatedDeadlineReady(tasks0, subs0, n, tasks1, subs1);
    LoadsFit(tasks0, subs0, n, hyperPeriod);

    ptr := new nat[n + 1](i => i);
    subs[n] := subs[n].(core := cores);
    ghost var subs2 := subs[..];
    SentinelIsApart(tasks1, subs1, subs2, n);
    IdentityIsPermutation(ptr[..n], n);
    invalid := PlaceAll(tasks, subs, ptr, n, hyperPeriod, cores);
    ghost var subs3 := subs[..];
    SchedulableSame(tasks0, subs0, tasks1, subs2, n, hyperPeriod, cores);
    DeadlineReadySame(tasks1, subs1, subs3, n);
    WellPlacedCores(tasks1, subs3, n, hyperPeriod, cores, invalid);

    PrioritiseAndCalibrate(tasks, subs, ptr, n, cores, duration);
    WellPlacedSame(tasks1, subs3, tasks1, subs[..], n, hyperPeriod, cores, invalid);
    TablesAreKept(tasks0, subs0, n, tasks1, subs1, subs[..]);
    SumsSame(tasks1, subs1, subs[..], n);
  }
}
